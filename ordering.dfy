/**
 * The orders `main` sorts its three lists by (py_check_imports.py, lines
 * 126-128) and the sort itself.
 *
 * Python compares strings code point by code point and lists and tuples
 * element by element, a proper prefix coming first. A record's sort key is
 * a pair (code points of the file name, numbers), the numbers being
 * `[line]` for an unused record, `lines` for a duplicate record and `[]`
 * for an error record; on each list `main` sorts this orders exactly as
 * the `key=` lambda there does (see `UnusedKeyOrder`, `DuplicateKeyOrder`,
 * `ErrorKeyOrder`). `sorted` is stable, and so is `SortByKey`.
 */
module Ordering {
  import opened Analyzer

  /** The code points of a string, the units Python compares strings by. */
  function Codes(s: string): (r: seq<int>)
    ensures |r| == |s|
    ensures forall i :: 0 <= i < |s| ==> r[i] == s[i] as int
  {
    seq(|s|, i requires 0 <= i < |s| => s[i] as int)
  }

  lemma CodesInjective(a: string, b: string)
    requires Codes(a) == Codes(b)
    ensures a == b
  {
    assert forall i :: 0 <= i < |a| ==> a[i] as int == Codes(a)[i] == Codes(b)[i] == b[i] as int;
  }

  /** Python's `<=` on lists of numbers (and, through `Codes`, on strings). */
  predicate LexLe(a: seq<int>, b: seq<int>)
    decreases |a|
  {
    a == [] || (b != [] && (a[0] < b[0] || (a[0] == b[0] && LexLe(a[1..], b[1..]))))
  }

  lemma {:induction false} LexLeRefl(a: seq<int>)
    ensures LexLe(a, a)
    decreases |a|
  {
    if a != [] {
      LexLeRefl(a[1..]);
    }
  }

  lemma {:induction false} LexLeTotal(a: seq<int>, b: seq<int>)
    ensures LexLe(a, b) || LexLe(b, a)
    decreases |a|
  {
    if a != [] && b != [] && a[0] == b[0] {
      LexLeTotal(a[1..], b[1..]);
    }
  }

  lemma {:induction false} LexLeAntisym(a: seq<int>, b: seq<int>)
    requires LexLe(a, b) && LexLe(b, a)
    ensures a == b
    decreases |a|
  {
    if a != [] {
      LexLeAntisym(a[1..], b[1..]);
      assert a == [a[0]] + a[1..];
      assert b == [b[0]] + b[1..];
    }
  }

  lemma {:induction false} LexLeTrans(a: seq<int>, b: seq<int>, c: seq<int>)
    requires LexLe(a, b) && LexLe(b, c)
    ensures LexLe(a, c)
    decreases |a|
  {
    if a != [] && a[0] == b[0] && b[0] == c[0] {
      LexLeTrans(a[1..], b[1..], c[1..]);
    }
  }

  /** The sort key of a record: file name, then the record's line numbers. */
  function KeyOf(r: Record): (seq<int>, seq<int>) {
    match r
    case ErrorRecord(file, _) => (Codes(file), [])
    case UnusedRecord(file, line, _) => (Codes(file), [line])
    case DuplicateRecord(file, lines, _) => (Codes(file), lines)
  }

  /** Python's `<=` on the pair: the first components decide unless they are equal. */
  predicate KeyLe(a: (seq<int>, seq<int>), b: (seq<int>, seq<int>)) {
    (a.0 != b.0 && LexLe(a.0, b.0)) || (a.0 == b.0 && LexLe(a.1, b.1))
  }

  lemma KeyLeRefl(a: (seq<int>, seq<int>))
    ensures KeyLe(a, a)
  {
    LexLeRefl(a.1);
  }

  lemma KeyLeTotal(a: (seq<int>, seq<int>), b: (seq<int>, seq<int>))
    ensures KeyLe(a, b) || KeyLe(b, a)
  {
    LexLeTotal(a.0, b.0);
    LexLeTotal(a.1, b.1);
  }

  lemma KeyLeAntisym(a: (seq<int>, seq<int>), b: (seq<int>, seq<int>))
    requires KeyLe(a, b) && KeyLe(b, a)
    ensures a == b
  {
    if a.0 != b.0 {
      LexLeAntisym(a.0, b.0);
    } else {
      LexLeAntisym(a.1, b.1);
    }
  }

  lemma KeyLeTrans(a: (seq<int>, seq<int>), b: (seq<int>, seq<int>), c: (seq<int>, seq<int>))
    requires KeyLe(a, b) && KeyLe(b, c)
    ensures KeyLe(a, c)
  {
    if a.0 == b.0 && b.0 == c.0 {
      LexLeTrans(a.1, b.1, c.1);
    } else if a.0 == b.0 || b.0 == c.0 {
    } else {
      LexLeTrans(a.0, b.0, c.0);
      if a.0 == c.0 {
        LexLeAntisym(a.0, b.0);
      }
    }
  }

  /** Line 126: on unused records the key orders by file name, then by line. */
  lemma UnusedKeyOrder(r1: Record, r2: Record)
    requires r1.UnusedRecord? && r2.UnusedRecord?
    ensures KeyLe(KeyOf(r1), KeyOf(r2)) <==>
              (r1.file != r2.file && LexLe(Codes(r1.file), Codes(r2.file)))
              || (r1.file == r2.file && r1.line <= r2.line)
  {
    if Codes(r1.file) == Codes(r2.file) {
      CodesInjective(r1.file, r2.file);
    }
    LexLeSingle(r1.line, r2.line);
  }

  lemma LexLeSingle(a: int, b: int)
    ensures LexLe([a], [b]) <==> a <= b
  {
    assert [a][1..] == [] && [b][1..] == [];
  }

  /** Line 127: on duplicate records the key orders by file name, then by the line list. */
  lemma DuplicateKeyOrder(r1: Record, r2: Record)
    requires r1.DuplicateRecord? && r2.DuplicateRecord?
    ensures KeyLe(KeyOf(r1), KeyOf(r2)) <==>
              (r1.file != r2.file && LexLe(Codes(r1.file), Codes(r2.file)))
              || (r1.file == r2.file && LexLe(r1.lines, r2.lines))
  {
    if Codes(r1.file) == Codes(r2.file) {
      CodesInjective(r1.file, r2.file);
    }
  }

  /** Line 128: on error records only the file name counts. */
  lemma ErrorKeyOrder(r1: Record, r2: Record)
    requires r1.ErrorRecord? && r2.ErrorRecord?
    ensures KeyLe(KeyOf(r1), KeyOf(r2)) <==> LexLe(Codes(r1.file), Codes(r2.file))
  {
    LexLeRefl(Codes(r1.file));
    if Codes(r1.file) == Codes(r2.file) {
      CodesInjective(r1.file, r2.file);
    }
  }

  predicate Sorted(s: seq<Record>) {
    forall i, j :: 0 <= i < j < |s| ==> KeyLe(KeyOf(s[i]), KeyOf(s[j]))
  }

  /** The records of `s` whose key is `k`, in the order `s` holds them. */
  function WithKey(s: seq<Record>, k: (seq<int>, seq<int>)): seq<Record> {
    if s == [] then []
    else (if KeyOf(s[0]) == k then [s[0]] else []) + WithKey(s[1..], k)
  }

  /** Places `x` before the first record whose key is not below its own. */
  function Insert(x: Record, t: seq<Record>): seq<Record> {
    if t == [] || KeyLe(KeyOf(x), KeyOf(t[0])) then [x] + t
    else [t[0]] + Insert(x, t[1..])
  }

  /** `sorted(s, key=...)`, as a stable insertion sort. */
  function SortByKey(s: seq<Record>): seq<Record> {
    if s == [] then [] else Insert(s[0], SortByKey(s[1..]))
  }

  lemma {:induction false} InsertPerm(x: Record, t: seq<Record>)
    ensures multiset(Insert(x, t)) == multiset{x} + multiset(t)
  {
    if t != [] && !KeyLe(KeyOf(x), KeyOf(t[0])) {
      InsertPerm(x, t[1..]);
      assert t == [t[0]] + t[1..];
    }
  }

  lemma {:induction false} InsertSorted(x: Record, t: seq<Record>)
    requires Sorted(t)
    ensures Sorted(Insert(x, t))
  {
    if t == [] {
    } else if KeyLe(KeyOf(x), KeyOf(t[0])) {
      forall j | 0 <= j < |t| ensures KeyLe(KeyOf(x), KeyOf(t[j])) {
        if j > 0 {
          KeyLeTrans(KeyOf(x), KeyOf(t[0]), KeyOf(t[j]));
        }
      }
      SortedCons(x, t);
    } else {
      var rest := Insert(x, t[1..]);
      InsertSorted(x, t[1..]);
      InsertPerm(x, t[1..]);
      KeyLeTotal(KeyOf(x), KeyOf(t[0]));
      forall j | 0 <= j < |rest| ensures KeyLe(KeyOf(t[0]), KeyOf(rest[j])) {
        assert rest[j] in multiset(rest);
        if rest[j] != x {
          var k :| 1 <= k < |t| && t[k] == rest[j];
        }
      }
      SortedCons(t[0], rest);
    }
  }

  /** A record no greater than any record of a sorted list may precede it. */
  lemma SortedCons(x: Record, t: seq<Record>)
    requires Sorted(t)
    requires forall j :: 0 <= j < |t| ==> KeyLe(KeyOf(x), KeyOf(t[j]))
    ensures Sorted([x] + t)
  {
    var r := [x] + t;
    forall i, j | 0 <= i < j < |r| ensures KeyLe(KeyOf(r[i]), KeyOf(r[j])) {
      assert r[j] == t[j - 1];
      if i > 0 {
        assert r[i] == t[i - 1];
      }
    }
  }

  /** Inserting adds `x` in front of the records that share its key. */
  lemma {:induction false} InsertWithKey(x: Record, t: seq<Record>, k: (seq<int>, seq<int>))
    ensures WithKey(Insert(x, t), k) == (if KeyOf(x) == k then [x] else []) + WithKey(t, k)
  {
    if t == [] || KeyLe(KeyOf(x), KeyOf(t[0])) {
      assert ([x] + t)[1..] == t;
    } else {
      InsertWithKey(x, t[1..], k);
      assert ([t[0]] + Insert(x, t[1..]))[1..] == Insert(x, t[1..]);
      if KeyOf(x) == k {
        KeyLeRefl(k);
      }
    }
  }

  /** The sort's result is ordered by key. */
  lemma {:induction false} SortByKeySorted(s: seq<Record>)
    ensures Sorted(SortByKey(s))
  {
    if s != [] {
      SortByKeySorted(s[1..]);
      InsertSorted(s[0], SortByKey(s[1..]));
    }
  }

  /** The sort's result is a permutation of its input. */
  lemma {:induction false} SortByKeyPerm(s: seq<Record>)
    ensures multiset(SortByKey(s)) == multiset(s)
  {
    if s != [] {
      SortByKeyPerm(s[1..]);
      InsertPerm(s[0], SortByKey(s[1..]));
      assert s == [s[0]] + s[1..];
    }
  }

  /** The sort is stable: records with equal keys keep their input order. */
  lemma {:induction false} SortByKeyStable(s: seq<Record>, k: (seq<int>, seq<int>))
    ensures WithKey(SortByKey(s), k) == WithKey(s, k)
  {
    if s != [] {
      SortByKeyStable(s[1..], k);
      InsertWithKey(s[0], SortByKey(s[1..]), k);
    }
  }

  /**
   * Sorted and stable determine the result: any ordering of the input with
   * both properties is the one `SortByKey` gives.
   */
  lemma {:induction false} SortedStableUnique(r: seq<Record>, s: seq<Record>)
    requires Sorted(r) && Sorted(s)
    requires forall k :: WithKey(r, k) == WithKey(s, k)
    ensures r == s
    decreases |r| + |s|
  {
    if r != [] && s != [] {
      var k0, k1 := KeyOf(r[0]), KeyOf(s[0]);
      WithKeyHead(r);
      WithKeyHead(s);
      if k0 != k1 {
        assert r[0] in WithKey(s, k0);
        WithKeyMember(s, k0, r[0]);
        var j :| 0 <= j < |s| && s[j] == r[0];
        assert s[0] in WithKey(r, k1);
        WithKeyMember(r, k1, s[0]);
        var i :| 0 <= i < |r| && r[i] == s[0];
        assert KeyLe(k1, k0) && KeyLe(k0, k1);
        KeyLeAntisym(k0, k1);
      }
      assert r[0] == WithKey(r, k0)[0] == WithKey(s, k0)[0] == s[0];
      forall k ensures WithKey(r[1..], k) == WithKey(s[1..], k) {
        WithKeyTail(r, k);
        WithKeyTail(s, k);
      }
      SortedStableUnique(r[1..], s[1..]);
      assert r == [r[0]] + r[1..] && s == [s[0]] + s[1..];
    } else if r != [] {
      WithKeyHead(r);
      assert false;
    } else if s != [] {
      WithKeyHead(s);
      assert false;
    }
  }

  /** Dropping the first record drops it from its key's records and nowhere else. */
  lemma WithKeyTail(s: seq<Record>, k: (seq<int>, seq<int>))
    requires s != []
    ensures KeyOf(s[0]) == k ==> WithKey(s[1..], k) == WithKey(s, k)[1..]
    ensures KeyOf(s[0]) != k ==> WithKey(s[1..], k) == WithKey(s, k)
  {
    var rest := WithKey(s[1..], k);
    if KeyOf(s[0]) == k {
      assert ([s[0]] + rest)[1..] == rest;
    } else {
      assert [] + rest == rest;
    }
  }

  /** The first record is the first of its key. */
  lemma WithKeyHead(s: seq<Record>)
    requires s != []
    ensures WithKey(s, KeyOf(s[0])) != [] && WithKey(s, KeyOf(s[0]))[0] == s[0]
  {
  }

  lemma {:induction false} WithKeyMember(s: seq<Record>, k: (seq<int>, seq<int>), x: Record)
    ensures x in WithKey(s, k) <==> x in s && KeyOf(x) == k
  {
    if s != [] {
      WithKeyMember(s[1..], k, x);
      assert s == [s[0]] + s[1..];
    }
  }
}
