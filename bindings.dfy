/**
 * The bindings an import-node sequence produces, one per alias and in
 * walk order, and the three accumulators the analyzer builds from them
 * (py_check_imports.py, lines 23-46), each stated as a function of the
 * bindings seen so far.
 */
module Bindings {
  import opened Canonical

  /** What one alias contributes: the bound name, the node's line, the canonical text. */
  datatype Binding = Binding(name: string, line: nat, stmt: string)

  function BindingOf(node: ImportNode, a: Alias): Binding {
    Binding(BoundName(node, a), node.line, StatementText(node, a))
  }

  /** One binding per alias of the node, in the order of its `names` list. */
  function NodeBindings(node: ImportNode): seq<Binding> {
    seq(|node.names|, i requires 0 <= i < |node.names| => BindingOf(node, node.names[i]))
  }

  /** The bindings of a node sequence, in the order `ast.walk` yields the nodes. */
  function WalkBindings(nodes: seq<ImportNode>): seq<Binding> {
    if nodes == [] then []
    else WalkBindings(nodes[..|nodes| - 1]) + NodeBindings(nodes[|nodes| - 1])
  }

  /** The set `imports`: every name some import bound. */
  function NameSet(bs: seq<Binding>): set<string> {
    set b | b in bs :: b.name
  }

  /** The dict `import_aliases`: each write replaces the name's previous entry. */
  function LastWrite(bs: seq<Binding>): map<string, (nat, string)> {
    if bs == [] then map[]
    else
      var b := bs[|bs| - 1];
      LastWrite(bs[..|bs| - 1])[b.name := (b.line, b.stmt)]
  }

  /** The keys of `import_statements` in insertion order (Python dicts keep it). */
  function GroupOrder(bs: seq<Binding>): seq<string> {
    if bs == [] then []
    else
      var prev := GroupOrder(bs[..|bs| - 1]);
      var b := bs[|bs| - 1];
      if b.stmt in prev then prev else prev + [b.stmt]
  }

  /** The values of `import_statements`: `append` of the line to the text's list. */
  function GroupLines(bs: seq<Binding>): map<string, seq<nat>> {
    if bs == [] then map[]
    else
      var prev := GroupLines(bs[..|bs| - 1]);
      var b := bs[|bs| - 1];
      prev[b.stmt := (if b.stmt in prev then prev[b.stmt] else []) + [b.line]]
  }

  /** Reference definition: the lines of the bindings whose text is `t`, first to last. */
  function LinesWithText(bs: seq<Binding>, t: string): seq<nat> {
    if bs == [] then []
    else (if bs[0].stmt == t then [bs[0].line] else []) + LinesWithText(bs[1..], t)
  }

  lemma WalkBindingsSnoc(nodes: seq<ImportNode>, i: nat)
    requires i < |nodes|
    ensures WalkBindings(nodes[..i + 1]) == WalkBindings(nodes[..i]) + NodeBindings(nodes[i])
  {
    assert nodes[..i + 1][..i] == nodes[..i];
  }

  /** The bindings up to alias `j + 1` of a node extend those up to `j` by one. */
  lemma NextBinding(node: ImportNode, done: seq<Binding>, j: nat)
    requires j < |node.names|
    ensures done + NodeBindings(node)[..j + 1]
         == (done + NodeBindings(node)[..j]) + [BindingOf(node, node.names[j])]
  {
    var here := NodeBindings(node);
    assert here[..j + 1] == here[..j] + [here[j]];
    ConcatAssoc(done, here[..j], [here[j]]);
  }

  lemma ConcatAssoc<T>(a: seq<T>, b: seq<T>, c: seq<T>)
    ensures a + (b + c) == (a + b) + c
  {
  }

  lemma NameSetSnoc(bs: seq<Binding>, b: Binding)
    ensures NameSet(bs + [b]) == NameSet(bs) + {b.name}
  {
    assert forall x :: x in bs + [b] <==> x in bs || x == b;
  }

  lemma LastWriteSnoc(bs: seq<Binding>, b: Binding)
    ensures LastWrite(bs + [b]) == LastWrite(bs)[b.name := (b.line, b.stmt)]
  {
    assert (bs + [b])[..|bs|] == bs;
  }

  lemma GroupsSnoc(bs: seq<Binding>, b: Binding)
    ensures GroupOrder(bs + [b]) ==
              if b.stmt in GroupOrder(bs) then GroupOrder(bs) else GroupOrder(bs) + [b.stmt]
    ensures GroupLines(bs + [b]) ==
              var prev := GroupLines(bs);
              prev[b.stmt := (if b.stmt in prev then prev[b.stmt] else []) + [b.line]]
  {
    assert (bs + [b])[..|bs|] == bs;
  }

  /** The set of bound names and the keys of the last-write map agree. */
  lemma {:induction false} LastWriteKeys(bs: seq<Binding>)
    ensures LastWrite(bs).Keys == NameSet(bs)
  {
    if bs != [] {
      var init := bs[..|bs| - 1];
      LastWriteKeys(init);
      assert bs == init + [bs[|bs| - 1]];
      NameSetSnoc(init, bs[|bs| - 1]);
    }
  }

  /**
   * Last write wins: the binding with no later binding of the same name is
   * the one the map holds for that name.
   */
  lemma {:induction false} LastWriteWins(bs: seq<Binding>, i: nat)
    requires i < |bs|
    requires forall j :: i < j < |bs| ==> bs[j].name != bs[i].name
    ensures bs[i].name in LastWrite(bs)
    ensures LastWrite(bs)[bs[i].name] == (bs[i].line, bs[i].stmt)
  {
    if i < |bs| - 1 {
      var init := bs[..|bs| - 1];
      LastWriteWins(init, i);
    }
  }

  /** An earlier binding is overwritten by any later binding of the same name. */
  lemma {:induction false} LastWriteOverwrites(bs: seq<Binding>, i: nat)
    requires i < |bs|
    ensures bs[i].name in LastWrite(bs)
    ensures exists j :: i <= j < |bs| && bs[j].name == bs[i].name
                     && LastWrite(bs)[bs[i].name] == (bs[j].line, bs[j].stmt)
                     && forall k :: j < k < |bs| ==> bs[k].name != bs[i].name
    decreases |bs| - i
  {
    if forall k :: i < k < |bs| ==> bs[k].name != bs[i].name {
      LastWriteWins(bs, i);
    } else {
      var k :| i < k < |bs| && bs[k].name == bs[i].name;
      LastWriteOverwrites(bs, k);
    }
  }

  lemma {:induction false} LinesWithTextSnoc(bs: seq<Binding>, b: Binding, t: string)
    ensures LinesWithText(bs + [b], t) == LinesWithText(bs, t) + (if b.stmt == t then [b.line] else [])
  {
    if bs != [] {
      assert (bs + [b])[1..] == bs[1..] + [b];
      LinesWithTextSnoc(bs[1..], b, t);
    }
  }

  /**
   * Grouping is exact: a text is a key exactly when some binding produced it,
   * and its list holds one line per such binding, in walk order.
   */
  lemma {:induction false} GroupLinesExact(bs: seq<Binding>, t: string)
    ensures t in GroupLines(bs) <==> LinesWithText(bs, t) != []
    ensures t in GroupLines(bs) ==> GroupLines(bs)[t] == LinesWithText(bs, t)
  {
    if bs != [] {
      var init, b := bs[..|bs| - 1], bs[|bs| - 1];
      assert bs == init + [b];
      GroupLinesExact(init, t);
      GroupsSnoc(init, b);
      LinesWithTextSnoc(init, b, t);
    }
  }

  /** The insertion order lists every key once. */
  lemma {:induction false} GroupOrderKeys(bs: seq<Binding>)
    ensures forall t :: t in GroupOrder(bs) <==> t in GroupLines(bs)
    ensures forall i, j :: 0 <= i < j < |GroupOrder(bs)| ==> GroupOrder(bs)[i] != GroupOrder(bs)[j]
  {
    if bs != [] {
      var init, b := bs[..|bs| - 1], bs[|bs| - 1];
      assert bs == init + [b];
      GroupOrderKeys(init);
      GroupsSnoc(init, b);
    }
  }

  /** One more binding: what each accumulator becomes. */
  lemma AccumulatorsSnoc(bs: seq<Binding>, b: Binding)
    ensures NameSet(bs + [b]) == NameSet(bs) + {b.name}
    ensures LastWrite(bs + [b]) == LastWrite(bs)[b.name := (b.line, b.stmt)]
    ensures b.stmt in GroupOrder(bs) <==> b.stmt in GroupLines(bs)
    ensures GroupOrder(bs + [b]) ==
              if b.stmt in GroupOrder(bs) then GroupOrder(bs) else GroupOrder(bs) + [b.stmt]
    ensures GroupLines(bs + [b]) ==
              var prev := GroupLines(bs);
              prev[b.stmt := (if b.stmt in prev then prev[b.stmt] else []) + [b.line]]
  {
    NameSetSnoc(bs, b);
    LastWriteSnoc(bs, b);
    GroupsSnoc(bs, b);
    GroupOrderKeys(bs);
  }
}
