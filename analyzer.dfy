/**
 * The per-file analysis `find_unused_and_duplicate_imports_in_file`
 * (py_check_imports.py, lines 11-74).
 *
 * Reading the file, `ast.parse` and the name visitor are not modelled: their
 * outcome arrives as a `ParseOutcome`, holding either the import nodes in
 * walk order and the identifiers of all `ast.Name` nodes, or the failure.
 */
module Analyzer {
  import opened Canonical
  import opened Bindings

  /** The dicts the analysis returns; each shape has its own keys. */
  datatype Record =
    | ErrorRecord(file: string, error: string)
    | UnusedRecord(file: string, line: nat, importStatement: string)
    | DuplicateRecord(file: string, lines: seq<nat>, importStatement: string)

  /** The keys of the dict a record stands for. */
  function Keys(r: Record): set<string> {
    match r
    case ErrorRecord(_, _) => {"file", "error"}
    case UnusedRecord(_, _, _) => {"file", "line", "import_statement"}
    case DuplicateRecord(_, _, _) => {"file", "lines", "import_statement"}
  }

  /** What reading and parsing one file gives. */
  datatype ParseOutcome =
    | Parsed(nodes: seq<ImportNode>, used: set<string>)
    | ReadFailure(message: string)      // FileNotFoundError, PermissionError
    | SyntaxFailure(message: string)    // SyntaxError
    | OtherFailure(message: string)     // any other exception: not caught here

  /** What the function does with one file: it returns two lists or raises. */
  datatype FileResult =
    | Returned(first: seq<Record>, duplicates: seq<Record>)
    | Raised(message: string)

  /** The record reporting `name` as unused, from its last-seen import. */
  function UnusedRecordOf(file: string, aliases: map<string, (nat, string)>, name: string): Record
    requires name in aliases
  {
    UnusedRecord(file, aliases[name].0, aliases[name].1)
  }

  /**
   * The unused records for a set of names, as a multiset: Python iterates the
   * set in no specified order, so only the multiset is determined.
   */
  ghost function UnusedRecords(file: string, names: set<string>, aliases: map<string, (nat, string)>): multiset<Record>
    requires names <= aliases.Keys
    decreases names
  {
    if names == {} then multiset{}
    else
      var n :| n in names;
      multiset{UnusedRecordOf(file, aliases, n)} + UnusedRecords(file, names - {n}, aliases)
  }

  /** The multiset does not depend on the name the definition happens to pick first. */
  lemma {:induction false} UnusedRecordsPick(file: string, names: set<string>, aliases: map<string, (nat, string)>, m: string)
    requires names <= aliases.Keys
    requires m in names
    ensures UnusedRecords(file, names, aliases)
         == multiset{UnusedRecordOf(file, aliases, m)} + UnusedRecords(file, names - {m}, aliases)
    decreases names
  {
    var n :| n in names && UnusedRecords(file, names, aliases)
      == multiset{UnusedRecordOf(file, aliases, n)} + UnusedRecords(file, names - {n}, aliases);
    if n != m {
      UnusedRecordsPick(file, names - {n}, aliases, m);
      UnusedRecordsPick(file, names - {m}, aliases, n);
      assert names - {n} - {m} == names - {m} - {n};
    }
  }

  /** One record per name, each the name's last-seen import, and nothing else. */
  lemma {:induction false} UnusedRecordsExact(file: string, names: set<string>, aliases: map<string, (nat, string)>)
    requires names <= aliases.Keys
    ensures |UnusedRecords(file, names, aliases)| == |names|
    ensures forall r :: r in UnusedRecords(file, names, aliases) <==>
                        exists n :: n in names && r == UnusedRecordOf(file, aliases, n)
    decreases names
  {
    if names != {} {
      var n :| n in names;
      UnusedRecordsPick(file, names, aliases, n);
      UnusedRecordsExact(file, names - {n}, aliases);
    }
  }

  /** Lines 23-46: the three accumulators, filled alias by alias in walk order. */
  method CollectImports(nodes: seq<ImportNode>)
    returns (imports: set<string>, aliases: map<string, (nat, string)>,
             stmtOrder: seq<string>, stmtLines: map<string, seq<nat>>)
    ensures imports == NameSet(WalkBindings(nodes))
    ensures aliases == LastWrite(WalkBindings(nodes))
    ensures stmtOrder == GroupOrder(WalkBindings(nodes))
    ensures stmtLines == GroupLines(WalkBindings(nodes))
  {
    imports, aliases, stmtOrder, stmtLines := {}, map[], [], map[];
    var i := 0;
    while i < |nodes|
      invariant i <= |nodes|
      invariant imports == NameSet(WalkBindings(nodes[..i]))
      invariant aliases == LastWrite(WalkBindings(nodes[..i]))
      invariant stmtOrder == GroupOrder(WalkBindings(nodes[..i]))
      invariant stmtLines == GroupLines(WalkBindings(nodes[..i]))
    {
      WalkBindingsSnoc(nodes, i);
      imports, aliases, stmtOrder, stmtLines :=
        CollectNode(nodes[i], WalkBindings(nodes[..i]), imports, aliases, stmtOrder, stmtLines);
      i := i + 1;
    }
    assert nodes[..i] == nodes;
  }

  /** The inner loop of lines 29-36 and 39-46: the aliases of one node. */
  method CollectNode(node: ImportNode, ghost done: seq<Binding>,
                     imports0: set<string>, aliases0: map<string, (nat, string)>,
                     stmtOrder0: seq<string>, stmtLines0: map<string, seq<nat>>)
    returns (imports: set<string>, aliases: map<string, (nat, string)>,
             stmtOrder: seq<string>, stmtLines: map<string, seq<nat>>)
    requires imports0 == NameSet(done) && aliases0 == LastWrite(done)
    requires stmtOrder0 == GroupOrder(done) && stmtLines0 == GroupLines(done)
    ensures imports == NameSet(done + NodeBindings(node))
    ensures aliases == LastWrite(done + NodeBindings(node))
    ensures stmtOrder == GroupOrder(done + NodeBindings(node))
    ensures stmtLines == GroupLines(done + NodeBindings(node))
  {
    imports, aliases, stmtOrder, stmtLines := imports0, aliases0, stmtOrder0, stmtLines0;
    ghost var here := NodeBindings(node);
    ghost var seen := done;
    var j := 0;
    assert done + here[..j] == done;
    while j < |node.names|
      invariant j <= |node.names|
      invariant seen == done + here[..j]
      invariant imports == NameSet(seen) && aliases == LastWrite(seen)
      invariant stmtOrder == GroupOrder(seen) && stmtLines == GroupLines(seen)
    {
      var alias := node.names[j];
      var name := BoundName(node, alias);
      var stmt := StatementText(node, alias);
      NextBinding(node, done, j);
      AccumulatorsSnoc(seen, Binding(name, node.line, stmt));
      imports := imports + {name};
      aliases := aliases[name := (node.line, stmt)];
      // `import_statements` is a defaultdict: a new text starts an empty list
      var prior := if stmt in stmtLines then stmtLines[stmt] else [];
      if stmt !in stmtLines {
        stmtOrder := stmtOrder + [stmt];
      }
      stmtLines := stmtLines[stmt := prior + [node.line]];
      seen := seen + [Binding(name, node.line, stmt)];
      j := j + 1;
    }
    assert here[..j] == here;
  }


  /** Lines 59-65: one record per unused name, taken from the set in any order. */
  method ReportUnused(file: string, unused: set<string>, aliases: map<string, (nat, string)>)
    returns (results: seq<Record>)
    requires unused <= aliases.Keys
    ensures multiset(results) == UnusedRecords(file, unused, aliases)
    ensures |results| == |unused|
    ensures forall r :: r in results ==> exists n :: n in unused && r == UnusedRecordOf(file, aliases, n)
    ensures forall n :: n in unused ==> UnusedRecordOf(file, aliases, n) in results
  {
    results := [];
    var remaining := unused;
    while remaining != {}
      invariant remaining <= unused
      invariant multiset(results) + UnusedRecords(file, remaining, aliases) == UnusedRecords(file, unused, aliases)
      decreases remaining
    {
      var name :| name in remaining;
      var (line, stmt) := aliases[name];
      UnusedRecordsPick(file, remaining, aliases, name);
      assert UnusedRecord(file, line, stmt) == UnusedRecordOf(file, aliases, name);
      results := results + [UnusedRecord(file, line, stmt)];
      remaining := remaining - {name};
    }
    assert UnusedRecords(file, remaining, aliases) == multiset{};
    UnusedResults(file, unused, aliases, results);
  }

  /** Any list holding the specified multiset has exactly one record per unused name and no other record. */
  lemma UnusedResults(file: string, unused: set<string>, aliases: map<string, (nat, string)>, results: seq<Record>)
    requires unused <= aliases.Keys
    requires multiset(results) == UnusedRecords(file, unused, aliases)
    ensures |results| == |unused|
    ensures forall r :: r in results ==> exists n :: n in unused && r == UnusedRecordOf(file, aliases, n)
    ensures forall n :: n in unused ==> UnusedRecordOf(file, aliases, n) in results
  {
    UnusedRecordsExact(file, unused, aliases);
    forall r | r in results ensures exists n :: n in unused && r == UnusedRecordOf(file, aliases, n) {
      assert r in multiset(results);
    }
    forall n | n in unused ensures UnusedRecordOf(file, aliases, n) in results {
      assert UnusedRecordOf(file, aliases, n) in multiset(results);
    }
  }

  /** The duplicate records of the groups listed in `order`, in that order. */
  function DuplicateRecords(file: string, order: seq<string>, lines: map<string, seq<nat>>): seq<Record> {
    if order == [] then []
    else
      var t := order[|order| - 1];
      DuplicateRecords(file, order[..|order| - 1], lines)
        + (if t in lines && |lines[t]| > 1 then [DuplicateRecord(file, lines[t], t)] else [])
  }

  /** Exactly the groups with two or more lines are reported, each with its text and lines. */
  lemma {:induction false} DuplicateRecordsExact(file: string, order: seq<string>, lines: map<string, seq<nat>>)
    ensures forall r :: r in DuplicateRecords(file, order, lines) <==>
              exists t :: t in order && t in lines && |lines[t]| > 1 && r == DuplicateRecord(file, lines[t], t)
  {
    if order != [] {
      var init := order[..|order| - 1];
      DuplicateRecordsExact(file, init, lines);
      assert order == init + [order[|order| - 1]];
    }
  }

  /** Lines 67-72: walk the groups in insertion order and keep those with two or more lines. */
  method ReportDuplicates(file: string, stmtOrder: seq<string>, stmtLines: map<string, seq<nat>>)
    returns (results: seq<Record>)
    ensures results == DuplicateRecords(file, stmtOrder, stmtLines)
  {
    results := [];
    for i := 0 to |stmtOrder|
      invariant results == DuplicateRecords(file, stmtOrder[..i], stmtLines)
    {
      var stmt := stmtOrder[i];
      assert stmtOrder[..i + 1][..i] == stmtOrder[..i];
      if stmt in stmtLines && |stmtLines[stmt]| > 1 {
        results := results + [DuplicateRecord(file, stmtLines[stmt], stmt)];
      }
    }
    assert stmtOrder[..|stmtOrder|] == stmtOrder;
  }

  /** Specification of a parsed file's unused records: imports minus used names. */
  ghost function UnusedOfParse(file: string, nodes: seq<ImportNode>, used: set<string>): multiset<Record> {
    UnusedOf(file, WalkBindings(nodes), used)
  }

  /** The unused records a binding sequence gives: `imports - used`, each from `import_aliases`. */
  ghost function UnusedOf(file: string, bs: seq<Binding>, used: set<string>): multiset<Record> {
    LastWriteKeys(bs);
    UnusedRecords(file, NameSet(bs) - used, LastWrite(bs))
  }

  /** The duplicate records the groups of a binding sequence give. */
  function DuplicatesOf(file: string, bs: seq<Binding>): seq<Record> {
    DuplicateRecords(file, GroupOrder(bs), GroupLines(bs))
  }

  /** Specification of a parsed file's duplicate records. */
  function DuplicatesOfParse(file: string, nodes: seq<ImportNode>): seq<Record> {
    DuplicatesOf(file, WalkBindings(nodes))
  }

  /** Lines 11-74: the whole per-file analysis. */
  method AnalyzeFile(file: string, outcome: ParseOutcome) returns (result: FileResult)
    ensures outcome.ReadFailure? ==> result == Returned([ErrorRecord(file, outcome.message)], [])
    ensures outcome.SyntaxFailure? ==>
              result == Returned([ErrorRecord(file, "SyntaxError: " + outcome.message)], [])
    ensures outcome.OtherFailure? ==> result == Raised(outcome.message)
    ensures outcome.Parsed? ==>
              && result.Returned?
              && multiset(result.first) == UnusedOfParse(file, outcome.nodes, outcome.used)
              && result.duplicates == DuplicatesOfParse(file, outcome.nodes)
  {
    match outcome
    case ReadFailure(message) =>
      return Returned([ErrorRecord(file, message)], []);
    case SyntaxFailure(message) =>
      return Returned([ErrorRecord(file, "SyntaxError: " + message)], []);
    case OtherFailure(message) =>
      return Raised(message);
    case Parsed(nodes, used) =>
      var imports, aliases, stmtOrder, stmtLines := CollectImports(nodes);
      LastWriteKeys(WalkBindings(nodes));
      var unused := imports - used;
      var unusedResults := ReportUnused(file, unused, aliases);
      var duplicateResults := ReportDuplicates(file, stmtOrder, stmtLines);
      return Returned(unusedResults, duplicateResults);
  }

  /** No later binding in `bs` binds the same name as `bs[i]`. */
  predicate IsLastOfName(bs: seq<Binding>, i: nat)
    requires i < |bs|
  {
    forall k :: i < k < |bs| ==> bs[k].name != bs[i].name
  }

  /**
   * Unused results, file level: one per name in `imports - used`, and each is
   * the line and text of the last binding of a name no `ast.Name` mentions.
   */
  lemma UnusedExact(file: string, bs: seq<Binding>, used: set<string>)
    ensures |UnusedOf(file, bs, used)| == |NameSet(bs) - used|
    ensures forall r :: r in UnusedOf(file, bs, used) <==>
              exists i :: 0 <= i < |bs| && IsLastOfName(bs, i) && bs[i].name !in used
                       && r == UnusedRecord(file, bs[i].line, bs[i].stmt)
  {
    var aliases := LastWrite(bs);
    var names := NameSet(bs) - used;
    LastWriteKeys(bs);
    UnusedRecordsExact(file, names, aliases);
    forall r | r in UnusedOf(file, bs, used)
      ensures exists i :: 0 <= i < |bs| && IsLastOfName(bs, i) && bs[i].name !in used
                       && r == UnusedRecord(file, bs[i].line, bs[i].stmt)
    {
      var n :| n in names && r == UnusedRecordOf(file, aliases, n);
      var i0 :| 0 <= i0 < |bs| && bs[i0].name == n;
      LastWriteOverwrites(bs, i0);
      var i :| i0 <= i < |bs| && bs[i].name == n && aliases[n] == (bs[i].line, bs[i].stmt)
               && forall k :: i < k < |bs| ==> bs[k].name != n;
      assert IsLastOfName(bs, i);
    }
    forall i | 0 <= i < |bs| && IsLastOfName(bs, i) && bs[i].name !in used
      ensures UnusedRecord(file, bs[i].line, bs[i].stmt) in UnusedOf(file, bs, used)
    {
      LastWriteWins(bs, i);
      assert bs[i].name in names;
      assert UnusedRecord(file, bs[i].line, bs[i].stmt) == UnusedRecordOf(file, aliases, bs[i].name);
    }
  }

  /** No name that an `ast.Name` node mentions is ever reported unused. */
  lemma UsedNeverUnused(file: string, bs: seq<Binding>, used: set<string>, r: Record)
    requires r in UnusedOf(file, bs, used)
    ensures exists b :: b in bs && b.name !in used && r == UnusedRecord(file, b.line, b.stmt)
  {
    UnusedExact(file, bs, used);
    var i :| 0 <= i < |bs| && IsLastOfName(bs, i) && bs[i].name !in used
             && r == UnusedRecord(file, bs[i].line, bs[i].stmt);
    assert bs[i] in bs;
  }

  /**
   * Duplicate results, file level: exactly the texts produced by two or more
   * aliases, each with one line per alias in walk order.
   */
  /** `r` reports a text that two or more aliases produced, with all its lines. */
  ghost predicate IsDuplicateGroup(file: string, bs: seq<Binding>, r: Record) {
    exists t :: |LinesWithText(bs, t)| >= 2 && r == DuplicateRecord(file, LinesWithText(bs, t), t)
  }

  lemma DuplicatesExact(file: string, bs: seq<Binding>)
    ensures forall r :: r in DuplicatesOf(file, bs) ==> IsDuplicateGroup(file, bs, r)
    ensures forall t :: |LinesWithText(bs, t)| >= 2 ==>
              DuplicateRecord(file, LinesWithText(bs, t), t) in DuplicatesOf(file, bs)
  {
    forall r | r in DuplicatesOf(file, bs)
      ensures IsDuplicateGroup(file, bs, r)
    {
      DuplicateGroupExact(file, bs, r);
    }
    forall t | |LinesWithText(bs, t)| >= 2
      ensures DuplicateRecord(file, LinesWithText(bs, t), t) in DuplicatesOf(file, bs)
    {
      DuplicateGroupExact(file, bs, DuplicateRecord(file, LinesWithText(bs, t), t));
    }
  }

  lemma DuplicateGroupExact(file: string, bs: seq<Binding>, r: Record)
    ensures r in DuplicatesOf(file, bs) <==>
              exists t :: |LinesWithText(bs, t)| >= 2 && r == DuplicateRecord(file, LinesWithText(bs, t), t)
  {
    var order, lines := GroupOrder(bs), GroupLines(bs);
    DuplicateRecordsExact(file, order, lines);
    GroupOrderKeys(bs);
    if r in DuplicateRecords(file, order, lines) {
      var t :| t in order && t in lines && |lines[t]| > 1 && r == DuplicateRecord(file, lines[t], t);
      GroupLinesExact(bs, t);
    }
    if exists t :: |LinesWithText(bs, t)| >= 2 && r == DuplicateRecord(file, LinesWithText(bs, t), t) {
      var t :| |LinesWithText(bs, t)| >= 2 && r == DuplicateRecord(file, LinesWithText(bs, t), t);
      GroupLinesExact(bs, t);
      assert t in order && t in lines && |lines[t]| > 1 && r == DuplicateRecord(file, lines[t], t);
    }
  }

  /** Each text is reported as a duplicate at most once per file. */
  lemma DuplicatesDistinct(file: string, bs: seq<Binding>)
    ensures forall r :: r in DuplicatesOf(file, bs) ==> r.DuplicateRecord?
    ensures forall i, j :: 0 <= i < j < |DuplicatesOf(file, bs)| ==>
              DuplicatesOf(file, bs)[i].importStatement != DuplicatesOf(file, bs)[j].importStatement
  {
    GroupOrderKeys(bs);
    DuplicateRecordsDistinct(file, GroupOrder(bs), GroupLines(bs));
  }

  /** Groups listed once in `order` give records with distinct texts. */
  lemma {:induction false} DuplicateRecordsDistinct(file: string, order: seq<string>, lines: map<string, seq<nat>>)
    requires forall i, j :: 0 <= i < j < |order| ==> order[i] != order[j]
    ensures forall r :: r in DuplicateRecords(file, order, lines) ==> r.DuplicateRecord?
    ensures forall r :: r in DuplicateRecords(file, order, lines) ==> r.importStatement in order
    ensures forall i, j :: 0 <= i < j < |DuplicateRecords(file, order, lines)| ==>
              DuplicateRecords(file, order, lines)[i].importStatement != DuplicateRecords(file, order, lines)[j].importStatement
  {
    if order != [] {
      var init, t := order[..|order| - 1], order[|order| - 1];
      DuplicateRecordsDistinct(file, init, lines);
      assert t !in init;
    }
  }

  lemma {:induction false} NoAliasesNoBindings(nodes: seq<ImportNode>)
    requires forall k :: 0 <= k < |nodes| ==> nodes[k].names == []
    ensures WalkBindings(nodes) == []
  {
    if nodes != [] {
      NoAliasesNoBindings(nodes[..|nodes| - 1]);
    }
  }

  /** A file with no import aliases has no unused and no duplicate results. */
  lemma NoImportsNoFindings(file: string, nodes: seq<ImportNode>, used: set<string>)
    requires forall k :: 0 <= k < |nodes| ==> nodes[k].names == []
    ensures UnusedOfParse(file, nodes, used) == multiset{}
    ensures DuplicatesOfParse(file, nodes) == []
  {
    NoAliasesNoBindings(nodes);
    UnusedExact(file, [], used);
  }

  /** `import os` / `import sys` / `print(os.getcwd())`: only `import sys` (line 2) is unused. */
  lemma ScenarioOneUnused(file: string)
    ensures UnusedOfParse(file, [Import(1, [Alias("os", None)]), Import(2, [Alias("sys", None)])],
                         {"print", "os"})
         == multiset{UnusedRecord(file, 2, "import sys")}
    ensures DuplicatesOfParse(file, [Import(1, [Alias("os", None)]), Import(2, [Alias("sys", None)])]) == []
  {
    PlainPair(1, "os", 2, "sys");
    assert "import " + "os" == "import os" && "import " + "sys" == "import sys";
    OsSysUnused(file);
    OsSysNoDuplicates(file);
  }

  lemma OsSysUnused(file: string)
    ensures UnusedOf(file, [Binding("os", 1, "import os"), Binding("sys", 2, "import sys")], {"print", "os"})
         == multiset{UnusedRecord(file, 2, "import sys")}
  {
    var bs := [Binding("os", 1, "import os"), Binding("sys", 2, "import sys")];
    var u := UnusedOf(file, bs, {"print", "os"});
    assert NameSet(bs) - {"print", "os"} == {"sys"};
    UnusedExact(file, bs, {"print", "os"});
    assert IsLastOfName(bs, 1);
    assert UnusedRecord(file, 2, "import sys") in u;
    MultisetOfOne(u, UnusedRecord(file, 2, "import sys"));
  }

  lemma OsSysNoDuplicates(file: string)
    ensures DuplicatesOf(file, [Binding("os", 1, "import os"), Binding("sys", 2, "import sys")]) == []
  {
    var bs := [Binding("os", 1, "import os"), Binding("sys", 2, "import sys")];
    forall t ensures |LinesWithText(bs, t)| < 2 {
      LinesOfPair(bs[0], bs[1], t);
    }
    NoRepeatNoDuplicates(file, bs);
  }

  /** A file where no canonical text occurs twice has no duplicate results. */
  lemma NoRepeatNoDuplicates(file: string, bs: seq<Binding>)
    requires forall t :: |LinesWithText(bs, t)| < 2
    ensures DuplicatesOf(file, bs) == []
  {
    forall t | t in GroupLines(bs) ensures |GroupLines(bs)[t]| <= 1 {
      GroupLinesExact(bs, t);
    }
    NoGroupNoRecords(file, GroupOrder(bs), GroupLines(bs));
  }

  lemma {:induction false} NoGroupNoRecords(file: string, order: seq<string>, lines: map<string, seq<nat>>)
    requires forall t :: t in lines ==> |lines[t]| <= 1
    ensures DuplicateRecords(file, order, lines) == []
  {
    if order != [] {
      NoGroupNoRecords(file, order[..|order| - 1], lines);
    }
  }

  /** `import json` twice: line 2 is reported unused and lines [1, 2] as duplicates. */
  lemma ScenarioDuplicate(file: string)
    ensures UnusedOfParse(file, [Import(1, [Alias("json", None)]), Import(2, [Alias("json", None)])], {})
         == multiset{UnusedRecord(file, 2, "import json")}
    ensures DuplicatesOfParse(file, [Import(1, [Alias("json", None)]), Import(2, [Alias("json", None)])])
         == [DuplicateRecord(file, [1, 2], "import json")]
  {
    PlainPair(1, "json", 2, "json");
    assert "import " + "json" == "import json";
    JsonUnused(file);
    RepeatedImport(file, 1, 2, "json");
  }

  lemma JsonUnused(file: string)
    ensures UnusedOf(file, [Binding("json", 1, "import json"), Binding("json", 2, "import json")], {})
         == multiset{UnusedRecord(file, 2, "import json")}
  {
    var bs := [Binding("json", 1, "import json"), Binding("json", 2, "import json")];
    var u := UnusedOf(file, bs, {});
    assert NameSet(bs) - {} == {"json"};
    UnusedExact(file, bs, {});
    assert IsLastOfName(bs, 1);
    assert UnusedRecord(file, 2, "import json") in u;
    MultisetOfOne(u, UnusedRecord(file, 2, "import json"));
  }

  /**
   * The same plain import, dotted or not, on two nodes: one duplicate record whose lines are
   * in walk order, so `l0` comes first even when it is the larger line.
   */
  lemma RepeatedImport(file: string, l0: nat, l1: nat, name: string)
    ensures DuplicatesOfParse(file, [Import(l0, [Alias(name, None)]), Import(l1, [Alias(name, None)])])
         == [DuplicateRecord(file, [l0, l1], "import " + name)]
  {
    WalkPlainPair(l0, name, l1, name);
    var bound := SegmentBefore(name, '.');
    var b0, b1 := Binding(bound, l0, "import " + name), Binding(bound, l1, "import " + name);
    RepeatedGroups(b0, b1);
    var order, lines := [b0.stmt], map[b0.stmt := [l0, l1]];
    assert order[..0] == [];
    assert DuplicateRecords(file, order, lines)
        == DuplicateRecords(file, [], lines) + [DuplicateRecord(file, [l0, l1], b0.stmt)];
  }

  lemma RepeatedGroups(b0: Binding, b1: Binding)
    requires b0.stmt == b1.stmt
    ensures GroupOrder([b0, b1]) == [b0.stmt]
    ensures GroupLines([b0, b1]) == map[b0.stmt := [b0.line, b1.line]]
  {
    assert [b0, b1] == [b0] + [b1];
    assert [b0] == [] + [b0];
    GroupsSnoc([], b0);
    GroupsSnoc([b0], b1);
    assert [] + [b0.line] == [b0.line];
    assert [b0.line] + [b1.line] == [b0.line, b1.line];
  }

  /** `from typing import List as L` with `x: L = []`: nothing is unused. */
  lemma ScenarioAnnotationUse(file: string)
    ensures UnusedOfParse(file, [ImportFrom(1, Some("typing"), [Alias("List", Some("L"))])], {"x", "L"})
         == multiset{}
  {
    var node := ImportFrom(1, Some("typing"), [Alias("List", Some("L"))]);
    AnnotationBindings(node);
    var bs := [Binding("L", 1, StatementText(node, node.names[0]))];
    assert NameSet(bs) - {"x", "L"} == {};
    UnusedExact(file, bs, {"x", "L"});
  }

  lemma AnnotationBindings(node: ImportNode)
    requires node == ImportFrom(1, Some("typing"), [Alias("List", Some("L"))])
    ensures WalkBindings([node]) == [Binding("L", 1, StatementText(node, node.names[0]))]
  {
    SingleAlias(node);
    WalkOne(node);
    assert HasAlias(node.names[0]) && BoundName(node, node.names[0]) == "L";
  }

  lemma WalkOne(n: ImportNode)
    ensures WalkBindings([n]) == NodeBindings(n)
  {
    assert [n][..0] == [];
    assert WalkBindings([n]) == [] + NodeBindings(n);
  }

  /** The bindings of two one-alias plain imports of undotted names. */
  lemma PlainPair(l0: nat, n0: string, l1: nat, n1: string)
    requires '.' !in n0 && '.' !in n1
    ensures WalkBindings([Import(l0, [Alias(n0, None)]), Import(l1, [Alias(n1, None)])])
         == [Binding(n0, l0, "import " + n0), Binding(n1, l1, "import " + n1)]
  {
    WalkPlainPair(l0, n0, l1, n1);
    assert SegmentBefore(n0, '.') == n0 && SegmentBefore(n1, '.') == n1;
  }

  /** The bindings of two one-alias plain imports: each binds the text before its first `.`. */
  lemma WalkPlainPair(l0: nat, n0: string, l1: nat, n1: string)
    ensures WalkBindings([Import(l0, [Alias(n0, None)]), Import(l1, [Alias(n1, None)])])
         == [Binding(SegmentBefore(n0, '.'), l0, "import " + n0), Binding(SegmentBefore(n1, '.'), l1, "import " + n1)]
  {
    PlainBinding(l0, n0);
    PlainBinding(l1, n1);
    WalkTwo(Import(l0, [Alias(n0, None)]), Import(l1, [Alias(n1, None)]));
  }

  lemma PlainBinding(line: nat, name: string)
    ensures NodeBindings(Import(line, [Alias(name, None)])) == [Binding(SegmentBefore(name, '.'), line, "import " + name)]
  {
    var node := Import(line, [Alias(name, None)]);
    SingleAlias(node);
    assert BoundName(node, node.names[0]) == SegmentBefore(name, '.');
    assert ImportTarget(node.names[0]) == name + "" == name;
  }

  lemma LinesOfPair(b0: Binding, b1: Binding, t: string)
    ensures LinesWithText([b0, b1], t)
         == (if b0.stmt == t then [b0.line] else []) + (if b1.stmt == t then [b1.line] else [])
  {
    assert [b0, b1][1..] == [b1];
    assert [b1][1..] == [];
    assert LinesWithText([b1], t) == (if b1.stmt == t then [b1.line] else []) + LinesWithText([], t);
    assert LinesWithText([], t) == [];
    assert (if b1.stmt == t then [b1.line] else []) + [] == (if b1.stmt == t then [b1.line] else []);
  }

  lemma WalkTwo(n0: ImportNode, n1: ImportNode)
    ensures WalkBindings([n0, n1]) == NodeBindings(n0) + NodeBindings(n1)
  {
    assert [n0, n1][..1] == [n0];
    WalkOne(n0);
  }

  lemma SingleAlias(node: ImportNode)
    requires |node.names| == 1
    ensures NodeBindings(node) == [BindingOf(node, node.names[0])]
  {
  }

  lemma MultisetOfOne<T>(m: multiset<T>, x: T)
    requires |m| == 1 && x in m
    ensures m == multiset{x}
  {
    var rest := m - multiset{x};
    assert m == rest + multiset{x};
    assert |rest| == 0;
  }
}
