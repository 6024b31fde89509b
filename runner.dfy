/**
 * What `main` does with the per-file results (py_check_imports.py, lines
 * 77-128): pick the `.py` names of a directory listing, run the analysis
 * on each file, split error records from unused records, gather the three
 * lists across files and sort them.
 *
 * The file system is not modelled: a target arrives as a `Target` (a
 * directory already listed, a regular file, or neither), and what reading
 * and parsing a path gives is the function `source`.
 */
module Runner {
  import opened Canonical
  import opened Bindings
  import opened Analyzer
  import opened Ordering

  /** `name.endswith(".py")`. */
  predicate EndsWithPy(name: string) {
    |name| >= 3 && name[|name| - 3..] == ".py"
  }

  /** The `.py` names of a listing, in listing order. */
  function PyNames(names: seq<string>): seq<string> {
    if names == [] then []
    else
      var last := names[|names| - 1];
      PyNames(names[..|names| - 1]) + (if EndsWithPy(last) then [last] else [])
  }

  /** Line 81: the filter keeps every `.py` name as often as it occurs, and nothing else. */
  lemma {:induction false} PyNamesExact(names: seq<string>)
    ensures forall f :: multiset(PyNames(names))[f] == if EndsWithPy(f) then multiset(names)[f] else 0
  {
    if names != [] {
      var init, last := names[..|names| - 1], names[|names| - 1];
      PyNamesExact(init);
      assert names == init + [last];
    }
  }

  /** Lines 78-83, over a listing already made: the loop that collects the `.py` names. */
  method PythonFiles(names: seq<string>) returns (files: seq<string>)
    ensures files == PyNames(names)
    ensures forall f :: f in files <==> f in names && EndsWithPy(f)
  {
    files := [];
    for i := 0 to |names|
      invariant files == PyNames(names[..i])
    {
      assert names[..i + 1][..i] == names[..i];
      if EndsWithPy(names[i]) {
        files := files + [names[i]];
      }
    }
    assert names[..|names|] == names;
    PyNamesExact(names);
    forall f ensures f in files <==> f in names && EndsWithPy(f) {
      assert f in files <==> multiset(files)[f] > 0;
      assert f in names <==> multiset(names)[f] > 0;
    }
  }

  /** `[res for res in rs if key in res]`. */
  function RecordsWithKey(rs: seq<Record>, key: string): seq<Record> {
    if rs == [] then []
    else (if key in Keys(rs[0]) then [rs[0]] else []) + RecordsWithKey(rs[1..], key)
  }

  lemma {:induction false} RecordsWithKeyMember(rs: seq<Record>, key: string, r: Record)
    ensures r in RecordsWithKey(rs, key) <==> r in rs && key in Keys(r)
  {
    if rs != [] {
      RecordsWithKeyMember(rs[1..], key, r);
      assert rs == [rs[0]] + rs[1..];
    }
  }

  /**
   * Lines 108-109 and 115-116: on a list without duplicate records, every
   * record goes to exactly one side; errors to the first, unused records to
   * the second.
   */
  lemma {:induction false} Partition(rs: seq<Record>)
    requires forall r :: r in rs ==> !r.DuplicateRecord?
    ensures multiset(RecordsWithKey(rs, "error")) + multiset(RecordsWithKey(rs, "import_statement"))
         == multiset(rs)
    ensures forall r :: r in RecordsWithKey(rs, "error") <==> r in rs && r.ErrorRecord?
    ensures forall r :: r in RecordsWithKey(rs, "import_statement") <==> r in rs && r.UnusedRecord?
  {
    PartitionCount(rs);
    forall r ensures r in RecordsWithKey(rs, "error") <==> r in rs && r.ErrorRecord? {
      RecordsWithKeyMember(rs, "error", r);
      KeyFacts(r);
    }
    forall r ensures r in RecordsWithKey(rs, "import_statement") <==> r in rs && r.UnusedRecord? {
      RecordsWithKeyMember(rs, "import_statement", r);
      KeyFacts(r);
    }
  }

  lemma {:induction false} PartitionCount(rs: seq<Record>)
    requires forall r :: r in rs ==> !r.DuplicateRecord?
    ensures multiset(RecordsWithKey(rs, "error")) + multiset(RecordsWithKey(rs, "import_statement"))
         == multiset(rs)
  {
    if rs != [] {
      PartitionCount(rs[1..]);
      KeyFacts(rs[0]);
      assert rs == [rs[0]] + rs[1..];
    }
  }

  /** Which record carries which of the two keys `main` tests. */
  lemma KeyFacts(r: Record)
    ensures "error" in Keys(r) <==> r.ErrorRecord?
    ensures "import_statement" in Keys(r) <==> !r.ErrorRecord?
  {
    assert "error" != "file" && "error" != "line" && "error" != "lines" && "error" != "import_statement";
    assert "import_statement" != "file" && "import_statement" != "error";
  }

  /** The error records a file contributes (lines 18-21). */
  function FileErrors(file: string, outcome: ParseOutcome): seq<Record> {
    match outcome
    case ReadFailure(message) => [ErrorRecord(file, message)]
    case SyntaxFailure(message) => [ErrorRecord(file, "SyntaxError: " + message)]
    case _ => []
  }

  /** The unused records a file contributes, as a multiset. */
  ghost function FileUnused(file: string, outcome: ParseOutcome): multiset<Record> {
    if outcome.Parsed? then UnusedOfParse(file, outcome.nodes, outcome.used) else multiset{}
  }

  /** The duplicate records a file contributes. */
  function FileDuplicates(file: string, outcome: ParseOutcome): seq<Record> {
    if outcome.Parsed? then DuplicatesOfParse(file, outcome.nodes) else []
  }

  /** The first file whose analysis raises, with the exception's message. */
  function CrashIn(files: seq<string>, source: string -> ParseOutcome): Option<(string, string)> {
    if files == [] then None
    else if source(files[0]).OtherFailure? then Some((files[0], source(files[0]).message))
    else CrashIn(files[1..], source)
  }

  /** `all_errors` after the loop of lines 105-112. */
  function ErrorsAcross(files: seq<string>, source: string -> ParseOutcome): seq<Record> {
    if files == [] then []
    else
      var last := files[|files| - 1];
      ErrorsAcross(files[..|files| - 1], source) + FileErrors(last, source(last))
  }

  /** `all_unused` after the loop, as a multiset. */
  ghost function UnusedAcross(files: seq<string>, source: string -> ParseOutcome): multiset<Record> {
    if files == [] then multiset{}
    else
      var last := files[|files| - 1];
      UnusedAcross(files[..|files| - 1], source) + FileUnused(last, source(last))
  }

  /** `all_duplicates` after the loop. */
  function DuplicatesAcross(files: seq<string>, source: string -> ParseOutcome): seq<Record> {
    if files == [] then []
    else
      var last := files[|files| - 1];
      DuplicatesAcross(files[..|files| - 1], source) + FileDuplicates(last, source(last))
  }

  /** Every record in an unused multiset reports an import of that file. */
  lemma UnusedAreUnusedRecords(file: string, nodes: seq<ImportNode>, used: set<string>, r: Record)
    requires r in UnusedOfParse(file, nodes, used)
    ensures r.UnusedRecord? && r.file == file
  {
    UnusedExact(file, WalkBindings(nodes), used);
  }

  /** One file's result, partitioned, is that file's contribution to each list. */
  lemma FileStep(file: string, outcome: ParseOutcome, result: FileResult)
    requires result.Returned?
    requires outcome.ReadFailure? ==> result == Returned([ErrorRecord(file, outcome.message)], [])
    requires outcome.SyntaxFailure? ==>
               result == Returned([ErrorRecord(file, "SyntaxError: " + outcome.message)], [])
    requires outcome.Parsed? ==>
               && multiset(result.first) == UnusedOfParse(file, outcome.nodes, outcome.used)
               && result.duplicates == DuplicatesOfParse(file, outcome.nodes)
    requires !outcome.OtherFailure?
    ensures RecordsWithKey(result.first, "error") == FileErrors(file, outcome)
    ensures multiset(RecordsWithKey(result.first, "import_statement")) == FileUnused(file, outcome)
    ensures result.duplicates == FileDuplicates(file, outcome)
  {
    if outcome.Parsed? {
      ParsedStep(file, outcome.nodes, outcome.used, result.first);
    } else {
      FailureStep(file, result.first[0]);
      assert result.first == [result.first[0]];
    }
  }

  lemma ParsedStep(file: string, nodes: seq<ImportNode>, used: set<string>, first: seq<Record>)
    requires multiset(first) == UnusedOfParse(file, nodes, used)
    ensures RecordsWithKey(first, "error") == []
    ensures RecordsWithKey(first, "import_statement") == first
  {
    forall r | r in first ensures r.UnusedRecord? {
      assert r in multiset(first);
      UnusedAreUnusedRecords(file, nodes, used, r);
    }
    forall r | r in first ensures "import_statement" in Keys(r) && "error" !in Keys(r) {
      KeyFacts(r);
    }
    KeepAll(first, "import_statement");
    DropAll(first, "error");
  }

  lemma FailureStep(file: string, e: Record)
    requires e.ErrorRecord?
    ensures RecordsWithKey([e], "error") == [e]
    ensures RecordsWithKey([e], "import_statement") == []
  {
    KeyFacts(e);
    assert [e][1..] == [];
  }

  lemma {:induction false} KeepAll(rs: seq<Record>, key: string)
    requires forall r :: r in rs ==> key in Keys(r)
    ensures RecordsWithKey(rs, key) == rs
  {
    if rs != [] {
      KeepAll(rs[1..], key);
      assert rs == [rs[0]] + rs[1..];
    }
  }

  lemma {:induction false} DropAll(rs: seq<Record>, key: string)
    requires forall r :: r in rs ==> key !in Keys(r)
    ensures RecordsWithKey(rs, key) == []
  {
    if rs != [] {
      DropAll(rs[1..], key);
    }
  }

  lemma CrashStep(files: seq<string>, i: nat, source: string -> ParseOutcome)
    requires i < |files|
    ensures CrashIn(files[i..], source)
         == if source(files[i]).OtherFailure? then Some((files[i], source(files[i]).message))
            else CrashIn(files[i + 1..], source)
  {
    assert files[i..][1..] == files[i + 1..];
  }

  /** Lines 105-112: analyse the files in order, partition and gather; stop at the first exception. */
  method AnalyzeAll(files: seq<string>, source: string -> ParseOutcome)
    returns (crash: Option<(string, string)>, unused: seq<Record>, duplicates: seq<Record>, errors: seq<Record>)
    ensures crash == CrashIn(files, source)
    ensures crash.None? ==> multiset(unused) == UnusedAcross(files, source)
    ensures crash.None? ==> duplicates == DuplicatesAcross(files, source)
    ensures crash.None? ==> errors == ErrorsAcross(files, source)
  {
    unused, duplicates, errors := [], [], [];
    var i := 0;
    while i < |files|
      invariant i <= |files|
      invariant CrashIn(files[i..], source) == CrashIn(files, source)
      invariant multiset(unused) == UnusedAcross(files[..i], source)
      invariant duplicates == DuplicatesAcross(files[..i], source)
      invariant errors == ErrorsAcross(files[..i], source)
    {
      var file := files[i];
      CrashStep(files, i, source);
      var result := AnalyzeFile(file, source(file));
      if result.Raised? {
        return Some((file, result.message)), unused, duplicates, errors;
      }
      FileStep(file, source(file), result);
      var fileErrors := RecordsWithKey(result.first, "error");
      var fileUnused := RecordsWithKey(result.first, "import_statement");
      assert files[..i + 1][..i] == files[..i];
      unused := unused + fileUnused;
      duplicates := duplicates + result.duplicates;
      errors := errors + fileErrors;
      i := i + 1;
    }
    assert files[..i] == files;
    return None, unused, duplicates, errors;
  }

  /** The path `main` is given, as the file system shows it. */
  datatype Target =
    | Directory(path: string, names: seq<string>)   // the paths `os.walk` lists under it
    | RegularFile(path: string)
    | Neither(path: string)

  /** How `main` ends. */
  datatype RunOutcome =
    | NoPythonFiles(path: string)                    // exit status 1
    | InvalidPath(path: string)                      // exit status 1
    | Crashed(file: string, message: string)         // an exception escapes `main`
    | Report(unused: seq<Record>, duplicates: seq<Record>, errors: seq<Record>)

  /** The files `main` analyses for a target it accepts. */
  function FilesOf(target: Target): seq<string> {
    match target
    case Directory(_, names) => PyNames(names)
    case RegularFile(path) => [path]
    case Neither(_) => []
  }

  /** Lines 100-128: choose the files, analyse them and sort the three lists. */
  method Run(target: Target, source: string -> ParseOutcome) returns (outcome: RunOutcome)
    ensures target.Neither? ==> outcome == InvalidPath(target.path)
    ensures target.Directory? && PyNames(target.names) == [] ==> outcome == NoPythonFiles(target.path)
    ensures !target.Neither? && FilesOf(target) != [] && CrashIn(FilesOf(target), source).Some? ==>
              outcome == Crashed(CrashIn(FilesOf(target), source).value.0, CrashIn(FilesOf(target), source).value.1)
    ensures !target.Neither? && FilesOf(target) != [] && CrashIn(FilesOf(target), source).None? ==>
              && outcome.Report?
              && Sorted(outcome.unused)
              && multiset(outcome.unused) == UnusedAcross(FilesOf(target), source)
              && outcome.duplicates == SortByKey(DuplicatesAcross(FilesOf(target), source))
              && outcome.errors == SortByKey(ErrorsAcross(FilesOf(target), source))
  {
    var files: seq<string>;
    match target {
      case Neither(path) =>
        return InvalidPath(path);
      case Directory(path, names) =>
        files := PythonFiles(names);
        if files == [] {
          return NoPythonFiles(path);
        }
      case RegularFile(path) =>
        files := [path];
    }
    var crash, allUnused, allDuplicates, allErrors := AnalyzeAll(files, source);
    if crash.Some? {
      return Crashed(crash.value.0, crash.value.1);
    }
    var unusedSorted := SortByKey(allUnused);
    SortByKeySorted(allUnused);
    SortByKeyPerm(allUnused);
    return Report(unusedSorted, SortByKey(allDuplicates), SortByKey(allErrors));
  }
}
