# py-check-imports in Dafny

A model of the import-analysis engine of `py_check_imports.py`, a command-line
tool that reports a Python file's unused imports, its duplicated imports, and
the files it could not read or parse.

For each file, `find_unused_and_duplicate_imports_in_file` does the following:
- It walks the file's syntax tree.
- It gives every alias of every `import` / `from … import` node a bound name
  and a canonical single-target statement text.
- It fills three accumulators:
  - the set of bound names;
  - a last-write-wins map from each name to its line and text;
  - an insertion-ordered map from each text to its list of lines.
- It reports an unused record for every bound name that no `ast.Name` node
  mentions, and a duplicate record for every text seen on two or more aliases.
- A read or permission failure, or a syntax error, becomes a single error
  record instead.

`main` then does the following:
- It keeps the `.py` names of a directory listing, or takes the one file it
  was given.
- It runs the analysis on each file.
- It splits error records from unused records by the key they carry.
- It gathers the three lists and sorts them: unused by (file, line),
  duplicates by (file, lines), errors by file.

The project has five modules:
- `Canonical` (`canonical.dfy`): the bound name and the statement text. The
  partner is a reader that parses the text back, which shows the text
  determines the import.
- `Bindings` (`bindings.dfy`): the bindings in walk order, and each
  accumulator as a function of the bindings seen so far.
- `Analyzer` (`analyzer.dfy`): the per-file analysis as methods with loops,
  proved against those functions. It also proves what the results mean:
  last write wins, exact grouping, and one unused record per unused name.
- `Ordering` (`ordering.dfy`): Python's ordering of the sort keys, and
  `sorted` as a stable sort. Its result is proved sorted, a permutation and
  stable, and to be the only result with those properties.
- `Runner` (`runner.dfy`): the `.py` filter, the partition, the accumulation
  loop of `main`, and the sorts.

The parser is an input. A file's parse outcome arrives as:
- the import nodes in the order `ast.walk` yields them, which is
  breadth-first;
- the set of identifiers of all `ast.Name` nodes;
- or the failure.

The file system is also an input. `main`'s path arrives as a `Target`: a
directory with its listing, a regular file, or neither. What a path reads
and parses to is the function `source`.

Points where the code behaves in a way a reader might not expect:
- **Line order of duplicates.** The list of a text's lines is appended in
  walk order and never sorted (line 36). `Analyzer.RepeatedImport` shows
  that nodes at lines 5 then 2 (in walk order) give the list `[5, 2]`.
- **Walk order.** `ast.walk` is breadth-first, so the last binding of a name
  is the last in walk order, not in source order. The model takes the node
  order as given.
- **Uncaught exceptions.** Only `FileNotFoundError`, `PermissionError` and
  `SyntaxError` are caught (lines 18-21). Any other exception (for example a
  `UnicodeDecodeError` from a file that is not UTF-8) escapes `main`. In the
  model this is `ParseOutcome.OtherFailure`. It ends the run as
  `RunOutcome.Crashed` at the first such file.
- **Empty alias.** An alias is taken as present only when `asname` is
  truthy. A missing `asname` and an empty one behave alike.

## Model

| member | source | states |
|---|---|---|
| Canonical.SegmentBefore | py_check_imports.py:30 | `name.split(".")[0]` is a prefix of the name holding no `.`; it is the whole name or is followed by `.` |
| Canonical.BoundName | py_check_imports.py:29-40 | the bound name is the alias when one is given; otherwise, for `import`, the text before the first `.`, and for `from … import`, the imported name |
| Canonical.ParseStatementText | py_check_imports.py:31-43 | the canonical text (`import n[ as a]` / `from m import n[ as a]`, a missing module read as empty) reads back as exactly the kind, module, name and alias it was built from |
| Canonical.SameTextSameForm | py_check_imports.py:31-43 | two aliases with the same canonical text are the same import, so duplicate detection groups only text-identical imports |
| Canonical.SameTextSameName | py_check_imports.py:29-46 | all aliases of one duplicate group bind the same name |
| Canonical.AliasChangesText | py_check_imports.py:31-33 | `import os` and `import os as o` never share a text |
| Bindings.LastWriteKeys | py_check_imports.py:34-35 | the keys of `import_aliases` are exactly the set `imports` |
| Bindings.LastWriteWins | py_check_imports.py:35 | a binding with no later binding of the same name is the entry the map holds for that name |
| Bindings.LastWriteOverwrites | py_check_imports.py:45 | every bound name maps to the line and text of its last binding in walk order; earlier ones are overwritten |
| Bindings.GroupLinesExact | py_check_imports.py:36-46 | a text is a key of `import_statements` exactly when some alias produced it; its list holds one line per such alias, in walk order |
| Bindings.GroupOrderKeys | py_check_imports.py:25 | the insertion order lists every key of `import_statements` exactly once |
| Analyzer.CollectImports | py_check_imports.py:23-46 | the nested loops leave `imports`, `import_aliases` and `import_statements` (keys in insertion order and their line lists) equal to the accumulator functions of the bindings in walk order |
| Analyzer.CollectNode | py_check_imports.py:29-46 | the inner loop over one node's aliases extends each accumulator by that node's bindings |
| Analyzer.UnusedRecordsPick | py_check_imports.py:61 | the unused records do not depend on the order in which the set is iterated |
| Analyzer.UnusedRecordsExact | py_check_imports.py:59-65 | one record per unused name, each carrying that name's entry of `import_aliases`, and nothing else |
| Analyzer.ReportUnused | py_check_imports.py:59-65 | the loop over the set emits one record per name, in any order; as a multiset the result equals `UnusedRecords`, and every unused name has its record in the list |
| Analyzer.UnusedResults | py_check_imports.py:59-65 | a list holding the unused multiset has exactly one record per unused name, each carrying some unused name's line and text |
| Analyzer.DuplicateRecordsExact | py_check_imports.py:67-72 | exactly the groups with more than one line are reported, each with its text and its whole list |
| Analyzer.ReportDuplicates | py_check_imports.py:67-72 | the loop over the groups emits the specified duplicate records, in insertion order |
| Analyzer.AnalyzeFile | py_check_imports.py:11-74 | a read/permission failure gives one `{file, error}` record and no duplicates; a syntax error gives the same with `SyntaxError: ` before the message; any other failure is raised; a parsed file gives the unused records (as a multiset) and duplicate records of its imports |
| Analyzer.UnusedExact | py_check_imports.py:59-65 | the unused records correspond one-to-one to `imports - used`, each with the line and text of the name's last binding |
| Analyzer.UsedNeverUnused | py_check_imports.py:48-59 | no name an `ast.Name` node mentions is ever reported unused |
| Analyzer.DuplicatesExact | py_check_imports.py:67-74 | a duplicate record is produced for a text exactly when two or more aliases produced it, and it lists every line of that text |
| Analyzer.DuplicatesDistinct | py_check_imports.py:68 | each text is reported at most once per file |
| Analyzer.NoRepeatNoDuplicates | py_check_imports.py:69 | a file where no text occurs twice has no duplicate records |
| Analyzer.NoImportsNoFindings | py_check_imports.py:23-25 | with no import aliases, both result lists are empty |
| Analyzer.RepeatedImport | py_check_imports.py:36 | the same plain `import` (dotted or not) on two nodes gives one duplicate record with both lines in walk order, not sorted |
| Analyzer.ScenarioOneUnused | py_check_imports.py:59-74 | `import os`, `import sys`, `print(os.getcwd())`: only `import sys` on line 2 is unused and nothing is duplicated |
| Analyzer.ScenarioDuplicate | py_check_imports.py:59-74 | `import json` on lines 1 and 2: line 2 is unused (last write wins) and lines `[1, 2]` are duplicates |
| Analyzer.ScenarioAnnotationUse | py_check_imports.py:50-59 | `from typing import List as L` used in an annotation is not unused |
| Ordering.CodesInjective | py_check_imports.py:126 | comparing code points compares the file names themselves: equal code points mean equal names |
| Ordering.LexLeRefl | py_check_imports.py:126-128 | Python's ordering of lists is reflexive |
| Ordering.LexLeTotal | py_check_imports.py:126-128 | any two lists are comparable |
| Ordering.LexLeAntisym | py_check_imports.py:126-128 | two lists each no greater than the other are equal |
| Ordering.LexLeTrans | py_check_imports.py:126-128 | the ordering of lists is transitive |
| Ordering.KeyLeTotal | py_check_imports.py:126-128 | any two sort keys are comparable |
| Ordering.KeyLeAntisym | py_check_imports.py:126-128 | two keys each no greater than the other are equal |
| Ordering.KeyLeTrans | py_check_imports.py:126-128 | the ordering of sort keys is transitive |
| Ordering.UnusedKeyOrder | py_check_imports.py:126 | on unused records the key orders by file name, then by line |
| Ordering.DuplicateKeyOrder | py_check_imports.py:127 | on duplicate records the key orders by file name, then by the line list |
| Ordering.ErrorKeyOrder | py_check_imports.py:128 | on error records the key orders by file name only |
| Ordering.SortByKeySorted | py_check_imports.py:126-128 | `sorted` returns its input ordered by key |
| Ordering.SortByKeyPerm | py_check_imports.py:126-128 | `sorted` returns a permutation of its input |
| Ordering.SortByKeyStable | py_check_imports.py:126-128 | `sorted` is stable: records with equal keys keep their input order |
| Ordering.SortedStableUnique | py_check_imports.py:126-128 | an ordering that is sorted and stable is unique, so the sorted duplicate and error lists are fully determined |
| Runner.PyNamesExact | py_check_imports.py:81 | the filter keeps every name ending in `.py`, as often as it occurs, and no other name |
| Runner.PythonFiles | py_check_imports.py:78-83 | the loop returns the `.py` names of the listing in listing order, and a name is returned exactly when it is listed and ends in `.py` |
| Runner.RecordsWithKeyMember | py_check_imports.py:108-109 | a record is kept by a comprehension exactly when it carries the key tested |
| Runner.KeyFacts | py_check_imports.py:108-109 | only error records carry `error`; every other record carries `import_statement` |
| Runner.Partition | py_check_imports.py:108-116 | on a list without duplicate records, every record lands in exactly one of the two lists: error records in the errors, unused records in the unused |
| Runner.UnusedAreUnusedRecords | py_check_imports.py:59-65 | every unused result of a file is an unused record of that file |
| Runner.FileStep | py_check_imports.py:106-112 | one file's partitioned result is exactly its error records, its unused records and its duplicate records |
| Runner.AnalyzeAll | py_check_imports.py:105-112 | the loop stops at the first file whose analysis raises; otherwise it gathers every file's unused records (as a multiset), duplicate records and error records, in file order |
| Runner.Run | py_check_imports.py:100-128 | the run reports an invalid path, an empty directory, or the first escaping exception; otherwise the unused list is sorted and a permutation of all unused records, and the duplicate and error lists are the stably sorted gathered lists |

## Left out

- File reading, `ast.parse`, `ast.walk` and the `ast.NodeVisitor` (lines 14-17, 27, 50-57) are foreign parser calls. Their results are inputs.
- `os.walk` and `os.path.join` (lines 79-82) are left out. A directory arrives with its listing already made and joined.
- `argparse`, `os.path.isdir`/`isfile`, `sys.exit`, the stderr messages, `json.dumps` and the printed text report (lines 87-94, 100-104, 120-156) are I/O. The model keeps only which way the run ends (`RunOutcome`).
- The message text of an exception (`str(e)`) is an input. It is not derived from the exception.
- `setup.py` is packaging metadata and is not part of this model.
- Analyzer.ReportUnused: states its results only as a multiset, because Python iterates the set `imports - used` in an unspecified order.
- Runner.Run: states the unused list as sorted and a permutation of all unused records, not as one sequence. Records with the same file and line (for example `import os, sys` on one line, both unused) keep the unspecified set order among themselves.
- Python's `sorted` is Timsort. The model states it as a stable insertion sort. Both produce the only stable sorted ordering (`Ordering.SortedStableUnique`), so only the algorithm differs.
