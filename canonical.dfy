/**
 * The name an import binds and the canonical single-target text of the
 * statement that binds it (py_check_imports.py, lines 29-46).
 *
 * The parser is not modelled: an import node arrives as a value holding
 * its line and its list of aliases, as `ast.Import` / `ast.ImportFrom` do.
 */
module Canonical {

  datatype Option<+T> = None | Some(value: T)

  /** One entry of a node's `names` list: the imported name and its `as` part. */
  datatype Alias = Alias(name: string, asname: Option<string>)

  /** An import node: `import a.b as c, d` or `from m import x as y, z`. */
  datatype ImportNode =
    | Import(line: nat, names: seq<Alias>)
    | ImportFrom(line: nat, moduleName: Option<string>, names: seq<Alias>)

  /** Python truthiness of `alias.asname`: a missing and an empty alias both read as absent. */
  predicate HasAlias(a: Alias) {
    a.asname.Some? && a.asname.value != ""
  }

  /** `node.module if node.module else ""`. */
  function ModuleText(m: Option<string>): string {
    if m.Some? then m.value else ""
  }

  /** `s.split(sep)[0]`: the text before the first `sep`, or all of `s`. */
  function SegmentBefore(s: string, sep: char): (r: string)
    ensures r <= s
    ensures sep !in r
    ensures r == s || s[|r|] == sep
  {
    if s == [] || s[0] == sep then [] else [s[0]] + SegmentBefore(s[1..], sep)
  }

  /** The identifier the import introduces into the file's namespace. */
  function BoundName(node: ImportNode, a: Alias): (r: string)
    ensures HasAlias(a) ==> r == a.asname.value
    ensures !HasAlias(a) && node.ImportFrom? ==> r == a.name
    ensures !HasAlias(a) && node.Import? ==>
              r <= a.name && '.' !in r && (r == a.name || a.name[|r|] == '.')
  {
    if HasAlias(a) then a.asname.value
    else if node.Import? then SegmentBefore(a.name, '.')
    else a.name
  }

  function AliasSuffix(a: Alias): string {
    if HasAlias(a) then " as " + a.asname.value else ""
  }

  /** What follows the `import` keyword: the name and, when present, its alias. */
  function ImportTarget(a: Alias): string {
    a.name + AliasSuffix(a)
  }

  /** The reconstructed single-target statement, the key of duplicate detection. */
  function StatementText(node: ImportNode, a: Alias): string {
    match node
    case Import(_, _) => "import " + ImportTarget(a)
    case ImportFrom(_, mod, _) => "from " + ModuleText(mod) + " import " + ImportTarget(a)
  }

  /*
   * Reading a canonical text back. Python identifiers and dotted module
   * paths hold no space, so on such names the text determines the import.
   */

  /** The structured reading of one canonical statement text. */
  datatype StatementForm =
    | PlainForm(name: string, alias: Option<string>)
    | FromForm(moduleName: string, name: string, alias: Option<string>)

  predicate IsWord(s: string) {
    ' ' !in s
  }

  /** The alias as the canonical text shows it: absent when Python reads it as falsy. */
  function EffectiveAlias(a: Alias): Option<string> {
    if HasAlias(a) then Some(a.asname.value) else None
  }

  /** What the canonical text of `a` in `node` says. */
  function FormOf(node: ImportNode, a: Alias): StatementForm {
    match node
    case Import(_, _) => PlainForm(a.name, EffectiveAlias(a))
    case ImportFrom(_, mod, _) => FromForm(ModuleText(mod), a.name, EffectiveAlias(a))
  }

  /** Every name the text is built from is a single word. */
  predicate WordsOnly(node: ImportNode, a: Alias) {
    && IsWord(a.name)
    && (a.asname.Some? ==> IsWord(a.asname.value))
    && (node.ImportFrom? && node.moduleName.Some? ==> IsWord(node.moduleName.value))
  }

  /** Reads `<name>` or `<name> as <alias>`. */
  function ParseTail(s: string): Option<(string, Option<string>)> {
    var name := SegmentBefore(s, ' ');
    var rest := s[|name|..];
    if rest == [] then Some((name, None))
    else if |rest| > 4 && rest[..4] == " as " && IsWord(rest[4..]) then Some((name, Some(rest[4..])))
    else None
  }

  /** Reads a canonical statement text back into its parts. */
  function ParseStatement(t: string): Option<StatementForm> {
    if |t| >= 7 && t[..7] == "import " then
      match ParseTail(t[7..])
      case Some((name, alias)) => Some(PlainForm(name, alias))
      case None => None
    else if |t| >= 5 && t[..5] == "from " then
      var mod := SegmentBefore(t[5..], ' ');
      var rest := t[5 + |mod|..];
      if |rest| >= 8 && rest[..8] == " import " then
        match ParseTail(rest[8..])
        case Some((name, alias)) => Some(FromForm(mod, name, alias))
        case None => None
      else None
    else None
  }

  /** The first segment of a word followed by the separator (or nothing) is that word. */
  lemma SegmentOfWord(w: string, rest: string, sep: char)
    requires sep !in w
    requires rest == [] || rest[0] == sep
    ensures SegmentBefore(w + rest, sep) == w
  {
    assert (w + rest)[..|w|] == w;
  }

  lemma ParseTailOfText(a: Alias)
    requires IsWord(a.name)
    requires a.asname.Some? ==> IsWord(a.asname.value)
    ensures ParseTail(ImportTarget(a)) == Some((a.name, EffectiveAlias(a)))
  {
    var s := ImportTarget(a);
    SegmentOfWord(a.name, AliasSuffix(a), ' ');
    assert s[|a.name|..] == AliasSuffix(a);
    if HasAlias(a) {
      var suffix := " as " + a.asname.value;
      assert suffix[..4] == " as ";
      assert suffix[4..] == a.asname.value;
    }
  }

  /** A text starting with `import ` is read by its tail. */
  lemma ParsePlain(tail: string)
    ensures ParseStatement("import " + tail) ==
              match ParseTail(tail)
              case Some((name, alias)) => Some(PlainForm(name, alias))
              case None => None
  {
    var t := "import " + tail;
    assert t[..7] == "import ";
    assert t[7..] == tail;
  }

  /** A text starting with `from <word> import ` is read by the word and the tail. */
  lemma ParseFrom(m: string, tail: string)
    requires IsWord(m)
    ensures ParseStatement("from " + m + " import " + tail) ==
              match ParseTail(tail)
              case Some((name, alias)) => Some(FromForm(m, name, alias))
              case None => None
  {
    var t := "from " + m + " import " + tail;
    assert t[..5] == "from ";
    assert t[..7][0] == t[0] == 'f';
    assert t[5..] == m + (" import " + tail);
    SegmentOfWord(m, " import " + tail, ' ');
    var rest := t[5 + |m|..];
    assert rest == " import " + tail;
    assert rest[..8] == " import ";
    assert rest[8..] == tail;
  }

  /** The canonical text reads back as the import it was built from. */
  lemma {:induction false} ParseStatementText(node: ImportNode, a: Alias)
    requires WordsOnly(node, a)
    ensures ParseStatement(StatementText(node, a)) == Some(FormOf(node, a))
  {
    match node
    case Import(_, _) =>
      ParsePlainText(a);
    case ImportFrom(_, mod, _) =>
      ParseFromText(ModuleText(mod), a);
  }

  lemma ParsePlainText(a: Alias)
    requires IsWord(a.name) && (a.asname.Some? ==> IsWord(a.asname.value))
    ensures ParseStatement("import " + ImportTarget(a)) == Some(PlainForm(a.name, EffectiveAlias(a)))
  {
    ParseTailOfText(a);
    ParsePlain(ImportTarget(a));
  }

  lemma ParseFromText(m: string, a: Alias)
    requires IsWord(m) && IsWord(a.name) && (a.asname.Some? ==> IsWord(a.asname.value))
    ensures ParseStatement("from " + m + " import " + ImportTarget(a))
         == Some(FromForm(m, a.name, EffectiveAlias(a)))
  {
    ParseTailOfText(a);
    ParseFrom(m, ImportTarget(a));
  }

  /** Two imports with the same canonical text are the same import (duplicates are text-exact). */
  lemma SameTextSameForm(n1: ImportNode, a1: Alias, n2: ImportNode, a2: Alias)
    requires WordsOnly(n1, a1) && WordsOnly(n2, a2)
    requires StatementText(n1, a1) == StatementText(n2, a2)
    ensures FormOf(n1, a1) == FormOf(n2, a2)
  {
    ParseStatementText(n1, a1);
    ParseStatementText(n2, a2);
  }

  /** The bound name as a function of what the canonical text says. */
  function BoundNameOfForm(f: StatementForm): string {
    match f
    case PlainForm(name, alias) => if alias.Some? then alias.value else SegmentBefore(name, '.')
    case FromForm(_, name, alias) => if alias.Some? then alias.value else name
  }

  /** One canonical text always binds one name: every duplicate group shares its bound name. */
  lemma SameTextSameName(n1: ImportNode, a1: Alias, n2: ImportNode, a2: Alias)
    requires WordsOnly(n1, a1) && WordsOnly(n2, a2)
    requires StatementText(n1, a1) == StatementText(n2, a2)
    ensures BoundName(n1, a1) == BoundName(n2, a2)
  {
    SameTextSameForm(n1, a1, n2, a2);
    assert BoundName(n1, a1) == BoundNameOfForm(FormOf(n1, a1));
    assert BoundName(n2, a2) == BoundNameOfForm(FormOf(n2, a2));
  }

  /** `import os` and `import os as o` are different texts, so never duplicates of each other. */
  lemma AliasChangesText(line: nat, name: string, alias: string)
    requires alias != ""
    ensures StatementText(Import(line, []), Alias(name, None))
         != StatementText(Import(line, []), Alias(name, Some(alias)))
  {
  }
}
