/**
 * The comparator: the file names two example directories share or hold
 * alone, and, when both have `script.groovy`, the same for their import lines.
 */
module Comparator {
  import opened Wrappers
  import opened Strings
  import opened Ordering
  import opened Corpus
  import opened Markdown
  import opened Selection
  import opened Analyzer

  /** What two sets share, and what each holds alone. */
  datatype SetDiff = SetDiff(common: set<string>, onlyLeft: set<string>, onlyRight: set<string>)

  /**
   * `a & b`, `a - b` and `b - a`: three pairwise disjoint sets that split
   * `a` into shared and left-only, and `b` into shared and right-only.
   */
  function Diff(a: set<string>, b: set<string>): (d: SetDiff)
    ensures d.common !! d.onlyLeft && d.common !! d.onlyRight && d.onlyLeft !! d.onlyRight
    ensures d.common + d.onlyLeft == a && d.common + d.onlyRight == b
    ensures d.common + d.onlyLeft + d.onlyRight == a + b
  {
    SetDiff(a * b, a - b, b - a)
  }

  /** A set compared with itself is all shared. */
  lemma DiffSelf(a: set<string>)
    ensures Diff(a, a) == SetDiff(a, {}, {})
  {
    assert a - a == {};
  }

  /** The set of stripped import lines of a script. */
  function ImportSet(content: string): set<string> {
    set x | x in Imports(Lines(content))
  }

  /** A string is in the import set exactly when some line of the script, stripped, is that import line. */
  lemma ImportSetIff(content: string, x: string)
    ensures x in ImportSet(content) <==>
            exists i :: 0 <= i < |Lines(content)| && IsImportLine(Lines(content)[i]) && Strip(Lines(content)[i]) == x
  {
    var lines := Lines(content);
    SelectMember(lines, IsImportLine, Strip, x);
    assert x in ImportSet(content) <==> x in Imports(lines);
  }

  /** The file comparison, and the import comparison when both examples have `script.groovy`. */
  datatype Comparison = Comparison(files: SetDiff, imports: Option<SetDiff>)

  /**
   * What `compare_examples` computes: the errors it raises first (a missing
   * example, then an example that is not a directory, then an unreadable
   * script), and otherwise both comparisons.
   */
  function ComparisonOf(root: Root, e1: string, e2: string): (r: Result<Comparison, Error>)
    ensures r.Err? && r.error.ExampleNotFound? <==> e1 !in root || e2 !in root
    ensures r.Err? && r.error.ExampleNotFound? ==> r.error.name == (if e1 !in root then e1 else e2)
    ensures r.Err? && r.error.NotADirectory? <==>
              e1 in root && e2 in root && (root[e1].PlainFile? || root[e2].PlainFile?)
    ensures r.Err? && r.error.NotADirectory? ==> r.error.name == (if root[e1].PlainFile? then e1 else e2)
    ensures r.Err? && r.error.ReadFailed? <==>
              e1 in root && e2 in root && root[e1].Dir? && root[e2].Dir?
              && Exists(root[e1].items, ScriptName) && Exists(root[e2].items, ScriptName)
              && (ReadText(root[e1].items, ScriptName).None? || ReadText(root[e2].items, ScriptName).None?)
    ensures r.Err? && r.error.ReadFailed? ==>
              r.error == ReadFailed(if ReadText(root[e1].items, ScriptName).None? then e1 else e2, ScriptName)
    ensures r.Err? ==> r.error.ExampleNotFound? || r.error.NotADirectory? || r.error.ReadFailed?
    ensures r.Ok? ==> root[e1].Dir? && root[e2].Dir?
                      && r.value.files == Diff(FileNames(root[e1].items), FileNames(root[e2].items))
    ensures r.Ok? ==> (r.value.imports.Some? <==>
                       Exists(root[e1].items, ScriptName) && Exists(root[e2].items, ScriptName))
    ensures r.Ok? && r.value.imports.Some? ==>
              ReadText(root[e1].items, ScriptName).Some? && ReadText(root[e2].items, ScriptName).Some?
              && r.value.imports.value == Diff(ImportSet(ReadText(root[e1].items, ScriptName).value),
                                               ImportSet(ReadText(root[e2].items, ScriptName).value))
  {
    if e1 !in root then Err(ExampleNotFound(e1))
    else if e2 !in root then Err(ExampleNotFound(e2))
    else if root[e1].PlainFile? then Err(NotADirectory(e1))
    else if root[e2].PlainFile? then Err(NotADirectory(e2))
    else
      var items1, items2 := root[e1].items, root[e2].items;
      var files := Diff(FileNames(items1), FileNames(items2));
      if Exists(items1, ScriptName) && Exists(items2, ScriptName) then
        match ReadText(items1, ScriptName)
        case None => Err(ReadFailed(e1, ScriptName))
        case Some(c1) =>
          match ReadText(items2, ScriptName)
          case None => Err(ReadFailed(e2, ScriptName))
          case Some(c2) => Ok(Comparison(files, Some(Diff(ImportSet(c1), ImportSet(c2)))))
      else Ok(Comparison(files, None))
  }

  /** Comparing an example with itself: every file and every import is common. */
  lemma CompareSelf(root: Root, e: string)
    requires ComparisonOf(root, e, e).Ok?
    ensures ComparisonOf(root, e, e).value.files == SetDiff(FileNames(root[e].items), {}, {})
    ensures ComparisonOf(root, e, e).value.imports.Some? ==>
              ComparisonOf(root, e, e).value.imports.value.onlyLeft == {}
              && ComparisonOf(root, e, e).value.imports.value.onlyRight == {}
  {
    DiffSelf(FileNames(root[e].items));
    var c1 := ReadText(root[e].items, ScriptName);
    if c1.Some? {
      DiffSelf(ImportSet(c1.value));
    }
  }

  const NoneMarker := "None\n"

  /**
   * A heading, then one piece per element of the sorted set `xs`, or the
   * "None" marker for an empty set when `sayNone`, then a blank line when `blank`.
   */
  function SeqSection(heading: string, xs: seq<string>, pre: string, post: string, sayNone: bool, blank: bool): seq<string> {
    [heading] + (if sayNone && xs == [] then [NoneMarker] else Items(xs, pre, post))
    + (if blank then ["\n"] else [])
  }

  /** The "None" marker appears exactly when the set is empty and the section is one that marks it. */
  lemma NoneMarkerIff(heading: string, s: set<string>, pre: string, post: string, sayNone: bool, blank: bool)
    requires heading != NoneMarker && StartsWith(pre, "-")
    ensures NoneMarker in SeqSection(heading, Sorted(s), pre, post, sayNone, blank) <==> sayNone && s == {}
  {
    var xs := Sorted(s);
    assert xs == [] <==> s == {};
    SeqSectionNone(heading, xs, pre, post, sayNone, blank);
  }

  /** `NoneMarkerIff` for any sequence of elements. */
  lemma SeqSectionNone(heading: string, xs: seq<string>, pre: string, post: string, sayNone: bool, blank: bool)
    requires heading != NoneMarker && StartsWith(pre, "-")
    ensures NoneMarker in SeqSection(heading, xs, pre, post, sayNone, blank) <==> sayNone && xs == []
  {
    assert !StartsWith(NoneMarker, pre) by {
      assert NoneMarker[0] == 'N';
    }
    if NoneMarker in Items(xs, pre, post) {
      ItemsLeadWith(xs, pre, post, NoneMarker);
    }
    var body := if sayNone && xs == [] then [NoneMarker] else Items(xs, pre, post);
    var tail: seq<string> := if blank then ["\n"] else [];
    assert SeqSection(heading, xs, pre, post, sayNone, blank) == [heading] + body + tail;
    assert NoneMarker in [heading] + body + tail <==> NoneMarker in body;
  }

  /** Comparing an example with itself renders both "Only in" file sections as "None". */
  lemma SelfComparisonSaysNone(root: Root, e: string)
    requires ComparisonOf(root, e, e).Ok?
    ensures var files := ComparisonOf(root, e, e).value.files;
            SeqSection("### Only in " + e + "\n", Sorted(files.onlyLeft), "- ", "\n", true, true)
              == ["### Only in " + e + "\n", NoneMarker, "\n"]
            && SeqSection("### Only in " + e + "\n", Sorted(files.onlyRight), "- ", "\n", true, true)
              == ["### Only in " + e + "\n", NoneMarker, "\n"]
  {
    CompareSelf(root, e);
    assert Sorted({}) == [];
  }

  /** The file-structure part of the report. */
  function FileSections(e1: string, e2: string, files: SetDiff): seq<string> {
    ["# Comparing Examples: " + e1 + " vs " + e2 + "\n\n", "## File Structure\n\n"]
    + SeqSection("### Common files\n", Sorted(files.common), "- ", "\n", false, true)
    + SeqSection("### Only in " + e1 + "\n", Sorted(files.onlyLeft), "- ", "\n", true, true)
    + SeqSection("### Only in " + e2 + "\n", Sorted(files.onlyRight), "- ", "\n", true, true)
  }

  /** The imports part of the report; the last section has no blank line after it. */
  function ImportSections(e1: string, e2: string, d: SetDiff): seq<string> {
    ["## Imports Comparison\n\n"]
    + SeqSection("### Common imports\n", Sorted(d.common), "- `", "`\n", true, true)
    + SeqSection("### Only in " + e1 + "\n", Sorted(d.onlyLeft), "- `", "`\n", true, true)
    + SeqSection("### Only in " + e2 + "\n", Sorted(d.onlyRight), "- `", "`\n", true, false)
  }

  /** The report's text, piece by piece. */
  function ComparisonReport(e1: string, e2: string, c: Comparison): seq<string> {
    FileSections(e1, e2, c.files) + (if c.imports.Some? then ImportSections(e1, e2, c.imports.value) else [])
  }

  /** One section of the report, as the loops over `sorted(...)` write it. */
  method AppendSection(result: seq<string>, heading: string, xs: seq<string>, pre: string, post: string,
                          sayNone: bool, blank: bool) returns (r: seq<string>)
    ensures r == result + SeqSection(heading, xs, pre, post, sayNone, blank)
  {
    r := result + [heading];
    if sayNone && xs == [] {
      r := r + [NoneMarker];
    } else {
      r := AppendItems(r, xs, pre, post);
    }
    if blank {
      r := r + ["\n"];
    }
  }

  /** The file-structure sections, written one after another. */
  method WriteFileSections(e1: string, e2: string, files: SetDiff) returns (result: seq<string>)
    ensures result == FileSections(e1, e2, files)
  {
    result := ["# Comparing Examples: " + e1 + " vs " + e2 + "\n\n"];
    result := result + ["## File Structure\n\n"];
    result := AppendSection(result, "### Common files\n", Sorted(files.common), "- ", "\n", false, true);
    result := AppendSection(result, "### Only in " + e1 + "\n", Sorted(files.onlyLeft), "- ", "\n", true, true);
    result := AppendSection(result, "### Only in " + e2 + "\n", Sorted(files.onlyRight), "- ", "\n", true, true);
  }

  /** The import sections, written one after another. */
  method WriteImportSections(e1: string, e2: string, d: SetDiff) returns (result: seq<string>)
    ensures result == ImportSections(e1, e2, d)
  {
    result := AppendSection(["## Imports Comparison\n\n"], "### Common imports\n", Sorted(d.common), "- `", "`\n", true, true);
    result := AppendSection(result, "### Only in " + e1 + "\n", Sorted(d.onlyLeft), "- `", "`\n", true, true);
    result := AppendSection(result, "### Only in " + e2 + "\n", Sorted(d.onlyRight), "- `", "`\n", true, false);
  }

  /** `compare_examples`: the comparison report, or the error it raises. */
  method CompareExamples(root: Root, e1: string, e2: string) returns (r: Result<seq<string>, Error>)
    ensures r.Err? <==> ComparisonOf(root, e1, e2).Err?
    ensures r.Err? ==> r.error == ComparisonOf(root, e1, e2).error
    ensures r.Ok? ==> r.value == ComparisonReport(e1, e2, ComparisonOf(root, e1, e2).value)
  {
    var c := ComparisonOf(root, e1, e2);
    if c.Err? {
      return Err(c.error);
    }
    var result := WriteFileSections(e1, e2, c.value.files);
    if c.value.imports.Some? {
      var imports := WriteImportSections(e1, e2, c.value.imports.value);
      result := result + imports;
    }
    r := Ok(result);
  }
}
