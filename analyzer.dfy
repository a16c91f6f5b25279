/**
 * The script analyzer: picks an example's script, and reports its import
 * lines, its function-like lines, the domain concepts it mentions and its
 * line count.
 */
module Analyzer {
  import opened Wrappers
  import opened Strings
  import opened Corpus
  import opened Markdown
  import opened Selection

  /** `content.split("\n")` */
  function Lines(content: string): seq<string> {
    Split(content, '\n')
  }

  /** The line, once stripped, is an import declaration. */
  predicate IsImportLine(line: string) {
    StartsWith(Strip(line), "import ")
  }

  /** The raw line holds both `def ` and `(`. */
  predicate IsFunctionLine(line: string) {
    Contains(line, "def ") && Contains(line, "(")
  }

  /** The import declarations, stripped, in source order (mcp_server.py:388). */
  function Imports(lines: seq<string>): seq<string> {
    Select(lines, IsImportLine, Strip)
  }

  /** The function-like lines, stripped, in source order. */
  function FunctionLines(lines: seq<string>): seq<string> {
    Select(lines, IsFunctionLine, Strip)
  }

  /**
   * The import list holds the stripped import lines, all of them, in source
   * order: its k-th entry is the stripped line at the k-th position whose
   * stripped form starts with `import `.
   */
  lemma ImportsExact(lines: seq<string>)
    ensures exists idx :: IsSelection(idx, lines, IsImportLine) && |idx| == |Imports(lines)|
                          && forall k :: 0 <= k < |idx| ==> Imports(lines)[k] == Strip(lines[idx[k]])
  {
    SelectExact(lines, IsImportLine, Strip);
    assert IsSelection(Positions(lines, IsImportLine), lines, IsImportLine);
  }

  /** Likewise for the function-like lines. */
  lemma FunctionLinesExact(lines: seq<string>)
    ensures exists idx :: IsSelection(idx, lines, IsFunctionLine) && |idx| == |FunctionLines(lines)|
                          && forall k :: 0 <= k < |idx| ==> FunctionLines(lines)[k] == Strip(lines[idx[k]])
  {
    SelectExact(lines, IsFunctionLine, Strip);
    assert IsSelection(Positions(lines, IsFunctionLine), lines, IsFunctionLine);
  }

  /** The function-collecting loop of the analyzer. */
  method ExtractFunctions(lines: seq<string>) returns (functions: seq<string>)
    ensures functions == FunctionLines(lines)
  {
    functions := [];
    var i := 0;
    while i < |lines|
      invariant 0 <= i <= |lines|
      invariant functions == FunctionLines(lines[..i])
    {
      SelectSnoc(lines[..i], lines[i], IsFunctionLine, Strip);
      assert lines[..i + 1] == lines[..i] + [lines[i]];
      if Contains(lines[i], "def ") && Contains(lines[i], "(") {
        functions := functions + [Strip(lines[i])];
      }
      i := i + 1;
    }
    assert lines[..i] == lines;
  }

  /** The fixed catalog of domain concepts. */
  datatype Concept =
    | MessageManipulation | BodyProcessing | HeaderManipulation | PropertyManipulation
    | MessageLogging | CredentialManagement | XmlProcessing | CsvProcessing

  /** The catalog, in the order the report lists concepts. */
  const Catalog: seq<Concept> := [MessageManipulation, BodyProcessing, HeaderManipulation,
    PropertyManipulation, MessageLogging, CredentialManagement, XmlProcessing, CsvProcessing]

  function Label(c: Concept): string {
    match c
    case MessageManipulation => "Message manipulation"
    case BodyProcessing => "Body processing"
    case HeaderManipulation => "Header manipulation"
    case PropertyManipulation => "Property manipulation"
    case MessageLogging => "Message logging"
    case CredentialManagement => "Credential management"
    case XmlProcessing => "XML processing"
    case CsvProcessing => "CSV processing"
  }

  /** The substring test that signals a concept: case-sensitive, except for XML and CSV. */
  predicate Detected(c: Concept, content: string) {
    match c
    case MessageManipulation => Contains(content, "Message")
    case BodyProcessing => Contains(content, "getBody") || Contains(content, "setBody")
    case HeaderManipulation => Contains(content, "getHeader") || Contains(content, "setHeader")
    case PropertyManipulation => Contains(content, "getProperty") || Contains(content, "setProperty")
    case MessageLogging => Contains(content, "messageLog")
    case CredentialManagement => Contains(content, "SecureStoreService")
    case XmlProcessing => Contains(LowerStr(content), "xml")
    case CsvProcessing => Contains(LowerStr(content), "csv")
  }

  /** The concept tests, for one content. */
  function Detector(content: string): Concept -> bool {
    c => Detected(c, content)
  }

  /** Labels of the concepts signalled among the first `k` catalog entries, in catalog order. */
  function ConceptsUpTo(k: nat, content: string): seq<string>
    requires k <= |Catalog|
  {
    if k == 0 then []
    else ConceptsUpTo(k - 1, content) + (if Detected(Catalog[k - 1], content) then [Label(Catalog[k - 1])] else [])
  }

  /** Labels of the concepts the content signals, in catalog order. */
  function ConceptLabels(content: string): seq<string> {
    ConceptsUpTo(|Catalog|, content)
  }

  /** The concept list selects from the catalog with the concept tests. */
  lemma {:induction false} ConceptsUpToSelect(k: nat, content: string)
    requires k <= |Catalog|
    ensures ConceptsUpTo(k, content) == Select(Catalog[..k], Detector(content), Label)
  {
    if k > 0 {
      ConceptsUpToSelect(k - 1, content);
      assert Catalog[..k][..k - 1] == Catalog[..k - 1];
    }
  }

  /** The first four tests of the analyzer: the message, body, header and property concepts. */
  method DetectMessageConcepts(content: string) returns (concepts: seq<string>)
    ensures concepts == ConceptsUpTo(4, content)
  {
    concepts := [];
    if Contains(content, "Message") {
      concepts := concepts + ["Message manipulation"];
    }
    assert concepts == ConceptsUpTo(1, content);
    if Contains(content, "getBody") || Contains(content, "setBody") {
      concepts := concepts + ["Body processing"];
    }
    assert concepts == ConceptsUpTo(2, content);
    if Contains(content, "getHeader") || Contains(content, "setHeader") {
      concepts := concepts + ["Header manipulation"];
    }
    assert concepts == ConceptsUpTo(3, content);
    if Contains(content, "getProperty") || Contains(content, "setProperty") {
      concepts := concepts + ["Property manipulation"];
    }
  }

  /** The last four tests of the analyzer: logging, credentials, XML and CSV, after the first four. */
  method DetectOtherConcepts(content: string, first: seq<string>) returns (concepts: seq<string>)
    requires first == ConceptsUpTo(4, content)
    ensures concepts == ConceptLabels(content)
  {
    var lower := LowerStr(content);
    concepts := first;
    if Contains(content, "messageLog") {
      concepts := concepts + ["Message logging"];
    }
    assert concepts == ConceptsUpTo(5, content);
    if Contains(content, "SecureStoreService") {
      concepts := concepts + ["Credential management"];
    }
    assert concepts == ConceptsUpTo(6, content);
    if Contains(lower, "xml") {
      concepts := concepts + ["XML processing"];
    }
    assert concepts == ConceptsUpTo(7, content);
    if Contains(lower, "csv") {
      concepts := concepts + ["CSV processing"];
    }
  }

  /** The eight tests of the analyzer, each appending its label when it holds. */
  method DetectConcepts(content: string) returns (concepts: seq<string>)
    ensures concepts == ConceptLabels(content)
  {
    concepts := DetectMessageConcepts(content);
    concepts := DetectOtherConcepts(content, concepts);
  }

  /** Where a concept stands in the catalog. */
  function CatalogIndex(c: Concept): (i: nat)
    ensures i < |Catalog| && Catalog[i] == c
  {
    match c
    case MessageManipulation => 0
    case BodyProcessing => 1
    case HeaderManipulation => 2
    case PropertyManipulation => 3
    case MessageLogging => 4
    case CredentialManagement => 5
    case XmlProcessing => 6
    case CsvProcessing => 7
  }

  lemma LabelInjective(c: Concept, d: Concept)
    requires Label(c) == Label(d)
    ensures c == d
  {
    var lc, ld := Label(c), Label(d);
    assert lc[0] == ld[0] && lc[8] == ld[8];
  }

  /**
   * The reported concepts are catalog labels in catalog order: the k-th
   * reported label is that of the k-th catalog entry whose test holds.
   */
  lemma ConceptsInCatalogOrder(content: string)
    ensures exists idx :: IsSelection(idx, Catalog, Detector(content))
                          && |idx| == |ConceptLabels(content)|
                          && forall k :: 0 <= k < |idx| ==> ConceptLabels(content)[k] == Label(Catalog[idx[k]])
  {
    ConceptsUpToSelect(|Catalog|, content);
    assert Catalog[..|Catalog|] == Catalog;
    SelectExact(Catalog, Detector(content), Label);
    assert IsSelection(Positions(Catalog, Detector(content)), Catalog, Detector(content));
  }

  /** A concept's label is reported exactly when its substring test holds. */
  lemma ConceptReportedIff(content: string, c: Concept)
    ensures Label(c) in ConceptLabels(content) <==> Detected(c, content)
  {
    var keep := Detector(content);
    ConceptsUpToSelect(|Catalog|, content);
    assert Catalog[..|Catalog|] == Catalog;
    SelectExact(Catalog, keep, Label);
    var idx := Positions(Catalog, keep);
    var labels := ConceptLabels(content);
    var i := CatalogIndex(c);
    if Label(c) in labels {
      var k :| 0 <= k < |labels| && labels[k] == Label(c);
      LabelInjective(Catalog[idx[k]], c);
      assert keep(Catalog[idx[k]]);
    }
    if Detected(c, content) {
      assert keep(Catalog[i]);
      var k :| 0 <= k < |idx| && idx[k] == i;
      assert labels[k] == Label(c);
    }
  }

  /** What the analyzer reports about one script. */
  datatype Analysis = Analysis(imports: seq<string>, functions: seq<string>, concepts: seq<string>, lineCount: nat)

  function AnalysisOf(content: string): (a: Analysis)
    ensures a.lineCount == Count(content, '\n') + 1
  {
    var lines := Lines(content);
    Analysis(Imports(lines), FunctionLines(lines), ConceptLabels(content), |lines|)
  }

  /**
   * The script an analysis reads: `script.groovy` when the directory has an
   * entry of that name, and otherwise the first `*.groovy` entry the
   * directory enumerates; with its name and its text.
   */
  function ScriptOf(root: Root, name: string): (r: Result<(string, string), Error>)
    ensures r == Err(ExampleNotFound(name)) <==> name !in root
    ensures r == Err(NoGroovyScript(name)) <==>
              name in root && (root[name].PlainFile? || GroovyItems(root[name].items) == [])
    ensures r.Ok? ==> root[name].Dir? && IsGroovyName(r.value.0)
                      && Item(r.value.0, File(Some(r.value.1))) in root[name].items
    ensures r.Ok? <==> name in root && root[name].Dir?
                       && (if Exists(root[name].items, ScriptName) then ReadText(root[name].items, ScriptName).Some?
                           else GroovyItems(root[name].items) != [] && GroovyItems(root[name].items)[0].entry.File?
                                && GroovyItems(root[name].items)[0].entry.text.Some?)
    ensures r.Ok? && Exists(root[name].items, ScriptName) ==>
              r.value == (ScriptName, ReadText(root[name].items, ScriptName).value)
    ensures r.Ok? && !Exists(root[name].items, ScriptName) ==>
              r.value == (GroovyItems(root[name].items)[0].name, GroovyItems(root[name].items)[0].entry.text.value)
    ensures r.Err? && r.error.ReadFailed? ==> root[name].Dir? && r.error.name == name
  {
    if name !in root then Err(ExampleNotFound(name))
    else match root[name]
      case PlainFile => Err(NoGroovyScript(name))
      case Dir(items) =>
        if Exists(items, ScriptName) then
          ScriptIsGroovy(items);
          match ReadText(items, ScriptName)
          case Some(t) => Ok((ScriptName, t))
          case None => Err(ReadFailed(name, ScriptName))
        else
          var g := GroovyItems(items);
          if g == [] then Err(NoGroovyScript(name))
          else
            assert g[0] in g;
            match g[0].entry
            case File(Some(t)) => Ok((g[0].name, t))
            case _ => Err(ReadFailed(name, g[0].name))
  }

  /** A titled list section: the items, or `empty` when there are none, then a blank line. */
  function ListSection(heading: string, xs: seq<string>, pre: string, post: string, empty: string): seq<string> {
    [heading] + (if xs == [] then [empty] else Items(xs, pre, post)) + ["\n"]
  }

  const NoConcepts := "No specific concepts identified.\n"

  /** The analysis report, piece by piece. */
  function AnalysisReport(name: string, a: Analysis): seq<string> {
    ["# Script Analysis: " + name + "\n\n"]
    + ListSection("## Imports\n\n", a.imports, "- `", "`\n", "No imports found.\n")
    + ListSection("## Functions\n\n", a.functions, "- `", "`\n", "No functions found.\n")
    + ListSection("## Key Concepts\n\n", a.concepts, "- ", "\n", NoConcepts)
    + ["## Statistics\n\n"]
    + ["- Lines of code: " + NatToString(a.lineCount) + "\n"]
    + ["- Import statements: " + NatToString(|a.imports|) + "\n"]
    + ["- Functions: " + NatToString(|a.functions|) + "\n"]
  }

  /** The report says "No specific concepts identified." exactly when no concept was found. */
  lemma NoConceptsIff(name: string, a: Analysis)
    ensures NoConcepts in AnalysisReport(name, a) <==> a.concepts == []
  {
    if a.concepts != [] {
      var title := "# Script Analysis: " + name + "\n\n";
      var stats := ["## Statistics\n\n"]
        + ["- Lines of code: " + NatToString(a.lineCount) + "\n"]
        + ["- Import statements: " + NatToString(|a.imports|) + "\n"]
        + ["- Functions: " + NatToString(|a.functions|) + "\n"];
      assert title[0] == '#' && stats[1][0] == '-' && stats[2][0] == '-' && stats[3][0] == '-';
      assert NoConcepts[0] == 'N' && !StartsWith(NoConcepts, "- ") && !StartsWith(NoConcepts, "- `");
      assert NoConcepts !in Items(a.imports, "- `", "`\n") by {
        if NoConcepts in Items(a.imports, "- `", "`\n") {
          ItemsLeadWith(a.imports, "- `", "`\n", NoConcepts);
        }
      }
      assert NoConcepts !in Items(a.functions, "- `", "`\n") by {
        if NoConcepts in Items(a.functions, "- `", "`\n") {
          ItemsLeadWith(a.functions, "- `", "`\n", NoConcepts);
        }
      }
      assert NoConcepts !in Items(a.concepts, "- ", "\n") by {
        if NoConcepts in Items(a.concepts, "- ", "\n") {
          ItemsLeadWith(a.concepts, "- ", "\n", NoConcepts);
        }
      }
    }
  }

  /** `result += heading`, then the items (or `empty`), then a blank line. */
  method AppendListSection(result: seq<string>, heading: string, xs: seq<string>, pre: string, post: string,
                           empty: string) returns (r: seq<string>)
    ensures r == result + ListSection(heading, xs, pre, post, empty)
  {
    r := result + [heading];
    if xs != [] {
      r := AppendItems(r, xs, pre, post);
    } else {
      r := r + [empty];
    }
    r := r + ["\n"];
  }

  /** `analyze_script`: the report for the example's script, or the error it raises. */
  method AnalyzeScript(root: Root, name: string) returns (r: Result<seq<string>, Error>)
    ensures r.Err? <==> ScriptOf(root, name).Err?
    ensures r.Err? ==> r.error == ScriptOf(root, name).error
    ensures r.Ok? ==> r.value == AnalysisReport(name, AnalysisOf(ScriptOf(root, name).value.1))
  {
    var script := ScriptOf(root, name);
    if script.Err? {
      return Err(script.error);
    }
    var content := script.value.1;
    var lines := Lines(content);
    var imports := Imports(lines);
    var functions := ExtractFunctions(lines);
    var concepts := DetectConcepts(content);
    var result := ["# Script Analysis: " + name + "\n\n"];
    result := AppendListSection(result, "## Imports\n\n", imports, "- `", "`\n", "No imports found.\n");
    result := AppendListSection(result, "## Functions\n\n", functions, "- `", "`\n", "No functions found.\n");
    result := AppendListSection(result, "## Key Concepts\n\n", concepts, "- ", "\n", NoConcepts);
    result := result + ["## Statistics\n\n"];
    result := result + ["- Lines of code: " + NatToString(|lines|) + "\n"];
    result := result + ["- Import statements: " + NatToString(|imports|) + "\n"];
    result := result + ["- Functions: " + NatToString(|functions|) + "\n"];
    r := Ok(result);
  }
}
