/**
 * The listing of examples: every visible example directory that holds a
 * groovy script, with the first line of its README, its author and its
 * tags, optionally restricted to one tag.
 */
module Listing {
  import opened Wrappers
  import opened Strings
  import opened Ordering
  import opened Corpus
  import opened Markdown
  import opened Metadata

  /** `script.groovy` exists, or failing that some entry matches `*.groovy`. */
  predicate HasScript(items: seq<Item>) {
    Exists(items, ScriptName) || GroovyItems(items) != []
  }

  /**
   * The metadata value after the `try` block: `{}` when the file is
   * missing, unreadable or rejected, otherwise the loaded document, whose
   * fields are `None` when it is not a mapping.
   */
  function LoadedFields(items: seq<Item>, parse: Parser): (r: Option<MetaFields>)
    ensures !Exists(items, MetaName) ==> r == Some(NoFields)
    ensures LoadMeta(items, parse).None? ==> r == Some(NoFields)
    ensures LoadMeta(items, parse).Some? ==> r == LoadMeta(items, parse).value.fields
    ensures r.None? <==> LoadMeta(items, parse).Some? && LoadMeta(items, parse).value.fields.None?
  {
    match LoadMeta(items, parse)
    case None => Some(NoFields)
    case Some(loaded) => loaded.fields
  }

  /** `if tag:` — an empty tag filters nothing. */
  predicate TagActive(tag: Option<string>) {
    tag.Some? && tag.value != ""
  }

  /** `metadata.get("tags", [])` */
  function TagsOf(f: MetaFields): seq<string> {
    f.tags.GetOr([])
  }

  /** `metadata.get("author", "Unknown")` */
  function AuthorOf(f: MetaFields): string {
    f.author.GetOr("Unknown")
  }

  predicate TagAccepts(tag: Option<string>, f: MetaFields) {
    !TagActive(tag) || tag.value in TagsOf(f)
  }

  /**
   * The description: the README's first line with leading `#` and blanks
   * removed, then surrounding whitespace; empty when the README is
   * missing or unreadable.
   */
  function Description(items: seq<Item>): (r: string)
    ensures ReadText(items, ReadmeName).None? ==> r == ""
    ensures r == [] || (!IsSpace(r[0]) && !IsSpace(r[|r| - 1]))
  {
    match ReadText(items, ReadmeName)
    case None => ""
    case Some(t) => Strip(LStripChars(Split(t, '\n')[0], {'#', ' '}))
  }

  lemma StripKeepsOut(s: string, c: char)
    requires c !in s
    ensures c !in Strip(s)
  {
    var l := LStrip(s);
    assert l == s[|s| - |l|..];
    var r := RStrip(l);
    assert r == l[..|r|];
  }

  /** The description is a single line. */
  lemma DescriptionOneLine(items: seq<Item>)
    ensures '\n' !in Description(items)
  {
    var readme := ReadText(items, ReadmeName);
    if readme.Some? {
      var first := Split(readme.value, '\n')[0];
      var l := LStripChars(first, {'#', ' '});
      assert l == first[|first| - |l|..];
      StripKeepsOut(l, '\n');
    }
  }

  /** A README that opens with a `# Title` line is described by that title. */
  lemma DescriptionOfTitle(items: seq<Item>, title: string, rest: string)
    requires ReadText(items, ReadmeName) == Some("# " + title + "\n" + rest)
    requires '\n' !in title && title != [] && title[0] != '#' && title[0] != ' '
    requires !IsSpace(title[0]) && !IsSpace(title[|title| - 1])
    ensures Description(items) == title
  {
    var head := "# " + title;
    assert '\n' !in head by {
      assert forall k :: 2 <= k < |head| ==> head[k] == title[k - 2];
    }
    assert "# " + title + "\n" + rest == head + ['\n'] + rest;
    SplitAtFirst(head, rest, '\n');
    TitleLine(title);
    StripClean(title);
  }

  /** `"# Title".lstrip("# ")` is the title when the title starts with neither. */
  lemma TitleLine(title: string)
    requires title != [] && title[0] != '#' && title[0] != ' '
    ensures LStripChars("# " + title, {'#', ' '}) == title
  {
    var cs: set<char> := {'#', ' '};
    var head := "# " + title;
    assert title[0] !in cs;
    assert LStripChars(title, cs) == title;
    assert head[1..][0] == ' ' && ' ' in cs && head[1..][1..] == title;
    assert LStripChars(head[1..], cs) == title;
    assert head[0] == '#' && '#' in cs;
  }

  /** A listed example. */
  datatype Summary = Summary(name: string, description: string, author: string, tags: seq<string>)

  /** The summary of a directory, from the metadata it was listed with. */
  function SummaryOf(name: string, items: seq<Item>, f: MetaFields): Summary {
    Summary(name, Description(items), AuthorOf(f), TagsOf(f))
  }

  /** The directory is one the listing considers before it looks at the metadata. */
  predicate Candidate(root: Root, name: string) {
    Visible(root, name) && HasScript(root[name].items)
  }

  /**
   * The listing over the base directory's entries `names`, as written: a
   * candidate whose metadata is not a mapping makes `metadata.get` fail,
   * and the whole call with it.
   */
  function ListingAsWritten(root: Root, names: seq<string>, tag: Option<string>, parse: Parser): (r: Result<seq<Summary>, Error>)
    ensures r.Err? ==> r.error.MetadataNotMapping? && r.error.name in names && Candidate(root, r.error.name)
                       && LoadedFields(root[r.error.name].items, parse).None?
    ensures r.Ok? ==> r.value == ListingIn(root, names, tag, parse)
    decreases |names|
  {
    if names == [] then Ok([])
    else
      var n := names[|names| - 1];
      var init := names[..|names| - 1];
      assert forall m :: m in init ==> m in names;
      match ListingAsWritten(root, init, tag, parse)
      case Err(e) => Err(e)
      case Ok(before) =>
        if !Candidate(root, n) then
          assert before + [] == before;
          Ok(before)
        else
          match LoadedFields(root[n].items, parse)
          case None => Err(MetadataNotMapping(n))
          case Some(f) => Ok(before + (if TagAccepts(tag, f) then [SummaryOf(n, root[n].items, f)] else []))
  }

  /** A `meta.yaml` that loads to nothing (an empty file gives `None`) stops the listing. */
  lemma EmptyMetadataFails()
    ensures ListingAsWritten(map["ex" := Dir([Item(ScriptName, File(Some(""))), Item(MetaName, File(Some("")))])],
                             ["ex"], None, t => Some(Loaded(None, "null\n...\n")))
            == Err(MetadataNotMapping("ex"))
  {
    var items := [Item(ScriptName, File(Some(""))), Item(MetaName, File(Some("")))];
    var root := map["ex" := Dir(items)];
    var parse: Parser := t => Some(Loaded(None, "null\n...\n"));
    assert Candidate(root, "ex") by {
      assert "ex"[..1][0] != "."[0];
      assert Find(items, ScriptName).Some?;
    }
    assert Find(items, MetaName) == Some(File(Some("")));
    assert LoadedFields(items, parse) == None;
    assert ["ex"][..0] == [];
  }

  /** The metadata the listing evidently means to use: `{}` for anything that is not a readable mapping. */
  function MetaFor(items: seq<Item>, parse: Parser): MetaFields {
    LoadedFields(items, parse).GetOr(NoFields)
  }

  /** A `meta.yaml` that is missing, unreadable or rejected leaves author "Unknown" and no tags. */
  lemma MetaDefaults(items: seq<Item>, parse: Parser)
    requires LoadMeta(items, parse).None?
    ensures AuthorOf(MetaFor(items, parse)) == "Unknown" && TagsOf(MetaFor(items, parse)) == []
  {
  }

  /** What one directory contributes to the listing: its summary, or nothing. */
  function ListedAt(root: Root, n: string, tag: Option<string>, parse: Parser): seq<Summary> {
    if Candidate(root, n) && TagAccepts(tag, MetaFor(root[n].items, parse))
    then [SummaryOf(n, root[n].items, MetaFor(root[n].items, parse))] else []
  }

  /** The listing over `names`, with non-mapping metadata read as `{}`. */
  function ListingIn(root: Root, names: seq<string>, tag: Option<string>, parse: Parser): seq<Summary>
    decreases |names|
  {
    if names == [] then []
    else ListingIn(root, names[..|names| - 1], tag, parse) + ListedAt(root, names[|names| - 1], tag, parse)
  }

  /** The listing, over the entries in sorted order. */
  function Listing(root: Root, tag: Option<string>, parse: Parser): seq<Summary> {
    ListingIn(root, Sorted(root.Keys), tag, parse)
  }

  /** Where no candidate has non-mapping metadata, the code as written gives the intended listing. */
  lemma {:induction false} AsWrittenAgrees(root: Root, names: seq<string>, tag: Option<string>, parse: Parser)
    requires forall n :: n in names && Candidate(root, n) ==> LoadedFields(root[n].items, parse).Some?
    ensures ListingAsWritten(root, names, tag, parse) == Ok(ListingIn(root, names, tag, parse))
    decreases |names|
  {
    if names != [] {
      var init := names[..|names| - 1];
      assert forall n :: n in init ==> n in names;
      AsWrittenAgrees(root, init, tag, parse);
      var n := names[|names| - 1];
      assert n in names;
      if !Candidate(root, n) {
        assert ListedAt(root, n, tag, parse) == [];
        assert ListingIn(root, init, tag, parse) + [] == ListingIn(root, init, tag, parse);
      }
    }
  }

  /** The code as written fails exactly when some candidate's metadata is not a mapping. */
  lemma {:induction false} AsWrittenFailsIff(root: Root, names: seq<string>, tag: Option<string>, parse: Parser)
    ensures ListingAsWritten(root, names, tag, parse).Err? <==>
            exists n :: n in names && Candidate(root, n) && LoadedFields(root[n].items, parse).None?
    decreases |names|
  {
    if names != [] {
      var last := names[|names| - 1];
      var init := names[..|names| - 1];
      AsWrittenFailsIff(root, init, tag, parse);
      assert names == init + [last];
      assert forall n :: n in names <==> n in init || n == last;
    }
  }

  lemma {:induction false} ListingInIff(root: Root, names: seq<string>, tag: Option<string>, parse: Parser, e: Summary)
    ensures e in ListingIn(root, names, tag, parse) <==>
            e.name in names && Candidate(root, e.name) && TagAccepts(tag, MetaFor(root[e.name].items, parse))
            && e == SummaryOf(e.name, root[e.name].items, MetaFor(root[e.name].items, parse))
    decreases |names|
  {
    if names != [] {
      var init := names[..|names| - 1];
      ListingInIff(root, init, tag, parse, e);
      assert names == init + [names[|names| - 1]];
    }
  }

  /**
   * An example is listed exactly when its directory is visible, holds a
   * groovy script and passes the tag filter, and it is listed with its
   * description, author and tags.
   */
  lemma ListedIff(root: Root, tag: Option<string>, parse: Parser, e: Summary)
    ensures e in Listing(root, tag, parse) <==>
            Candidate(root, e.name) && TagAccepts(tag, MetaFor(root[e.name].items, parse))
            && e == SummaryOf(e.name, root[e.name].items, MetaFor(root[e.name].items, parse))
  {
    ListingInIff(root, Sorted(root.Keys), tag, parse, e);
  }

  /** Under an active tag, every listed example carries it. */
  lemma FilteredCarryTag(root: Root, tag: Option<string>, parse: Parser, e: Summary)
    requires TagActive(tag) && e in Listing(root, tag, parse)
    ensures tag.value in e.tags
  {
    ListedIff(root, tag, parse, e);
  }

  lemma {:induction false} ListingInAscending(root: Root, names: seq<string>, tag: Option<string>, parse: Parser)
    requires Ascending(names)
    ensures forall i, j :: 0 <= i < j < |ListingIn(root, names, tag, parse)| ==>
              Less(ListingIn(root, names, tag, parse)[i].name, ListingIn(root, names, tag, parse)[j].name)
    decreases |names|
  {
    if names != [] {
      var n := |names| - 1;
      var init := names[..n];
      assert Ascending(init);
      ListingInAscending(root, init, tag, parse);
      var before := ListingIn(root, init, tag, parse);
      forall e | e in before ensures Less(e.name, names[n]) {
        ListingInIff(root, init, tag, parse, e);
        var i :| 0 <= i < n && init[i] == e.name;
      }
      assert forall i :: 0 <= i < |before| ==> before[i] in before;
    }
  }

  /** Examples are listed in ascending order of name. */
  lemma ListingAscending(root: Root, tag: Option<string>, parse: Parser)
    ensures forall i, j :: 0 <= i < j < |Listing(root, tag, parse)| ==>
              Less(Listing(root, tag, parse)[i].name, Listing(root, tag, parse)[j].name)
  {
    ListingInAscending(root, Sorted(root.Keys), tag, parse);
  }

  /** One example's block: heading, description if any, author, tags if any, blank line. */
  function SummaryPieces(e: Summary): seq<string> {
    ["## " + e.name + "\n"]
    + (if e.description != "" then [e.description + "\n"] else [])
    + ["- **Author:** " + e.author + "\n"]
    + (if e.tags != [] then ["- **Tags:** " + JoinWith(e.tags, ", ") + "\n"] else [])
    + ["\n"]
  }

  function SummariesPieces(es: seq<Summary>): seq<string>
    decreases |es|
  {
    if es == [] then [] else SummariesPieces(es[..|es| - 1]) + SummaryPieces(es[|es| - 1])
  }

  function ListingHeader(tag: Option<string>): seq<string> {
    ["# SAP CPI Groovy Examples\n\n"] + (if TagActive(tag) then ["Filtered by tag: **" + tag.value + "**\n\n"] else [])
  }

  function ListingReport(tag: Option<string>, es: seq<Summary>): seq<string> {
    ListingHeader(tag) + SummariesPieces(es)
  }

  /** The checks one directory goes through, and the summary it yields. */
  method ConsiderExample(root: Root, n: string, tag: Option<string>, parse: Parser) returns (found: seq<Summary>)
    ensures found == ListedAt(root, n, tag, parse)
  {
    found := [];
    if n in root && root[n].Dir? && !StartsWith(n, ".") {
      var items := root[n].items;
      if Exists(items, ScriptName) || GroovyItems(items) != [] {
        var metadata := MetaFor(items, parse);
        if !TagActive(tag) || tag.value in TagsOf(metadata) {
          found := [Summary(n, Description(items), AuthorOf(metadata), TagsOf(metadata))];
        }
      }
    }
  }

  /** The loop over the base directory's entries, in the order given, collecting the entries. */
  method CollectSummaries(root: Root, names: seq<string>, tag: Option<string>, parse: Parser) returns (examples: seq<Summary>)
    ensures examples == ListingIn(root, names, tag, parse)
  {
    examples := [];
    var i := 0;
    while i < |names|
      invariant 0 <= i <= |names|
      invariant examples == ListingIn(root, names[..i], tag, parse)
    {
      assert names[..i + 1][..i] == names[..i];
      assert ListingIn(root, names[..i + 1], tag, parse)
             == ListingIn(root, names[..i], tag, parse) + ListedAt(root, names[i], tag, parse);
      var found := ConsiderExample(root, names[i], tag, parse);
      examples := examples + found;
      i := i + 1;
    }
    assert names[..i] == names;
  }

  /** One example's block. */
  method AppendSummary(result: seq<string>, e: Summary) returns (r: seq<string>)
    ensures r == result + SummaryPieces(e)
  {
    r := result + ["## " + e.name + "\n"];
    if e.description != "" {
      r := r + [e.description + "\n"];
    }
    r := r + ["- **Author:** " + e.author + "\n"];
    if e.tags != [] {
      r := r + ["- **Tags:** " + JoinWith(e.tags, ", ") + "\n"];
    }
    r := r + ["\n"];
  }

  /** The blocks of the listed examples. */
  method AppendSummaries(result: seq<string>, es: seq<Summary>) returns (r: seq<string>)
    ensures r == result + SummariesPieces(es)
  {
    r := result;
    var i := 0;
    while i < |es|
      invariant 0 <= i <= |es|
      invariant r == result + SummariesPieces(es[..i])
    {
      assert es[..i + 1][..i] == es[..i];
      assert SummariesPieces(es[..i + 1]) == SummariesPieces(es[..i]) + SummaryPieces(es[i]);
      r := AppendSummary(r, es[i]);
      i := i + 1;
    }
    assert es[..i] == es;
  }

  /** `list_examples`, with non-mapping metadata read as `{}`. */
  method ListExamples(root: Root, tag: Option<string>, parse: Parser) returns (r: seq<string>)
    ensures r == ListingReport(tag, Listing(root, tag, parse))
  {
    var examples := CollectSummaries(root, Sorted(root.Keys), tag, parse);
    r := ["# SAP CPI Groovy Examples\n\n"];
    if TagActive(tag) {
      r := r + ["Filtered by tag: **" + tag.value + "**\n\n"];
    }
    assert r == ListingHeader(tag);
    r := AppendSummaries(r, examples);
  }
}
