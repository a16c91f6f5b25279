/**
 * The keyword search: every visible example directory whose README or one
 * of whose `*.groovy` files contains the query, compared in lower case.
 */
module Search {
  import opened Wrappers
  import opened Strings
  import opened Ordering
  import opened Corpus
  import opened Markdown
  import opened Selection
  import opened Analyzer

  /** `ql in text.lower()`, for an already lowercased query `ql`. */
  predicate MatchesText(text: string, ql: string) {
    Contains(LowerStr(text), ql)
  }

  /** The README reads, and its text matches. */
  predicate ReadmeHit(items: seq<Item>, ql: string) {
    ReadText(items, ReadmeName).Some? && MatchesText(ReadText(items, ReadmeName).value, ql)
  }

  /** A glob match that reads, and whose text matches; a folder or an undecodable file is skipped. */
  predicate ScriptHit(it: Item, ql: string) {
    it.entry.File? && it.entry.text.Some? && MatchesText(it.entry.text.value, ql)
  }

  function ScriptHitFor(ql: string): Item -> bool {
    it => ScriptHit(it, ql)
  }

  function ScriptLabel(it: Item): string {
    "Script: " + it.name
  }

  /** Where one directory matches: "README" first, then its scripts in glob order. */
  function Matches(items: seq<Item>, ql: string): seq<string> {
    (if ReadmeHit(items, ql) then ["README"] else []) + Select(GroovyItems(items), ScriptHitFor(ql), ScriptLabel)
  }

  /** The script labels name exactly the matching groovy files of the directory. */
  lemma ScriptsIff(items: seq<Item>, ql: string, m: string)
    ensures m in Select(GroovyItems(items), ScriptHitFor(ql), ScriptLabel) <==>
            exists it :: it in items && IsGroovyName(it.name) && ScriptHit(it, ql) && m == ScriptLabel(it)
  {
    var g := GroovyItems(items);
    SelectMember(g, ScriptHitFor(ql), ScriptLabel, m);
    if exists i :: 0 <= i < |g| && ScriptHitFor(ql)(g[i]) && ScriptLabel(g[i]) == m {
      var i :| 0 <= i < |g| && ScriptHitFor(ql)(g[i]) && ScriptLabel(g[i]) == m;
      assert g[i] in g;
    }
    if exists it :: it in items && IsGroovyName(it.name) && ScriptHit(it, ql) && m == ScriptLabel(it) {
      var it :| it in items && IsGroovyName(it.name) && ScriptHit(it, ql) && m == ScriptLabel(it);
      assert it in g;
      var i :| 0 <= i < |g| && g[i] == it;
      assert ScriptHitFor(ql)(g[i]);
    }
  }

  /** A match label is "README" for a matching README, or names a matching groovy file of the directory. */
  lemma MatchesIff(items: seq<Item>, ql: string, m: string)
    ensures m in Matches(items, ql) <==>
            (m == "README" && ReadmeHit(items, ql))
            || exists it :: it in items && IsGroovyName(it.name) && ScriptHit(it, ql) && m == ScriptLabel(it)
  {
    ScriptsIff(items, ql, m);
    var scripts := Select(GroovyItems(items), ScriptHitFor(ql), ScriptLabel);
    ScriptsIff(items, ql, "README");
  }

  /** A text that matches a query matches every prefix of it. */
  lemma MatchesTextPrefix(text: string, q: string, ext: string)
    requires MatchesText(text, LowerStr(q + ext))
    ensures MatchesText(text, LowerStr(q))
  {
    LowerStrAppend(q, ext);
    ContainsPrefixOfNeedle(LowerStr(text), LowerStr(q), LowerStr(ext));
  }

  /** Lengthening the query never adds a match. */
  lemma MatchesMonotone(items: seq<Item>, q: string, ext: string, m: string)
    requires m in Matches(items, LowerStr(q + ext))
    ensures m in Matches(items, LowerStr(q))
  {
    MatchesIff(items, LowerStr(q + ext), m);
    MatchesIff(items, LowerStr(q), m);
    if m == "README" && ReadmeHit(items, LowerStr(q + ext)) {
      MatchesTextPrefix(ReadText(items, ReadmeName).value, q, ext);
    } else {
      var it :| it in items && IsGroovyName(it.name) && ScriptHit(it, LowerStr(q + ext)) && m == ScriptLabel(it);
      MatchesTextPrefix(it.entry.text.value, q, ext);
    }
  }

  /** The empty query matches every README and every groovy file that reads, empty ones included. */
  lemma EmptyQueryMatchesReadable(items: seq<Item>)
    ensures "README" in Matches(items, LowerStr("")) <==> ReadText(items, ReadmeName).Some?
    ensures forall it :: it in items && IsGroovyName(it.name) && it.entry.File? && it.entry.text.Some? ==>
              ScriptLabel(it) in Matches(items, LowerStr(""))
  {
    assert LowerStr("") == "";
    MatchesIff(items, "", "README");
    var readme := ReadText(items, ReadmeName);
    if readme.Some? {
      ContainsEmpty(LowerStr(readme.value));
    }
    forall it | it in items && IsGroovyName(it.name) && it.entry.File? && it.entry.text.Some?
      ensures ScriptLabel(it) in Matches(items, "")
    {
      ContainsEmpty(LowerStr(it.entry.text.value));
      assert ScriptHit(it, "");
      MatchesIff(items, "", ScriptLabel(it));
    }
  }

  /** A directory in the results, with where it matched. */
  datatype Hit = Hit(name: string, matches: seq<string>)

  /** What one entry of the base directory contributes: its result, or nothing. */
  function HitAt(root: Root, n: string, ql: string): seq<Hit> {
    if Visible(root, n) && Matches(root[n].items, ql) != [] then [Hit(n, Matches(root[n].items, ql))] else []
  }

  /** The results over the base directory's entries `names`, in that order. */
  function HitsIn(root: Root, names: seq<string>, ql: string): seq<Hit>
    decreases |names|
  {
    if names == [] then [] else HitsIn(root, names[..|names| - 1], ql) + HitAt(root, names[|names| - 1], ql)
  }

  /** The results of a search, over the entries in sorted order. */
  function Hits(root: Root, ql: string): seq<Hit> {
    HitsIn(root, Sorted(root.Keys), ql)
  }

  lemma {:induction false} HitsInIff(root: Root, names: seq<string>, ql: string, h: Hit)
    ensures h in HitsIn(root, names, ql) <==>
            h.name in names && Visible(root, h.name) && h.matches == Matches(root[h.name].items, ql) && h.matches != []
    decreases |names|
  {
    if names != [] {
      var init := names[..|names| - 1];
      HitsInIff(root, init, ql, h);
      assert names == init + [names[|names| - 1]];
    }
  }

  lemma {:induction false} HitsInAscending(root: Root, names: seq<string>, ql: string)
    requires Ascending(names)
    ensures forall i, j :: 0 <= i < j < |HitsIn(root, names, ql)| ==>
              Less(HitsIn(root, names, ql)[i].name, HitsIn(root, names, ql)[j].name)
    decreases |names|
  {
    if names != [] {
      var n := |names| - 1;
      var init := names[..n];
      assert Ascending(init);
      HitsInAscending(root, init, ql);
      var before := HitsIn(root, init, ql);
      forall h | h in before ensures Less(h.name, names[n]) {
        HitsInIff(root, init, ql, h);
        var i :| 0 <= i < n && init[i] == h.name;
      }
      assert forall i :: 0 <= i < |before| ==> before[i] in before;
    }
  }

  /** An example is reported exactly when its directory is visible and matches somewhere, with those matches. */
  lemma SearchHitIff(root: Root, ql: string, h: Hit)
    ensures h in Hits(root, ql) <==>
            Visible(root, h.name) && h.matches == Matches(root[h.name].items, ql) && h.matches != []
  {
    HitsInIff(root, Sorted(root.Keys), ql, h);
  }

  /** Results come in ascending order of name, each example at most once. */
  lemma SearchAscending(root: Root, ql: string)
    ensures forall i, j :: 0 <= i < j < |Hits(root, ql)| ==> Less(Hits(root, ql)[i].name, Hits(root, ql)[j].name)
  {
    HitsInAscending(root, Sorted(root.Keys), ql);
  }

  /** Every example a longer query finds, the shorter query finds too. */
  lemma SearchMonotone(root: Root, q: string, ext: string, h: Hit)
    requires h in Hits(root, LowerStr(q + ext))
    ensures h.name in root && root[h.name].Dir?
    ensures Hit(h.name, Matches(root[h.name].items, LowerStr(q))) in Hits(root, LowerStr(q))
  {
    SearchHitIff(root, LowerStr(q + ext), h);
    MatchesMonotone(root[h.name].items, q, ext, h.matches[0]);
    SearchHitIff(root, LowerStr(q), Hit(h.name, Matches(root[h.name].items, LowerStr(q))));
  }

  /** A query and its lowercase form find the same examples with the same matches. */
  lemma SearchCaseInsensitive(root: Root, q: string)
    ensures Hits(root, LowerStr(LowerStr(q))) == Hits(root, LowerStr(q))
  {
    LowerStrIdempotent(q);
  }

  /** The reply when nothing matches. */
  function Sentinel(q: string): string {
    "No examples found matching '" + q + "'"
  }

  /** Two pieces per result: its heading and where it matched. */
  function HitPieces(hits: seq<Hit>): seq<string>
    decreases |hits|
  {
    if hits == [] then []
    else
      var h := hits[|hits| - 1];
      HitPieces(hits[..|hits| - 1]) + ["## " + h.name + "\n"] + ["Matches in: " + JoinWith(h.matches, ", ") + "\n\n"]
  }

  function SearchReport(q: string, hits: seq<Hit>): seq<string> {
    if hits == [] then [Sentinel(q)]
    else ["# Search Results for '" + q + "'\n\n"] + ["Found " + NatToString(|hits|) + " example(s):\n\n"] + HitPieces(hits)
  }

  /** The reply says that nothing was found exactly when there are no results. */
  lemma NoResultsIff(q: string, hits: seq<Hit>)
    ensures StartsWith(Concat(SearchReport(q, hits)), "No examples found") <==> hits == []
  {
    var r := SearchReport(q, hits);
    var text := Concat(r);
    assert text == r[0] + Concat(r[1..]);
    if hits != [] {
      assert text[0] == '#';
    } else {
      assert text[..17] == r[0][..17];
    }
  }

  /** The glob loop: appends a label for each matching groovy file, in glob order. */
  method AppendScriptMatches(matches: seq<string>, groovy: seq<Item>, ql: string) returns (r: seq<string>)
    ensures r == matches + Select(groovy, ScriptHitFor(ql), ScriptLabel)
  {
    r := matches;
    var i := 0;
    while i < |groovy|
      invariant 0 <= i <= |groovy|
      invariant r == matches + Select(groovy[..i], ScriptHitFor(ql), ScriptLabel)
    {
      var it := groovy[i];
      SelectSnoc(groovy[..i], it, ScriptHitFor(ql), ScriptLabel);
      assert groovy[..i + 1] == groovy[..i] + [it];
      if ScriptHit(it, ql) {
        r := r + [ScriptLabel(it)];
      }
      i := i + 1;
    }
    assert groovy[..i] == groovy;
  }

  /** The matches of one directory: the README check, then the glob loop. */
  method SearchIn(items: seq<Item>, ql: string) returns (matches: seq<string>)
    ensures matches == Matches(items, ql)
  {
    matches := [];
    var readme := ReadText(items, ReadmeName);
    if readme.Some? && MatchesText(readme.value, ql) {
      matches := ["README"];
    }
    matches := AppendScriptMatches(matches, GroovyItems(items), ql);
  }

  /** One entry of the base directory: skipped unless a visible directory, then reported if it matches. */
  method SearchDirectory(root: Root, n: string, ql: string) returns (found: seq<Hit>)
    ensures found == HitAt(root, n, ql)
  {
    found := [];
    if n in root && root[n].Dir? && !StartsWith(n, ".") {
      var matches := SearchIn(root[n].items, ql);
      if matches != [] {
        found := [Hit(n, matches)];
      }
    }
  }

  /** The loop over the base directory's entries, in the order given. */
  method CollectHits(root: Root, names: seq<string>, ql: string) returns (results: seq<Hit>)
    ensures results == HitsIn(root, names, ql)
  {
    results := [];
    var i := 0;
    while i < |names|
      invariant 0 <= i <= |names|
      invariant results == HitsIn(root, names[..i], ql)
    {
      assert names[..i + 1][..i] == names[..i];
      assert HitsIn(root, names[..i + 1], ql) == HitsIn(root, names[..i], ql) + HitAt(root, names[i], ql);
      var found := SearchDirectory(root, names[i], ql);
      results := results + found;
      i := i + 1;
    }
    assert names[..i] == names;
  }

  /** The headings and match lists of the results. */
  method AppendHits(result: seq<string>, hits: seq<Hit>) returns (r: seq<string>)
    ensures r == result + HitPieces(hits)
  {
    r := result;
    var i := 0;
    while i < |hits|
      invariant 0 <= i <= |hits|
      invariant r == result + HitPieces(hits[..i])
    {
      assert hits[..i + 1][..i] == hits[..i];
      r := r + ["## " + hits[i].name + "\n"];
      r := r + ["Matches in: " + JoinWith(hits[i].matches, ", ") + "\n\n"];
      i := i + 1;
    }
    assert hits[..i] == hits;
  }

  /** `search_examples`: the reply for a query. */
  method SearchExamples(root: Root, query: string) returns (r: seq<string>)
    ensures r == SearchReport(query, Hits(root, LowerStr(query)))
  {
    var ql := LowerStr(query);
    var results := CollectHits(root, Sorted(root.Keys), ql);
    if results == [] {
      return [Sentinel(query)];
    }
    r := ["# Search Results for '" + query + "'\n\n"];
    r := r + ["Found " + NatToString(|results|) + " example(s):\n\n"];
    r := AppendHits(r, results);
  }
}
