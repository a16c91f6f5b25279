/**
 * The full view of one example: its README, its metadata dumped back as
 * YAML, its groovy scripts and the list of its other files.
 */
module Bundle {
  import opened Wrappers
  import opened Strings
  import opened Ordering
  import opened Corpus
  import opened Markdown
  import opened Metadata

  /** A fenced code block holding `text`. */
  function GroovyBlock(text: string): string {
    "```groovy\n" + text + "\n```\n\n"
  }

  /** The README section: absent without a README, an error when it does not read. */
  function DocSection(name: string, items: seq<Item>): (r: Result<seq<string>, Error>)
    ensures r == Ok([]) <==> !Exists(items, ReadmeName)
    ensures r.Err? <==> Exists(items, ReadmeName) && ReadText(items, ReadmeName).None?
    ensures r.Err? ==> r.error == ReadFailed(name, ReadmeName)
    ensures r.Ok? && r.value != [] ==>
              r.value == ["## Documentation\n\n", ReadText(items, ReadmeName).value + "\n\n"]
  {
    if !Exists(items, ReadmeName) then Ok([])
    else match ReadText(items, ReadmeName)
      case None => Err(ReadFailed(name, ReadmeName))
      case Some(t) => Ok(["## Documentation\n\n", t + "\n\n"])
  }

  const MetaHeading := "## Metadata\n\n"

  /** The metadata section: present only when the file reads and parses; a failure is only logged. */
  function MetaSection(items: seq<Item>, parse: Parser): (r: seq<string>)
    ensures r == [] <==> LoadMeta(items, parse).None?
    ensures MetaHeading in r <==> LoadMeta(items, parse).Some?
    ensures r != [] ==> r == [MetaHeading, "```yaml\n" + LoadMeta(items, parse).value.dumped + "```\n\n"]
  {
    match LoadMeta(items, parse)
    case None => []
    case Some(loaded) =>
      assert ("```yaml\n" + loaded.dumped + "```\n\n")[0] != MetaHeading[0];
      [MetaHeading, "```yaml\n" + loaded.dumped + "```\n\n"]
  }

  /** The glob fallback: a titled block per groovy file, failing at the first that does not read. */
  function GroovySections(name: string, g: seq<Item>): (r: Result<seq<string>, Error>)
    ensures r.Err? ==> r.error.ReadFailed? && r.error.name == name
    decreases |g|
  {
    if g == [] then Ok([])
    else
      var it := g[|g| - 1];
      match GroovySections(name, g[..|g| - 1])
      case Err(e) => Err(e)
      case Ok(before) =>
        match it.entry
        case File(Some(t)) => Ok(before + ["## Groovy Script: " + it.name + "\n\n"] + [GroovyBlock(t)])
        case _ => Err(ReadFailed(name, it.name))
  }

  /** The item reads as text. */
  predicate Readable(it: Item) {
    it.entry.File? && it.entry.text.Some?
  }

  /** The fallback fails exactly when one of the files does not read, and then names the first such file. */
  lemma {:induction false} GroovySectionsErrIff(name: string, g: seq<Item>)
    ensures GroovySections(name, g).Err? <==> exists k :: 0 <= k < |g| && !Readable(g[k])
    ensures GroovySections(name, g).Err? ==>
              exists k :: 0 <= k < |g| && !Readable(g[k]) && GroovySections(name, g).error == ReadFailed(name, g[k].name)
                          && forall j :: 0 <= j < k ==> Readable(g[j])
    decreases |g|
  {
    if g != [] {
      var n := |g| - 1;
      var init := g[..n];
      GroovySectionsErrIff(name, init);
      assert forall j :: 0 <= j < n ==> init[j] == g[j];
      if GroovySections(name, init).Err? {
        var k :| 0 <= k < n && !Readable(init[k]) && GroovySections(name, init).error == ReadFailed(name, init[k].name)
                 && forall j :: 0 <= j < k ==> Readable(init[j]);
        assert !Readable(g[k]);
      }
    }
  }

  /** A prefix that fails makes the whole fallback fail the same way. */
  lemma {:induction false} GroovySectionsErrExtends(name: string, g: seq<Item>, i: nat)
    requires i <= |g| && GroovySections(name, g[..i]).Err?
    ensures GroovySections(name, g) == GroovySections(name, g[..i])
    decreases |g| - i
  {
    if i < |g| {
      assert g[..i + 1][..i] == g[..i];
      GroovySectionsErrExtends(name, g, i + 1);
    } else {
      assert g[..i] == g;
    }
  }

  /** `script.groovy` when it exists (an error when it does not read), otherwise every `*.groovy` file. */
  function ScriptSection(name: string, items: seq<Item>): (r: Result<seq<string>, Error>)
    ensures r.Err? ==> r.error.ReadFailed? && r.error.name == name
    ensures Exists(items, ScriptName) ==>
              r == match ReadText(items, ScriptName)
                   case None => Err(ReadFailed(name, ScriptName))
                   case Some(t) => Ok(["## Groovy Script\n\n", GroovyBlock(t)])
    ensures !Exists(items, ScriptName) ==> r == GroovySections(name, GroovyItems(items))
  {
    if Exists(items, ScriptName) then
      match ReadText(items, ScriptName)
      case None => Err(ReadFailed(name, ScriptName))
      case Some(t) => Ok(["## Groovy Script\n\n", GroovyBlock(t)])
    else GroovySections(name, GroovyItems(items))
  }

  /** The suffixes whose files the files section leaves out. */
  const ShownElsewhere: set<string> := {".groovy", ".md", ".yaml"}

  /** Regular files whose suffix is none of `.groovy`, `.md` and `.yaml`. */
  function AuxFiles(items: seq<Item>): set<string> {
    set it | it in items && it.entry.File? && Suffix(it.name) !in ShownElsewhere :: it.name
  }

  /** The files section: a heading, then each other file in ascending order. */
  function FilesSection(items: seq<Item>): seq<string> {
    ["## Files\n\n"] + Items(Sorted(AuxFiles(items)), "- `", "`\n")
  }

  /** Everything after the README section, appended to `prefix`. */
  function AfterDoc(prefix: seq<string>, name: string, items: seq<Item>, parse: Parser): Result<seq<string>, Error> {
    match ScriptSection(name, items)
    case Err(e) => Err(e)
    case Ok(script) => Ok(prefix + MetaSection(items, parse) + script + FilesSection(items))
  }

  /** `get_example`: the report, or the first error it raises. */
  function BundleOf(root: Root, name: string, parse: Parser): (r: Result<seq<string>, Error>)
    ensures r == Err(ExampleNotFound(name)) <==> name !in root || root[name].PlainFile?
    ensures r.Ok? ==> name in root && root[name].Dir? && |r.value| >= |FilesSection(root[name].items)| + 1
                      && r.value[0] == "# " + name + "\n\n"
                      && r.value[|r.value| - |FilesSection(root[name].items)|..] == FilesSection(root[name].items)
  {
    if name !in root || root[name].PlainFile? then Err(ExampleNotFound(name))
    else
      var items := root[name].items;
      match DocSection(name, items)
      case Err(e) => Err(e)
      case Ok(doc) => AfterDoc(["# " + name + "\n\n"] + doc, name, items, parse)
  }

  /**
   * The call fails exactly when the example is missing or not a
   * directory, or when its README, its `script.groovy` or (without one)
   * one of its groovy files does not read.
   */
  lemma BundleFailsIff(root: Root, name: string, parse: Parser)
    ensures BundleOf(root, name, parse).Err? <==>
            name !in root || root[name].PlainFile?
            || (Exists(root[name].items, ReadmeName) && ReadText(root[name].items, ReadmeName).None?)
            || (Exists(root[name].items, ScriptName) && ReadText(root[name].items, ScriptName).None?)
            || (!Exists(root[name].items, ScriptName)
                && exists k :: 0 <= k < |GroovyItems(root[name].items)| && !Readable(GroovyItems(root[name].items)[k]))
    ensures BundleOf(root, name, parse).Err? && BundleOf(root, name, parse).error.ExampleNotFound? <==>
            name !in root || root[name].PlainFile?
  {
    if name in root && root[name].Dir? {
      var items := root[name].items;
      GroovySectionsErrIff(name, GroovyItems(items));
      assert BundleOf(root, name, parse).Err? <==> DocSection(name, items).Err? || ScriptSection(name, items).Err?;
      assert DocSection(name, items).Err? <==> Exists(items, ReadmeName) && ReadText(items, ReadmeName).None?;
      assert ScriptSection(name, items).Err? <==>
             (Exists(items, ScriptName) && ReadText(items, ScriptName).None?)
             || (!Exists(items, ScriptName) && GroovySections(name, GroovyItems(items)).Err?);
    }
  }

  /** The last dot of `stem + ext` is the one that opens `ext`. */
  lemma SuffixOfExtension(stem: string, ext: string)
    requires stem != [] && |ext| >= 2 && ext[0] == '.' && '.' !in ext[1..]
    ensures Suffix(stem + ext) == ext
  {
    var s := stem + ext;
    var i := LastIndex(s, '.');
    assert s[|stem|] == '.';
    assert s[|stem|..] == ext;
  }

  /** `script.groovy`, `README.md` and `meta.yaml`, and every groovy file with a stem, are shown in their own sections, never among the files. */
  lemma ShownFilesNotListed(items: seq<Item>, stem: string)
    requires stem != []
    ensures ScriptName !in AuxFiles(items) && ReadmeName !in AuxFiles(items) && MetaName !in AuxFiles(items)
    ensures stem + ".groovy" !in AuxFiles(items)
  {
    assert ScriptName == "script" + ".groovy";
    SuffixOfExtension("script", ".groovy");
    assert ReadmeName == "README" + ".md";
    SuffixOfExtension("README", ".md");
    assert MetaName == "meta" + ".yaml";
    SuffixOfExtension("meta", ".yaml");
    SuffixOfExtension(stem, ".groovy");
  }

  /** A file is listed exactly when it is a regular file of the directory whose suffix is shown nowhere else. */
  lemma AuxFilesIff(items: seq<Item>, x: string)
    ensures x in Sorted(AuxFiles(items)) <==>
            exists it :: it in items && it.name == x && it.entry.File? && Suffix(x) !in ShownElsewhere
  {
  }

  /** No piece of the glob fallback is the metadata heading. */
  lemma {:induction false} GroovySectionsNoMeta(name: string, g: seq<Item>)
    requires GroovySections(name, g).Ok?
    ensures MetaHeading !in GroovySections(name, g).value
    decreases |g|
  {
    if g != [] {
      var it := g[|g| - 1];
      GroovySectionsNoMeta(name, g[..|g| - 1]);
      assert ("## Groovy Script: " + it.name + "\n\n")[3] != MetaHeading[3];
      assert GroovyBlock(it.entry.text.value)[0] != MetaHeading[0];
    }
  }

  /** No piece of the script section is the metadata heading. */
  lemma ScriptSectionNoMeta(name: string, items: seq<Item>)
    requires ScriptSection(name, items).Ok?
    ensures MetaHeading !in ScriptSection(name, items).value
  {
    if Exists(items, ScriptName) {
      assert "## Groovy Script\n\n"[3] != MetaHeading[3];
      assert GroovyBlock(ReadText(items, ScriptName).value)[0] != MetaHeading[0];
    } else {
      GroovySectionsNoMeta(name, GroovyItems(items));
    }
  }

  /** No piece of the files section is the metadata heading. */
  lemma FilesSectionNoMeta(items: seq<Item>)
    ensures MetaHeading !in FilesSection(items)
  {
    assert "## Files\n\n"[3] != MetaHeading[3];
    assert MetaHeading[0] != "- `"[0];
    if MetaHeading in Items(Sorted(AuxFiles(items)), "- `", "`\n") {
      ItemsLeadWith(Sorted(AuxFiles(items)), "- `", "`\n", MetaHeading);
    }
  }

  /**
   * A successful view holds the metadata heading when the metadata loads,
   * and otherwise only when the README's whole text is `## Metadata`.
   */
  lemma BundleShowsMetadata(root: Root, name: string, parse: Parser)
    ensures BundleOf(root, name, parse).Ok? && LoadMeta(root[name].items, parse).Some? ==>
              MetaHeading in BundleOf(root, name, parse).value
    ensures BundleOf(root, name, parse).Ok? && LoadMeta(root[name].items, parse).None?
            && ReadText(root[name].items, ReadmeName) != Some("## Metadata") ==>
              MetaHeading !in BundleOf(root, name, parse).value
  {
    if BundleOf(root, name, parse).Ok? {
      var items := root[name].items;
      BundlePieces(root, name, parse);
      ScriptSectionNoMeta(name, items);
      FilesSectionNoMeta(items);
      var noDocMeta := ReadText(items, ReadmeName) != Some("## Metadata");
      if noDocMeta {
        DocSectionNoMeta(name, items);
      }
      TitleNotMeta(name);
      PiecesShowMeta("# " + name + "\n\n", DocSection(name, items).value, MetaSection(items, parse),
                     ScriptSection(name, items).value, FilesSection(items), noDocMeta);
    }
  }

  lemma TitleNotMeta(name: string)
    ensures "# " + name + "\n\n" != MetaHeading
  {
    assert ("# " + name + "\n\n")[1] != MetaHeading[1];
  }

  /** The view holds the heading when its metadata section does, and only then when no other section holds it. */
  lemma PiecesShowMeta(title: string, doc: seq<string>, meta: seq<string>, script: seq<string>, files: seq<string>,
                       noDocMeta: bool)
    requires title != MetaHeading && MetaHeading !in script && MetaHeading !in files
    requires noDocMeta ==> MetaHeading !in doc
    ensures MetaHeading in meta ==> MetaHeading in [title] + doc + meta + script + files
    ensures MetaHeading !in meta && noDocMeta ==> MetaHeading !in [title] + doc + meta + script + files
  {
  }

  /** A successful view is the title, then each section in turn. */
  lemma BundlePieces(root: Root, name: string, parse: Parser)
    requires BundleOf(root, name, parse).Ok?
    ensures name in root && root[name].Dir?
    ensures DocSection(name, root[name].items).Ok? && ScriptSection(name, root[name].items).Ok?
    ensures BundleOf(root, name, parse).value ==
              ["# " + name + "\n\n"] + DocSection(name, root[name].items).value + MetaSection(root[name].items, parse)
              + ScriptSection(name, root[name].items).value + FilesSection(root[name].items)
  {
  }

  /** The documentation section holds the metadata heading only for a README whose whole text is `## Metadata`. */
  lemma DocSectionNoMeta(name: string, items: seq<Item>)
    requires DocSection(name, items).Ok? && ReadText(items, ReadmeName) != Some("## Metadata")
    ensures MetaHeading !in DocSection(name, items).value
  {
    if DocSection(name, items).value != [] {
      assert ReadText(items, ReadmeName).Some?;
      assert "## Documentation\n\n"[3] != MetaHeading[3];
      var t := ReadText(items, ReadmeName).value;
      assert DocSection(name, items).value == ["## Documentation\n\n", t + "\n\n"];
      if t + "\n\n" == MetaHeading {
        AppendCancel(t, "## Metadata", "\n\n");
      }
    }
  }

  /** The README section as `get_example` writes it. */
  method AppendDoc(result: seq<string>, name: string, items: seq<Item>) returns (r: Result<seq<string>, Error>)
    ensures r == match DocSection(name, items) case Err(e) => Err(e) case Ok(p) => Ok(result + p)
  {
    if Exists(items, ReadmeName) {
      var t := ReadText(items, ReadmeName);
      if t.None? {
        return Err(ReadFailed(name, ReadmeName));
      }
      var text := result + ["## Documentation\n\n"];
      text := text + [t.value + "\n\n"];
      assert text == result + ["## Documentation\n\n", t.value + "\n\n"];
      return Ok(text);
    }
    assert result + [] == result;
    return Ok(result);
  }

  /** The glob fallback's loop, stopping at the first file that does not read. */
  method AppendGroovyFiles(result: seq<string>, name: string, g: seq<Item>) returns (r: Result<seq<string>, Error>)
    ensures r == match GroovySections(name, g) case Err(e) => Err(e) case Ok(p) => Ok(result + p)
  {
    var acc := result;
    var i := 0;
    while i < |g|
      invariant 0 <= i <= |g|
      invariant GroovySections(name, g[..i]).Ok? && acc == result + GroovySections(name, g[..i]).value
    {
      var gf := g[i];
      assert g[..i + 1][..i] == g[..i];
      if !(gf.entry.File? && gf.entry.text.Some?) {
        GroovySectionsErrExtends(name, g, i + 1);
        return Err(ReadFailed(name, gf.name));
      }
      acc := acc + ["## Groovy Script: " + gf.name + "\n\n"];
      acc := acc + [GroovyBlock(gf.entry.text.value)];
      i := i + 1;
    }
    assert g[..i] == g;
    return Ok(acc);
  }

  /** The script section as `get_example` writes it. */
  method AppendScripts(result: seq<string>, name: string, items: seq<Item>) returns (r: Result<seq<string>, Error>)
    ensures r == match ScriptSection(name, items) case Err(e) => Err(e) case Ok(p) => Ok(result + p)
  {
    if Exists(items, ScriptName) {
      var t := ReadText(items, ScriptName);
      if t.None? {
        return Err(ReadFailed(name, ScriptName));
      }
      var text := result + ["## Groovy Script\n\n"];
      text := text + [GroovyBlock(t.value)];
      assert text == result + ["## Groovy Script\n\n", GroovyBlock(t.value)];
      return Ok(text);
    }
    r := AppendGroovyFiles(result, name, GroovyItems(items));
  }

  /** The files section: the loop over the sorted entries of the directory. */
  method AppendFiles(prefix: seq<string>, items: seq<Item>) returns (r: seq<string>)
    ensures r == prefix + FilesSection(items)
  {
    r := prefix + ["## Files\n\n"];
    r := AppendItems(r, Sorted(AuxFiles(items)), "- `", "`\n");
  }

  /** The metadata, script and files sections as `get_example` writes them. */
  method AppendAfterDoc(prefix: seq<string>, name: string, items: seq<Item>, parse: Parser) returns (r: Result<seq<string>, Error>)
    ensures r == AfterDoc(prefix, name, items, parse)
  {
    var result := prefix;
    var loaded := LoadMeta(items, parse);
    if loaded.Some? {
      result := result + [MetaHeading];
      result := result + ["```yaml\n" + loaded.value.dumped + "```\n\n"];
    }
    assert result == prefix + MetaSection(items, parse);
    var withScripts := AppendScripts(result, name, items);
    if withScripts.Err? {
      return Err(withScripts.error);
    }
    result := AppendFiles(withScripts.value, items);
    r := Ok(result);
  }

  /** `get_example` */
  method GetExample(root: Root, name: string, parse: Parser) returns (r: Result<seq<string>, Error>)
    ensures r == BundleOf(root, name, parse)
  {
    if name !in root || !root[name].Dir? {
      return Err(ExampleNotFound(name));
    }
    var items := root[name].items;
    var withDoc := AppendDoc(["# " + name + "\n\n"], name, items);
    if withDoc.Err? {
      return Err(withDoc.error);
    }
    r := AppendAfterDoc(withDoc.value, name, items, parse);
  }
}
