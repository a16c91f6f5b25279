/**
 * Resource reading: URIs of the form `groovy://examples/<example>/<type>`,
 * where the type names one of the three files an example may have.
 */
module Resources {
  import opened Wrappers
  import opened Strings
  import opened Corpus

  const UriPrefix := "groovy://examples/"

  /** The URI under which the resource listing publishes a file of an example. */
  function ResourceUri(name: string, kind: string): (r: string)
    ensures StartsWith(r, UriPrefix) && r[|UriPrefix|..] == name + "/" + kind
  {
    UriPrefix + name + "/" + kind
  }

  /** The file a resource type names. */
  function FileForKind(kind: string): (r: Option<string>)
    ensures r.Some? <==> kind == "script" || kind == "readme" || kind == "meta"
    ensures kind == "script" ==> r == Some(ScriptName)
    ensures kind == "readme" ==> r == Some(ReadmeName)
    ensures kind == "meta" ==> r == Some(MetaName)
  {
    if kind == "script" then Some(ScriptName)
    else if kind == "readme" then Some(ReadmeName)
    else if kind == "meta" then Some(MetaName)
    else None
  }

  /**
   * The example and the type a URI names: the prefix is required, every
   * occurrence of it is removed, and what is left must be two
   * `/`-separated segments.
   */
  function ParseUri(uri: string): (r: Result<(string, string), Error>)
    ensures r == Err(UnknownResource(uri)) <==> !StartsWith(uri, UriPrefix)
    ensures r.Err? ==> r.error == UnknownResource(uri) || r.error == InvalidResourceUri(uri)
    ensures r.Ok? ==> '/' !in r.value.0 && '/' !in r.value.1
    ensures StartsWith(uri, UriPrefix) ==> (r.Ok? <==> Count(RemoveAll(uri, UriPrefix), '/') == 1)
    ensures r.Ok? ==> RemoveAll(uri, UriPrefix) == r.value.0 + "/" + r.value.1
  {
    if !StartsWith(uri, UriPrefix) then Err(UnknownResource(uri))
    else
      var parts := Split(RemoveAll(uri, UriPrefix), '/');
      if |parts| != 2 then Err(InvalidResourceUri(uri))
      else
        SplitInTwo(RemoveAll(uri, UriPrefix), '/');
        Ok((parts[0], parts[1]))
  }

  /** A string that splits into two segments is the two joined by the separator. */
  lemma SplitInTwo(s: string, sep: char)
    requires |Split(s, sep)| == 2
    ensures s == Split(s, sep)[0] + [sep] + Split(s, sep)[1]
  {
    var parts := Split(s, sep);
    JoinSplit(s, sep);
    assert parts[1..] == [parts[1]];
  }

  lemma PrefixSlashes()
    ensures Count(UriPrefix, '/') >= 2
  {
    assert UriPrefix == "groovy:" + "//" + "examples/";
    CountAppend("groovy:", "//", '/');
    CountAppend("groovy:" + "//", "examples/", '/');
    assert Count("//", '/') == 2;
  }

  /** The prefix has more slashes than a published URI's remainder, so it occurs only at the start. */
  lemma RemainderHasNoPrefix(name: string, kind: string)
    requires '/' !in name && '/' !in kind
    ensures !Contains(name + "/" + kind, UriPrefix)
  {
    var rest := name + "/" + kind;
    CountAbsent(name, '/');
    CountAbsent(kind, '/');
    CountAppend(name, "/", '/');
    CountAppend(name + "/", kind, '/');
    PrefixSlashes();
    if Contains(rest, UriPrefix) {
      ContainsCount(rest, UriPrefix, '/');
    }
  }

  /** Every URI the listing publishes parses back to its example and type. */
  lemma ParsePublished(name: string, kind: string)
    requires '/' !in name && '/' !in kind
    ensures ParseUri(ResourceUri(name, kind)) == Ok((name, kind))
  {
    var uri := ResourceUri(name, kind);
    var rest := name + "/" + kind;
    assert uri == UriPrefix + rest;
    assert uri[..|UriPrefix|] == UriPrefix;
    assert uri[|UriPrefix|..] == rest;
    RemainderHasNoPrefix(name, kind);
    RemoveAllAbsent(rest, UriPrefix);
    assert RemoveAll(uri, UriPrefix) == rest;
    assert rest == name + ['/'] + kind;
    SplitAtFirst(name, kind, '/');
    SplitNoSeparator(kind, '/');
  }

  /** A URI that parses, and holds the prefix only at its start, is the published URI of what it names. */
  lemma PublishedOfParsed(uri: string)
    requires ParseUri(uri).Ok? && !Contains(uri[|UriPrefix|..], UriPrefix)
    ensures ResourceUri(ParseUri(uri).value.0, ParseUri(uri).value.1) == uri
  {
    var rest := uri[|UriPrefix|..];
    assert uri == UriPrefix + rest;
    assert RemoveAll(uri, UriPrefix) == RemoveAll(rest, UriPrefix);
    RemoveAllAbsent(rest, UriPrefix);
    assert rest == ParseUri(uri).value.0 + "/" + ParseUri(uri).value.1;
  }

  /** The two segments, with their separator, take up no more than the URI past its prefix. */
  lemma SegmentsWithinUri(uri: string)
    requires ParseUri(uri).Ok?
    ensures |ParseUri(uri).value.0| + 1 + |ParseUri(uri).value.1| <= |uri| - |UriPrefix|
  {
    var rest := uri[|UriPrefix|..];
    assert uri == UriPrefix + rest;
    assert RemoveAll(uri, UriPrefix) == RemoveAll(rest, UriPrefix);
    RemoveAllShorter(rest, UriPrefix);
  }

  /** `handle_read_resource`: the text of the file the URI names, or the error it raises. */
  function ReadResource(root: Root, uri: string): (r: Result<string, Error>)
    ensures r.Ok? ==> exists name, kind, file :: ParseUri(uri) == Ok((name, kind)) && FileForKind(kind) == Some(file)
                        && name in root && root[name].Dir? && Find(root[name].items, file) == Some(File(Some(r.value)))
    ensures ParseUri(uri).Err? ==> r == Err(ParseUri(uri).error)
    ensures ParseUri(uri).Ok? && ParseUri(uri).value.0 !in root ==> r == Err(ExampleNotFound(ParseUri(uri).value.0))
  {
    match ParseUri(uri)
    case Err(e) => Err(e)
    case Ok((name, kind)) =>
      if name !in root then Err(ExampleNotFound(name))
      else
        match FileForKind(kind)
        case None => Err(UnknownResourceType(kind))
        case Some(file) =>
          if root[name].PlainFile? || !Exists(root[name].items, file) then Err(ResourceFileNotFound(name, file))
          else
            match ReadText(root[name].items, file)
            case None => Err(ReadFailed(name, file))
            case Some(t) => Ok(t)
  }

  /** A published URI reads the file it was published for. */
  lemma ReadPublished(root: Root, name: string, kind: string, text: string)
    requires '/' !in name && '/' !in kind && name in root && root[name].Dir?
    requires FileForKind(kind).Some? && Find(root[name].items, FileForKind(kind).value) == Some(File(Some(text)))
    ensures ReadResource(root, ResourceUri(name, kind)) == Ok(text)
  {
    ParsePublished(name, kind);
  }

  /** A recognised type whose file the example lacks is reported as missing. */
  lemma ReadMissingFile(root: Root, name: string, kind: string)
    requires '/' !in name && '/' !in kind && name in root
    requires FileForKind(kind).Some? && (root[name].PlainFile? || !Exists(root[name].items, FileForKind(kind).value))
    ensures ReadResource(root, ResourceUri(name, kind)) == Err(ResourceFileNotFound(name, FileForKind(kind).value))
  {
    ParsePublished(name, kind);
  }

  /** Any other type is refused, whether or not the example has such a file. */
  lemma ReadUnknownType(root: Root, name: string, kind: string)
    requires '/' !in name && '/' !in kind && name in root
    requires kind != "script" && kind != "readme" && kind != "meta"
    ensures ReadResource(root, ResourceUri(name, kind)) == Err(UnknownResourceType(kind))
  {
    ParsePublished(name, kind);
  }
}
