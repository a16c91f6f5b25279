/**
 * `meta.yaml`. YAML parsing and dumping belong to a library outside the
 * model: the parser is a parameter, and for a document it accepts it gives
 * the fields the server reads (when the document is a mapping) and the
 * text that dumping it back in block style produces.
 */
module Metadata {
  import opened Wrappers
  import opened Corpus

  /** The keys the server reads; `None` for a key the mapping lacks. */
  datatype MetaFields = MetaFields(author: Option<string>, tags: Option<seq<string>>)

  /** A parsed document: its fields when it is a mapping (`None` for a scalar, a list or an empty file), and its dump. */
  datatype Loaded = Loaded(fields: Option<MetaFields>, dumped: string)

  /** `yaml.safe_load`, `None` for a document it rejects. */
  type Parser = string -> Option<Loaded>

  /** The empty mapping `{}`. */
  const NoFields := MetaFields(None, None)

  /** Reading and parsing `meta.yaml`: `None` when it is missing, unreadable or rejected. */
  function LoadMeta(items: seq<Item>, parse: Parser): (r: Option<Loaded>)
    ensures r.Some? ==> Exists(items, MetaName)
    ensures r.Some? <==> ReadText(items, MetaName).Some? && parse(ReadText(items, MetaName).value).Some?
    ensures r.Some? ==> r == parse(ReadText(items, MetaName).value)
  {
    match ReadText(items, MetaName)
    case None => None
    case Some(t) => parse(t)
  }
}
