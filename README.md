# SAP CPI Groovy examples server, modelled in Dafny

The server exposes a folder of SAP Cloud Integration Groovy examples to
a client. Each example is a directory holding a `script.groovy` (or other
`*.groovy` files), an optional `README.md` and an optional `meta.yaml`, plus
input and output fixtures. The model covers the six operations of
`SAPGroovyMCPServer` that carry logic:

- listing the examples, optionally filtered by tag;
- rendering one example in full;
- keyword search;
- analysing one script: imports, function-like lines, domain concepts and counts;
- comparing two examples;
- reading a resource by its `groovy://examples/<example>/<type>` URI.

The filesystem becomes a value (module `Corpus`). The base directory is a
map from entry name to entry: a plain file, or a directory given as its
items in the order the filesystem enumerates them. That order is the order
`glob` yields. An item is a sub-directory, or a file whose text decodes
(`Some`) or fails to be read (`None`). `sorted(...)` is the code-point
order of names (module `Ordering`, `Sorted` with `Ascending`).

Each reply is modelled as the sequence of pieces the code appends with
`result += ...`. The text is their concatenation (`Markdown.Concat`).
Each of the five tool operations has three layers:

- a function of the corpus computing what is reported (`Analysis`, `Comparison`, `Hit`s, `Summary` values, the rendered sections);
- a function rendering it;
- a method whose loops build the reply the way the code does, proved equal to the rendering of that function.

Reading a resource returns one file's text and builds no reply, so it is
a single function, `Resources.ReadResource`, with its URI parser beside it.

The lemmas then state what the server promises: exact selections in
source order, iff-conditions for what is reported, error conditions,
orderings, set partitions, monotonicity and round trips.

Python behaviour is written out where it matters:

- `split` on one character gives one more piece than there are separators;
- `strip` removes what `str.isspace` accepts: the full list of code points;
- `lstrip("# ")` strips a set of characters;
- `replace(prefix, "")` removes every occurrence;
- `PurePath.suffix` starts at the last dot, unless that dot leads or ends the name;
- `*.groovy` matches any entry kind, hidden names included.

Modules: `Wrappers`, `Strings`, `Ordering`, `Selection`, `Corpus`, `Markdown`, `Metadata`,
`Analyzer`, `Comparator`, `Search`, `Listing`, `Bundle`, `Resources`.

Where the system's documentation and the code differ, the model follows the code:

- The description of an example is the README's first line, even when that line is empty. It is not the first non-empty line.
- The empty query matches every README and groovy file that reads, including empty ones. It does not need non-empty content.
- The full view of an example reports "Example not found" only when the entry is missing or is not a directory. A hidden directory, or one without any script, is still rendered. The view fails with a read error when its README, its `script.groovy` or a fallback groovy file does not read.

## Model

| member | source | states |
|---|---|---|
| Strings.Split | mcp_server.py:385 | `split("\n")` yields one more piece than there are newlines, and no piece holds a newline |
| Strings.JoinSplit | mcp_server.py:385 | joining the pieces of a split with the separator gives the text back |
| Strings.Strip | mcp_server.py:388 | a stripped line neither starts nor ends with whitespace |
| Strings.StripTrims | mcp_server.py:388 | a stripped line is the input with a run of whitespace removed at each end, and nothing else removed |
| Strings.LStripChars | mcp_server.py:249 | `lstrip("# ")` removes the longest leading run of `#` and blanks: what it drops is drawn from the set, what it keeps is a tail of the input that does not start with one |
| Strings.LowerStrSpec | mcp_server.py:323 | lowercasing keeps the length, leaves no ASCII capital, and changes no other character |
| Strings.LowerStrIdempotent | mcp_server.py:323 | lowercasing twice is lowercasing once |
| Strings.RemoveAllAbsent | mcp_server.py:93 | `replace(prefix, "")` leaves a string that does not contain the prefix unchanged |
| Strings.RemoveAllShorter | mcp_server.py:93 | `replace(prefix, "")` never lengthens a string |
| Ordering.Sorted | mcp_server.py:217 | `sorted` of a set of names yields each name once, in strictly ascending code-point order |
| Corpus.GroovyItems | mcp_server.py:343 | the `*.groovy` glob holds exactly the directory's items whose name ends in `.groovy` |
| Corpus.GroovyItemsInOrder | mcp_server.py:343 | the glob's k-th match is the entry at the k-th groovy position of the directory: all groovy entries, in enumeration order, and no other |
| Corpus.FirstGlobMatch | mcp_server.py:379-382 | `groovy_files[0]` is an entry of the directory with no groovy entry enumerated before it |
| Corpus.Suffix | mcp_server.py:316 | the suffix is empty exactly when no dot strictly inside the name has no dot after it; otherwise it is the tail from that last dot, of length at least two, a proper tail of the name, holding no further dot |
| Selection.SelectExact | mcp_server.py:388 | a comprehension keeps exactly the accepted elements, all of them, in their original order, and maps each |
| Selection.SelectMember | mcp_server.py:388 | a value is in a comprehension's result iff some accepted element maps to it |
| Markdown.AppendItems | mcp_server.py:315-317 | a `for x in xs: result += pre + x + post` loop appends one piece per element, in order (the same loop shape writes the lists at lines 419-420, 468-469 and 506-507) |
| Analyzer.ImportsExact | mcp_server.py:388 | the imports are exactly the stripped lines that start with `import `, one per such line, in source order |
| Analyzer.FunctionLinesExact | mcp_server.py:391-394 | the function lines are exactly the stripped lines holding both `def ` and `(`, none skipped, in source order |
| Analyzer.ExtractFunctions | mcp_server.py:391-394 | the append loop yields exactly the function lines |
| Analyzer.ConceptsUpToSelect | mcp_server.py:397-413 | the concept list is the catalog filtered by the concept tests |
| Analyzer.DetectConcepts | mcp_server.py:397-413 | the eight tests, in order, yield exactly the catalog labels whose test holds |
| Analyzer.DetectMessageConcepts | mcp_server.py:398-405 | the first four tests yield exactly the labels of the first four catalog entries whose test holds |
| Analyzer.DetectOtherConcepts | mcp_server.py:406-413 | the last four tests, after the first four, complete exactly the catalog's label list |
| Analyzer.ConceptsInCatalogOrder | mcp_server.py:397-413 | the reported concepts are a subsequence of the eight-entry catalog, in catalog order |
| Analyzer.ConceptReportedIff | mcp_server.py:397-413 | a label is reported iff its substring test holds; the XML and CSV tests use the lowercased text |
| Analyzer.LabelInjective | mcp_server.py:399-413 | distinct concepts have distinct labels |
| Analyzer.AnalysisOf | mcp_server.py:385-442 | the line count is the number of newlines plus one, a trailing empty segment included |
| Analyzer.ScriptOf | mcp_server.py:371-384 | a missing example is "Example not found"; a plain file or a directory without any groovy entry is "No Groovy script"; otherwise the result is the text of `script.groovy` when the directory has one, else of the first glob match, and it is `Ok` exactly when that entry reads |
| Analyzer.NoConceptsIff | mcp_server.py:433-438 | the report reads "No specific concepts identified." iff no concept was found |
| Analyzer.AppendListSection | mcp_server.py:416-439 | one report section as the code writes it: the heading, then one item per element or the empty-list message, then a blank line |
| Analyzer.AnalyzeScript | mcp_server.py:369-446 | the reply is the rendering of the analysis of the script `ScriptOf` selects, or that function's error |
| Comparator.Diff | mcp_server.py:466-482 | common, left-only and right-only are pairwise disjoint; common and left-only make up the left set, common and right-only the right set, and all three the union |
| Comparator.DiffSelf | mcp_server.py:466-482 | a set compared with itself is all common |
| Comparator.ImportSetIff | mcp_server.py:499-500 | an import set holds exactly the stripped lines that start with `import ` |
| Comparator.ComparisonOf | mcp_server.py:453-503 | a missing example is "not found", the first one named; an example that is not a directory is an error, the first one named; an unreadable `script.groovy` when both have one is a read error, the first one named; no other error occurs; a successful comparison diffs both directories' regular-file name sets; the imports comparison is present iff both have `script.groovy`, and it is the diff of their import sets |
| Comparator.CompareSelf | mcp_server.py:462-527 | comparing an example with itself leaves every "Only in" set empty |
| Comparator.SelfComparisonSaysNone | mcp_server.py:472-486 | comparing an example with itself renders both "Only in" file sections as "None" |
| Comparator.NoneMarkerIff | mcp_server.py:464-527 | "None" appears in a section iff it is one that marks emptiness and its set is empty; "Common files" never shows it |
| Comparator.AppendSection | mcp_server.py:466-488 | one comparison section as the code writes it: the heading, each sorted name as an item, `None` for an empty "Only in" set, a blank line except after the last import section |
| Comparator.WriteFileSections | mcp_server.py:465-488 | the title and the three file sections: common, only in the first, only in the second |
| Comparator.WriteImportSections | mcp_server.py:502-527 | the import heading and the three import sections, in the same order |
| Comparator.CompareExamples | mcp_server.py:448-529 | the reply is the rendering of `ComparisonOf`, each set sorted, or that function's error |
| Search.ScriptsIff | mcp_server.py:342-349 | the script labels name exactly the groovy files that read and contain the query |
| Search.MatchesIff | mcp_server.py:332-349 | a label is "README" for a README that reads and matches, or "Script: " plus the name of a matching groovy file |
| Search.MatchesTextPrefix | mcp_server.py:323-346 | a text holding the lowercased query also holds the lowercased query's prefixes |
| Search.MatchesMonotone | mcp_server.py:323-349 | lengthening the query never adds a match label |
| Search.EmptyQueryMatchesReadable | mcp_server.py:332-349 | the empty query matches every README and groovy file that reads, empty ones included |
| Search.HitsInIff | mcp_server.py:326-355 | an entry is a result iff it is a visible directory with at least one match, and it carries those matches |
| Search.SearchHitIff | mcp_server.py:326-355 | the same over the sorted base directory: hidden entries and plain files are skipped |
| Search.SearchAscending | mcp_server.py:326 | results come in strictly ascending order of name |
| Search.SearchMonotone | mcp_server.py:323-355 | every example a longer query reports, the shorter query reports too |
| Search.SearchCaseInsensitive | mcp_server.py:323 | a query and its lowercase form find the same examples with the same matches |
| Search.NoResultsIff | mcp_server.py:357-358 | the reply starts "No examples found" iff there are no results |
| Search.CollectHits | mcp_server.py:326-355 | the loop over the base directory's entries yields exactly the results for the names given, in that order |
| Search.SearchIn | mcp_server.py:330-349 | one directory's loop yields exactly its match labels |
| Search.AppendScriptMatches | mcp_server.py:343-349 | the glob loop appends one `Script: ` label per groovy file that reads and matches, in glob order |
| Search.SearchDirectory | mcp_server.py:327-355 | one base-directory entry gives its result when it is a visible directory with a match, and nothing otherwise |
| Search.AppendHits | mcp_server.py:363-365 | the loop appends each result's heading and its comma-joined match list, in result order |
| Search.SearchExamples | mcp_server.py:321-367 | the reply is the rendering of the results for the lowercased query |
| Metadata.LoadMeta | mcp_server.py:229-235 | metadata loads only when `meta.yaml` exists, reads and is accepted by the parser |
| Listing.LoadedFields | mcp_server.py:229-235 | a missing file, or one that fails to read or parse, gives `{}`; a loaded document gives its fields; a loaded non-mapping, and only that, gives no fields |
| Listing.MetaDefaults | mcp_server.py:229-256 | metadata that is missing, unreadable or rejected leaves the author "Unknown" and the tags `[]` |
| Listing.Description | mcp_server.py:243-251 | a README that is missing or does not read gives the empty description; any description neither starts nor ends with whitespace |
| Listing.DescriptionOneLine | mcp_server.py:244-251 | the description is a single line |
| Listing.DescriptionOfTitle | mcp_server.py:248-249 | a README opening with a `# Title` line is described by that title |
| Listing.ListingAsWritten | mcp_server.py:217-258 | the listing as written fails only with "metadata is not a mapping" for a candidate whose metadata loads to a non-mapping; when it succeeds, it is the corrected listing |
| Listing.EmptyMetadataFails | mcp_server.py:233-239 | a directory with a script and an empty `meta.yaml` makes the listing as written fail |
| Listing.AsWrittenFailsIff | mcp_server.py:217-258 | the listing as written fails iff some candidate's metadata loads to a non-mapping |
| Listing.AsWrittenAgrees | mcp_server.py:217-258 | without such metadata, the listing as written equals the corrected listing |
| Listing.ListingInIff | mcp_server.py:217-258 | an entry is listed iff it is visible, has a groovy script and passes the tag filter, with its description, author or "Unknown", and its tags or `[]` |
| Listing.ListedIff | mcp_server.py:217-258 | the same over the sorted base directory |
| Listing.FilteredCarryTag | mcp_server.py:238-241 | under a non-empty tag, every listed example carries that tag exactly |
| Listing.ListingAscending | mcp_server.py:217 | entries come in strictly ascending order of name |
| Listing.AppendSummary | mcp_server.py:265-271 | one example's block: its heading, its description when non-empty, its author, its tags when there are any, and a blank line |
| Listing.AppendSummaries | mcp_server.py:264-271 | the loop writes one such block per listed example, in listing order |
| Listing.ConsiderExample | mcp_server.py:218-258 | the per-directory checks yield that directory's entry or nothing |
| Listing.CollectSummaries | mcp_server.py:217-258 | the loop yields exactly the corrected listing over the names given |
| Listing.ListExamples | mcp_server.py:213-273 | the reply is the header, plus the tag line when the tag is non-empty, then one block per listed example |
| Bundle.GroovySectionsErrIff | mcp_server.py:307-311 | the glob fallback fails iff some groovy file does not read, and names the first such file |
| Bundle.GroovySections | mcp_server.py:307-311 | any failure of the glob fallback is a read error naming this example; `Bundle.GroovySectionsErrIff` says which file |
| Bundle.DocSection | mcp_server.py:284-288 | nothing without a README; the documentation heading and the README text when it reads; a read error naming `README.md` when it does not |
| Bundle.MetaSection | mcp_server.py:290-298 | the metadata heading and the dumped YAML when the metadata loads, and nothing otherwise; the heading is present iff the metadata loads |
| Bundle.BundleShowsMetadata | mcp_server.py:290-298 | a successful view holds the metadata heading when the metadata loads; when it does not, only a README whose whole text is `## Metadata` puts that piece there |
| Bundle.ScriptSection | mcp_server.py:300-311 | every error is a read error for this example; the other two clauses only expose the definition's two branches (`script.groovy`'s block or read error, else the glob fallback) to callers, and what the section means is stated by `Bundle.BundleFailsIff`, `Bundle.ScriptSectionNoMeta` and `Bundle.BundleShowsMetadata` |
| Bundle.BundleFailsIff | mcp_server.py:277-311 | the view fails iff the entry is missing or not a directory, or its README, its `script.groovy` or (without one) a groovy file does not read; "Example not found" is exactly the first two cases |
| Bundle.SuffixOfExtension | mcp_server.py:316 | the suffix of a stem plus a one-dot extension is that extension |
| Bundle.ShownFilesNotListed | mcp_server.py:313-317 | `script.groovy`, `README.md`, `meta.yaml` and any groovy file with a stem never appear under "Files" |
| Bundle.AuxFilesIff | mcp_server.py:315-317 | "Files" lists exactly the regular files whose suffix is not `.groovy`, `.md` or `.yaml` |
| Bundle.AppendFiles | mcp_server.py:313-317 | the files loop appends the heading and one item per other file, in ascending order |
| Bundle.AppendGroovyFiles | mcp_server.py:309-311 | the fallback loop yields a block per groovy file in glob order, or the first read error |
| Bundle.AppendDoc | mcp_server.py:284-288 | the README step appends exactly the pieces of `DocSection` to the result, or returns its error |
| Bundle.AppendScripts | mcp_server.py:300-311 | the script step appends exactly the pieces of `ScriptSection`, or returns its error |
| Bundle.AppendAfterDoc | mcp_server.py:290-317 | after the README, the metadata, script and files sections are appended in that order, or the script section's error is returned |
| Bundle.BundleOf | mcp_server.py:275-319 | "Example not found" exactly when the entry is missing or not a directory; a successful view opens with the title line and ends with the files section |
| Bundle.GetExample | mcp_server.py:275-319 | the reply is the title, documentation, metadata, script and files sections in that order, or the first error |
| Resources.FileForKind | mcp_server.py:102-109 | `script`, `readme` and `meta` map to `script.groovy`, `README.md` and `meta.yaml`; no other type maps to a file |
| Resources.ResourceUri | mcp_server.py:53 | a published URI is the prefix followed by the example, `/` and the type; `Resources.ParsePublished` parses it back |
| Resources.ParseUri | mcp_server.py:89-97 | a URI without the prefix is an "Unknown resource"; with it, the URI parses iff the remainder, every occurrence of the prefix removed, holds exactly one `/`, and is otherwise an "Invalid resource URI"; the remainder is then the two segments joined by `/`, neither holding a `/` |
| Resources.ParsePublished | mcp_server.py:52-97 | every URI the resource listing publishes for a name and type without `/` parses back to them |
| Resources.PublishedOfParsed | mcp_server.py:52-97 | a URI that parses, and holds the prefix only at its start, is the published URI of what it names |
| Resources.SegmentsWithinUri | mcp_server.py:89-97 | the two segments and their separator fit in the URI past its prefix |
| Resources.ReadResource | mcp_server.py:86-115 | a read returns the text of the mapped file of a directory of that name; a parse error or a missing example is reported as such |
| Resources.ReadPublished | mcp_server.py:52-115 | a published URI for a file that reads yields its text |
| Resources.ReadMissingFile | mcp_server.py:99-113 | a known type whose file the example lacks is "Resource file not found" |
| Resources.ReadUnknownType | mcp_server.py:102-109 | any other type is "Unknown resource type" |

## Left out

- MCP wiring is protocol plumbing: server construction, the tool catalogue, tool dispatch, `run`/`main`, `asyncio` and logging. Logged warnings are dropped, and `async` plays no part.
- The resource listing is left out because of its recursive glob over every directory level. This covers nested directories and the base directory itself. Only the URI format it publishes is modelled (`Resources.ResourceUri`, lines 53, 65 and 77 of `mcp_server.py`).
- Path resolution is left out. Example names containing `/`, and the names `""`, `.` and `..`, select other paths than a map key does. Case-insensitive filesystems and symbolic links are left out too.
- Only the two failures `read_text` actually meets are kept: a sub-directory and undecodable bytes, both as "does not read". Other operating-system errors are not modelled.
- YAML parsing and dumping belong to a foreign library, so the parser is a parameter. It gives the dumped text and, for a mapping, a string `author` and a list-of-strings `tags`. Other value types keep Python's behaviour unmodelled. Examples are `tags: null` (a `TypeError`), tags given as a string (substring membership) and a non-string author. An exception from `yaml.dump` is not modelled either.
- `str.lower()` is modelled on ASCII letters only. Unicode case mapping is left out.
- The text of an exception message is left out: each error carries the identifier it names.
- Replies are the pieces of one `TextContent` text. The wrapping list and type tag are left out.
- `Search.SearchMonotone`: it is stated for the reported examples and their match labels. It does not cover the order of labels inside one example, which lengthening the query preserves but the lemma does not state.
- `Listing.ListExamples`: it models the corrected listing. The code as written is `Listing.ListingAsWritten`; see Findings.

## Findings

| source | as written | input that shows it | evidently intended | confidence | as-written member | corrected member |
|---|---|---|---|---|---|---|
| mcp_server.py:233-256 | `metadata` takes whatever `yaml.safe_load` returns, and `metadata.get` is then called on it | an example directory with `script.groovy` and an empty `meta.yaml`: the load gives `None`, `.get` raises `AttributeError`, and the whole listing fails | metadata that is not a mapping counts as `{}`, like a failed parse: author "Unknown", no tags | high, not executed | Listing.ListingAsWritten (exhibited by Listing.EmptyMetadataFails) | Listing.ListExamples (proved by Listing.ListedIff) |
