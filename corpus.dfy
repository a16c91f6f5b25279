/**
 * The example corpus, as the server sees it through the filesystem: the
 * entries directly under the base directory, and for each example
 * directory its entries in the order the filesystem enumerates them.
 */
module Corpus {
  import opened Wrappers
  import opened Strings
  import opened Selection

  /** A directory entry: a file whose text decodes (`Some`) or fails to be read (`None`), or a sub-directory. */
  datatype Entry = File(text: Option<string>) | Folder

  datatype Item = Item(name: string, entry: Entry)

  /** An entry of the base directory: a plain file, or a directory of items in enumeration order. */
  datatype Node = PlainFile | Dir(items: seq<Item>)

  /** The base directory: entry name to entry. */
  type Root = map<string, Node>

  const ScriptName := "script.groovy"
  const ReadmeName := "README.md"
  const MetaName := "meta.yaml"

  /** The errors the operations raise, each carrying the offending identifier. */
  datatype Error =
    | ExampleNotFound(name: string)
    | NoGroovyScript(name: string)
    | NotADirectory(name: string)
    | ReadFailed(name: string, file: string)
    | UnknownResource(uri: string)
    | InvalidResourceUri(uri: string)
    | UnknownResourceType(kind: string)
    | ResourceFileNotFound(name: string, file: string)
    | MetadataNotMapping(name: string)

  /** The entry named `name` (`path.exists()` when `Some`). */
  function Find(items: seq<Item>, name: string): (r: Option<Entry>)
    ensures r.Some? ==> Item(name, r.value) in items
    ensures r.None? ==> forall it :: it in items ==> it.name != name
  {
    if items == [] then None
    else if items[0].name == name then Some(items[0].entry)
    else Find(items[1..], name)
  }

  predicate Exists(items: seq<Item>, name: string) {
    Find(items, name).Some?
  }

  /** `read_text()` of the entry named `name`: `None` when it is missing, a folder, or undecodable. */
  function ReadText(items: seq<Item>, name: string): Option<string> {
    match Find(items, name)
    case Some(File(t)) => t
    case _ => None
  }

  /** Names matched by the glob pattern `*.groovy` (any entry kind, hidden names included). */
  predicate IsGroovyName(name: string) {
    EndsWith(name, ".groovy")
  }

  /** `dir.glob("*.groovy")`, in enumeration order. */
  function GroovyItems(items: seq<Item>): (g: seq<Item>)
    ensures forall it :: it in g <==> it in items && IsGroovyName(it.name)
  {
    if items == [] then []
    else (if IsGroovyName(items[0].name) then [items[0]] else []) + GroovyItems(items[1..])
  }

  predicate IsGroovyItem(it: Item) {
    IsGroovyName(it.name)
  }

  /** Every position moved one place on. */
  function Shift(p: seq<int>): (q: seq<int>)
    ensures |q| == |p| && forall k :: 0 <= k < |p| ==> q[k] == p[k] + 1
  {
    seq(|p|, k requires 0 <= k < |p| => p[k] + 1)
  }

  /** The positions of `items` that `GroovyItems` keeps, front to back. */
  function GlobPositions(items: seq<Item>): seq<int>
    decreases |items|
  {
    if items == [] then []
    else (if IsGroovyName(items[0].name) then [0] else []) + Shift(GlobPositions(items[1..]))
  }

  /** Selecting from a longer sequence: the positions of the tail, moved on, after the head's. */
  lemma ShiftSelection(items: seq<Item>, rest: seq<int>)
    requires items != [] && IsSelection(rest, items[1..], IsGroovyItem)
    ensures IsSelection((if IsGroovyItem(items[0]) then [0] else []) + Shift(rest), items, IsGroovyItem)
  {
    var head := if IsGroovyItem(items[0]) then [0] else [];
    var idx := head + Shift(rest);
    ShiftIncreasing(head, rest, idx);
    forall i | 0 <= i < |items| ensures IsGroovyItem(items[i]) <==> i in idx {
      if i > 0 {
        assert items[i] == items[1..][i - 1];
        ShiftMember(head, rest, idx, i);
      } else if 0 in idx {
        var k :| 0 <= k < |idx| && idx[k] == 0;
        assert k < |head|;
      }
    }
  }

  lemma ShiftIncreasing(head: seq<int>, rest: seq<int>, idx: seq<int>)
    requires head == [] || head == [0]
    requires forall k :: 0 <= k < |rest| ==> 0 <= rest[k]
    requires forall k, l :: 0 <= k < l < |rest| ==> rest[k] < rest[l]
    requires idx == head + Shift(rest)
    ensures forall k, l :: 0 <= k < l < |idx| ==> idx[k] < idx[l]
  {
    forall k, l | 0 <= k < l < |idx| ensures idx[k] < idx[l] {
      assert idx[l] == rest[l - |head|] + 1;
      if k >= |head| {
        assert idx[k] == rest[k - |head|] + 1;
      }
    }
  }

  lemma ShiftMember(head: seq<int>, rest: seq<int>, idx: seq<int>, i: int)
    requires head == [] || head == [0]
    requires idx == head + Shift(rest) && 0 < i
    ensures i in idx <==> i - 1 in rest
  {
    if i - 1 in rest {
      var k :| 0 <= k < |rest| && rest[k] == i - 1;
      assert idx[|head| + k] == i;
    }
    if i in idx {
      var k :| 0 <= k < |idx| && idx[k] == i;
      assert rest[k - |head|] == i - 1;
    }
  }

  /**
   * The glob keeps the groovy entries, all of them, in enumeration order:
   * its k-th match is the entry at the k-th groovy position.
   */
  lemma {:induction false} GroovyItemsInOrder(items: seq<Item>)
    ensures IsSelection(GlobPositions(items), items, IsGroovyItem)
    ensures |GlobPositions(items)| == |GroovyItems(items)|
    ensures forall k :: 0 <= k < |GroovyItems(items)| ==> GroovyItems(items)[k] == items[GlobPositions(items)[k]]
    decreases |items|
  {
    if items != [] {
      var tail := items[1..];
      GroovyItemsInOrder(tail);
      var rest := GlobPositions(tail);
      ShiftSelection(items, rest);
      var head := if IsGroovyName(items[0].name) then [0] else [];
      var idx := head + Shift(rest);
      assert GlobPositions(items) == idx;
      assert GroovyItems(items) == (if IsGroovyName(items[0].name) then [items[0]] else []) + GroovyItems(tail);
      ShiftElements(items, IsGroovyName(items[0].name), GroovyItems(tail), rest, GroovyItems(items), idx);
    }
  }

  /** The elements at the shifted positions are the tail's elements at the old ones. */
  lemma ShiftElements(items: seq<Item>, h: bool, gt: seq<Item>, rest: seq<int>, g: seq<Item>, idx: seq<int>)
    requires items != [] && |rest| == |gt|
    requires forall k :: 0 <= k < |gt| ==> 0 <= rest[k] < |items| - 1 && gt[k] == items[1..][rest[k]]
    requires g == (if h then [items[0]] else []) + gt
    requires idx == (if h then [0] else []) + Shift(rest)
    ensures |idx| == |g|
    ensures forall k :: 0 <= k < |g| ==> g[k] == items[idx[k]]
  {
    var n := if h then 1 else 0;
    forall k | 0 <= k < |g| ensures g[k] == items[idx[k]] {
      if k >= n {
        assert g[k] == gt[k - n] && idx[k] == rest[k - n] + 1;
      }
    }
  }

  /** `groovy_files[0]`: the first groovy entry in enumeration order, with no groovy entry before it. */
  lemma FirstGlobMatch(items: seq<Item>)
    requires GroovyItems(items) != []
    ensures exists p :: 0 <= p < |items| && items[p] == GroovyItems(items)[0] &&
              forall j :: 0 <= j < p ==> !IsGroovyName(items[j].name)
  {
    GroovyItemsInOrder(items);
    var idx := GlobPositions(items);
    var p := idx[0];
    forall j | 0 <= j < p ensures !IsGroovyName(items[j].name) {
      forall k | 0 <= k < |idx| ensures idx[k] != j {
        if k > 0 {
          assert idx[0] < idx[k];
        }
      }
      assert j !in idx;
    }
  }

  lemma ScriptIsGroovy(items: seq<Item>)
    requires Exists(items, ScriptName)
    ensures GroovyItems(items) != []
  {
    var it := Item(ScriptName, Find(items, ScriptName).value);
    assert IsGroovyName(it.name);
    assert it in GroovyItems(items);
  }

  /** Names of the regular files directly in a directory (`f.is_file()`). */
  function FileNames(items: seq<Item>): set<string> {
    set it | it in items && it.entry.File? :: it.name
  }

  /** Index of the last `c` in `s`, or -1 (`str.rfind`). */
  function LastIndex(s: string, c: char): (i: int)
    ensures -1 <= i < |s|
    ensures i >= 0 ==> s[i] == c && c !in s[i + 1..]
    ensures i == -1 ==> c !in s
  {
    if s == [] then -1
    else if s[|s| - 1] == c then |s| - 1
    else
      var i := LastIndex(s[..|s| - 1], c);
      LastIndexStep(s, c, i);
      i
  }

  /** The last `c` of a string that does not end in `c` is the last `c` of its front. */
  lemma LastIndexStep(s: string, c: char, i: int)
    requires s != [] && s[|s| - 1] != c && -1 <= i < |s| - 1
    requires i >= 0 ==> s[..|s| - 1][i] == c && c !in s[..|s| - 1][i + 1..]
    requires i == -1 ==> c !in s[..|s| - 1]
    ensures i >= 0 ==> s[i] == c && c !in s[i + 1..]
    ensures i == -1 ==> c !in s
  {
    var n := |s| - 1;
    if i >= 0 {
      assert s[i + 1..] == s[..n][i + 1..] + [s[n]];
    } else {
      assert s == s[..n] + [s[n]];
    }
  }

  /** `PurePath(name).suffix`: from the last dot on, unless that dot leads or ends the name. */
  function Suffix(name: string): (r: string)
    ensures r == [] || (r[0] == '.' && EndsWith(name, r) && |r| < |name| && 1 < |r|)
    ensures r != [] ==> '.' !in r[1..]
    ensures r == [] <==> !exists i :: 0 < i < |name| - 1 && name[i] == '.' && '.' !in name[i + 1..]
  {
    var i := LastIndex(name, '.');
    if 0 < i < |name| - 1 then
      assert name[i..][1..] == name[i + 1..];
      name[i..]
    else
      LastDotUnique(name, i);
      ""
  }

  /** Only the last dot has no dot after it. */
  lemma LastDotUnique(name: string, i: int)
    requires i == LastIndex(name, '.')
    ensures forall j :: 0 <= j < |name| && name[j] == '.' && '.' !in name[j + 1..] ==> j == i
  {
  }

  /** `name.startswith(".")` */
  predicate IsHidden(name: string) {
    StartsWith(name, ".")
  }

  /** A directory the listing and the search visit: a directory whose name is not hidden. */
  predicate Visible(root: Root, name: string) {
    name in root && root[name].Dir? && !IsHidden(name)
  }
}
