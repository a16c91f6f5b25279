/**
 * Reports are built by appending pieces of text to a result string; the
 * model keeps the pieces, in order, and the reply text is their concatenation.
 */
module Markdown {
  import opened Strings

  /** The reply text made of the pieces. */
  function Concat(pieces: seq<string>): string {
    if pieces == [] then "" else pieces[0] + Concat(pieces[1..])
  }

  /** One piece `pre + x + post` per element of `xs`, in order. */
  function Items(xs: seq<string>, pre: string, post: string): seq<string> {
    seq(|xs|, k requires 0 <= k < |xs| => pre + xs[k] + post)
  }

  lemma ItemsSnoc(xs: seq<string>, x: string, pre: string, post: string)
    ensures Items(xs + [x], pre, post) == Items(xs, pre, post) + [pre + x + post]
  {
  }

  /** Every item piece opens with the item prefix. */
  lemma ItemsLeadWith(xs: seq<string>, pre: string, post: string, p: string)
    requires p in Items(xs, pre, post)
    ensures StartsWith(p, pre)
  {
    var k :| 0 <= k < |xs| && Items(xs, pre, post)[k] == p;
    assert p[..|pre|] == pre;
  }

  /** `for x in xs: result += pre + x + post` */
  method AppendItems(result: seq<string>, xs: seq<string>, pre: string, post: string) returns (r: seq<string>)
    ensures r == result + Items(xs, pre, post)
  {
    r := result;
    var i := 0;
    while i < |xs|
      invariant 0 <= i <= |xs|
      invariant r == result + Items(xs[..i], pre, post)
    {
      ItemsSnoc(xs[..i], xs[i], pre, post);
      assert xs[..i + 1] == xs[..i] + [xs[i]];
      r := r + [pre + xs[i] + post];
      i := i + 1;
    }
    assert xs[..i] == xs;
  }
}
