/**
 * Python's filtering comprehension `[f(x) for x in xs if keep(x)]`, with
 * the positions it keeps.
 */
module Selection {
  /** `[f(x) for x in xs if keep(x)]` */
  function Select<T>(xs: seq<T>, keep: T -> bool, f: T -> string): seq<string>
    decreases |xs|
  {
    if xs == [] then []
    else Select(xs[..|xs| - 1], keep, f) + (if keep(xs[|xs| - 1]) then [f(xs[|xs| - 1])] else [])
  }

  lemma SelectSnoc<T>(xs: seq<T>, x: T, keep: T -> bool, f: T -> string)
    ensures Select(xs + [x], keep, f) == Select(xs, keep, f) + (if keep(x) then [f(x)] else [])
  {
    assert (xs + [x])[..|xs|] == xs;
  }

  /**
   * `idx` lists, in increasing order, exactly the positions of `xs` whose
   * element `keep` accepts.
   */
  ghost predicate IsSelection<T>(idx: seq<int>, xs: seq<T>, keep: T -> bool) {
    && (forall k :: 0 <= k < |idx| ==> 0 <= idx[k] < |xs|)
    && (forall k, l :: 0 <= k < l < |idx| ==> idx[k] < idx[l])
    && (forall i :: 0 <= i < |xs| ==> (keep(xs[i]) <==> i in idx))
  }

  /** The positions `Select` keeps. */
  function Positions<T>(xs: seq<T>, keep: T -> bool): seq<int>
    decreases |xs|
  {
    if xs == [] then []
    else Positions(xs[..|xs| - 1], keep) + (if keep(xs[|xs| - 1]) then [|xs| - 1] else [])
  }

  lemma {:induction false} PositionsExact<T>(xs: seq<T>, keep: T -> bool)
    ensures IsSelection(Positions(xs, keep), xs, keep)
    decreases |xs|
  {
    if xs != [] {
      var n := |xs| - 1;
      var init := xs[..n];
      PositionsExact(init, keep);
      var idx0 := Positions(init, keep);
      assert Positions(xs, keep) == idx0 + (if keep(xs[n]) then [n] else []);
      assert n !in idx0;
      forall i | 0 <= i < n ensures keep(xs[i]) <==> i in idx0 {
        assert init[i] == xs[i];
      }
    }
  }

  lemma {:induction false} SelectAtPositions<T>(xs: seq<T>, keep: T -> bool, f: T -> string)
    ensures |Positions(xs, keep)| == |Select(xs, keep, f)|
    ensures forall k :: 0 <= k < |Select(xs, keep, f)| ==>
              0 <= Positions(xs, keep)[k] < |xs| && Select(xs, keep, f)[k] == f(xs[Positions(xs, keep)[k]])
    decreases |xs|
  {
    if xs != [] {
      var n := |xs| - 1;
      var init := xs[..n];
      SelectAtPositions(init, keep, f);
      assert Positions(xs, keep) == Positions(init, keep) + (if keep(xs[n]) then [n] else []);
      assert Select(xs, keep, f) == Select(init, keep, f) + (if keep(xs[n]) then [f(xs[n])] else []);
      assert forall k :: 0 <= k < |Positions(init, keep)| ==> init[Positions(init, keep)[k]] == xs[Positions(init, keep)[k]];
    }
  }

  /**
   * `Select` keeps the accepted elements, all of them, in their order, and
   * no other: its k-th result is the image of the element at the k-th
   * accepted position.
   */
  lemma SelectExact<T>(xs: seq<T>, keep: T -> bool, f: T -> string)
    ensures IsSelection(Positions(xs, keep), xs, keep)
    ensures |Positions(xs, keep)| == |Select(xs, keep, f)|
    ensures forall k :: 0 <= k < |Select(xs, keep, f)| ==>
              Select(xs, keep, f)[k] == f(xs[Positions(xs, keep)[k]])
  {
    PositionsExact(xs, keep);
    SelectAtPositions(xs, keep, f);
  }

  /** An image is selected exactly when some accepted element has it. */
  lemma {:induction false} SelectMember<T>(xs: seq<T>, keep: T -> bool, f: T -> string, y: string)
    ensures y in Select(xs, keep, f) <==> exists i :: 0 <= i < |xs| && keep(xs[i]) && f(xs[i]) == y
    decreases |xs|
  {
    if xs != [] {
      var n := |xs| - 1;
      var init := xs[..n];
      SelectMember(init, keep, f, y);
      if exists i :: 0 <= i < n && keep(init[i]) && f(init[i]) == y {
        var i :| 0 <= i < n && keep(init[i]) && f(init[i]) == y;
        assert xs[i] == init[i];
      }
      if exists i :: 0 <= i < |xs| && keep(xs[i]) && f(xs[i]) == y {
        var i :| 0 <= i < |xs| && keep(xs[i]) && f(xs[i]) == y;
        if i < n {
          assert init[i] == xs[i];
        }
      }
    }
  }
}
