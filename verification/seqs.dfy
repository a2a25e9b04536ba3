/** Boolean masks over sequences, as numpy uses them: counting the set
    entries (`np.sum` of a boolean array) and keeping the entries a mask
    selects (boolean indexing `xs[mask]`). */
module Seqs {

  /** Number of `true` entries in `keep`. */
  function Count(keep: seq<bool>): (n: nat)
    ensures n <= |keep|
    ensures n == 0 <==> forall i :: 0 <= i < |keep| ==> !keep[i]
  {
    if |keep| == 0 then 0
    else Count(keep[..|keep| - 1]) + (if keep[|keep| - 1] then 1 else 0)
  }

  /** The positions of the `true` entries of `keep`, in increasing order. */
  function Positions(keep: seq<bool>): (p: seq<nat>)
    ensures |p| == Count(keep)
    ensures forall j :: 0 <= j < |p| ==> p[j] < |keep| && keep[p[j]]
    ensures forall j, k :: 0 <= j < k < |p| ==> p[j] < p[k]
  {
    if |keep| == 0 then []
    else
      var front := Positions(keep[..|keep| - 1]);
      front + (if keep[|keep| - 1] then [|keep| - 1] else [])
  }

  /** No set entry is missed: every position whose flag is set is listed. */
  lemma {:induction false} PositionsComplete(keep: seq<bool>, i: nat)
    requires i < |keep| && keep[i]
    ensures i in Positions(keep)
  {
    var last := |keep| - 1;
    if i < last {
      var init := keep[..last];
      assert init[i] == keep[i];
      PositionsComplete(init, i);
    }
  }

  /** Boolean indexing `xs[keep]`: the entries whose flag is set, in order. */
  function Select<T>(xs: seq<T>, keep: seq<bool>): (r: seq<T>)
    requires |xs| == |keep|
    ensures |r| == Count(keep)
    ensures forall j :: 0 <= j < |r| ==> r[j] == xs[Positions(keep)[j]]
  {
    var p := Positions(keep);
    seq(|p|, j requires 0 <= j < |p| => xs[p[j]])
  }

  /** Entries `keep[i]` select exactly the entries of `xs` that `Select` keeps. */
  lemma SelectMembership<T>(xs: seq<T>, keep: seq<bool>, i: nat)
    requires |xs| == |keep| && i < |xs| && keep[i]
    ensures xs[i] in Select(xs, keep)
  {
    var p := Positions(keep);
    PositionsComplete(keep, i);
    var j :| 0 <= j < |p| && p[j] == i;
    assert Select(xs, keep)[j] == xs[i];
  }
}
