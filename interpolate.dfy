/**
  Linear interpolation of 3D points (modules/interpolate.js), as the
  molecule-interpolation code uses it: a path through `pts` is cut into
  segments, the i-th running from pts[i] to pts[i+1] in nsplits[i] equal
  steps.

  The vector arithmetic (`Vec3.plus`, `Vec3.minus`, `Vec3.muln`) is a
  parameter; only the shape of the result is modelled.
 */
module Interpolate {
  import opened Wrappers

  /** The points b, b+d, b+2d, ... (`k` of them), each the previous plus `d`. */
  function Walk<V>(b: V, d: V, k: nat, plus: (V, V) -> V): (ps: seq<V>)
    ensures |ps| == k
  {
    if k == 0 then []
    else if k == 1 then [b]
    else var w := Walk(b, d, k - 1, plus); w + [plus(w[k - 2], d)]
  }

  /** The walk starts at `b` and each point is the previous one plus `d`. */
  lemma {:induction false} WalkSteps<V>(b: V, d: V, k: nat, plus: (V, V) -> V)
    ensures k >= 1 ==> Walk(b, d, k, plus)[0] == b
    ensures forall i :: 0 <= i < k - 1 ==> Walk(b, d, k, plus)[i + 1] == plus(Walk(b, d, k, plus)[i], d)
  {
    if k >= 2 {
      WalkSteps(b, d, k - 1, plus);
      var w := Walk(b, d, k - 1, plus);
      assert Walk(b, d, k, plus) == w + [plus(w[k - 2], d)];
    }
  }

  /** The step of a segment of `n >= 1` splits: (e - b) / n. */
  function Step<V>(b: V, e: V, n: nat, minus: (V, V) -> V, muln: (V, real) -> V): V
    requires n >= 1
  {
    muln(minus(e, b), 1.0 / n as real)
  }

  /** One segment: the walk from `b` in `n` steps, then `e` itself. */
  function Segment<V>(b: V, e: V, n: nat, plus: (V, V) -> V, minus: (V, V) -> V, muln: (V, real) -> V): seq<V>
  {
    if n == 0 then [e] else Walk(b, Step(b, e, n, minus, muln), n, plus) + [e]
  }

  /** A segment has n+1 points, starts at `b` when n >= 1, ends at `e`, and steps by (e - b) / n in between. */
  lemma SegmentShape<V>(b: V, e: V, n: nat, plus: (V, V) -> V, minus: (V, V) -> V, muln: (V, real) -> V)
    ensures var s := Segment(b, e, n, plus, minus, muln);
      && |s| == n + 1
      && s[n] == e
      && (n >= 1 ==> s[0] == b)
      && (n >= 1 ==> forall i :: 0 <= i < n - 1 ==> s[i + 1] == plus(s[i], Step(b, e, n, minus, muln)))
  {
    if n >= 1 {
      var d := Step(b, e, n, minus, muln);
      WalkSteps(b, d, n, plus);
      var s := Segment(b, e, n, plus, minus, muln);
      assert forall i :: 0 <= i < n ==> s[i] == Walk(b, d, n, plus)[i];
    }
  }

  /**
    `linear3DOneSegment(b, e, n)` for a whole number of splits: pushes `p`
    from `b` while adding the step, then pushes `e`. With no split the
    step is never used.
   */
  method Linear3DOneSegment<V>(b: V, e: V, n: nat, plus: (V, V) -> V, minus: (V, V) -> V, muln: (V, real) -> V)
    returns (segm: seq<V>)
    ensures segm == Segment(b, e, n, plus, minus, muln)
  {
    segm := [];
    if n == 0 {
      segm := segm + [e];
      return;
    }
    var d := Step(b, e, n, minus, muln);
    var p := b;
    for i := 0 to n
      invariant segm == Walk(b, d, i, plus)
      invariant i >= 1 ==> p == plus(segm[i - 1], d)
      invariant i == 0 ==> p == b
    {
      segm := segm + [p];
      p := plus(p, d);
    }
    segm := segm + [e];
  }

  const Mismatch: string := "Interpolate.linear3D: mismatch between pts and nsplits"

  /** `linear3D(pts, nsplits)`: one segment per split count, the i-th from pts[i] to pts[i+1]. */
  method Linear3D<V>(pts: seq<V>, nsplits: seq<nat>, plus: (V, V) -> V, minus: (V, V) -> V, muln: (V, real) -> V)
    returns (r: Result<seq<seq<V>>, string>)
    ensures r.Err? <==> |nsplits| + 1 != |pts|
    ensures r.Err? ==> r.error == Mismatch
    ensures r.Ok? ==> |r.value| == |nsplits| &&
                      forall i :: 0 <= i < |nsplits| ==> r.value[i] == Segment(pts[i], pts[i + 1], nsplits[i], plus, minus, muln)
  {
    if |nsplits| + 1 != |pts| {
      return Err(Mismatch);
    }
    var segms: seq<seq<V>> := [];
    for i := 0 to |nsplits|
      invariant |segms| == i
      invariant forall k :: 0 <= k < i ==> segms[k] == Segment(pts[k], pts[k + 1], nsplits[k], plus, minus, muln)
    {
      var s := Linear3DOneSegment(pts[i], pts[i + 1], nsplits[i], plus, minus, muln);
      segms := segms + [s];
    }
    r := Ok(segms);
  }

  /** Consecutive segments meet: each ends at the point where the next starts (when that one has a split). */
  lemma SegmentsJoin<V>(pts: seq<V>, nsplits: seq<nat>, i: nat, plus: (V, V) -> V, minus: (V, V) -> V, muln: (V, real) -> V)
    requires |nsplits| + 1 == |pts| && i + 1 < |nsplits| && nsplits[i + 1] >= 1
    ensures var s := Segment(pts[i], pts[i + 1], nsplits[i], plus, minus, muln);
      var t := Segment(pts[i + 1], pts[i + 2], nsplits[i + 1], plus, minus, muln);
      s[|s| - 1] == t[0]
  {
    SegmentShape(pts[i], pts[i + 1], nsplits[i], plus, minus, muln);
    SegmentShape(pts[i + 1], pts[i + 2], nsplits[i + 1], plus, minus, muln);
  }
}
