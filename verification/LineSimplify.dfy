/**
 L.LineUtil.simplify over exact reals: radial reduction, then Douglas-Peucker with a marker array.
 */
module LineSimplify {
  import opened LineClip

  function Times(p: real, q: real): real
  {
    p * q
  }

  lemma TimesSign(p: real, q: real)
    ensures p > 0.0 && q > 0.0 ==> Times(p, q) > 0.0
    ensures p < 0.0 && q < 0.0 ==> Times(p, q) > 0.0
    ensures p == 0.0 ==> Times(p, q) == 0.0
  {
    if p < 0.0 && q < 0.0 {
      assert p * q == (-p) * (-q);
    }
  }

  function Sq(x: real): real
  {
    Times(x, x)
  }

  function SqDist(t: Point, e: Point): real
  {
    Sq(e.x - t.x) + Sq(e.y - t.y)
  }

  function SqLength(a: Point, b: Point): real
  {
    Sq(b.x - a.x) + Sq(b.y - a.y)
  }

  function Slope(t: real, a: real, b: real): real
  {
    (t - a) * (b - a)
  }

  function Dot(t: Point, a: Point, b: Point): real
  {
    Slope(t.x, a.x, b.x) + Slope(t.y, a.y, b.y)
  }

  /** The point of the segment ab that _sqClosestPointOnSegment settles on. */
  function Closest(t: Point, a: Point, b: Point): Point
  {
    if SqLength(a, b) > 0.0 then
      var s := Dot(t, a, b) / SqLength(a, b);
      if s > 1.0 then b
      else if s > 0.0 then Point(a.x + (b.x - a.x) * s, a.y + (b.y - a.y) * s)
      else a
    else a
  }

  /** Its squared distance, the result when sqDist is asked for. */
  function SqDistToSegment(t: Point, a: Point, b: Point): real
  {
    SqDist(t, Closest(t, a, b))
  }

  lemma Square(x: real)
    ensures x * x >= 0.0
    ensures x != 0.0 ==> x * x > 0.0
  {
    if x < 0.0 {
      assert x * x == (-x) * (-x);
    }
  }

  lemma SqDistProperties(a: Point, b: Point)
    ensures SqDist(a, b) >= 0.0 && SqDist(a, a) == 0.0 && SqDist(a, b) == SqDist(b, a)
  {
    Square(b.x - a.x);
    Square(b.y - a.y);
    assert (a.x - b.x) * (a.x - b.x) == (b.x - a.x) * (b.x - a.x);
    assert (a.y - b.y) * (a.y - b.y) == (b.y - a.y) * (b.y - a.y);
  }

  lemma Distribute(m: real, p: real, q: real)
    ensures m * (p + q) == m * p + m * q
  {
  }

  lemma SquareOfDifference(p: real, q: real)
    ensures (p - q) * (p - q) == p * p - 2.0 * (p * q) + q * q
  {
  }

  lemma ParabolaAxis(t: real, a: real, b: real, m: real)
    ensures Sq(Mix(a, b, m) - t) == Sq(a - t) - 2.0 * (m * Slope(t, a, b)) + (m * m) * Sq(b - a)
  {
    SquareOfDifference(m * (b - a), t - a);
    assert (m * (b - a)) * (m * (b - a)) == (m * m) * ((b - a) * (b - a));
    assert (m * (b - a)) * (t - a) == m * ((t - a) * (b - a));
    assert Mix(a, b, m) - t == m * (b - a) - (t - a);
    assert (t - a) * (t - a) == (a - t) * (a - t);
  }

  /** The squared distance to the point at parameter m: a parabola in m. */
  lemma Parabola(t: Point, a: Point, b: Point, m: real)
    ensures SqDist(t, Along(a, b, m)) == SqDist(t, a) - 2.0 * (m * Dot(t, a, b)) + (m * m) * SqLength(a, b)
  {
    hide Mix, Sq, Slope;
    ParabolaAxis(t.x, a.x, b.x, m);
    ParabolaAxis(t.y, a.y, b.y, m);
    Distribute(m, Slope(t.x, a.x, b.x), Slope(t.y, a.y, b.y));
    Distribute(m * m, Sq(b.x - a.x), Sq(b.y - a.y));
  }

  /** Completing the square around the vertex s. */
  lemma Vertex(s: real, u: real, m: real, c: real)
    ensures (-2.0 * (m * (s * u)) + (m * m) * u) - (-2.0 * (c * (s * u)) + (c * c) * u)
         == (((m - s) * (m - s)) - ((c - s) * (c - s))) * u
  {
    assert (m - s) * (m - s) == m * m - 2.0 * (m * s) + s * s;
    assert (c - s) * (c - s) == c * c - 2.0 * (c * s) + s * s;
    assert m * (s * u) == (m * s) * u && c * (s * u) == (c * s) * u;
    assert (((m - s) * (m - s)) - ((c - s) * (c - s))) == (m * m - 2.0 * (m * s)) - (c * c - 2.0 * (c * s));
  }

  lemma SquareMonotone(p: real, q: real)
    requires 0.0 <= p <= q
    ensures p * p <= q * q
  {
    Square(p);
    assert q * q - p * p == (q - p) * (q + p);
  }

  function Clamped(s: real): real
  {
    if s > 1.0 then 1.0 else if s > 0.0 then s else 0.0
  }

  /** The clamped parameter is at least as near the vertex as any other parameter in [0, 1]. */
  lemma ClampNearest(s: real, m: real, c: real)
    requires 0.0 <= m <= 1.0
    requires c == Clamped(s)
    ensures (m - s) * (m - s) >= (c - s) * (c - s)
  {
    Square(m - s);
    if s > 1.0 {
      SquareMonotone(s - 1.0, s - m);
      assert (s - m) * (s - m) == (m - s) * (m - s);
    } else if s > 0.0 {
    } else {
      SquareMonotone(-s, m - s);
    }
  }

  /** The parameter of Closest. */
  function ClosestParameter(t: Point, a: Point, b: Point): real
  {
    if SqLength(a, b) > 0.0 then Clamped(Dot(t, a, b) / SqLength(a, b)) else 0.0
  }

  lemma ClosestAlong(t: Point, a: Point, b: Point)
    ensures 0.0 <= ClosestParameter(t, a, b) <= 1.0
    ensures Closest(t, a, b) == Along(a, b, ClosestParameter(t, a, b))
  {
    AlongEnds(a, b);
  }

  lemma SquareSign(x: real)
    ensures Sq(x) >= 0.0 && (x != 0.0 ==> Sq(x) > 0.0)
  {
    hide Times;
    TimesSign(x, x);
  }

  lemma NoSquares(h: real, l: real)
    requires Sq(h) + Sq(l) <= 0.0
    ensures h == 0.0 && l == 0.0
  {
    hide Sq;
    SquareSign(h);
    SquareSign(l);
  }

  lemma NoLength(a: Point, b: Point)
    requires SqLength(a, b) <= 0.0
    ensures a == b
  {
    NoSquares(b.x - a.x, b.y - a.y);
  }

  lemma SamePoint(a: Point, m: real)
    ensures Along(a, a, m) == a
  {
  }

  lemma Nearest(s: real, u: real, dot: real, m: real, c: real)
    requires u > 0.0 && s == dot / u && 0.0 <= m <= 1.0
    requires c == Clamped(s)
    ensures -2.0 * (c * dot) + (c * c) * u <= -2.0 * (m * dot) + (m * m) * u
  {
    assert s * u == dot;
    ClampNearest(s, m, c);
    Vertex(s, u, m, c);
    Signs(u, (m - s) * (m - s) - (c - s) * (c - s));
  }

  /** The result is on the segment and no point of the segment is nearer. */
  lemma ClosestIsMinimal(t: Point, a: Point, b: Point, m: real)
    requires 0.0 <= m <= 1.0
    ensures 0.0 <= SqDistToSegment(t, a, b) <= SqDist(t, Along(a, b, m))
  {
    hide SqDist, Along, Closest, Dot, SqLength, Clamped;
    var c := ClosestParameter(t, a, b);
    SqDistProperties(t, Closest(t, a, b));
    ClosestAlong(t, a, b);
    if SqLength(a, b) > 0.0 {
      Parabola(t, a, b, m);
      Parabola(t, a, b, c);
      Nearest(Dot(t, a, b) / SqLength(a, b), SqLength(a, b), Dot(t, a, b), m, c);
    } else {
      NoLength(a, b);
      SamePoint(a, m);
      SamePoint(a, c);
    }
  }

  /** Twice the sum of the squared steps bounds the squared distance of two steps. */
  lemma TwoSteps(a: Point, b: Point, c: Point)
    ensures SqDist(a, c) <= 2.0 * SqDist(a, b) + 2.0 * SqDist(b, c)
  {
    Square((b.x - a.x) - (c.x - b.x));
    Square((b.y - a.y) - (c.y - b.y));
  }

  /* ---------- kept points ---------- */

  /** The indices of the points a reduction keeps: increasing, from the first to the last. */
  ghost predicate Kept(ids: seq<nat>, n: nat)
  {
    && ids != [] && ids[0] == 0 && ids[|ids| - 1] == n - 1
    && forall j, k :: 0 <= j < k < |ids| ==> ids[j] < ids[k]
  }

  function Picked(t: seq<Point>, ids: seq<nat>): seq<Point>
    requires forall k :: 0 <= k < |ids| ==> ids[k] < |t|
  {
    seq(|ids|, k requires 0 <= k < |ids| => t[ids[k]])
  }

  lemma PickedSnoc(t: seq<Point>, ids: seq<nat>, i: nat)
    requires i < |t| && forall k :: 0 <= k < |ids| ==> ids[k] < |t|
    ensures Picked(t, ids + [i]) == Picked(t, ids) + [t[i]]
  {
  }

  lemma PickedNone(t: seq<Point>)
    ensures Picked(t, []) == []
  {
  }

  lemma PickedOne(t: seq<Point>)
    requires t != []
    ensures Picked(t, [0]) == [t[0]]
  {
  }

  /* ---------- Douglas-Peucker ---------- */

  ghost predicate Neighbours(marks: seq<bool>, p: nat, q: nat)
  {
    p < q < |marks| && marks[p] && marks[q] && forall k :: p < k < q ==> !marks[k]
  }

  /** Between two neighbouring marks every point is within the tolerance of the segment that joins them. */
  ghost predicate Tight(t: seq<Point>, marks: seq<bool>, tolerance: real, first: nat, last: nat)
    requires |marks| == |t| && last < |t|
  {
    forall p, a, q :: first <= p < a < q <= last && Neighbours(marks, p, q)
      ==> SqDistToSegment(t[a], t[p], t[q]) <= tolerance
  }

  lemma TightJoin(t: seq<Point>, marks: seq<bool>, tolerance: real, first: nat, mid: nat, last: nat)
    requires |marks| == |t| && first <= mid <= last < |t| && marks[mid]
    requires Tight(t, marks, tolerance, first, mid) && Tight(t, marks, tolerance, mid, last)
    ensures Tight(t, marks, tolerance, first, last)
  {
    hide SqDistToSegment;
    forall p, a, q | first <= p < a < q <= last && Neighbours(marks, p, q)
      ensures SqDistToSegment(t[a], t[p], t[q]) <= tolerance
    {
      assert !(p < mid < q);
    }
  }

  lemma TightElsewhere(t: seq<Point>, marks: seq<bool>, later: seq<bool>, tolerance: real, first: nat, last: nat)
    requires |marks| == |later| == |t| && last < |t| && marks[..last + 1] == later[..last + 1]
    requires Tight(t, marks, tolerance, first, last)
    ensures Tight(t, later, tolerance, first, last)
  {
    hide SqDistToSegment;
    forall k | 0 <= k <= last
      ensures marks[k] == later[k]
    {
      assert marks[k] == marks[..last + 1][k];
    }
    forall p, a, q | first <= p < a < q <= last && Neighbours(later, p, q)
      ensures SqDistToSegment(t[a], t[p], t[q]) <= tolerance
    {
      assert Neighbours(marks, p, q);
    }
  }

  lemma OneGap(t: seq<Point>, marks: seq<bool>, tolerance: real, first: nat, last: nat)
    requires |marks| == |t| && first <= last < |t|
    requires marks[first] && marks[last] && forall k :: first < k < last ==> !marks[k]
    requires forall a :: first < a < last ==> SqDistToSegment(t[a], t[first], t[last]) <= tolerance
    ensures Tight(t, marks, tolerance, first, last)
  {
    hide SqDistToSegment;
  }

  ghost predicate DividedAt(t: seq<Point>, marks: seq<bool>, tolerance: real, first: nat, last: nat, k: nat)
    requires |marks| == |t| && first <= last < |t|
    decreases last - first, 0
  {
    && first < k < last && marks[k] && SqDistToSegment(t[k], t[first], t[last]) > tolerance
    && (forall a :: first < a < last ==>
          SqDistToSegment(t[a], t[first], t[last]) <= SqDistToSegment(t[k], t[first], t[last]))
    && Divided(t, marks, tolerance, first, k) && Divided(t, marks, tolerance, k, last)
  }

  /**
   How the marks between first and last came about: none is needed, or a farthest point beyond the
   tolerance is marked, and so on in both halves.
   */
  ghost predicate Divided(t: seq<Point>, marks: seq<bool>, tolerance: real, first: nat, last: nat)
    requires |marks| == |t| && first <= last < |t|
    decreases last - first
  {
    || (forall a :: first < a < last ==> !marks[a] && SqDistToSegment(t[a], t[first], t[last]) <= tolerance)
    || exists k: nat :: DividedAt(t, marks, tolerance, first, last, k)
  }

  lemma {:induction false} DividedElsewhere(t: seq<Point>, marks: seq<bool>, later: seq<bool>, tolerance: real,
                                            first: nat, last: nat)
    requires |marks| == |later| == |t| && first <= last < |t|
    requires forall k :: first < k < last ==> marks[k] == later[k]
    requires Divided(t, marks, tolerance, first, last)
    ensures Divided(t, later, tolerance, first, last)
    decreases last - first
  {
    hide SqDistToSegment;
    if k: nat :| DividedAt(t, marks, tolerance, first, last, k) {
      DividedElsewhere(t, marks, later, tolerance, first, k);
      DividedElsewhere(t, marks, later, tolerance, k, last);
      assert DividedAt(t, later, tolerance, first, last, k);
    }
  }

  method SimplifyDPStep(t: seq<Point>, marks: array<bool>, tolerance: real, first: nat, last: nat)
    requires marks.Length == |t| && first <= last < |t| && tolerance >= 0.0
    requires marks[first] && marks[last] && forall k :: first < k < last ==> !marks[k]
    modifies marks
    ensures forall k :: 0 <= k < |t| && !(first < k < last) ==> marks[k] == old(marks[k])
    ensures Tight(t, marks[..], tolerance, first, last) && Divided(t, marks[..], tolerance, first, last)
    decreases last - first
  {
    hide SqDistToSegment, Tight;
    var maxSqDist, index := 0.0, first;
    var i := first + 1;
    while i <= last - 1
      invariant first < i && (first < last ==> i <= last)
      invariant maxSqDist > 0.0 ==> first < index < last
      invariant maxSqDist >= 0.0
      invariant maxSqDist > 0.0 ==> maxSqDist == SqDistToSegment(t[index], t[first], t[last])
      invariant forall a :: first < a < i && a < last ==> SqDistToSegment(t[a], t[first], t[last]) <= maxSqDist
    {
      var sqDist := SqDistToSegment(t[i], t[first], t[last]);
      if sqDist > maxSqDist {
        index := i;
        maxSqDist := sqDist;
      }
      i := i + 1;
    }
    if maxSqDist > tolerance {
      marks[index] := true;
      SimplifyDPStep(t, marks, tolerance, first, index);
      ghost var left := marks[..];
      SimplifyDPStep(t, marks, tolerance, index, last);
      assert left[..index + 1] == marks[..][..index + 1];
      TightElsewhere(t, left, marks[..], tolerance, first, index);
      TightJoin(t, marks[..], tolerance, first, index, last);
      assert forall k :: first < k < index ==> left[k] == marks[..][k];
      DividedElsewhere(t, left, marks[..], tolerance, first, index);
      assert DividedAt(t, marks[..], tolerance, first, last, index);
    } else {
      OneGap(t, marks[..], tolerance, first, last);
    }
  }

  /** Points a and b of the kept ones have nothing kept between them that is not dropped within the tolerance. */
  ghost predicate WithinGaps(t: seq<Point>, ids: seq<nat>, tolerance: real)
    requires Kept(ids, |t|)
  {
    forall k, a :: 0 <= k < |ids| - 1 && ids[k] < a < ids[k + 1] && ids[k + 1] < |t|
      ==> SqDistToSegment(t[a], t[ids[k]], t[ids[k + 1]]) <= tolerance
  }

  /** r is the subsequence of t at ids, and what it drops is within the tolerance. */
  ghost predicate DroppedInGaps(t: seq<Point>, r: seq<Point>, ids: seq<nat>, tolerance: real)
  {
    && Kept(ids, |t|) && (forall k :: 0 <= k < |ids| ==> ids[k] < |t|) && r == Picked(t, ids)
    && WithinGaps(t, ids, tolerance)
  }

  /** ids are the marked indices below a. */
  ghost predicate Collecting(marks: seq<bool>, ids: seq<nat>, a: nat)
  {
    && a <= |marks|
    && (a > 0 ==> ids != [] && ids[0] == 0)
    && (forall k :: 0 <= k < |ids| ==> ids[k] < a)
    && (ids != [] ==> marks[ids[|ids| - 1]] && forall k :: ids[|ids| - 1] < k < a ==> !marks[k])
    && (forall j, k :: 0 <= j < k < |ids| ==> ids[j] < ids[k])
    && (forall k :: 0 <= k < |ids| - 1 ==> Neighbours(marks, ids[k], ids[k + 1]))
    && (forall k :: 0 <= k < a ==> (marks[k] <==> k in ids))
  }

  lemma CollectStart(marks: seq<bool>)
    ensures Collecting(marks, [], 0)
  {
  }

  lemma CollectSkip(marks: seq<bool>, ids: seq<nat>, a: nat)
    requires Collecting(marks, ids, a) && a < |marks| && !marks[a] && marks[0]
    ensures Collecting(marks, ids, a + 1)
  {
  }

  lemma CollectMark(marks: seq<bool>, ids: seq<nat>, a: nat)
    requires Collecting(marks, ids, a) && a < |marks| && marks[a]
    ensures Collecting(marks, ids + [a], a + 1)
  {
    var longer := ids + [a];
    forall k | 0 <= k < |longer| - 1
      ensures Neighbours(marks, longer[k], longer[k + 1])
    {
      if k < |ids| - 1 {
        assert Neighbours(marks, ids[k], ids[k + 1]);
      }
    }
  }

  lemma Collected(t: seq<Point>, marks: seq<bool>, ids: seq<nat>, tolerance: real)
    requires t != [] && |marks| == |t| && Collecting(marks, ids, |t|) && marks[|t| - 1]
    requires Tight(t, marks, tolerance, 0, |t| - 1)
    ensures Kept(ids, |t|) && WithinGaps(t, ids, tolerance)
    ensures forall k :: 0 <= k < |t| ==> (marks[k] <==> k in ids)
  {
    hide SqDistToSegment;
  }

  /** The kept points are those of a division: each but the ends was a farthest one beyond the tolerance. */
  ghost predicate KeptByDivision(t: seq<Point>, kept: seq<bool>, ids: seq<nat>, tolerance: real)
  {
    && t != [] && |kept| == |t| && (forall k :: 0 <= k < |t| ==> (kept[k] <==> k in ids))
    && Divided(t, kept, tolerance, 0, |t| - 1)
  }

  /**
   _simplifyDP: a subsequence with both ends; what it drops lies within the tolerance of the segment
   that replaces it.
   */
  method SimplifyDP(t: seq<Point>, tolerance: real) returns (r: seq<Point>)
    requires t != [] && tolerance >= 0.0
    ensures exists ids, kept :: DroppedInGaps(t, r, ids, tolerance) && KeptByDivision(t, kept, ids, tolerance)
  {
    hide SqDistToSegment, Divided;
    var n := |t|;
    hide Picked, Collecting, Kept, WithinGaps, Tight;
    PickedNone(t);
    var marks := new bool[n](_ => false);
    marks[0], marks[n - 1] := true, true;
    SimplifyDPStep(t, marks, tolerance, 0, n - 1);
    label done:
    CollectStart(marks[..]);
    r := [];
    ghost var ids: seq<nat> := [];
    for a := 0 to n
      invariant marks.Length == n && marks[..] == old@done(marks[..])
      invariant a > 0 ==> ids != []
      invariant forall k :: 0 <= k < |ids| ==> ids[k] < |t|
      invariant Collecting(marks[..], ids, a)
      invariant r == Picked(t, ids)
    {
      if marks[a] {
        CollectMark(marks[..], ids, a);
        PickedSnoc(t, ids, a);
        r := r + [t[a]];
        ids := ids + [a];
      } else {
        CollectSkip(marks[..], ids, a);
      }
    }
    Collected(t, marks[..], ids, tolerance);
    assert DroppedInGaps(t, r, ids, tolerance) && KeptByDivision(t, marks[..], ids, tolerance);
  }

  /* ---------- radial reduction ---------- */

  /** Every dropped point is near the last point kept before it. */
  ghost predicate NearKept(t: seq<Point>, ids: seq<nat>, tolerance: real)
    requires Kept(ids, |t|)
  {
    forall k, a :: 0 <= k < |ids| - 1 && ids[k] < a < ids[k + 1] && ids[k + 1] < |t|
      ==> SqDist(t[a], t[ids[k]]) <= tolerance
  }

  /** Every kept point is farther than the tolerance from the one kept before it. */
  ghost predicate FarApart(t: seq<Point>, ids: seq<nat>, tolerance: real)
  {
    forall k :: 0 <= k < |ids| - 1 && ids[k] < |t| && ids[k + 1] < |t| ==>
      SqDist(t[ids[k + 1]], t[ids[k]]) > tolerance
  }

  /**
   r is the subsequence of t at ids, what it drops is near the last one kept before, and what it
   keeps is not, the last point excepted.
   */
  ghost predicate DroppedNear(t: seq<Point>, r: seq<Point>, ids: seq<nat>, tolerance: real)
  {
    && Kept(ids, |t|) && (forall k :: 0 <= k < |ids| ==> ids[k] < |t|) && r == Picked(t, ids)
    && NearKept(t, ids, tolerance) && FarApart(t, ids[..|ids| - 1], tolerance)
  }

  /** The first n points have been looked at; ids are the ones kept. */
  ghost predicate Reducing(t: seq<Point>, ids: seq<nat>, n: nat, tolerance: real)
  {
    && n <= |t| && ids != [] && ids[0] == 0
    && (forall k :: 0 <= k < |ids| ==> ids[k] < n)
    && (forall j, k :: 0 <= j < k < |ids| ==> ids[j] < ids[k])
    && (forall a :: ids[|ids| - 1] < a < n ==> SqDist(t[a], t[ids[|ids| - 1]]) <= tolerance)
    && (forall k, a :: 0 <= k < |ids| - 1 && ids[k] < a < ids[k + 1] ==> SqDist(t[a], t[ids[k]]) <= tolerance)
    && FarApart(t, ids, tolerance)
  }

  lemma ReduceStart(t: seq<Point>, tolerance: real)
    requires t != []
    ensures Reducing(t, [0], 1, tolerance)
  {
  }

  lemma ReduceKeep(t: seq<Point>, ids: seq<nat>, n: nat, tolerance: real)
    requires Reducing(t, ids, n, tolerance) && n < |t| && SqDist(t[n], t[ids[|ids| - 1]]) > tolerance
    ensures Reducing(t, ids + [n], n + 1, tolerance)
  {
    hide SqDist;
  }

  lemma ReduceDrop(t: seq<Point>, ids: seq<nat>, n: nat, tolerance: real)
    requires Reducing(t, ids, n, tolerance) && n < |t| && SqDist(t[n], t[ids[|ids| - 1]]) <= tolerance
    ensures Reducing(t, ids, n + 1, tolerance)
  {
    hide SqDist;
  }

  lemma ReduceLast(t: seq<Point>, ids: seq<nat>, tolerance: real)
    requires Reducing(t, ids, |t|, tolerance) && ids[|ids| - 1] < |t| - 1
    ensures Kept(ids + [|t| - 1], |t|) && NearKept(t, ids + [|t| - 1], tolerance)
    ensures FarApart(t, (ids + [|t| - 1])[..|ids|], tolerance)
  {
    hide SqDist;
  }

  lemma ReduceEnd(t: seq<Point>, ids: seq<nat>, tolerance: real)
    requires Reducing(t, ids, |t|, tolerance) && ids[|ids| - 1] == |t| - 1
    ensures Kept(ids, |t|) && NearKept(t, ids, tolerance) && FarApart(t, ids[..|ids| - 1], tolerance)
  {
    hide SqDist;
  }

  /** _reducePoints: a subsequence with both ends; what it drops lies near the last kept point. */
  method ReducePoints(t: seq<Point>, tolerance: real) returns (r: seq<Point>)
    requires t != []
    ensures exists ids :: DroppedNear(t, r, ids, tolerance)
  {
    hide SqDist, Picked, Reducing, Kept, NearKept, FarApart;
    r := [t[0]];
    ghost var ids: seq<nat> := [0];
    PickedOne(t);
    var n, prev: nat := 1, 0;
    var len := |t|;
    ReduceStart(t, tolerance);
    while n < len
      invariant 1 <= n <= len && ids != [] && ids[|ids| - 1] == prev < n
      invariant forall k :: 0 <= k < |ids| ==> ids[k] < |t|
      invariant Reducing(t, ids, n, tolerance)
      invariant r == Picked(t, ids)
    {
      if SqDist(t[n], t[prev]) > tolerance {
        ReduceKeep(t, ids, n, tolerance);
        PickedSnoc(t, ids, n);
        r := r + [t[n]];
        ids := ids + [n];
        prev := n;
      } else {
        ReduceDrop(t, ids, n, tolerance);
      }
      n := n + 1;
    }
    if prev < len - 1 {
      ReduceLast(t, ids, tolerance);
      PickedSnoc(t, ids, len - 1);
      r := r + [t[len - 1]];
      ids := ids + [len - 1];
    } else {
      ReduceEnd(t, ids, tolerance);
    }
    assert DroppedNear(t, r, ids, tolerance);
  }

  /* ---------- simplify ---------- */

  /** Every point of the line is within the squared distance of the segment that replaces its piece. */
  ghost predicate Follows(t: seq<Point>, ids: seq<nat>, sq: real)
    requires Kept(ids, |t|)
  {
    forall k, a :: 0 <= k < |ids| - 1 && ids[k] <= a <= ids[k + 1] && ids[k + 1] < |t|
      ==> SqDistToSegment(t[a], t[ids[k]], t[ids[k + 1]]) <= sq
  }

  function Composed(outer: seq<nat>, inner: seq<nat>): seq<nat>
    requires forall k :: 0 <= k < |inner| ==> inner[k] < |outer|
  {
    seq(|inner|, k requires 0 <= k < |inner| => outer[inner[k]])
  }

  lemma ComposedKept(outer: seq<nat>, inner: seq<nat>, n: nat)
    requires Kept(outer, n) && Kept(inner, |outer|) && forall k :: 0 <= k < |inner| ==> inner[k] < |outer|
    ensures Kept(Composed(outer, inner), n)
  {
  }

  lemma EndsAreOn(a: Point, b: Point)
    ensures SqDistToSegment(a, a, b) == 0.0 && SqDistToSegment(b, a, b) == 0.0
  {
    AlongEnds(a, b);
    SqDistProperties(a, a);
    SqDistProperties(b, b);
    ClosestIsMinimal(a, a, b, 0.0);
    ClosestIsMinimal(b, a, b, 1.0);
  }

  /** Near a point that is near the segment. */
  lemma NearNear(t: Point, via: Point, a: Point, b: Point, sq: real)
    requires SqDist(t, via) <= sq && SqDistToSegment(via, a, b) <= sq
    ensures SqDistToSegment(t, a, b) <= 4.0 * sq
  {
    hide SqDist, Along;
    ClosestAlong(via, a, b);
    ClosestIsMinimal(t, a, b, ClosestParameter(via, a, b));
    TwoSteps(t, via, Closest(via, a, b));
  }

  /** The last kept index at or before a. */
  lemma {:induction false} LastBefore(ids: seq<nat>, lo: nat, hi: nat, a: nat) returns (j: nat)
    requires lo < hi < |ids| && ids[lo] <= a < ids[hi]
    ensures lo <= j < hi && ids[j] <= a < ids[j + 1]
    decreases hi - lo
  {
    if hi == lo + 1 || a < ids[lo + 1] {
      j := lo;
    } else {
      j := LastBefore(ids, lo + 1, hi, a);
    }
  }

  lemma ComposedFollows(t: seq<Point>, reduced: seq<Point>, outer: seq<nat>, inner: seq<nat>, sq: real, k: nat, a: nat)
    requires Kept(outer, |t|) && (forall i :: 0 <= i < |outer| ==> outer[i] < |t|) && reduced == Picked(t, outer)
    requires Kept(inner, |reduced|) && forall i :: 0 <= i < |inner| ==> inner[i] < |reduced|
    requires NearKept(t, outer, sq) && WithinGaps(reduced, inner, sq) && sq >= 0.0
    requires k < |inner| - 1 && outer[inner[k]] <= a < outer[inner[k + 1]]
    ensures a < |t| && SqDistToSegment(t[a], t[outer[inner[k]]], t[outer[inner[k + 1]]]) <= 4.0 * sq
  {
    hide SqDist, SqDistToSegment;
    var p, q := inner[k], inner[k + 1];
    var j := LastBefore(outer, p, q, a);
    SqDistProperties(t[a], t[a]);
    EndsAreOn(t[outer[p]], t[outer[q]]);
    if j > p {
      assert SqDistToSegment(reduced[j], reduced[p], reduced[q]) <= sq;
    }
    NearNear(t[a], t[outer[j]], t[outer[p]], t[outer[q]], sq);
  }

  /** r is the subsequence of t at ids, and the line it draws is within twice the tolerance of t. */
  ghost predicate DrawnBy(t: seq<Point>, r: seq<Point>, ids: seq<nat>, tolerance: real)
  {
    && Kept(ids, |t|) && (forall k :: 0 <= k < |ids| ==> ids[k] < |t|) && r == Picked(t, ids)
    && Follows(t, ids, (2.0 * tolerance) * (2.0 * tolerance))
  }

  lemma PickedLength(t: seq<Point>, ids: seq<nat>)
    requires Kept(ids, |t|) && forall k :: 0 <= k < |ids| ==> ids[k] < |t|
    ensures |Picked(t, ids)| == |ids| && ids != []
  {
  }

  lemma SliceFollows(t: seq<Point>, ids: seq<nat>)
    requires |ids| == |t| && forall k :: 0 <= k < |t| ==> ids[k] == k
    ensures t != [] ==> Kept(ids, |t|) && (forall k :: 0 <= k < |ids| ==> ids[k] < |t|) && t == Picked(t, ids)
                        && Follows(t, ids, 0.0)
  {
    hide SqDistToSegment;
    forall k, a | 0 <= k < |ids| - 1 && ids[k] <= a <= ids[k + 1]
      ensures SqDistToSegment(t[a], t[ids[k]], t[ids[k + 1]]) <= 0.0
    {
      EndsAreOn(t[ids[k]], t[ids[k + 1]]);
    }
  }

  lemma SimplifiedFollows(t: seq<Point>, reduced: seq<Point>, outer: seq<nat>, inner: seq<nat>, sq: real)
    requires Kept(outer, |t|) && (forall i :: 0 <= i < |outer| ==> outer[i] < |t|) && reduced == Picked(t, outer)
    requires Kept(inner, |reduced|) && forall i :: 0 <= i < |inner| ==> inner[i] < |reduced|
    requires NearKept(t, outer, sq) && WithinGaps(reduced, inner, sq) && sq >= 0.0
    ensures var ids := Composed(outer, inner);
            && Kept(ids, |t|) && (forall k :: 0 <= k < |ids| ==> ids[k] < |t|)
            && Picked(reduced, inner) == Picked(t, ids) && Follows(t, ids, 4.0 * sq)
  {
    hide SqDistToSegment, NearKept, WithinGaps;
    var ids := Composed(outer, inner);
    ComposedKept(outer, inner, |t|);
    forall k, a | 0 <= k < |ids| - 1 && ids[k] <= a <= ids[k + 1] && ids[k + 1] < |t|
      ensures SqDistToSegment(t[a], t[ids[k]], t[ids[k + 1]]) <= 4.0 * sq
    {
      if a < ids[k + 1] {
        ComposedFollows(t, reduced, outer, inner, sq, k, a);
      } else {
        EndsAreOn(t[ids[k]], t[ids[k + 1]]);
      }
    }
  }

  /** The radial reduction and then Douglas-Peucker on what it left, each with all that it drops and keeps. */
  ghost predicate Reduced(t: seq<Point>, reduced: seq<Point>, r: seq<Point>, tolerance: real)
  {
    var sq := tolerance * tolerance;
    && (exists ids :: DroppedNear(t, reduced, ids, sq))
    && exists ids, kept :: DroppedInGaps(reduced, r, ids, sq) && KeptByDivision(reduced, kept, ids, sq)
  }

  /**
   simplify: the result is a subsequence with both ends, and the line it draws stays within twice
   the tolerance of every point of the original, piece by piece.
   */
  method Simplify(t: seq<Point>, tolerance: real) returns (r: seq<Point>)
    ensures t == [] ==> r == []
    ensures t != [] ==> exists ids :: DrawnBy(t, r, ids, tolerance)
    ensures t != [] && tolerance != 0.0 ==> exists reduced :: Reduced(t, reduced, r, tolerance)
    ensures tolerance == 0.0 ==> r == t
  {
    hide SqDistToSegment, SqDist, NearKept, WithinGaps, Kept, Follows, Picked, Composed, FarApart, KeptByDivision;
    if tolerance == 0.0 || |t| == 0 {
      r := t;
      SliceFollows(t, seq(|t|, k => k));
      assert t != [] ==> DrawnBy(t, r, seq(|t|, k => k), tolerance);
      return;
    }
    var sq := tolerance * tolerance;
    Square(tolerance);
    assert (2.0 * tolerance) * (2.0 * tolerance) == 4.0 * sq;
    var reduced := ReducePoints(t, sq);
    ghost var outer :| DroppedNear(t, reduced, outer, sq);
    PickedLength(t, outer);
    r := SimplifyDP(reduced, sq);
    ghost var inner, kept :| DroppedInGaps(reduced, r, inner, sq) && KeptByDivision(reduced, kept, inner, sq);
    SimplifiedFollows(t, reduced, outer, inner, sq);
    assert DrawnBy(t, r, Composed(outer, inner), tolerance);
    assert Reduced(t, reduced, r, tolerance);
  }
}
