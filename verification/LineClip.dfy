/**
 L.LineUtil.clipSegment (Cohen-Sutherland) over exact reals, and the walk along a polyline
 that reuses the outcode of the previous end point.
 */
module LineClip {
  import opened Wrappers

  datatype Point = Point(x: real, y: real)

  datatype Box = Box(min: Point, max: Point)
  {
    predicate Valid()
    {
      min.x <= max.x && min.y <= max.y
    }

    predicate Contains(p: Point)
    {
      min.x <= p.x <= max.x && min.y <= p.y <= max.y
    }
  }

  /** An outcode: the bits 1, 2, 4 and 8. */
  datatype Code = Code(left: bool, right: bool, low: bool, high: bool)
  {
    predicate Zero()
    {
      !left && !right && !low && !high
    }

    predicate Shares(other: Code)
    {
      (left && other.left) || (right && other.right) || (low && other.low) || (high && other.high)
    }

    function Bits(): nat
    {
      (if left then 1 else 0) + (if right then 1 else 0) + (if low then 1 else 0) + (if high then 1 else 0)
    }
  }

  function BitCode(p: Point, box: Box): Code
  {
    Code(p.x < box.min.x, p.x >= box.min.x && p.x > box.max.x, p.y < box.min.y, p.y >= box.min.y && p.y > box.max.y)
  }

  /* ---------- points of a segment ---------- */

  function Mix(a: real, b: real, l: real): real
  {
    a + l * (b - a)
  }

  /** The point of the segment ab at parameter l. */
  function Along(a: Point, b: Point, l: real): Point
  {
    Point(Mix(a.x, b.x, l), Mix(a.y, b.y, l))
  }

  lemma MixMix(a: real, b: real, s: real, u: real, w: real)
    ensures Mix(Mix(a, b, s), Mix(a, b, u), w) == Mix(a, b, s + w * (u - s))
  {
    var d := b - a;
    calc {
      Mix(Mix(a, b, s), Mix(a, b, u), w);
      a + s * d + w * ((a + u * d) - (a + s * d));
      { assert (a + u * d) - (a + s * d) == (u - s) * d; }
      a + s * d + w * ((u - s) * d);
      { assert w * ((u - s) * d) == (w * (u - s)) * d; }
      a + (s + w * (u - s)) * d;
    }
  }

  lemma AlongAlong(a: Point, b: Point, s: real, u: real, w: real)
    ensures Along(Along(a, b, s), Along(a, b, u), w) == Along(a, b, s + w * (u - s))
  {
    hide Mix;
    MixMix(a.x, b.x, s, u, w);
    MixMix(a.y, b.y, s, u, w);
  }

  lemma Signs(v: real, p: real)
    requires v >= 0.0
    ensures p >= 0.0 ==> v * p >= 0.0
    ensures p <= 0.0 ==> v * p <= 0.0
    ensures v > 0.0 && p > 0.0 ==> v * p > 0.0
    ensures v > 0.0 && p < 0.0 ==> v * p < 0.0
    ensures v == 0.0 ==> v * p == 0.0
  {
    if p < 0.0 {
      assert v * (-p) >= 0.0 && v * p == -(v * (-p));
      if v > 0.0 {
        assert v * (-p) > 0.0;
      }
    }
  }

  lemma Weighted(v: real, p: real, w: real, q: real)
    requires v >= 0.0 && w >= 0.0 && v + w == 1.0
    ensures p <= 0.0 && q <= 0.0 ==> v * p + w * q <= 0.0
    ensures p < 0.0 && q < 0.0 ==> v * p + w * q < 0.0
    ensures p >= 0.0 && q >= 0.0 ==> v * p + w * q >= 0.0
    ensures p > 0.0 && q > 0.0 ==> v * p + w * q > 0.0
  {
    Signs(v, p);
    Signs(w, q);
  }

  /** A coordinate stays between the coordinates of the ends. */
  lemma MixBetween(a: real, b: real, l: real, m: real)
    requires 0.0 <= l <= 1.0
    ensures a <= m && b <= m ==> Mix(a, b, l) <= m
    ensures a < m && b < m ==> Mix(a, b, l) < m
    ensures a >= m && b >= m ==> Mix(a, b, l) >= m
    ensures a > m && b > m ==> Mix(a, b, l) > m
  {
    assert Mix(a, b, l) - m == (1.0 - l) * (a - m) + l * (b - m);
    Weighted(1.0 - l, a - m, l, b - m);
  }

  /** Where the coordinate from a to b meets m. */
  function Meet(a: real, b: real, m: real): real
    requires a != b
  {
    (m - a) / (b - a)
  }

  lemma ProductSign(p: real, d: real)
    requires d > 0.0
    ensures p > 0.0 <==> p * d > 0.0
    ensures p < 0.0 <==> p * d < 0.0
  {
    Signs(d, p);
    assert p == 0.0 ==> p * d == 0.0;
  }

  /** Before the meeting point the coordinate is on a's side of m, behind it on b's side. */
  lemma MeetSplits(a: real, b: real, m: real, l: real)
    requires a != b
    ensures Mix(a, b, Meet(a, b, m)) == m
    ensures a > b ==> (l < Meet(a, b, m) <==> Mix(a, b, l) > m)
    ensures a < b ==> (l > Meet(a, b, m) <==> Mix(a, b, l) > m)
    ensures a > b ==> (l > Meet(a, b, m) <==> Mix(a, b, l) < m)
    ensures a < b ==> (l < Meet(a, b, m) <==> Mix(a, b, l) < m)
  {
    var d, w := b - a, Meet(a, b, m);
    assert w * d == m - a;
    assert Mix(a, b, l) - m == (l - w) * d;
    if d > 0.0 {
      ProductSign(l - w, d);
    } else {
      assert (l - w) * d == (w - l) * (-d);
      ProductSign(w - l, -d);
    }
  }

  lemma MeetInside(a: real, b: real, m: real)
    requires (a <= m <= b && a < b) || (b <= m <= a && b < a)
    ensures 0.0 <= Meet(a, b, m) <= 1.0
  {
    MeetSplits(a, b, m, 0.0);
    MeetSplits(a, b, m, 1.0);
  }

  /** The other coordinate, running from c to d, where the first one meets m. */
  function CoordinateAt(a: real, b: real, m: real, c: real, d: real): real
    requires a != b
  {
    c + (d - c) * (m - a) / (b - a)
  }

  lemma MultiplyFirst(a: real, d: real, p: real, q: real)
    requires q != 0.0
    ensures a + d * p / q == a + (p / q) * d
  {
    assert (d * p / q) * q == d * p;
    assert ((p / q) * d) * q == ((p / q) * q) * d;
  }

  lemma OtherCoordinate(a: real, b: real, m: real, c: real, d: real)
    requires a != b
    ensures CoordinateAt(a, b, m, c, d) == Mix(c, d, Meet(a, b, m))
  {
    MultiplyFirst(c, d - c, m - a, b - a);
  }

  /* ---------- the intersection with one edge ---------- */

  /** The parameter of the intersection with the edge that the code names first. */
  function EdgeParameter(t: Point, e: Point, code: Code, box: Box): real
    requires (code.high || code.low ==> t.y != e.y) && (!code.high && !code.low ==> t.x != e.x)
  {
    if code.high then Meet(t.y, e.y, box.max.y)
    else if code.low then Meet(t.y, e.y, box.min.y)
    else if code.right then Meet(t.x, e.x, box.max.x)
    else Meet(t.x, e.x, box.min.x)
  }

  /** _getEdgeIntersection */
  function EdgeIntersection(t: Point, e: Point, code: Code, box: Box): Point
    requires !code.Zero()
    requires (code.high || code.low ==> t.y != e.y) && (!code.high && !code.low ==> t.x != e.x)
  {
    if code.high then Point(CoordinateAt(t.y, e.y, box.max.y, t.x, e.x), box.max.y)
    else if code.low then Point(CoordinateAt(t.y, e.y, box.min.y, t.x, e.x), box.min.y)
    else if code.right then Point(box.max.x, CoordinateAt(t.x, e.x, box.max.x, t.y, e.y))
    else Point(box.min.x, CoordinateAt(t.x, e.x, box.min.x, t.y, e.y))
  }

  lemma IntersectionAlong(t: Point, e: Point, code: Code, box: Box)
    requires !code.Zero()
    requires (code.high || code.low ==> t.y != e.y) && (!code.high && !code.low ==> t.x != e.x)
    ensures EdgeIntersection(t, e, code, box) == Along(t, e, EdgeParameter(t, e, code, box))
  {
    hide Mix, Meet, CoordinateAt;
    if code.high {
      OtherCoordinate(t.y, e.y, box.max.y, t.x, e.x);
      MeetSplits(t.y, e.y, box.max.y, 0.0);
    } else if code.low {
      OtherCoordinate(t.y, e.y, box.min.y, t.x, e.x);
      MeetSplits(t.y, e.y, box.min.y, 0.0);
    } else if code.right {
      OtherCoordinate(t.x, e.x, box.max.x, t.y, e.y);
      MeetSplits(t.x, e.x, box.max.x, 0.0);
    } else {
      OtherCoordinate(t.x, e.x, box.min.x, t.y, e.y);
      MeetSplits(t.x, e.x, box.min.x, 0.0);
    }
  }

  /** The outcode of the end that is replaced; the other end is across that edge, so nothing is divided by zero. */
  lemma EdgeCrossed(t: Point, e: Point, box: Box, code: Code)
    requires box.Valid() && !BitCode(t, box).Shares(BitCode(e, box)) && !code.Zero()
    requires code == BitCode(t, box) || code == BitCode(e, box)
    ensures code.high || code.low ==> t.y != e.y
    ensures !code.high && !code.low ==> t.x != e.x
    ensures 0.0 <= EdgeParameter(t, e, code, box) <= 1.0
  {
    if code.high {
      MeetInside(t.y, e.y, box.max.y);
    } else if code.low {
      MeetInside(t.y, e.y, box.min.y);
    } else if code.right {
      MeetInside(t.x, e.x, box.max.x);
    } else {
      MeetInside(t.x, e.x, box.min.x);
    }
  }

  /** What replacing an end cuts off lies outside the box. */
  lemma CutOffOutside(t: Point, e: Point, box: Box, code: Code, l: real)
    requires box.Valid() && !BitCode(t, box).Shares(BitCode(e, box)) && !code.Zero()
    requires (code.high || code.low ==> t.y != e.y) && (!code.high && !code.low ==> t.x != e.x)
    ensures code == BitCode(t, box) && l < EdgeParameter(t, e, code, box) ==> !box.Contains(Along(t, e, l))
    ensures code == BitCode(e, box) && l > EdgeParameter(t, e, code, box) ==> !box.Contains(Along(t, e, l))
  {
    hide Mix, Meet;
    if code.high {
      MeetSplits(t.y, e.y, box.max.y, l);
    } else if code.low {
      MeetSplits(t.y, e.y, box.min.y, l);
    } else if code.right {
      MeetSplits(t.x, e.x, box.max.x, l);
    } else {
      MeetSplits(t.x, e.x, box.min.x, l);
    }
  }

  /** A common bit puts the whole segment on the outer side of one edge. */
  lemma SharedOutside(t: Point, e: Point, box: Box, l: real)
    requires BitCode(t, box).Shares(BitCode(e, box)) && 0.0 <= l <= 1.0
    ensures !box.Contains(Along(t, e, l))
  {
    hide Mix;
    MixBetween(t.x, e.x, l, box.min.x);
    MixBetween(t.x, e.x, l, box.max.x);
    MixBetween(t.y, e.y, l, box.min.y);
    MixBetween(t.y, e.y, l, box.max.y);
  }

  lemma HullInside(t: Point, e: Point, box: Box, l: real)
    requires box.Contains(t) && box.Contains(e) && 0.0 <= l <= 1.0
    ensures box.Contains(Along(t, e, l))
  {
    hide Mix;
    MixBetween(t.x, e.x, l, box.min.x);
    MixBetween(t.x, e.x, l, box.max.x);
    MixBetween(t.y, e.y, l, box.min.y);
    MixBetween(t.y, e.y, l, box.max.y);
  }

  /** Steps left: none after a rejection, else one more than the outcode bits. */
  function StepsLeft(r: Code, h: Code): nat
  {
    if r.Shares(h) then 0 else 1 + r.Bits() + h.Bits()
  }

  lemma IntersectionOnEdge(t: Point, e: Point, code: Code, box: Box)
    requires !code.Zero()
    requires (code.high || code.low ==> t.y != e.y) && (!code.high && !code.low ==> t.x != e.x)
    ensures var p := EdgeIntersection(t, e, code, box);
            if code.high then p.y == box.max.y else if code.low then p.y == box.min.y
            else if code.right then p.x == box.max.x else p.x == box.min.x
  {
  }

  /** The new end lost the bit it was cut at; a bit it gains is one the other end has. */
  lemma FewerSteps(t: Point, e: Point, box: Box, p: Point)
    requires box.Valid()
    requires var r, h := BitCode(t, box), BitCode(e, box);
             var code := if r.Zero() then h else r;
             && !r.Shares(h) && !code.Zero()
             && (code.high || code.low ==> t.y != e.y) && (!code.high && !code.low ==> t.x != e.x)
             && p == EdgeIntersection(t, e, code, box)
    ensures var r, h, a := BitCode(t, box), BitCode(e, box), BitCode(p, box);
            && (!r.Zero() ==> StepsLeft(a, h) < StepsLeft(r, h))
            && (r.Zero() ==> StepsLeft(r, a) < StepsLeft(r, h))
  {
    hide Mix, Meet, EdgeIntersection, EdgeParameter;
    var r, h := BitCode(t, box), BitCode(e, box);
    var code := if r.Zero() then h else r;
    var w := EdgeParameter(t, e, code, box);
    IntersectionAlong(t, e, code, box);
    EdgeCrossed(t, e, box, code);
    IntersectionOnEdge(t, e, code, box);
    MixBetween(t.x, e.x, w, box.min.x);
    MixBetween(t.x, e.x, w, box.max.x);
    MixBetween(t.y, e.y, w, box.min.y);
    MixBetween(t.y, e.y, w, box.max.y);
  }

  /* ---------- clipSegment ---------- */

  /** All points of ab in the box have parameters between s and u. */
  ghost predicate Covers(a: Point, b: Point, box: Box, s: real, u: real)
  {
    && 0.0 <= s <= u <= 1.0
    && forall l :: 0.0 <= l <= 1.0 && box.Contains(Along(a, b, l)) ==> s <= l <= u
  }

  ghost predicate IsPart(a: Point, b: Point, box: Box, s: real, u: real)
  {
    && 0.0 <= s <= u <= 1.0
    && forall l :: 0.0 <= l <= 1.0 ==> (box.Contains(Along(a, b, l)) <==> s <= l <= u)
  }

  /** The result of clipping ab: the end points of exactly the part inside the box, or nothing if there is none. */
  ghost predicate Clipped(a: Point, b: Point, box: Box, r: Option<(Point, Point)>)
  {
    if r.None? then forall l :: 0.0 <= l <= 1.0 ==> !box.Contains(Along(a, b, l))
    else exists s, u :: IsPart(a, b, box, s, u) && r.value == (Along(a, b, s), Along(a, b, u))
  }

  lemma QuotientBounds(p: real, q: real)
    requires 0.0 <= p <= q && 0.0 < q
    ensures 0.0 <= p / q <= 1.0
  {
  }

  /** A point of ab between two others, as a point of the segment between those. */
  lemma Rebase(a: Point, b: Point, s: real, u: real, l: real) returns (v: real)
    requires s <= l <= u && s < u
    ensures v == (l - s) / (u - s) && 0.0 <= v <= 1.0 && l == s + v * (u - s)
    ensures Along(a, b, l) == Along(Along(a, b, s), Along(a, b, u), v)
  {
    v := (l - s) / (u - s);
    assert v * (u - s) == l - s;
    QuotientBounds(l - s, u - s);
    AlongAlong(a, b, s, u, v);
  }

  lemma CutSide(v: real, w: real, s: real, u: real)
    requires s < u
    ensures v >= w ==> s + v * (u - s) >= s + w * (u - s)
    ensures v <= w ==> s + v * (u - s) <= s + w * (u - s)
  {
    assert v * (u - s) - w * (u - s) == (v - w) * (u - s);
    ProductSign(v - w, u - s);
  }

  /** Cutting at parameter w of the remaining part. */
  lemma CutCovers(a: Point, b: Point, box: Box, s: real, u: real, w: real, front: bool)
    requires Covers(a, b, box, s, u) && s < u && 0.0 <= w <= 1.0
    requires forall v :: 0.0 <= v <= 1.0 && (if front then v < w else v > w)
                    ==> !box.Contains(Along(Along(a, b, s), Along(a, b, u), v))
    ensures var cut := s + w * (u - s);
            s <= cut <= u && if front then Covers(a, b, box, cut, u) else Covers(a, b, box, s, cut)
  {
    hide Along;
    var cut := s + w * (u - s);
    Signs(u - s, w);
    Signs(u - s, 1.0 - w);
    assert u - cut == (u - s) * (1.0 - w);
    forall l | 0.0 <= l <= 1.0 && box.Contains(Along(a, b, l))
      ensures if front then cut <= l else l <= cut
    {
      var v := Rebase(a, b, s, u, l);
      assert if front then v >= w else v <= w;
      CutSide(v, w, s, u);
    }
  }

  lemma CoversBounds(a: Point, b: Point, box: Box, s: real, u: real)
    requires Covers(a, b, box, s, u)
    ensures s <= u && (Along(a, b, s) != Along(a, b, u) ==> s < u)
  {
  }

  /** One step of the loop: the part that is left still covers everything in the box. */
  lemma StepCovers(a: Point, b: Point, box: Box, s: real, u: real) returns (cut: real)
    requires box.Valid() && Covers(a, b, box, s, u)
    requires var r, h := BitCode(Along(a, b, s), box), BitCode(Along(a, b, u), box);
             !r.Shares(h) && !(r.Zero() && h.Zero())
    ensures var t, e := Along(a, b, s), Along(a, b, u);
            var r, h := BitCode(t, box), BitCode(e, box);
            var code := if r.Zero() then h else r;
            && (code.high || code.low ==> t.y != e.y) && (!code.high && !code.low ==> t.x != e.x)
            && EdgeIntersection(t, e, code, box) == Along(a, b, cut)
            && (if r.Zero() then Covers(a, b, box, s, cut) else Covers(a, b, box, cut, u))
  {
    hide Along, EdgeIntersection, EdgeParameter, Covers;
    var t, e := Along(a, b, s), Along(a, b, u);
    var r, h := BitCode(t, box), BitCode(e, box);
    var code := if r.Zero() then h else r;
    EdgeCrossed(t, e, box, code);
    var w := EdgeParameter(t, e, code, box);
    cut := s + w * (u - s);
    IntersectionAlong(t, e, code, box);
    AlongAlong(a, b, s, u, w);
    forall v | 0.0 <= v <= 1.0 && (if r.Zero() then v > w else v < w)
      ensures !box.Contains(Along(t, e, v))
    {
      CutOffOutside(t, e, box, code, v);
    }
    CoversBounds(a, b, box, s, u);
    CutCovers(a, b, box, s, u, w, !r.Zero());
  }

  lemma AcceptedPart(a: Point, b: Point, box: Box, s: real, u: real)
    requires Covers(a, b, box, s, u) && box.Contains(Along(a, b, s)) && box.Contains(Along(a, b, u))
    ensures IsPart(a, b, box, s, u)
  {
    hide Along;
    forall l | s <= l <= u
      ensures box.Contains(Along(a, b, l))
    {
      if s < u {
        var v := Rebase(a, b, s, u, l);
        HullInside(Along(a, b, s), Along(a, b, u), box, v);
      } else {
        assert l == s;
      }
    }
  }

  lemma AlongEnds(a: Point, b: Point)
    ensures Along(a, b, 0.0) == a && Along(a, b, 1.0) == b
  {
  }

  lemma RejectedPart(a: Point, b: Point, box: Box, s: real, u: real, l: real)
    requires Covers(a, b, box, s, u) && 0.0 <= l <= 1.0
    requires BitCode(Along(a, b, s), box).Shares(BitCode(Along(a, b, u), box))
    ensures !box.Contains(Along(a, b, l))
  {
    hide Along;
    if s <= l <= u {
      if s < u {
        var v := Rebase(a, b, s, u, l);
        SharedOutside(Along(a, b, s), Along(a, b, u), box, v);
      } else {
        assert l == s;
        SharedOutside(Along(a, b, s), Along(a, b, s), box, 0.0);
        AlongEnds(Along(a, b, s), Along(a, b, s));
      }
    }
  }

  lemma ClippedIffMet(a: Point, b: Point, box: Box, r: Option<(Point, Point)>)
    requires Clipped(a, b, box, r)
    ensures r.Some? <==> exists l :: 0.0 <= l <= 1.0 && box.Contains(Along(a, b, l))
  {
    hide Along;
    if r.Some? {
      var s, u :| IsPart(a, b, box, s, u) && r.value == (Along(a, b, s), Along(a, b, u));
      assert box.Contains(Along(a, b, s));
    }
  }

  /** The result is determined by the segment and the box. */
  lemma ClippedUnique(a: Point, b: Point, box: Box, r: Option<(Point, Point)>, r': Option<(Point, Point)>)
    requires Clipped(a, b, box, r) && Clipped(a, b, box, r')
    ensures r == r'
  {
    hide Along;
    ClippedIffMet(a, b, box, r);
    ClippedIffMet(a, b, box, r');
    if r.Some? {
      var s, u :| IsPart(a, b, box, s, u) && r.value == (Along(a, b, s), Along(a, b, u));
      assert box.Contains(Along(a, b, s)) && box.Contains(Along(a, b, u));
      var s', u' :| IsPart(a, b, box, s', u') && r'.value == (Along(a, b, s'), Along(a, b, u'));
      assert box.Contains(Along(a, b, s')) && box.Contains(Along(a, b, u'));
      assert s == s' && u == u';
    }
  }

  lemma WholeCovers(a: Point, b: Point, box: Box)
    ensures Covers(a, b, box, 0.0, 1.0)
  {
  }

  lemma ZeroInside(p: Point, box: Box)
    ensures BitCode(p, box).Zero() <==> box.Contains(p)
  {
  }

  class LineUtil {
    var lastCode: Code

    constructor ()
    {
      lastCode := Code(false, false, false, false);
    }

    method ClipSegment(a: Point, b: Point, box: Box, useLastCode: bool) returns (part: Option<(Point, Point)>)
      requires box.Valid()
      requires useLastCode ==> lastCode == BitCode(a, box)
      modifies this
      ensures lastCode == BitCode(b, box)
      ensures Clipped(a, b, box, part)
    {
      hide Along, Covers, EdgeIntersection, BitCode, StepsLeft, IsPart;
      var t, e := a, b;
      var r := if useLastCode then lastCode else BitCode(a, box);
      var h := BitCode(b, box);
      lastCode := h;
      ghost var s, u := 0.0, 1.0;
      AlongEnds(a, b);
      WholeCovers(a, b, box);
      while true
        invariant r == BitCode(t, box) && h == BitCode(e, box)
        invariant t == Along(a, b, s) && e == Along(a, b, u)
        invariant Covers(a, b, box, s, u)
        invariant lastCode == BitCode(b, box)
        decreases StepsLeft(r, h)
      {
        if r.Zero() && h.Zero() {
          ZeroInside(t, box);
          ZeroInside(e, box);
          AcceptedPart(a, b, box, s, u);
          part := Some((t, e));
          assert IsPart(a, b, box, s, u) && part.value == (Along(a, b, s), Along(a, b, u));
          return;
        }
        if r.Shares(h) {
          forall l | 0.0 <= l <= 1.0
            ensures !box.Contains(Along(a, b, l))
          {
            RejectedPart(a, b, box, s, u, l);
          }
          return None;
        }
        ghost var cut := StepCovers(a, b, box, s, u);
        var code := if !r.Zero() then r else h;
        var p := EdgeIntersection(t, e, code, box);
        FewerSteps(t, e, box, p);
        if code == r {
          t, r, s := p, BitCode(p, box), cut;
        } else {
          e, h, u := p, BitCode(p, box), cut;
        }
      }
    }
  }

  /* ---------- the walk along a polyline ---------- */

  type Part = seq<Point>

  /** The segments a part is drawn with. */
  function Segments(part: Part): seq<(Point, Point)>
  {
    if |part| < 2 then []
    else Segments(part[..|part| - 1]) + [(part[|part| - 2], part[|part| - 1])]
  }

  function AllSegments(parts: seq<Part>): seq<(Point, Point)>
  {
    if parts == [] then [] else AllSegments(parts[..|parts| - 1]) + Segments(parts[|parts| - 1])
  }

  /** The clipped segments that are not empty. */
  function Visible(clips: seq<Option<(Point, Point)>>): seq<(Point, Point)>
  {
    if clips == [] then []
    else
      var last := clips[|clips| - 1];
      Visible(clips[..|clips| - 1]) + if last.Some? then [last.value] else []
  }

  lemma SegmentsSnoc(part: Part, p: Point)
    ensures Segments(part + [p]) == if part == [] then [] else Segments(part) + [(part[|part| - 1], p)]
  {
    assert (part + [p])[..|part + [p]| - 1] == part;
  }

  lemma AllSegmentsSnoc(parts: seq<Part>, part: Part)
    ensures AllSegments(parts + [part]) == AllSegments(parts) + Segments(part)
  {
    assert (parts + [part])[..|parts + [part]| - 1] == parts;
  }

  lemma VisibleSnoc(clips: seq<Option<(Point, Point)>>, c: Option<(Point, Point)>)
    ensures Visible(clips + [c]) == Visible(clips) + if c.Some? then [c.value] else []
  {
    assert (clips + [c])[..|clips + [c]| - 1] == clips;
  }

  /** An end point is returned as it came exactly when it lies in the box. */
  lemma ClippedEnds(a: Point, b: Point, box: Box, part: (Point, Point))
    requires Clipped(a, b, box, Some(part))
    ensures part.1 == b <==> box.Contains(b)
    ensures part.0 == a <==> box.Contains(a)
    ensures box.Contains(part.0) && box.Contains(part.1)
  {
    AlongEnds(a, b);
    var s, u :| IsPart(a, b, box, s, u) && part == (Along(a, b, s), Along(a, b, u));
    hide Along;
    assert box.Contains(Along(a, b, 0.0)) <==> s <= 0.0 <= u;
    assert box.Contains(Along(a, b, 1.0)) <==> s <= 1.0 <= u;
    assert box.Contains(Along(a, b, s)) && box.Contains(Along(a, b, u));
  }

  lemma ClippedNone(a: Point, b: Point, box: Box)
    requires Clipped(a, b, box, None)
    ensures !box.Contains(a) && !box.Contains(b)
  {
    AlongEnds(a, b);
    hide Along;
    assert !box.Contains(Along(a, b, 0.0)) && !box.Contains(Along(a, b, 1.0));
  }

  /** What the walk has drawn: the finished parts and the open one, which ends at the current point. */
  ghost function Drawn(parts: seq<Part>, open: Part, here: Point): seq<(Point, Point)>
  {
    AllSegments(parts) + if open == [] then [] else Segments(open + [here])
  }

  /** One more segment of an open or fresh part, closed or not. */
  lemma DrawnStep(parts: seq<Part>, open: Part, a: Point, b: Point, part: (Point, Point), closes: bool)
    requires open != [] ==> part.0 == a
    requires !closes ==> part.1 == b
    ensures var longer := open + [part.0];
            var drawn := if closes then Drawn(parts + [longer + [part.1]], [], b) else Drawn(parts, longer, b);
            drawn == Drawn(parts, open, a) + [part]
  {
    var longer := open + [part.0];
    SegmentsSnoc(open, part.0);
    SegmentsSnoc(longer, part.1);
    AllSegmentsSnoc(parts, longer + [part.1]);
    assert Segments([part.0]) == [];
    if open == [] {
      assert longer == [part.0];
    }
  }

  lemma AllSegmentsNone()
    ensures AllSegments([]) == [] && Visible([]) == [] 
  {
  }

  lemma DrawnDone(parts: seq<Part>, p: Point)
    ensures Drawn(parts, [], p) == AllSegments(parts)
  {
  }

  lemma DrawnNothing(parts: seq<Part>, p: Point, q: Point)
    ensures Drawn(parts, [], p) == Drawn(parts, [], q)
  {
  }

  /** The first parts, up to part k, draw the visible segments up to its end. */
  ghost predicate DrawsUpTo(parts: seq<Part>, clips: seq<Option<(Point, Point)>>, ends: seq<nat>, k: nat)
    requires k < |ends| == |parts|
  {
    ends[k] < |clips| && AllSegments(parts[..k + 1]) == Visible(clips[..ends[k] + 1])
  }

  ghost predicate EachDraws(parts: seq<Part>, clips: seq<Option<(Point, Point)>>, ends: seq<nat>)
    requires |ends| == |parts|
  {
    forall k :: 0 <= k < |ends| ==> DrawsUpTo(parts, clips, ends, k)
  }

  /** Segment t is visible, and behind it the line is outside the box or over. */
  predicate EndsPart(points: seq<Point>, box: Box, clips: seq<Option<(Point, Point)>>, t: nat)
    requires t < |clips| < |points|
  {
    clips[t].Some? && (t == |points| - 2 || !box.Contains(points[t + 1]))
  }

  ghost predicate EndsWhere(points: seq<Point>, box: Box, clips: seq<Option<(Point, Point)>>, ends: seq<nat>)
    requires clips != [] ==> |clips| < |points|
  {
    && (forall k :: 0 <= k < |ends| ==> ends[k] < |clips|)
    && (forall j, k :: 0 <= j < k < |ends| ==> ends[j] < ends[k])
    && (forall t :: 0 <= t < |clips| ==> (t in ends <==> EndsPart(points, box, clips, t)))
  }

  /**
   Where the parts end: at the visible segments behind which the line is outside the box or over, and
   only there; each part draws the visible segments since the end of the part before.
   */
  ghost predicate PartsEndAt(points: seq<Point>, box: Box, parts: seq<Part>, clips: seq<Option<(Point, Point)>>,
                             ends: seq<nat>)
  {
    && |ends| == |parts| && (clips != [] ==> |clips| < |points|)
    && EndsWhere(points, box, clips, ends) && EachDraws(parts, clips, ends)
  }

  lemma NoParts(points: seq<Point>, box: Box)
    ensures PartsEndAt(points, box, [], [], [])
  {
  }

  lemma EndsGrow(points: seq<Point>, box: Box, clips: seq<Option<(Point, Point)>>, ends: seq<nat>)
    requires 0 < |clips| < |points| && EndsWhere(points, box, clips[..|clips| - 1], ends)
    ensures EndsWhere(points, box, clips,
                      if EndsPart(points, box, clips, |clips| - 1) then ends + [|clips| - 1] else ends)
  {
    var before, last := clips[..|clips| - 1], |clips| - 1;
    var later := if EndsPart(points, box, clips, last) then ends + [last] else ends;
    forall t | 0 <= t < |clips|
      ensures t in later <==> EndsPart(points, box, clips, t)
    {
      if t < last {
        assert EndsPart(points, box, before, t) == EndsPart(points, box, clips, t);
      }
    }
  }

  lemma TakeTwice<T>(s: seq<T>, n: nat, m: nat)
    requires m <= n <= |s|
    ensures s[..n][..m] == s[..m]
  {
  }

  lemma TakeBefore<T>(s: seq<T>, x: T, m: nat)
    requires m <= |s|
    ensures (s + [x])[..m] == s[..m]
  {
  }

  lemma StillDraws(parts: seq<Part>, clips: seq<Option<(Point, Point)>>, ends: seq<nat>, part: Part, end: nat, k: nat)
    requires clips != [] && k < |ends| == |parts| && DrawsUpTo(parts, clips[..|clips| - 1], ends, k)
    ensures DrawsUpTo(parts, clips, ends, k) && DrawsUpTo(parts + [part], clips, ends + [end], k)
  {
    hide AllSegments, Visible;
    TakeTwice(clips, |clips| - 1, ends[k] + 1);
    TakeBefore(parts, part, k + 1);
  }

  /** A segment behind which no part ends. */
  lemma PartGoesOn(points: seq<Point>, box: Box, parts: seq<Part>, clips: seq<Option<(Point, Point)>>, ends: seq<nat>)
    requires 0 < |clips| < |points| && PartsEndAt(points, box, parts, clips[..|clips| - 1], ends)
    requires !EndsPart(points, box, clips, |clips| - 1)
    ensures PartsEndAt(points, box, parts, clips, ends)
  {
    hide AllSegments, Visible, EndsPart, EndsWhere, DrawsUpTo;
    EndsGrow(points, box, clips, ends);
    forall k: nat | k < |ends|
      ensures DrawsUpTo(parts, clips, ends, k)
    {
      StillDraws(parts, clips, ends, [], 0, k);
    }
  }

  lemma TakeAll<T>(s: seq<T>)
    ensures s[..|s|] == s
  {
  }

  lemma LastDraws(parts: seq<Part>, clips: seq<Option<(Point, Point)>>, ends: seq<nat>)
    requires clips != [] && 0 < |ends| == |parts| && ends[|ends| - 1] == |clips| - 1
    requires AllSegments(parts) == Visible(clips)
    ensures DrawsUpTo(parts, clips, ends, |ends| - 1)
  {
    hide AllSegments, Visible;
    TakeAll(parts);
    TakeAll(clips);
  }

  /** The last segment ends a part. */
  lemma PartEnds(points: seq<Point>, box: Box, parts: seq<Part>, clips: seq<Option<(Point, Point)>>, ends: seq<nat>,
                 part: Part)
    requires 0 < |clips| < |points| && PartsEndAt(points, box, parts, clips[..|clips| - 1], ends)
    requires EndsPart(points, box, clips, |clips| - 1)
    requires AllSegments(parts + [part]) == Visible(clips)
    ensures PartsEndAt(points, box, parts + [part], clips, ends + [|clips| - 1])
  {
    hide AllSegments, Visible, EndsPart, EndsWhere, DrawsUpTo;
    EndsGrow(points, box, clips, ends);
    var longer, later := parts + [part], ends + [|clips| - 1];
    forall k: nat | k < |later|
      ensures DrawsUpTo(longer, clips, later, k)
    {
      if k < |ends| {
        StillDraws(parts, clips, ends, part, |clips| - 1, k);
      } else {
        LastDraws(longer, clips, later);
      }
    }
  }

  /**
   _clipPoints: the parts draw exactly the clipped segments of the polyline, in order, so exactly
   what of it lies in the box; the code of each start point is never computed twice.
   */
  method ClipPoints(util: LineUtil, points: seq<Point>, box: Box)
    returns (parts: seq<Part>, ghost clips: seq<Option<(Point, Point)>>, ghost ends: seq<nat>)
    requires box.Valid()
    modifies util
    ensures |clips| == if points == [] then 0 else |points| - 1
    ensures forall k :: 0 <= k < |clips| ==> Clipped(points[k], points[k + 1], box, clips[k])
    ensures AllSegments(parts) == Visible(clips)
    ensures PartsEndAt(points, box, parts, clips, ends)
    ensures forall k, j :: 0 <= k < |parts| && 0 <= j < |parts[k]| ==> box.Contains(parts[k][j])
  {
    hide AllSegments, Visible, Segments, Drawn, Clipped, BitCode, PartsEndAt;
    NoParts(points, box);
    parts, clips, ends := [], [], [];
    AllSegmentsNone();
    var open: Part := [];
    var t: nat := 0;
    if points != [] {
      DrawnDone(parts, points[0]);
    }
    while t < |points| - 1
      invariant |clips| == t && (if points == [] then t == 0 else t < |points|)
      invariant t == 0 ==> open == [] && parts == []
      invariant 0 < t ==> util.lastCode == BitCode(points[t], box)
      invariant forall k :: 0 <= k < t ==> Clipped(points[k], points[k + 1], box, clips[k])
      invariant open != [] ==> t < |points| - 1 && box.Contains(points[t])
      invariant points != [] ==> Drawn(parts, open, points[t]) == Visible(clips)
      invariant PartsEndAt(points, box, parts, clips, ends)
      invariant forall k, j :: 0 <= k < |parts| && 0 <= j < |parts[k]| ==> box.Contains(parts[k][j])
      invariant forall j :: 0 <= j < |open| ==> box.Contains(open[j])
    {
      var segment := util.ClipSegment(points[t], points[t + 1], box, t != 0);
      VisibleSnoc(clips, segment);
      ghost var before := clips;
      clips := clips + [segment];
      assert clips[..t] == before;
      if segment.Some? {
        ClippedEnds(points[t], points[t + 1], box, segment.value);
        var closes := segment.value.1 != points[t + 1] || t == |points| - 2;
        DrawnStep(parts, open, points[t], points[t + 1], segment.value, closes);
        open := open + [segment.value.0];
        if closes {
          DrawnDone(parts + [open + [segment.value.1]], points[t + 1]);
          PartEnds(points, box, parts, clips, ends, open + [segment.value.1]);
          parts, ends := parts + [open + [segment.value.1]], ends + [t];
          open := [];
        } else {
          PartGoesOn(points, box, parts, clips, ends);
        }
      } else {
        ClippedNone(points[t], points[t + 1], box);
        DrawnNothing(parts, points[t], points[t + 1]);
        PartGoesOn(points, box, parts, clips, ends);
      }
      t := t + 1;
    }
    if points != [] {
      DrawnDone(parts, points[t]);
    }
  }
}
