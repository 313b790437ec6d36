/** Rectangles of pixels, and cutting one out of another. */
module Rects {
  datatype Point = Point(x: int, y: int)
  datatype Rect = Rect(x: int, y: int, w: int, h: int)

  /** A rectangle without a positive width and height has no pixels. */
  predicate In(r: Rect, p: Point) {
    r.x <= p.x < r.x + r.w && r.y <= p.y < r.y + r.h
  }

  function Min(a: int, b: int): int { if a < b then a else b }

  function Max(a: int, b: int): int { if a > b then a else b }

  function RectIntersect(a: Rect, b: Rect): (r: Rect)
    ensures forall p :: In(r, p) <==> In(a, p) && In(b, p)
  {
    var x, y := Max(a.x, b.x), Max(a.y, b.y);
    Rect(x, y, Min(a.x + a.w, b.x + b.w) - x, Min(a.y + a.h, b.y + b.h) - y)
  }

  /** The intersection, pixel by pixel. */
  lemma IntersectionPixel(a: Rect, b: Rect, x: int, y: int)
    ensures var r := RectIntersect(a, b);
            (r.x <= x < r.x + r.w && r.y <= y < r.y + r.h) <==>
              && a.x <= x < a.x + a.w && a.y <= y < a.y + a.h
              && b.x <= x < b.x + b.w && b.y <= y < b.y + b.h
  {
    var p := Point(x, y);
    assert In(RectIntersect(a, b), p) <==> In(a, p) && In(b, p);
  }

  /** The rectangles that contain a pixel. */
  function Hitting(rs: seq<Rect>, p: Point): nat {
    if rs == [] then 0 else (if In(rs[0], p) then 1 else 0) + Hitting(rs[1..], p)
  }

  /** The regions of the first rectangle outside the second: left, above, right, below.
      Each pixel that is in the first but not in the second is in exactly one region,
      and no other pixel is in any. */
  method RectAreasOutside(rect1: Rect, rect2: Rect) returns (region: seq<Rect>)
    ensures |region| <= 4
    ensures forall p :: Hitting(region, p) == if In(rect1, p) && !In(rect2, p) then 1 else 0
  {
    var r1 := rect1;
    region := [];
    if r1.x < rect2.x {
      var piece := Rect(r1.x, r1.y, Min(r1.w, rect2.x - r1.x), r1.h);
      CutMore(rect1, rect2, region, r1, piece, r1.(w := r1.w - (rect2.x - r1.x), x := rect2.x));
      region := region + [piece];
      r1 := r1.(w := r1.w - (rect2.x - r1.x), x := rect2.x);
    }
    if r1.w > 0 && r1.h > 0 && r1.y < rect2.y {
      var piece := Rect(r1.x, r1.y, r1.w, Min(r1.h, rect2.y - r1.y));
      CutMore(rect1, rect2, region, r1, piece, r1.(h := r1.h - (rect2.y - r1.y), y := rect2.y));
      region := region + [piece];
      r1 := r1.(h := r1.h - (rect2.y - r1.y), y := rect2.y);
    }
    if r1.w > 0 && r1.h > 0 && r1.x + r1.w > rect2.x + rect2.w {
      var x := Max(r1.x, rect2.x + rect2.w);
      var piece := Rect(x, r1.y, r1.x + r1.w - x, r1.h);
      CutMore(rect1, rect2, region, r1, piece, r1.(w := rect2.x + rect2.w - r1.x));
      region := region + [piece];
      r1 := r1.(w := r1.w - (r1.x + r1.w - (rect2.x + rect2.w)));
    }
    if r1.w > 0 && r1.h > 0 && r1.y + r1.h > rect2.y + rect2.h {
      var y := Max(r1.y, rect2.y + rect2.h);
      var piece := Rect(r1.x, y, r1.w, r1.y + r1.h - y);
      ghost var less := r1.(h := rect2.y + rect2.h - r1.y);
      CutMore(rect1, rect2, region, r1, piece, less);
      region := region + [piece];
      r1 := r1.(h := r1.h - (r1.y + r1.y - (rect2.y + rect2.h)));
      CutDone(rect1, rect2, region, less);
    } else {
      CutDone(rect1, rect2, region, r1);
    }
  }

  /** Every pixel of a that is not in b is in one of the pieces or still in the rest, a
      pixel that is in both is in the rest, and no pixel is anywhere else or twice. */
  ghost predicate Cut(a: Rect, b: Rect, pieces: seq<Rect>, rest: Rect) {
    forall p {:trigger Hitting(pieces, p)} ::
      && (In(rest, p) ==> In(a, p) && Hitting(pieces, p) == 0)
      && (!In(rest, p) ==> Hitting(pieces, p) == if In(a, p) && !In(b, p) then 1 else 0)
      && (In(a, p) && In(b, p) ==> In(rest, p))
  }

  lemma CutDone(a: Rect, b: Rect, pieces: seq<Rect>, rest: Rect)
    requires Cut(a, b, pieces, rest) && forall p :: In(rest, p) ==> In(b, p)
    ensures forall p :: Hitting(pieces, p) == if In(a, p) && !In(b, p) then 1 else 0
  {
  }

  lemma {:induction false} HittingMore(rs: seq<Rect>, r: Rect, p: Point)
    ensures Hitting(rs + [r], p) == Hitting(rs, p) + if In(r, p) then 1 else 0
  {
    if rs != [] {
      assert (rs + [r])[1..] == rs[1..] + [r];
      HittingMore(rs[1..], r, p);
    } else {
      assert rs + [r] == [r] && [r][1..] == [];
    }
  }

  /** Taking a piece off the rest. */
  lemma CutMore(a: Rect, b: Rect, pieces: seq<Rect>, rest: Rect, piece: Rect, less: Rect)
    requires Cut(a, b, pieces, rest)
    requires forall p :: In(rest, p) <==> In(piece, p) || In(less, p)
    requires forall p :: !(In(piece, p) && In(less, p)) && !(In(piece, p) && In(b, p))
    ensures Cut(a, b, pieces + [piece], less)
  {
    forall p {:trigger Hitting(pieces + [piece], p)} {
      HittingMore(pieces, piece, p);
    }
  }
}
