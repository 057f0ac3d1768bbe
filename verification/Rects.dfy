/** Rectangle subtraction and intersection of include/patchwork/rect.h. */
module Rects {
  datatype Rect = Rect(left: int, top: int, right: int, bottom: int)

  predicate Ordered(r: Rect) { r.left <= r.right && r.top <= r.bottom }

  predicate ContainsPoint(r: Rect, x: int, y: int) { r.left <= x < r.right && r.top <= y < r.bottom }

  predicate Overlap(r: Rect, o: Rect) {
    !(r.right <= o.left || r.left >= o.right || r.bottom <= o.top || r.top >= o.bottom)
  }

  function Area(r: Rect): int { (r.right - r.left) * (r.bottom - r.top) }

  ghost function Points(r: Rect): set<(int, int)> {
    set x: int, y: int | r.left <= x < r.right && r.top <= y < r.bottom :: (x, y)
  }

  lemma {:induction false} ColumnCounts(x: int, top: int, bottom: int)
    requires top <= bottom
    ensures |Points(Rect(x, top, x + 1, bottom))| == bottom - top
    decreases bottom - top
  {
    if top == bottom {
      assert Points(Rect(x, top, x + 1, bottom)) == {};
    } else {
      ColumnCounts(x, top, bottom - 1);
      assert Points(Rect(x, top, x + 1, bottom)) == Points(Rect(x, top, x + 1, bottom - 1)) + {(x, bottom - 1)};
    }
  }

  /** The area is the number of points inside. */
  lemma {:induction false} AreaCounts(r: Rect)
    requires Ordered(r)
    ensures Area(r) == |Points(r)| && forall x, y :: (x, y) in Points(r) <==> ContainsPoint(r, x, y)
    decreases r.right - r.left
  {
    if r.left == r.right {
      assert Points(r) == {};
    } else {
      var rest, column := r.(right := r.right - 1), r.(left := r.right - 1);
      AreaCounts(rest);
      ColumnCounts(r.right - 1, r.top, r.bottom);
      assert Points(r) == Points(rest) + Points(column) && Points(rest) !! Points(column);
      assert (r.right - r.left) * (r.bottom - r.top) == (r.right - 1 - r.left) * (r.bottom - r.top) + (r.bottom - r.top);
    }
  }

  function Max(a: int, b: int): int { if a > b then a else b }

  function Min(a: int, b: int): int { if a < b then a else b }

  function Intersect(r: Rect, o: Rect): Rect {
    Rect(Max(r.left, o.left), Max(r.top, o.top), Min(r.right, o.right), Min(r.bottom, o.bottom))
  }

  ghost predicate Covers(pieces: seq<Rect>, x: int, y: int) {
    exists i :: 0 <= i < |pieces| && ContainsPoint(pieces[i], x, y)
  }

  function TotalArea(pieces: seq<Rect>): int {
    if pieces == [] then 0 else TotalArea(pieces[..|pieces| - 1]) + Area(pieces[|pieces| - 1])
  }

  lemma OneMore(pieces: seq<Rect>, r: Rect)
    ensures TotalArea(pieces + [r]) == TotalArea(pieces) + Area(r)
    ensures forall x, y :: Covers(pieces + [r], x, y) <==> Covers(pieces, x, y) || ContainsPoint(r, x, y)
  {
    hide Area, ContainsPoint;
    var more := pieces + [r];
    assert more[..|pieces|] == pieces;
    forall x, y ensures Covers(more, x, y) <==> Covers(pieces, x, y) || ContainsPoint(r, x, y) {
      if Covers(pieces, x, y) { var i :| 0 <= i < |pieces| && ContainsPoint(pieces[i], x, y); assert more[i] == pieces[i]; }
      if ContainsPoint(r, x, y) { assert more[|pieces|] == r; }
    }
  }

  /** The area of the frame around the intersection. */
  lemma FrameArea(r: Rect, i: Rect)
    ensures Area(r) == Area(Rect(r.left, r.top, r.right, i.top)) + Area(Rect(r.left, i.bottom, r.right, r.bottom))
      + Area(Rect(r.left, i.top, i.left, i.bottom)) + Area(Rect(i.right, i.top, r.right, i.bottom)) + Area(i)
  {
    var w, a, b, c := r.right - r.left, i.top - r.top, r.bottom - i.bottom, i.bottom - i.top;
    assert w * (a + b + c) == w * a + w * b + w * c;
    var p, q, m := i.left - r.left, r.right - i.right, i.right - i.left;
    assert w * c == p * c + q * c + m * c;
  }

  /** The parts of r outside o: above, below, left and right of it. */
  method Subtract(r: Rect, o: Rect) returns (pieces: seq<Rect>)
    requires Ordered(r) && Ordered(o)
    ensures |pieces| <= 4
    ensures forall x, y :: Covers(pieces, x, y) <==> ContainsPoint(r, x, y) && !ContainsPoint(o, x, y)
    ensures forall i, j :: 0 <= i < j < |pieces| ==> !Overlap(pieces[i], pieces[j])
    ensures TotalArea(pieces) == Area(r) - (if Overlap(r, o) then Area(Intersect(r, o)) else 0)
  {
    hide Area, Covers, TotalArea;
    pieces := [];
    Nothing();
    if !Overlap(r, o) {
      OneMore([], r);
      assert [] + [r] == [r];
      return [r];
    }
    var top, bottom := Max(r.top, o.top), Min(r.bottom, o.bottom);
    var above, below := Rect(r.left, r.top, r.right, o.top), Rect(r.left, o.bottom, r.right, r.bottom);
    var left, right := Rect(r.left, top, o.left, bottom), Rect(o.right, top, r.right, bottom);
    FrameArea(r, Intersect(r, o));
    Flat(r.left, r.top, r.right, r.top);
    Flat(r.left, r.bottom, r.right, r.bottom);
    Flat(r.left, top, r.left, bottom);
    Flat(r.right, top, r.right, bottom);
    if o.top > r.top { OneMore(pieces, above); pieces := pieces + [above]; }
    if o.bottom < r.bottom { OneMore(pieces, below); pieces := pieces + [below]; }
    if o.left > r.left { OneMore(pieces, left); pieces := pieces + [left]; }
    if o.right < r.right { OneMore(pieces, right); pieces := pieces + [right]; }
  }

  lemma Nothing()
    ensures TotalArea([]) == 0 && forall x, y :: !Covers([], x, y)
  {}

  lemma Flat(l: int, t: int, r: int, b: int)
    requires l == r || t == b
    ensures Area(Rect(l, t, r, b)) == 0
  {}
}
