/** Rectangles of the scanout, and which bytes of a frame they hold. */
module Areas {
  import opened Arith
  import opened Basics

  datatype Area = Area(x: nat, y: nat, width: nat, height: nat) {
    predicate Covers(px: int, py: int) {
      x <= px < x + width && y <= py < y + height
    }

    predicate Inside(w: nat, h: nat) {
      x + width <= w && y + height <= h
    }

    predicate Within(outer: Area) {
      outer.x <= x && x + width <= outer.x + outer.width &&
      outer.y <= y && y + height <= outer.y + outer.height
    }

    /** Whether byte `i` of a top-down BGRA frame `w` pixels wide belongs to a pixel of this area. */
    predicate HoldsByte(w: nat, i: int) {
      w > 0 && Covers((i / 4) % w, (i / 4) / w)
    }
  }

  function Full(w: nat, h: nat): Area { Area(0, 0, w, h) }

  /** The bounding box of two areas: it lies within exactly the areas both lie within. */
  function Union(a: Area, b: Area): (r: Area)
    ensures forall c: Area :: r.Within(c) <==> a.Within(c) && b.Within(c)
    ensures forall w, h :: r.Inside(w, h) <==> a.Inside(w, h) && b.Inside(w, h)
  {
    var x, y := Min(a.x, b.x), Min(a.y, b.y);
    Area(x, y, Max(a.x + a.width, b.x + b.width) - x, Max(a.y + a.height, b.y + b.height) - y)
  }

  lemma UnionHolds(a: Area, b: Area, w: nat, i: int)
    ensures a.HoldsByte(w, i) || b.HoldsByte(w, i) ==> Union(a, b).HoldsByte(w, i)
  {
  }

  /** The bytes of one row of an area: a contiguous run starting at the row's first pixel. */
  lemma RowBytes(area: Area, w: nat, row: nat, i: int)
    requires w > 0 && area.x + area.width <= w
    ensures var at := 4 * ((area.y + row) * w + area.x);
            at <= i < at + 4 * area.width <==>
            (i / 4) / w == area.y + row && area.x <= (i / 4) % w < area.x + area.width
  {
    var p, q := i / 4, area.y + row;
    if 4 * (q * w + area.x) <= i < 4 * (q * w + area.x) + 4 * area.width {
      DivMod(q, p - q * w, w, p);
    }
    if p / w == q && area.x <= p % w < area.x + area.width {
      assert p == q * w + p % w;
    }
  }

  /** Whole rows are one contiguous run. */
  lemma WholeRowsBytes(area: Area, w: nat, i: int)
    requires w > 0 && area.x == 0 && area.width == w
    ensures 4 * (area.y * w) <= i < 4 * ((area.y + area.height) * w) <==> area.HoldsByte(w, i)
  {
    var p := i / 4;
    var q := p / w;
    var top, bottom := area.y, area.y + area.height;
    DivBounds(p, w);
    if q < top {
      MulLt(q, top, w);
    } else if q < bottom {
      MulLe(top, q, w);
      MulLt(q, bottom, w);
    } else {
      MulLe(bottom, q, w);
    }
  }

  lemma FullHoldsAll(w: nat, h: nat, i: int)
    requires 0 <= i < w * h * 4
    ensures Full(w, h).HoldsByte(w, i)
  {
    WholeRowsBytes(Full(w, h), w, i);
    assert 4 * ((0 + h) * w) == w * h * 4;
  }
}
