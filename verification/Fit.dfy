/** Scaling a frame of another size into the recording's: aspect kept, centered, black borders. */
module Fit {
  import opened Arith
  import opened Basics

  /** Four bytes, blue first. */
  type Pixel = p: seq<byte> | |p| == 4 witness [0, 0, 0, 0]

  const BLACK: Pixel := [0, 0, 0, 0]

  /** The box of the canvas the frame is drawn in. */
  datatype Box = Box(x0: nat, y0: nat, width: nat, height: nat)

  predicate Sized(sw: nat, sh: nat, dw: nat, dh: nat) { sw > 0 && sh > 0 && dw > 0 && dh > 0 }

  function BoxSize(sw: nat, sh: nat, dw: nat, dh: nat): (r: (nat, nat))
    requires Sized(sw, sh, dw, dh)
    ensures 1 <= r.0 <= dw && 1 <= r.1 <= dh
  {
    if sw * dh <= dw * sh then (Clamp(sw * dh / sh, 1, dw), dh) else (dw, Clamp(sh * dw / sw, 1, dh))
  }

  function BoxFor(sw: nat, sh: nat, dw: nat, dh: nat): (b: Box)
    requires Sized(sw, sh, dw, dh)
    ensures 1 <= b.width && b.x0 + b.width <= dw && 1 <= b.height && b.y0 + b.height <= dh
  {
    var (fw, fh) := BoxSize(sw, sh, dw, dh);
    Box((dw - fw) / 2, (dh - fh) / 2, fw, fh)
  }

  /** No box of the frame's exact shape inside the canvas is larger, and the borders differ by at most a pixel. */
  lemma LargestBox(sw: nat, sh: nat, dw: nat, dh: nat, w: nat, h: nat)
    requires Sized(sw, sh, dw, dh) && w * sh == h * sw && w <= dw && h <= dh
    ensures var b := BoxFor(sw, sh, dw, dh);
            w <= b.width && h <= b.height && (b.width == dw || b.height == dh) &&
            0 <= dw - b.width - 2 * b.x0 <= 1 && 0 <= dh - b.height - 2 * b.y0 <= 1
  {
    if sw * dh <= dw * sh {
      MulLe(h, dh, sw);
      DivGe(sw * dh, sh, w);
    } else {
      MulLe(w, dw, sh);
      DivGe(sh * dw, sw, h);
    }
  }

  /** Unless a side would vanish, the shape is off by less than one source row or column. */
  lemma ShapeKept(sw: nat, sh: nat, dw: nat, dh: nat)
    requires Sized(sw, sh, dw, dh)
    ensures var (fw, fh) := BoxSize(sw, sh, dw, dh);
            if sw * dh <= dw * sh then fh == dh && sw * fh < fw * sh + sh && (sw * dh >= sh ==> fw * sh <= sw * fh)
            else fw == dw && sh * fw < fh * sw + sw && (sh * dw >= sw ==> fh * sw <= sh * fw)
  {
    if sw * dh <= dw * sh {
      DivBounds(sw * dh, sh);
      DivMono(sw * dh, dw * sh, sh);
      DivMod(dw, 0, sh, dw * sh);
      if sw * dh >= sh {
        DivGe(sw * dh, sh, 1);
      }
    } else {
      DivBounds(sh * dw, sw);
      DivMono(sh * dw, dh * sw, sw);
      DivMod(dh, 0, sw, dh * sw);
      if sh * dw >= sw {
        DivGe(sh * dw, sw, 1);
      }
    }
  }

  /** The source column (or row) nearest below; it lies in the frame. */
  function Nearest(x: nat, from: nat, to: nat): (r: nat)
    requires x < to && from > 0
    ensures r < from
  {
    MulLt(x, to, from);
    DivLt(x * from, to, from);
    x * from / to
  }

  /** Scaling maps column x of `to` to the column of `from` it starts in. */
  lemma NearestMeans(x: nat, from: nat, to: nat)
    requires x < to && from > 0
    ensures var n := Nearest(x, from, to); n * to <= x * from < (n + 1) * to
  {
    DivBounds(x * from, to);
  }

  predicate InBox(b: Box, x: int, y: int) { b.x0 <= x < b.x0 + b.width && b.y0 <= y < b.y0 + b.height }

  /** What the canvas shows at (x, y). */
  function Shown(src: seq<Pixel>, sw: nat, sh: nat, b: Box, x: nat, y: nat): Pixel
    requires |src| == sw * sh && sw > 0 && sh > 0
  {
    if InBox(b, x, y) then
      var (sx, sy) := (Nearest(x - b.x0, sw, b.width), Nearest(y - b.y0, sh, b.height));
      InFrame(sx, sy, sw, sh);
      src[sy * sw + sx]
    else BLACK
  }

  lemma InFrame(x: nat, y: nat, w: nat, h: nat)
    requires x < w && y < h
    ensures 0 <= y * w + x < h * w
  {
    MulLt(y, h, w);
    MulLe(0, y, w);
  }

  /** A frame of the canvas's own size is copied as it is. */
  lemma SameSizeIsCopied(src: seq<Pixel>, w: nat, h: nat, x: nat, y: nat)
    requires w > 0 && h > 0 && |src| == w * h && x < w && y < h
    ensures 0 <= y * w + x < |src| && Shown(src, w, h, BoxFor(w, h, w, h), x, y) == src[y * w + x]
  {
    InFrame(x, y, w, h);
    DivMod(w, 0, h, w * h);
    DivMod(x, 0, w, x * w);
    DivMod(y, 0, h, y * h);
  }

  /** Drawing goes row by row; it has passed (i, j) once it is at (x, y). */
  predicate Passed(i: int, j: int, x: int, y: int) { j < y || (j == y && i < x) }

  ghost predicate CellDone(canvas: seq<Pixel>, src: seq<Pixel>, sw: nat, sh: nat, dw: nat, b: Box, x: int, y: int, i: nat, j: nat)
    requires |src| == sw * sh && sw > 0 && sh > 0
  {
    0 <= j * dw + i < |canvas| &&
    canvas[j * dw + i] == if Passed(i, j, x, y) then Shown(src, sw, sh, b, i, j) else BLACK
  }

  /** The canvas once drawing is at (x, y): black from there on. */
  ghost predicate Drawn(canvas: seq<Pixel>, src: seq<Pixel>, sw: nat, sh: nat, dw: nat, dh: nat, b: Box, x: int, y: int) {
    |canvas| == dw * dh && |src| == sw * sh && sw > 0 && sh > 0 &&
    forall i, j :: 0 <= i < dw && 0 <= j < dh ==> CellDone(canvas, src, sw, sh, dw, b, x, y, i, j)
  }

  lemma DifferentCells(i: nat, j: nat, x: nat, y: nat, w: nat)
    requires i < w && x < w && (i, j) != (x, y)
    ensures j * w + i != y * w + x
  {
    if j < y {
      MulLt(j, y, w);
    } else if y < j {
      MulLt(y, j, w);
    }
  }

  lemma DrawOne(before: seq<Pixel>, after: seq<Pixel>, src: seq<Pixel>, sw: nat, sh: nat, dw: nat, dh: nat, b: Box, x: nat, y: nat)
    requires Drawn(before, src, sw, sh, dw, dh, b, x, y) && x < dw && y < dh && 0 <= y * dw + x < |before|
    requires after == before[y * dw + x := Shown(src, sw, sh, b, x, y)]
    ensures Drawn(after, src, sw, sh, dw, dh, b, x + 1, y)
  {
    hide Shown;
    var next := x + 1;
    forall i, j | 0 <= i < dw && 0 <= j < dh
      ensures CellDone(after, src, sw, sh, dw, b, next, y, i, j)
    {
      assert CellDone(before, src, sw, sh, dw, b, x, y, i, j);
      if (i, j) != (x, y) {
        DifferentCells(i, j, x, y, dw);
      }
    }
  }

  /** Beyond the box there is only black, so a row's borders are drawn already. */
  lemma Borders(canvas: seq<Pixel>, src: seq<Pixel>, sw: nat, sh: nat, dw: nat, dh: nat, b: Box, x: int, y: int, x': int, y': int)
    requires Drawn(canvas, src, sw, sh, dw, dh, b, x, y)
    requires forall i, j :: 0 <= i < dw && 0 <= j < dh && InBox(b, i, j) ==> (Passed(i, j, x, y) <==> Passed(i, j, x', y'))
    ensures Drawn(canvas, src, sw, sh, dw, dh, b, x', y')
  {
    forall i, j | 0 <= i < dw && 0 <= j < dh
      ensures CellDone(canvas, src, sw, sh, dw, b, x', y', i, j)
    {
      assert CellDone(canvas, src, sw, sh, dw, b, x, y, i, j);
      assert !InBox(b, i, j) ==> Shown(src, sw, sh, b, i, j) == BLACK;
    }
  }

  lemma NothingDrawn(canvas: seq<Pixel>, src: seq<Pixel>, sw: nat, sh: nat, dw: nat, dh: nat, b: Box)
    requires |canvas| == dw * dh && |src| == sw * sh && sw > 0 && sh > 0 && forall k :: 0 <= k < |canvas| ==> canvas[k] == BLACK
    ensures Drawn(canvas, src, sw, sh, dw, dh, b, 0, 0)
  {
    hide Shown;
    forall i, j | 0 <= i < dw && 0 <= j < dh
      ensures CellDone(canvas, src, sw, sh, dw, b, 0, 0, i, j)
    {
      InFrame(i, j, dw, dh);
      assert dw * dh == dh * dw;
    }
  }

  method Scale(src: seq<Pixel>, sw: nat, sh: nat, dw: nat, dh: nat) returns (canvas: array<Pixel>)
    requires Sized(sw, sh, dw, dh) && |src| == sw * sh
    ensures fresh(canvas) && Drawn(canvas[..], src, sw, sh, dw, dh, BoxFor(sw, sh, dw, dh), 0, dh)
  {
    hide Drawn, Shown, BoxFor, Nearest;
    canvas := new Pixel[dw * dh](_ => BLACK);
    var b := BoxFor(sw, sh, dw, dh);
    NothingDrawn(canvas[..], src, sw, sh, dw, dh, b);
    Borders(canvas[..], src, sw, sh, dw, dh, b, 0, 0, 0, b.y0);
    for y := 0 to b.height
      invariant canvas.Length == dw * dh
      invariant Drawn(canvas[..], src, sw, sh, dw, dh, b, 0, b.y0 + y)
    {
      ScaleRow(canvas, src, sw, sh, dw, dh, b, y);
    }
    Borders(canvas[..], src, sw, sh, dw, dh, b, 0, b.y0 + b.height, 0, dh);
  }

  method ScaleRow(canvas: array<Pixel>, src: seq<Pixel>, sw: nat, sh: nat, dw: nat, dh: nat, b: Box, y: nat)
    requires Sized(sw, sh, dw, dh) && |src| == sw * sh && canvas.Length == dw * dh
    requires b.x0 + b.width <= dw && y < b.height && b.y0 + b.height <= dh
    requires Drawn(canvas[..], src, sw, sh, dw, dh, b, 0, b.y0 + y)
    modifies canvas
    ensures Drawn(canvas[..], src, sw, sh, dw, dh, b, 0, b.y0 + y + 1)
  {
    hide Drawn, Nearest;
    var sy := Nearest(y, sh, b.height);
    Borders(canvas[..], src, sw, sh, dw, dh, b, 0, b.y0 + y, b.x0, b.y0 + y);
    for x := 0 to b.width
      invariant Drawn(canvas[..], src, sw, sh, dw, dh, b, b.x0 + x, b.y0 + y)
    {
      var sx := Nearest(x, sw, b.width);
      InFrame(sx, sy, sw, sh);
      InFrame(b.x0 + x, b.y0 + y, dw, dh);
      ghost var before := canvas[..];
      var at := (b.y0 + y) * dw + (b.x0 + x);
      canvas[at] := src[sy * sw + sx];
      assert canvas[..] == before[at := src[sy * sw + sx]];
      DrawOne(before, canvas[..], src, sw, sh, dw, dh, b, b.x0 + x, b.y0 + y);
    }
    Borders(canvas[..], src, sw, sh, dw, dh, b, b.x0 + b.width, b.y0 + y, 0, b.y0 + y + 1);
  }
}
