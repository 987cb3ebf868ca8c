/** The two converters over whole frames: row pairs, 2x2 blocks or 16 columns at a time, in place. */
module Converter {
  import opened Arith
  import opened Basics
  import opened Nv12
  import opened Simd

  // ---- One row pair ----

  function PairLuma(src: seq<byte>, i: nat): byte
    requires 4 * i + 4 <= |src|
  {
    Luma(src[4 * i], src[4 * i + 1], src[4 * i + 2])
  }

  /** Byte `x` of a row pair's chroma: Cb in even places, Cr in odd ones, of the 2x2 block there. */
  function PairChroma(src: seq<byte>, w: nat, x: nat): byte
    requires |src| == 8 * w && w % 2 == 0 && x < w
  {
    var top, bottom, k := src[..4 * w], src[4 * w..], x / 2;
    var bs, gs, rs := BlockSum(top, bottom, k, 0), BlockSum(top, bottom, k, 1), BlockSum(top, bottom, k, 2);
    if x % 2 == 0 then Cb(bs, gs, rs) else Cr(bs, gs, rs)
  }

  function Column(i: int, w: nat): int { if i < w then i else i - w }

  /** Byte `k` after columns [lo, hi) of a row pair were converted to `yAt` and `uvAt`. */
  function PairByte(before: seq<byte>, src: seq<byte>, w: nat, yAt: nat, uvAt: nat, lo: nat, hi: nat, k: nat): byte
    requires |src| == 8 * w && w % 2 == 0 && k < |before|
  {
    if yAt <= k < yAt + 2 * w && lo <= Column(k - yAt, w) < hi then PairLuma(src, k - yAt)
    else if uvAt <= k < uvAt + w && lo <= k - uvAt < hi then PairChroma(src, w, k - uvAt)
    else before[k]
  }

  ghost predicate PairDone(before: seq<byte>, after: seq<byte>, src: seq<byte>, w: nat, yAt: nat, uvAt: nat, lo: nat, hi: nat)
    requires |src| == 8 * w && w % 2 == 0
  {
    |after| == |before| && forall k :: 0 <= k < |after| ==> after[k] == PairByte(before, src, w, yAt, uvAt, lo, hi, k)
  }

  lemma PairCompose(s0: seq<byte>, s1: seq<byte>, s2: seq<byte>, src: seq<byte>, w: nat, yAt: nat, uvAt: nat,
                    lo: nat, mid: nat, hi: nat)
    requires |src| == 8 * w && w % 2 == 0 && lo <= mid <= hi && yAt + 2 * w <= uvAt
    requires PairDone(s0, s1, src, w, yAt, uvAt, lo, mid) && PairDone(s1, s2, src, w, yAt, uvAt, mid, hi)
    ensures PairDone(s0, s2, src, w, yAt, uvAt, lo, hi)
  {
    hide PairLuma, PairChroma;
  }

  /** One 2x2 block: four lumas and a chroma pair. */
  method ScalarBlock(src: seq<byte>, w: nat, nv12: array<byte>, yAt: nat, uvAt: nat, x: nat)
    requires |src| == 8 * w && w % 2 == 0 && x % 2 == 0 && x < w
    requires yAt + 2 * w <= uvAt && uvAt + w <= nv12.Length
    modifies nv12
    ensures PairDone(old(nv12[..]), nv12[..], src, w, yAt, uvAt, x, x + 2)
  {
    hide Luma, PairLuma, Cb, Cr, BlockSum;
    var top, bottom, k := src[..4 * w], src[4 * w..], x / 2;
    var bs, gs, rs := BlockSum(top, bottom, k, 0), BlockSum(top, bottom, k, 1), BlockSum(top, bottom, k, 2);
    nv12[yAt + x] := PairLuma(src, x);
    nv12[yAt + x + 1] := PairLuma(src, x + 1);
    nv12[yAt + w + x] := PairLuma(src, w + x);
    nv12[yAt + w + x + 1] := PairLuma(src, w + x + 1);
    nv12[uvAt + x] := Cb(bs, gs, rs);
    nv12[uvAt + x + 1] := Cr(bs, gs, rs);
  }

  /** The scalar converter's inner loop: one block at a time, from column `x0`. */
  method ScalarPair(src: seq<byte>, w: nat, nv12: array<byte>, yAt: nat, uvAt: nat, x0: nat)
    requires |src| == 8 * w && w % 2 == 0 && x0 % 2 == 0 && x0 <= w
    requires yAt + 2 * w <= uvAt && uvAt + w <= nv12.Length
    modifies nv12
    ensures PairDone(old(nv12[..]), nv12[..], src, w, yAt, uvAt, x0, w)
  {
    hide PairLuma, PairChroma;
    ghost var before := nv12[..];
    var x := x0;
    while x < w
      invariant x0 <= x <= w && x % 2 == 0
      invariant PairDone(before, nv12[..], src, w, yAt, uvAt, x0, x)
    {
      ghost var mid := nv12[..];
      ScalarBlock(src, w, nv12, yAt, uvAt, x);
      PairCompose(before, mid, nv12[..], src, w, yAt, uvAt, x0, x, x + 2);
      x := x + 2;
    }
  }

  // ---- Sixteen columns at once ----

  function VecLuma16(t: seq<byte>): seq<byte>
    requires |t| == 64
  {
    StoreBytes(VecLuma(LoadBr(t[..32]), LoadGa(t[..32])), VecLuma(LoadBr(t[32..]), LoadGa(t[32..])))
  }

  function VecChroma16(t: seq<byte>, b: seq<byte>): seq<byte>
    requires |t| == 64 && |b| == 64
  {
    StoreBytes(VecChroma(LoadBr(t[..32]), LoadGa(t[..32]), LoadBr(b[..32]), LoadGa(b[..32])),
               VecChroma(LoadBr(t[32..]), LoadGa(t[32..]), LoadBr(b[32..]), LoadGa(b[32..])))
  }

  lemma VecLuma16Bytes(t: seq<byte>)
    requires |t| == 64
    ensures |VecLuma16(t)| == 16
    ensures forall i :: 0 <= i < 16 ==> VecLuma16(t)[i] == PairLuma(t, i)
  {
    hide StoreBytes, VecLuma, LoadBr, LoadGa, Luma;
    var a, b := VecLuma(LoadBr(t[..32]), LoadGa(t[..32])), VecLuma(LoadBr(t[32..]), LoadGa(t[32..]));
    forall i | 0 <= i < 8
      ensures a[i] == PairLuma(t, i)
    {
      LumaLane(t[..32], i);
    }
    forall i | 0 <= i < 8
      ensures b[i] == PairLuma(t, i + 8)
    {
      LumaLane(t[32..], i);
    }
    StoreInOrder(a, b);
  }

  /** The chroma byte of a pair of 64-byte rows. */
  function BlockChroma(t: seq<byte>, b: seq<byte>, x: nat): byte
    requires 4 * x + 4 <= |t| && 4 * x + 4 <= |b| && |t| % 8 == 0 && |b| % 8 == 0
  {
    var k := x / 2;
    var bs, gs, rs := BlockSum(t, b, k, 0), BlockSum(t, b, k, 1), BlockSum(t, b, k, 2);
    if x % 2 == 0 then Cb(bs, gs, rs) else Cr(bs, gs, rs)
  }

  lemma VecChroma16Bytes(t: seq<byte>, b: seq<byte>)
    requires |t| == 64 && |b| == 64
    ensures |VecChroma16(t, b)| == 16
    ensures forall i :: 0 <= i < 16 ==> VecChroma16(t, b)[i] == BlockChroma(t, b, i)
  {
    hide StoreBytes, VecChroma, LoadBr, LoadGa, Cb, Cr;
    var lo := VecChroma(LoadBr(t[..32]), LoadGa(t[..32]), LoadBr(b[..32]), LoadGa(b[..32]));
    var hi := VecChroma(LoadBr(t[32..]), LoadGa(t[32..]), LoadBr(b[32..]), LoadGa(b[32..]));
    forall i | 0 <= i < 8
      ensures lo[i] == BlockChroma(t, b, i)
    {
      ChromaLanes(t[..32], b[..32], i / 2);
    }
    forall i | 0 <= i < 8
      ensures hi[i] == BlockChroma(t, b, i + 8)
    {
      ChromaLanes(t[32..], b[32..], i / 2);
    }
    StoreInOrder(lo, hi);
  }

  method CopyBytes(nv12: array<byte>, at: nat, bytes: seq<byte>)
    requires at + |bytes| <= nv12.Length
    modifies nv12
    ensures forall k :: 0 <= k < nv12.Length ==>
              nv12[k] == if at <= k < at + |bytes| then bytes[k - at] else old(nv12[k])
  {
    forall k | at <= k < at + |bytes| {
      nv12[k] := bytes[k - at];
    }
  }

  /** Sixteen columns of a row pair: two stores of luma and one of chroma. */
  method VecBlock(src: seq<byte>, w: nat, nv12: array<byte>, yAt: nat, uvAt: nat, x: nat)
    requires |src| == 8 * w && w % 2 == 0 && x % 16 == 0 && x + 16 <= w
    requires yAt + 2 * w <= uvAt && uvAt + w <= nv12.Length
    modifies nv12
    ensures PairDone(old(nv12[..]), nv12[..], src, w, yAt, uvAt, x, x + 16)
  {
    hide VecLuma16, VecChroma16, Luma, Cb, Cr, PairLuma, PairChroma, BlockChroma;
    var t, b := src[4 * x..4 * x + 64], src[4 * (w + x)..4 * (w + x) + 64];
    VecLuma16Bytes(t);
    VecLuma16Bytes(b);
    VecChroma16Bytes(t, b);
    BlockBytes(src, w, x);
    CopyBytes(nv12, yAt + x, VecLuma16(t));
    CopyBytes(nv12, yAt + w + x, VecLuma16(b));
    CopyBytes(nv12, uvAt + x, VecChroma16(t, b));
  }

  /** What 64 bytes of each row hold of the row pair. */
  lemma BlockBytes(src: seq<byte>, w: nat, x: nat)
    requires |src| == 8 * w && w % 2 == 0 && x % 16 == 0 && x + 16 <= w
    ensures var t, b := src[4 * x..4 * x + 64], src[4 * (w + x)..4 * (w + x) + 64];
            (forall i :: 0 <= i < 16 ==> PairLuma(t, i) == PairLuma(src, x + i)) &&
            (forall i :: 0 <= i < 16 ==> PairLuma(b, i) == PairLuma(src, w + x + i)) &&
            (forall i :: 0 <= i < 16 ==> BlockChroma(t, b, i) == PairChroma(src, w, x + i))
  {
    hide Luma, BlockChroma, PairChroma;
    var t, b := src[4 * x..4 * x + 64], src[4 * (w + x)..4 * (w + x) + 64];
    forall i | 0 <= i < 16
      ensures BlockChroma(t, b, i) == PairChroma(src, w, x + i)
    {
      BlockChromaAt(src, w, x, i);
    }
    hide PairLuma;
    forall i | 0 <= i < 16
      ensures PairLuma(t, i) == PairLuma(src, x + i)
    {
      BlockLumaAt(src, x, i);
    }
    forall i | 0 <= i < 16
      ensures PairLuma(b, i) == PairLuma(src, w + x + i)
    {
      BlockLumaAt(src, w + x, i);
    }
  }

  lemma BlockLumaAt(src: seq<byte>, x: nat, i: nat)
    requires 4 * x + 64 <= |src| && i < 16
    ensures PairLuma(src[4 * x..4 * x + 64], i) == PairLuma(src, x + i)
  {
    hide Luma;
  }

  lemma Halves(x: nat, i: nat)
    requires x % 2 == 0
    ensures (x + i) / 2 == x / 2 + i / 2 && (x + i) % 2 == i % 2
  {
  }

  lemma BlockChromaAt(src: seq<byte>, w: nat, x: nat, i: nat)
    requires |src| == 8 * w && w % 2 == 0 && x % 2 == 0 && x + 16 <= w && i < 16
    ensures BlockChroma(src[4 * x..4 * x + 64], src[4 * (w + x)..4 * (w + x) + 64], i) == PairChroma(src, w, x + i)
  {
    hide BlockSum, Cb, Cr;
    var k := i / 2;
    Halves(x, i);
    BlockSums(src, w, x, k, 0);
    BlockSums(src, w, x, k, 1);
    BlockSums(src, w, x, k, 2);
  }

  lemma BlockSums(src: seq<byte>, w: nat, x: nat, k: nat, ch: nat)
    requires |src| == 8 * w && x % 2 == 0 && x + 16 <= w && k < 8 && ch < 4
    ensures BlockSum(src[4 * x..4 * x + 64], src[4 * (w + x)..4 * (w + x) + 64], k, ch) ==
            BlockSum(src[..4 * w], src[4 * w..], x / 2 + k, ch)
  {
    var t, b := src[4 * x..4 * x + 64], src[4 * (w + x)..4 * (w + x) + 64];
    var top, bottom := src[..4 * w], src[4 * w..];
    var i, j := 8 * k + ch, 8 * (x / 2 + k) + ch;
    assert t[i] == src[4 * x + i] == top[j] && t[i + 4] == src[4 * x + i + 4] == top[j + 4];
    assert b[i] == src[4 * (w + x) + i] == bottom[j] && b[i + 4] == src[4 * (w + x) + i + 4] == bottom[j + 4];
  }

  /** The AVX2 converter's inner loop, over the columns that fill whole blocks. */
  method VecPair(src: seq<byte>, w: nat, nv12: array<byte>, yAt: nat, uvAt: nat, simdW: nat)
    requires |src| == 8 * w && w % 2 == 0 && simdW % 16 == 0 && simdW <= w
    requires yAt + 2 * w <= uvAt && uvAt + w <= nv12.Length
    modifies nv12
    ensures PairDone(old(nv12[..]), nv12[..], src, w, yAt, uvAt, 0, simdW)
  {
    hide PairLuma, PairChroma;
    ghost var before := nv12[..];
    var x := 0;
    while x < simdW
      invariant 0 <= x <= simdW && x % 16 == 0
      invariant PairDone(before, nv12[..], src, w, yAt, uvAt, 0, x)
    {
      ghost var mid := nv12[..];
      VecBlock(src, w, nv12, yAt, uvAt, x);
      PairCompose(before, mid, nv12[..], src, w, yAt, uvAt, 0, x, x + 16);
      x := x + 16;
    }
  }

  // ---- Whole frames ----

  ghost predicate FrameSized(bgra: seq<byte>, w: nat, h: nat) {
    w > 0 && w % 2 == 0 && h % 2 == 0 && |bgra| == w * h * 4
  }

  /** NV12's size: a byte per pixel, and half as many again. */
  function Nv12Size(w: nat, h: nat): nat { w * h + w * (h / 2) }

  /** Row pair `r` of the frame starts at pixel `r * (2 * w)`; its chroma at `r * w`. */
  lemma RowPairFits(bgra: seq<byte>, w: nat, h: nat, r: nat)
    requires FrameSized(bgra, w, h) && r < h / 2
    ensures 8 * (r * w) + 8 * w <= |bgra| && r * w + w <= w * (h / 2) && 2 * (r * w) + 2 * w <= w * h
  {
    MulLt(r, h / 2, w);
    assert w * h == 2 * (w * (h / 2)) by { assert h == 2 * (h / 2); }
  }

  function RowPair(bgra: seq<byte>, w: nat, h: nat, r: nat): (src: seq<byte>)
    requires FrameSized(bgra, w, h) && r < h / 2
    ensures |src| == 8 * w
  {
    RowPairFits(bgra, w, h, r);
    bgra[8 * (r * w)..8 * (r * w) + 8 * w]
  }

  lemma ChromaRow(w: nat, h: nat, j: nat)
    requires w > 0 && j < w * (h / 2)
    ensures 0 <= j / w < h / 2 && 0 <= j % w < w
  {
    DivGe(j, w, 0);
    DivLt(j, w, h / 2);
  }

  function ChromaAt(bgra: seq<byte>, w: nat, h: nat, r: nat, x: nat): byte
    requires FrameSized(bgra, w, h) && r < h / 2 && x < w
  {
    PairChroma(RowPair(bgra, w, h, r), w, x)
  }

  /** The whole frame converted: luma per pixel, then interleaved chroma per 2x2 block. */
  function Nv12Byte(bgra: seq<byte>, w: nat, h: nat, k: nat): byte
    requires FrameSized(bgra, w, h) && k < Nv12Size(w, h)
  {
    if k < w * h then PairLuma(bgra, k)
    else
      ChromaRow(w, h, k - w * h);
      ChromaAt(bgra, w, h, (k - w * h) / w, (k - w * h) % w)
  }

  /** The byte of channel `c` (blue, green, red) of pixel (x, y). */
  function Channel(bgra: seq<byte>, w: nat, h: nat, x: nat, y: nat, c: nat): byte
    requires FrameSized(bgra, w, h) && x < w && y < h && c < 3
  {
    PixelFits(w, h, x, y);
    bgra[4 * (y * w + x) + c]
  }

  lemma PixelFits(w: nat, h: nat, x: nat, y: nat)
    requires x < w && y < h
    ensures 0 <= y * w + x < w * h
  {
    MulLt(y, h, w);
    MulLe(0, y, w);
  }

  /** The sum of a channel over the 2x2 block of pixels at (2 * cx, 2 * cy). */
  function BlockOf(bgra: seq<byte>, w: nat, h: nat, cx: nat, cy: nat, c: nat): Sum4
    requires FrameSized(bgra, w, h) && 2 * cx + 1 < w && 2 * cy + 1 < h && c < 3
  {
    Channel(bgra, w, h, 2 * cx, 2 * cy, c) as int + Channel(bgra, w, h, 2 * cx + 1, 2 * cy, c) as int +
    Channel(bgra, w, h, 2 * cx, 2 * cy + 1, c) as int + Channel(bgra, w, h, 2 * cx + 1, 2 * cy + 1, c) as int
  }

  /** The luma plane has a byte per pixel, row by row. */
  lemma LumaPlane(bgra: seq<byte>, w: nat, h: nat, x: nat, y: nat)
    requires FrameSized(bgra, w, h) && x < w && y < h
    ensures 0 <= y * w + x < Nv12Size(w, h)
    ensures Nv12Byte(bgra, w, h, y * w + x) ==
            Luma(Channel(bgra, w, h, x, y, 0), Channel(bgra, w, h, x, y, 1), Channel(bgra, w, h, x, y, 2))
  {
    PixelFits(w, h, x, y);
    MulLe(0, h / 2, w);
  }

  /** After it, each 2x2 block has its Cb and then its Cr, row by row. */
  lemma ChromaPlane(bgra: seq<byte>, w: nat, h: nat, cx: nat, cy: nat)
    requires FrameSized(bgra, w, h) && 2 * cx + 1 < w && 2 * cy + 1 < h
    ensures 0 <= cy * w && w * h + cy * w + 2 * cx + 1 < Nv12Size(w, h)
    ensures var bs, gs, rs := BlockOf(bgra, w, h, cx, cy, 0), BlockOf(bgra, w, h, cx, cy, 1), BlockOf(bgra, w, h, cx, cy, 2);
            Nv12Byte(bgra, w, h, w * h + cy * w + 2 * cx) == Cb(bs, gs, rs) &&
            Nv12Byte(bgra, w, h, w * h + cy * w + 2 * cx + 1) == Cr(bs, gs, rs)
  {
    hide Cb, Cr, BlockOf, BlockSum, RowPair;
    MulLe(0, cy, w);
    MulLt(cy, h / 2, w);
    DivMod(cy, 2 * cx, w, cy * w + 2 * cx);
    DivMod(cy, 2 * cx + 1, w, cy * w + 2 * cx + 1);
    BlockIs(bgra, w, h, cx, cy, 0);
    BlockIs(bgra, w, h, cx, cy, 1);
    BlockIs(bgra, w, h, cx, cy, 2);
  }

  lemma ChannelIs(bgra: seq<byte>, w: nat, h: nat, x: nat, y: nat, c: nat, at: nat)
    requires FrameSized(bgra, w, h) && x < w && y < h && c < 3 && at == y * w + x
    ensures 4 * at + c < |bgra| && Channel(bgra, w, h, x, y, c) == bgra[4 * at + c]
  {
    PixelFits(w, h, x, y);
  }

  lemma RowPairAt(bgra: seq<byte>, w: nat, h: nat, r: nat, i: nat)
    requires FrameSized(bgra, w, h) && r < h / 2 && i < 8 * w
    ensures 0 <= 8 * (r * w) + i < |bgra| && RowPair(bgra, w, h, r)[i] == bgra[8 * (r * w) + i]
  {
    RowPairFits(bgra, w, h, r);
    MulLe(0, r, w);
  }

  lemma TwoRows(cy: nat, w: nat)
    ensures 2 * cy * w == 2 * (cy * w) && (2 * cy + 1) * w == 2 * (cy * w) + w && cy * w >= 0
  {
    MulLe(0, cy, w);
  }

  /** Pixel (x, 2 * r + low) is in row pair `r`, in its upper or lower row. */
  lemma ChannelInPair(bgra: seq<byte>, w: nat, h: nat, x: nat, r: nat, low: nat, c: nat)
    requires FrameSized(bgra, w, h) && x < w && r < h / 2 && low < 2 && c < 3
    ensures RowPair(bgra, w, h, r)[4 * (low * w) + 4 * x + c] == Channel(bgra, w, h, x, 2 * r + low, c)
  {
    hide RowPair, Channel;
    TwoRows(r, w);
    assert low * w == if low == 0 then 0 else w;
    ChannelIs(bgra, w, h, x, 2 * r + low, c, 2 * (r * w) + low * w + x);
    RowPairAt(bgra, w, h, r, 4 * (low * w) + 4 * x + c);
  }

  lemma BlockIs(bgra: seq<byte>, w: nat, h: nat, cx: nat, cy: nat, c: nat)
    requires FrameSized(bgra, w, h) && 2 * cx + 1 < w && 2 * cy + 1 < h && c < 3
    ensures var src := RowPair(bgra, w, h, cy);
            BlockSum(src[..4 * w], src[4 * w..], cx, c) == BlockOf(bgra, w, h, cx, cy, c)
  {
    hide RowPair, Channel;
    var src, i := RowPair(bgra, w, h, cy), 8 * cx + c;
    ChannelInPair(bgra, w, h, 2 * cx, cy, 0, c);
    ChannelInPair(bgra, w, h, 2 * cx + 1, cy, 0, c);
    ChannelInPair(bgra, w, h, 2 * cx, cy, 1, c);
    ChannelInPair(bgra, w, h, 2 * cx + 1, cy, 1, c);
    assert 0 * w == 0 && 1 * w == w;
    assert src[..4 * w][i] == src[i] && src[..4 * w][i + 4] == src[i + 4];
    assert src[4 * w..][i] == src[4 * w + i] && src[4 * w..][i + 4] == src[4 * w + i + 4];
  }

  /** Whether byte `k` belongs to the first `rows` row pairs and to columns [lo, hi). */
  predicate Reached(w: nat, h: nat, rows: nat, lo: nat, hi: nat, k: nat)
    requires w > 0
  {
    if k < w * h then k / w < 2 * rows && lo <= k % w < hi
    else (k - w * h) / w < rows && lo <= (k - w * h) % w < hi
  }

  ghost predicate FrameDone(before: seq<byte>, after: seq<byte>, bgra: seq<byte>, w: nat, h: nat, rows: nat, lo: nat, hi: nat)
    requires FrameSized(bgra, w, h)
  {
    |after| == |before| == Nv12Size(w, h) &&
    forall k :: 0 <= k < |after| ==>
      after[k] == if Reached(w, h, rows, lo, hi, k) then Nv12Byte(bgra, w, h, k) else before[k]
  }

  lemma LumaRows(w: nat, r: nat, k: nat)
    requires w > 0
    ensures 2 * (r * w) <= k < 2 * (r * w) + 2 * w <==> 2 * r <= k / w < 2 * r + 2
    ensures 2 * r <= k / w < 2 * r + 2 ==> Column(k - 2 * (r * w), w) == k % w
  {
    DivBounds(k, w);
    var q := k / w;
    assert 2 * (r * w) == (2 * r) * w;
    assert (2 * r + 1) * w == (2 * r) * w + w && (2 * r + 2) * w == (2 * r) * w + 2 * w;
    if q < 2 * r { MulLt(q, 2 * r, w); }
    else if q >= 2 * r + 2 { MulLe(2 * r + 2, q, w); }
    else { assert q == 2 * r || q == 2 * r + 1; }
  }

  lemma ChromaRows(w: nat, r: nat, j: nat)
    requires w > 0
    ensures r * w <= j < r * w + w <==> j / w == r
    ensures j / w == r ==> j - r * w == j % w
  {
    DivBounds(j, w);
    if r * w <= j < r * w + w { DivMod(r, j - r * w, w, j); }
  }

  /** One more row pair. */
  lemma FrameStep(s0: seq<byte>, s1: seq<byte>, s2: seq<byte>, bgra: seq<byte>, w: nat, h: nat, r: nat, lo: nat, hi: nat)
    requires FrameSized(bgra, w, h) && r < h / 2 && hi <= w
    requires FrameDone(s0, s1, bgra, w, h, r, lo, hi)
    requires PairDone(s1, s2, RowPair(bgra, w, h, r), w, 2 * (r * w), w * h + r * w, lo, hi)
    ensures FrameDone(s0, s2, bgra, w, h, r + 1, lo, hi)
  {
    RowPairFits(bgra, w, h, r);
    forall k: nat | k < |s2|
      ensures s2[k] == if Reached(w, h, r + 1, lo, hi, k) then Nv12Byte(bgra, w, h, k) else s0[k]
    {
      FrameStepByte(s0, s1, s2, bgra, w, h, r, lo, hi, k);
    }
  }

  lemma FrameStepByte(s0: seq<byte>, s1: seq<byte>, s2: seq<byte>, bgra: seq<byte>, w: nat, h: nat, r: nat, lo: nat, hi: nat, k: nat)
    requires FrameSized(bgra, w, h) && r < h / 2 && hi <= w && k < |s0| == |s1| == |s2| == Nv12Size(w, h)
    requires s1[k] == if Reached(w, h, r, lo, hi, k) then Nv12Byte(bgra, w, h, k) else s0[k]
    requires s2[k] == PairByte(s1, RowPair(bgra, w, h, r), w, 2 * (r * w), w * h + r * w, lo, hi, k)
    ensures s2[k] == if Reached(w, h, r + 1, lo, hi, k) then Nv12Byte(bgra, w, h, k) else s0[k]
  {
    hide PairChroma, Luma;
    RowPairFits(bgra, w, h, r);
    if k < w * h {
      LumaRows(w, r, k);
    } else {
      ChromaRows(w, r, k - w * h);
    }
  }

  /** The scalar converter, from column `x0` of every row pair. */
  method ScalarRows(bgra: seq<byte>, w: nat, h: nat, nv12: array<byte>, x0: nat)
    requires FrameSized(bgra, w, h) && nv12.Length == Nv12Size(w, h) && x0 % 2 == 0 && x0 <= w
    modifies nv12
    ensures FrameDone(old(nv12[..]), nv12[..], bgra, w, h, h / 2, x0, w)
  {
    hide PairDone, FrameDone;
    ghost var before := nv12[..];
    NothingDone(before, bgra, w, h, x0, w);
    for r := 0 to h / 2
      invariant FrameDone(before, nv12[..], bgra, w, h, r, x0, w)
    {
      ghost var mid := nv12[..];
      RowPairFits(bgra, w, h, r);
      ScalarPair(RowPair(bgra, w, h, r), w, nv12, 2 * (r * w), w * h + r * w, x0);
      FrameStep(before, mid, nv12[..], bgra, w, h, r, x0, w);
    }
  }

  lemma NothingDone(s: seq<byte>, bgra: seq<byte>, w: nat, h: nat, lo: nat, hi: nat)
    requires FrameSized(bgra, w, h) && |s| == Nv12Size(w, h)
    ensures FrameDone(s, s, bgra, w, h, 0, lo, hi)
  {
    hide Nv12Byte;
    forall k: nat | k < |s|
      ensures !Reached(w, h, 0, lo, hi, k)
    {
      DivGe(if k < w * h then k else k - w * h, w, 0);
    }
  }

  /** The loop over row pairs, for the columns that fill whole blocks. */
  method Avx2Blocks(bgra: seq<byte>, w: nat, h: nat, nv12: array<byte>, simdW: nat)
    requires FrameSized(bgra, w, h) && nv12.Length == Nv12Size(w, h) && simdW % 16 == 0 && simdW <= w
    modifies nv12
    ensures FrameDone(old(nv12[..]), nv12[..], bgra, w, h, h / 2, 0, simdW)
  {
    hide PairDone, FrameDone, Nv12Byte;
    ghost var before := nv12[..];
    NothingDone(before, bgra, w, h, 0, simdW);
    for r := 0 to h / 2
      invariant FrameDone(before, nv12[..], bgra, w, h, r, 0, simdW)
    {
      ghost var mid := nv12[..];
      RowPairFits(bgra, w, h, r);
      VecPair(RowPair(bgra, w, h, r), w, nv12, 2 * (r * w), w * h + r * w, simdW);
      FrameStep(before, mid, nv12[..], bgra, w, h, r, 0, simdW);
    }
  }

  /** The AVX2 converter: whole blocks of 16 columns, then the scalar one for the rest. */
  method Avx2Rows(bgra: seq<byte>, w: nat, h: nat, nv12: array<byte>)
    requires FrameSized(bgra, w, h) && nv12.Length == Nv12Size(w, h)
    modifies nv12
    ensures forall k :: 0 <= k < nv12.Length ==> nv12[k] == Nv12Byte(bgra, w, h, k)
  {
    hide PairDone, FrameDone, Nv12Byte, Nv12Size;
    var simdW := w - w % 16;
    ghost var before := nv12[..];
    Avx2Blocks(bgra, w, h, nv12, simdW);
    ghost var blocks := nv12[..];
    if simdW < w {
      ScalarRows(bgra, w, h, nv12, simdW);
    } else {
      NothingLeft(blocks, bgra, w, h, simdW);
    }
    BlocksAndTail(before, blocks, nv12[..], bgra, w, h, simdW);
  }

  lemma NothingLeft(s: seq<byte>, bgra: seq<byte>, w: nat, h: nat, mid: nat)
    requires FrameSized(bgra, w, h) && |s| == Nv12Size(w, h) && mid == w
    ensures FrameDone(s, s, bgra, w, h, h / 2, mid, w)
  {
    hide Nv12Byte;
  }

  /** Each byte belongs to the blocks or to the tail, so each is converted, once. */
  lemma BlocksAndTail(s0: seq<byte>, s1: seq<byte>, s2: seq<byte>, bgra: seq<byte>, w: nat, h: nat, mid: nat)
    requires FrameSized(bgra, w, h) && mid <= w
    requires FrameDone(s0, s1, bgra, w, h, h / 2, 0, mid) && FrameDone(s1, s2, bgra, w, h, h / 2, mid, w)
    ensures forall k :: 0 <= k < |s2| ==> s2[k] == Nv12Byte(bgra, w, h, k)
    ensures forall k :: 0 <= k < |s2| ==>
              (Reached(w, h, h / 2, 0, mid, k) <==> !Reached(w, h, h / 2, mid, w, k))
  {
    hide Nv12Byte;
    forall k: nat | k < |s2|
      ensures Reached(w, h, h / 2, 0, mid, k) <==> !Reached(w, h, h / 2, mid, w, k)
    {
      AllReached(w, h, k);
    }
  }

  lemma AllReached(w: nat, h: nat, k: nat)
    requires w > 0 && h % 2 == 0 && k < Nv12Size(w, h)
    ensures if k < w * h then k / w < 2 * (h / 2) && 0 <= k % w < w
            else (k - w * h) / w < h / 2 && 0 <= (k - w * h) % w < w
  {
    if k < w * h {
      DivLt(k, w, h);
    } else {
      ChromaRow(w, h, k - w * h);
    }
  }

  /** Whichever converter the CPU allows, the bytes are those of the formulas. */
  method BgraToNv12(bgra: seq<byte>, w: nat, h: nat, nv12: array<byte>, avx2: bool)
    requires FrameSized(bgra, w, h) && nv12.Length == Nv12Size(w, h)
    modifies nv12
    ensures forall k :: 0 <= k < nv12.Length ==> nv12[k] == Nv12Byte(bgra, w, h, k)
  {
    hide Nv12Byte;
    if avx2 {
      Avx2Rows(bgra, w, h, nv12);
    } else {
      ghost var before := nv12[..];
      ScalarRows(bgra, w, h, nv12, 0);
      forall k: nat | k < nv12.Length
        ensures Reached(w, h, h / 2, 0, w, k)
      {
        AllReached(w, h, k);
      }
    }
  }
}
