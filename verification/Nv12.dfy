/**
 * BGRA to NV12: the scalar converter, the AVX2 converter, and the proof that
 * they write the same bytes.
 */
module Nv12 {
  import opened Arith
  import opened Basics
  import opened Simd

  // ---- The 16.16 fixed-point formulas ----

  function LumaSum(b: byte, g: byte, r: byte): int { 11966 * r + 40254 * g + 4064 * b + 32768 }
  function Luma(b: byte, g: byte, r: byte): (y: byte)
    ensures 16 <= y <= 235
  {
    16 + LumaSum(b, g, r) / W16
  }

  /** The sum of one channel over a 2x2 block. */
  type Sum4 = s: int | 0 <= s <= 1020

  function CbSum(bs: Sum4, gs: Sum4, rs: Sum4): int { -6596 * rs - 22188 * gs + 28784 * bs + 131072 }
  function CrSum(bs: Sum4, gs: Sum4, rs: Sum4): int { 28784 * rs - 26145 * gs - 2639 * bs + 131072 }

  function Cb(bs: Sum4, gs: Sum4, rs: Sum4): (c: byte)
    ensures 16 <= c <= 240
  {
    128 + CbSum(bs, gs, rs) / 0x4_0000
  }

  function Cr(bs: Sum4, gs: Sum4, rs: Sum4): (c: byte)
    ensures 16 <= c <= 240
  {
    128 + CrSum(bs, gs, rs) / 0x4_0000
  }

  /** The fixed-point luma is the BT.709 limited-range one, to the nearest code but for a hundredth. */
  lemma LumaIsBt709(b: byte, g: byte, r: byte)
    ensures var exact := 16.0 + 219.0 / 255.0 * (0.2126 * r as real + 0.7152 * g as real + 0.0722 * b as real);
            -0.51 <= Luma(b, g, r) as real - exact <= 0.51
  {
    var q := LumaSum(b, g, r) / W16;
    assert q * W16 <= LumaSum(b, g, r) < q * W16 + W16;
    assert q as real * 65536.0 <= LumaSum(b, g, r) as real < q as real * 65536.0 + 65536.0;
  }

  /** A block's averaged Cb and Cr likewise. */
  lemma ChromaIsBt709(bs: Sum4, gs: Sum4, rs: Sum4)
    ensures var (b, g, r) := (bs as real / 4.0, gs as real / 4.0, rs as real / 4.0);
            var y := 0.2126 * r + 0.7152 * g + 0.0722 * b;
            -0.51 <= Cb(bs, gs, rs) as real - (128.0 + 224.0 / 255.0 * (b - y) / 1.8556) <= 0.51 &&
            -0.51 <= Cr(bs, gs, rs) as real - (128.0 + 224.0 / 255.0 * (r - y) / 1.5748) <= 0.51
  {
    var p, q := CbSum(bs, gs, rs) / 0x4_0000, CrSum(bs, gs, rs) / 0x4_0000;
    assert p as real * 262144.0 <= CbSum(bs, gs, rs) as real < p as real * 262144.0 + 262144.0;
    assert q as real * 262144.0 <= CrSum(bs, gs, rs) as real < q as real * 262144.0 + 262144.0;
  }

  // ---- The AVX2 kernel ----

  /** The i16 pair [lo, hi] in every lane. */
  function Pair(lo: int, hi: int): Vec { Set1(Words(lo, hi)) }

  /** Blue and red of eight pixels, one 16-bit half each; `LoadGa` has green and alpha. */
  function LoadBr(px: seq<byte>): Vec
    requires |px| == 32
  {
    And(Load(px), Set1(0x00ff_00ff))
  }

  function LoadGa(px: seq<byte>): Vec
    requires |px| == 32
  {
    Srl16By8(Load(px))
  }

  function VecLuma(br: Vec, ga: Vec): Vec {
    var g := Madd(ga, Pair(20127, 0));
    var s := Add32(Madd(br, Pair(4064, 11966)), Add32(g, g));
    Add32(Srl32By16(Add32(s, Set1(32768))), Set1(16))
  }

  /** Each lane plus its right neighbour in the 64-bit pair. */
  function PairSum(top: Vec, bottom: Vec): Vec {
    var v := Add16(top, bottom);
    Add16(v, Srl64By32(v))
  }

  function VecC(br: Vec, ga: Vec, kBr: Vec, kG: Vec): Vec {
    var s := Add32(Madd(br, kBr), Madd(ga, kG));
    Add32(Sra32By18(Add32(s, Set1(131072))), Set1(128))
  }

  /** [Cb, Cr] in each 64-bit lane. */
  function VecChroma(tBr: Vec, tGa: Vec, bBr: Vec, bGa: Vec): Vec {
    var br, ga := PairSum(tBr, bBr), PairSum(tGa, bGa);
    BlendOdd(VecC(br, ga, Pair(28784, -6596), Pair(-22188, 0)),
             Sll64By32(VecC(br, ga, Pair(-2639, 28784), Pair(-26145, 0))))
  }

  /** Two vectors of eight lanes to 16 bytes. */
  function StoreBytes(a: Vec, b: Vec): (r: seq<byte>)
    ensures |r| == 16
  {
    var v := Packs32(a, b);
    Store128(Interleave(Packus16(v, v)))
  }

  // ---- One lane, without overflow ----

  function PixelLane(b: byte, g: byte, r: byte, a: byte): Lane { b + 256 * g + W16 * r + 256 * W16 * a }

  lemma PixelHalves(b: byte, g: byte, r: byte, a: byte)
    ensures AndLane(PixelLane(b, g, r, a), 0x00ff_00ff) == b + W16 * r
    ensures Srl16By8Lane(PixelLane(b, g, r, a)) == g + W16 * a
  {
    hide AndByte;
    PixelBytes(b, g, r, a);
    AndByteMask(b);
    AndByteMask(g);
    AndByteMask(r);
    AndByteMask(a);
    DivMod(g, b, 256, b + 256 * g);
    DivMod(a, r, 256, r + 256 * a);
  }

  lemma PixelBytes(b: byte, g: byte, r: byte, a: byte)
    ensures var x := PixelLane(b, g, r, a);
            x % 256 == b && x / 256 % 256 == g && x / W16 % 256 == r && x / (256 * W16) == a &&
            Lo(x) == b + 256 * g && Hi(x) == r + 256 * a
  {
    var x := PixelLane(b, g, r, a);
    DivMod(g + 256 * (r + 256 * a), b, 256, x);
    DivMod(r + 256 * a, g, 256, g + 256 * (r + 256 * a));
    DivMod(r + 256 * a, b + 256 * g, W16, x);
    DivMod(a, r, 256, r + 256 * a);
    DivMod(a, b + 256 * g + W16 * r, 256 * W16, x);
  }

  lemma WordHalves(lo: int, hi: int)
    requires 0 <= lo < W16 && 0 <= hi < W16
    ensures Words(lo, hi) == lo + W16 * hi && Lo(Words(lo, hi)) == lo && Hi(Words(lo, hi)) == hi
  {
    DivMod(hi, lo, W16, lo + W16 * hi);
  }

  lemma WrapSmall(x: int)
    requires -W32 <= x < W32
    ensures Wrap32(x) == if x < 0 then x + W32 else x
  {
    if x < 0 { DivMod(-1, x + W32, W32, x); }
  }

  lemma SignedHalf(k: int)
    requires -0x8000 <= k < 0x8000
    ensures S16(k % W16) == k
  {
    if k < 0 { DivMod(-1, k + W16, W16, k); }
  }

  /** Halves up to 1020 times signed constants: the products and their sum fit in 32 signed bits. */
  lemma MaddSmall(lo: int, hi: int, kLo: int, kHi: int)
    requires 0 <= lo <= 1020 && 0 <= hi <= 1020 && -0x8000 <= kLo < 0x8000 && -0x8000 <= kHi < 0x8000
    ensures MaddLane(lo + W16 * hi, Words(kLo, kHi)) == Wrap32(lo * kLo + hi * kHi)
  {
    hide Wrap32;
    WordHalves(lo, hi);
    WordHalves(kLo % W16, kHi % W16);
    SignedHalf(kLo);
    SignedHalf(kHi);
  }

  lemma WrapAdd(x: int, y: int)
    requires -0x8000_0000 <= x < 0x8000_0000 && -0x8000_0000 <= y < 0x8000_0000
    requires -0x8000_0000 <= x + y < 0x8000_0000
    ensures Add32Lane(Wrap32(x), Wrap32(y)) == Wrap32(x + y)
  {
    WrapSmall(x);
    WrapSmall(y);
    WrapSmall(x + y);
    if x < 0 && y < 0 {
      DivMod(1, x + y + W32, W32, x + y + 2 * W32);
    } else if (x < 0 || y < 0) && x + y >= 0 {
      DivMod(1, x + y, W32, x + y + W32);
    } else {
      WrapSmall(x + y);
    }
  }

  function LumaOf(br: Lane, ga: Lane): Lane {
    var g := MaddLane(ga, Words(20127, 0));
    var s := Add32Lane(MaddLane(br, Words(4064, 11966)), Add32Lane(g, g));
    Add32Lane(Srl32By16Lane(Add32Lane(s, 32768)), 16)
  }

  lemma LumaOfPixel(b: byte, g: byte, r: byte, a: byte)
    ensures LumaOf(b + W16 * r, g + W16 * a) == Luma(b, g, r)
  {
    hide MaddLane, Wrap32, Words;
    MaddSmall(g, a, 20127, 0);
    MaddSmall(b, r, 4064, 11966);
    var gg, rb := g * 20127, b * 4064 + r * 11966;
    WrapSmall(gg);
    WrapSmall(rb);
    WrapSmall(gg + gg);
    WrapSmall(rb + (gg + gg));
    WrapSmall(rb + (gg + gg) + 32768);
    WrapSmall((rb + (gg + gg) + 32768) / W16 + 16);
  }

  function ChromaOf(br: Lane, ga: Lane, kBr: Lane, kG: Lane): Lane {
    var s := Add32Lane(MaddLane(br, kBr), MaddLane(ga, kG));
    Add32Lane(Sra32By18Lane(Add32Lane(s, 131072)), 128)
  }

  /** Sums that wrap on the way come out right, as every exact sum fits in 32 signed bits. */
  lemma ChromaOfSums(b: Sum4, g: Sum4, r: Sum4, a: Sum4, kB: int, kR: int, kG: int)
    requires -0x8000 <= kB < 0x8000 && -0x8000 <= kR < 0x8000 && -0x8000 <= kG < 0x8000
    requires -0x100_0000 <= b * kB + r * kR <= 0x200_0000 && -0x200_0000 <= g * kG <= 0x200_0000
    requires -0x200_0000 <= b * kB + r * kR + g * kG + 131072 < 0x200_0000
    ensures ChromaOf(b + W16 * r, g + W16 * a, Words(kB, kR), Words(kG, 0)) ==
            128 + (b * kB + r * kR + g * kG + 131072) / 0x4_0000
  {
    hide MaddLane, Wrap32, Words;
    MaddSmall(b, r, kB, kR);
    MaddSmall(g, a, kG, 0);
    var p, q := b * kB + r * kR, g * kG;
    ChromaArith(p, q);
  }

  lemma ChromaArith(p: int, q: int)
    requires -0x4000_0000 <= p <= 0x4000_0000 && -0x4000_0000 <= q <= 0x4000_0000
    requires -0x200_0000 <= p + q + 131072 < 0x200_0000
    ensures Add32Lane(Sra32By18Lane(Add32Lane(Add32Lane(Wrap32(p), Wrap32(q)), 131072)), 128) ==
            128 + (p + q + 131072) / 0x4_0000
  {
    var total := p + q + 131072;
    var c := total / 0x4_0000;
    assert -128 <= c < 128;
    WrapAdd(p, q);
    WrapSmall(131072);
    WrapAdd(p + q, 131072);
    WrapSmall(total);
    WrapSmall(128);
    WrapAdd(c, 128);
    WrapSmall(c + 128);
  }

  lemma Add16Small(lo: int, hi: int, lo': int, hi': int)
    requires 0 <= lo <= 510 && 0 <= hi <= 510 && 0 <= lo' <= 510 && 0 <= hi' <= 510
    ensures Add16Lane(lo + W16 * hi, lo' + W16 * hi') == lo + lo' + W16 * (hi + hi')
  {
    WordHalves(lo, hi);
    WordHalves(lo', hi');
    WordHalves(lo + lo', hi + hi');
    hide Words, Lo, Hi;
  }

  // ---- All lanes ----

  lemma LoadLanes(px: seq<byte>, i: nat)
    requires |px| == 32 && i < 8
    ensures LoadBr(px)[i] == px[4 * i] + W16 * px[4 * i + 2]
    ensures LoadGa(px)[i] == px[4 * i + 1] + W16 * px[4 * i + 3]
  {
    hide AndLane, Srl16By8Lane;
    PixelHalves(px[4 * i], px[4 * i + 1], px[4 * i + 2], px[4 * i + 3]);
  }

  lemma VecLumaLane(br: Vec, ga: Vec, i: nat)
    requires i < 8
    ensures VecLuma(br, ga)[i] == LumaOf(br[i], ga[i])
  {
    hide MaddLane, Add32Lane, Srl32By16Lane, Words;
  }

  lemma LumaLane(px: seq<byte>, i: nat)
    requires |px| == 32 && i < 8
    ensures VecLuma(LoadBr(px), LoadGa(px))[i] == Luma(px[4 * i], px[4 * i + 1], px[4 * i + 2])
  {
    hide VecLuma, LoadBr, LoadGa, LumaOf, Luma;
    LoadLanes(px, i);
    VecLumaLane(LoadBr(px), LoadGa(px), i);
    LumaOfPixel(px[4 * i], px[4 * i + 1], px[4 * i + 2], px[4 * i + 3]);
  }

  lemma VecCLane(br: Vec, ga: Vec, kBr: Lane, kG: Lane, i: nat)
    requires i < 8
    ensures VecC(br, ga, Set1(kBr), Set1(kG))[i] == ChromaOf(br[i], ga[i], kBr, kG)
  {
    hide MaddLane, Add32Lane, Sra32By18Lane;
  }

  /** A channel's sum over the 2x2 block of pixels 2k and 2k+1 of a row pair. */
  function BlockSum(t: seq<byte>, b: seq<byte>, k: nat, ch: nat): Sum4
    requires ch < 4 && 8 * k + 8 <= |t| && 8 * k + 8 <= |b|
  {
    t[8 * k + ch] as int + t[8 * k + 4 + ch] as int + b[8 * k + ch] as int + b[8 * k + 4 + ch] as int
  }

  lemma PairSumLane(t: Vec, b: Vec, k: nat)
    requires k < 4
    ensures PairSum(t, b)[2 * k] ==
            Add16Lane(Add16Lane(t[2 * k], b[2 * k]), Add16Lane(t[2 * k + 1], b[2 * k + 1]))
  {
    hide Add16Lane;
    var v := Add16(t, b);
    assert Srl64By32(v)[2 * k] == v[2 * k + 1];
  }

  /** A pair of channels summed over a 2x2 block, in 16-bit halves. */
  lemma BlockSumLane(t: Vec, b: Vec, k: nat, lo: seq<byte>, hi: seq<byte>)
    requires k < 4 && |lo| == 4 && |hi| == 4
    requires t[2 * k] == lo[0] + W16 * hi[0] && t[2 * k + 1] == lo[1] + W16 * hi[1]
    requires b[2 * k] == lo[2] + W16 * hi[2] && b[2 * k + 1] == lo[3] + W16 * hi[3]
    ensures PairSum(t, b)[2 * k] ==
            lo[0] as int + lo[1] as int + lo[2] as int + lo[3] as int +
            W16 * (hi[0] as int + hi[1] as int + hi[2] as int + hi[3] as int)
  {
    hide Add16Lane, PairSum;
    PairSumLane(t, b, k);
    Add16Small(lo[0], hi[0], lo[2], hi[2]);
    Add16Small(lo[1], hi[1], lo[3], hi[3]);
    Add16Small(lo[0] as int + lo[2] as int, hi[0] as int + hi[2] as int, lo[1] as int + lo[3] as int, hi[1] as int + hi[3] as int);
  }

  lemma SumLanes(t: seq<byte>, b: seq<byte>, k: nat)
    requires |t| == 32 && |b| == 32 && k < 4
    ensures PairSum(LoadBr(t), LoadBr(b))[2 * k] == BlockSum(t, b, k, 0) + W16 * BlockSum(t, b, k, 2)
    ensures PairSum(LoadGa(t), LoadGa(b))[2 * k] == BlockSum(t, b, k, 1) + W16 * BlockSum(t, b, k, 3)
  {
    hide PairSum, LoadBr, LoadGa;
    LoadLanes(t, 2 * k);
    LoadLanes(t, 2 * k + 1);
    LoadLanes(b, 2 * k);
    LoadLanes(b, 2 * k + 1);
    var at := 8 * k;
    BlockSumLane(LoadBr(t), LoadBr(b), k, [t[at], t[at + 4], b[at], b[at + 4]], [t[at + 2], t[at + 6], b[at + 2], b[at + 6]]);
    BlockSumLane(LoadGa(t), LoadGa(b), k, [t[at + 1], t[at + 5], b[at + 1], b[at + 5]], [t[at + 3], t[at + 7], b[at + 3], b[at + 7]]);
  }

  lemma ChromaLanes(t: seq<byte>, b: seq<byte>, k: nat)
    requires |t| == 32 && |b| == 32 && k < 4
    ensures var v := VecChroma(LoadBr(t), LoadGa(t), LoadBr(b), LoadGa(b));
            v[2 * k] == Cb(BlockSum(t, b, k, 0), BlockSum(t, b, k, 1), BlockSum(t, b, k, 2)) &&
            v[2 * k + 1] == Cr(BlockSum(t, b, k, 0), BlockSum(t, b, k, 1), BlockSum(t, b, k, 2))
  {
    hide PairSum, LoadBr, LoadGa, VecC, ChromaOf, Words, BlockSum;
    SumLanes(t, b, k);
    var br, ga := PairSum(LoadBr(t), LoadBr(b)), PairSum(LoadGa(t), LoadGa(b));
    var bs, gs, rs, alphas := BlockSum(t, b, k, 0), BlockSum(t, b, k, 1), BlockSum(t, b, k, 2), BlockSum(t, b, k, 3);
    VecCLane(br, ga, Words(28784, -6596), Words(-22188, 0), 2 * k);
    VecCLane(br, ga, Words(-2639, 28784), Words(-26145, 0), 2 * k);
    ChromaOfSums(bs, gs, rs, alphas, 28784, -6596, -22188);
    ChromaOfSums(bs, gs, rs, alphas, -2639, 28784, -26145);
    BlendLanes(VecC(br, ga, Pair(28784, -6596), Pair(-22188, 0)), VecC(br, ga, Pair(-2639, 28784), Pair(-26145, 0)), k);
  }

  lemma BlendLanes(cb: Vec, cr: Vec, k: nat)
    requires k < 4
    ensures BlendOdd(cb, Sll64By32(cr))[2 * k] == cb[2 * k] && BlendOdd(cb, Sll64By32(cr))[2 * k + 1] == cr[2 * k]
  {
  }

  /** Lanes within a byte survive the saturating packs, in order. */
  lemma StoreInOrder(a: Vec, b: Vec)
    requires forall i :: 0 <= i < 8 ==> a[i] < 256 && b[i] < 256
    ensures StoreBytes(a, b) == a + b
  {
    hide Bytes4, Words, SatS16, LaneBytes;
    PackWords(a[0], a[1]);
    PackWords(a[2], a[3]);
    PackWords(a[4], a[5]);
    PackWords(a[6], a[7]);
    PackWords(b[0], b[1]);
    PackWords(b[2], b[3]);
    PackWords(b[4], b[5]);
    PackWords(b[6], b[7]);
    PackBytes(a[0], a[1], a[2], a[3]);
    PackBytes(a[4], a[5], a[6], a[7]);
    PackBytes(b[0], b[1], b[2], b[3]);
    PackBytes(b[4], b[5], b[6], b[7]);
    assert StoreBytes(a, b) ==
           [a[0], a[1], a[2], a[3]] + [a[4], a[5], a[6], a[7]] + [b[0], b[1], b[2], b[3]] + [b[4], b[5], b[6], b[7]];
  }

  lemma PackWords(x: Lane, y: Lane)
    requires x < 256 && y < 256
    ensures Words(SatS16(x), SatS16(y)) == x + W16 * y
  {
    WordHalves(x, y);
  }

  lemma PackBytes(x: Lane, y: Lane, z: Lane, w: Lane)
    requires x < 256 && y < 256 && z < 256 && w < 256
    ensures LaneBytes(Bytes4(x + W16 * y, z + W16 * w)) == [x, y, z, w]
  {
    WordHalves(x, y);
    WordHalves(z, w);
    PixelBytes(x, y, z, w);
  }
}
