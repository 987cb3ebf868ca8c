/**
 * The AVX2 instructions the converter uses, each as a function on eight 32-bit
 * lanes, with the hardware's wrap-around and saturation.
 */
module Simd {
  import opened Basics

  const W16 := 0x1_0000
  const W32 := 0x1_0000_0000

  type Lane = x: int | 0 <= x < W32
  type Vec = v: seq<Lane> | |v| == 8 witness [0, 0, 0, 0, 0, 0, 0, 0]

  function Lo(x: Lane): int { x % W16 }
  function Hi(x: Lane): int { x / W16 }

  /** A lane from its two 16-bit halves, each taken modulo 2^16. */
  function Words(lo: int, hi: int): Lane { lo % W16 + W16 * (hi % W16) }

  /** Two's complement views. */
  function S16(x: int): int
    requires 0 <= x < W16
  {
    if x < 0x8000 then x else x - W16
  }

  function S32(x: Lane): int { if x < 0x8000_0000 then x else x - W32 }

  function Wrap32(x: int): Lane { x % W32 }

  function AndByte(a: byte, b: byte): byte { ((a as bv8) & (b as bv8)) as int }

  function AndLane(a: Lane, b: Lane): Lane {
    AndByte(a % 256, b % 256) + 256 * AndByte(a / 256 % 256, b / 256 % 256) +
    W16 * AndByte(a / W16 % 256, b / W16 % 256) + 256 * W16 * AndByte(a / (256 * W16), b / (256 * W16))
  }

  function Map2(a: Vec, b: Vec, f: (Lane, Lane) -> Lane): (r: Vec)
    ensures forall i :: 0 <= i < 8 ==> r[i] == f(a[i], b[i])
  {
    seq(8, i requires 0 <= i < 8 => f(a[i], b[i]))
  }

  function Map1(a: Vec, f: Lane -> Lane): (r: Vec)
    ensures forall i :: 0 <= i < 8 ==> r[i] == f(a[i])
  {
    seq(8, i requires 0 <= i < 8 => f(a[i]))
  }

  /** _mm256_set1_epi32 */
  function Set1(x: Lane): Vec { seq(8, _ => x) }

  /** _mm256_loadu_si256: little-endian lanes. */
  function Load(px: seq<byte>): (r: Vec)
    requires |px| == 32
    ensures forall i :: 0 <= i < 8 ==>
              r[i] == px[4 * i] + 256 * px[4 * i + 1] + W16 * px[4 * i + 2] + 256 * W16 * px[4 * i + 3]
  {
    seq(8, i requires 0 <= i < 8 => px[4 * i] + 256 * px[4 * i + 1] + W16 * px[4 * i + 2] + 256 * W16 * px[4 * i + 3])
  }

  /** _mm256_and_si256 */
  function And(a: Vec, b: Vec): Vec { Map2(a, b, AndLane) }

  /** _mm256_srli_epi16::<8> */
  function Srl16By8Lane(x: Lane): Lane { Words(Lo(x) / 256, Hi(x) / 256) }
  function Srl16By8(a: Vec): Vec { Map1(a, Srl16By8Lane) }

  /** _mm256_add_epi16, _mm256_add_epi32 */
  function Add16Lane(x: Lane, y: Lane): Lane { Words(Lo(x) + Lo(y), Hi(x) + Hi(y)) }
  function Add16(a: Vec, b: Vec): Vec { Map2(a, b, Add16Lane) }
  function Add32Lane(x: Lane, y: Lane): Lane { Wrap32(x + y) }
  function Add32(a: Vec, b: Vec): Vec { Map2(a, b, Add32Lane) }

  /** _mm256_madd_epi16: signed products of the halves, summed. */
  function MaddLane(x: Lane, y: Lane): Lane {
    Wrap32(S16(Lo(x)) * S16(Lo(y)) + S16(Hi(x)) * S16(Hi(y)))
  }
  function Madd(a: Vec, b: Vec): Vec { Map2(a, b, MaddLane) }

  /** _mm256_srli_epi32::<16>, _mm256_srai_epi32::<18> */
  function Srl32By16Lane(x: Lane): Lane { x / W16 }
  function Srl32By16(a: Vec): Vec { Map1(a, Srl32By16Lane) }
  function Sra32By18Lane(x: Lane): Lane { Wrap32(S32(x) / 0x4_0000) }
  function Sra32By18(a: Vec): Vec { Map1(a, Sra32By18Lane) }

  /** _mm256_srli_epi64::<32>, _mm256_slli_epi64::<32> */
  function Srl64By32(a: Vec): Vec { [a[1], 0, a[3], 0, a[5], 0, a[7], 0] }
  function Sll64By32(a: Vec): Vec { [0, a[0], 0, a[2], 0, a[4], 0, a[6]] }

  /** _mm256_blend_epi32::<0b1010_1010>: odd lanes from `b`. */
  function BlendOdd(a: Vec, b: Vec): Vec { [a[0], b[1], a[2], b[3], a[4], b[5], a[6], b[7]] }

  function SatS16(x: Lane): int { Clamp(S32(x), -0x8000, 0x7FFF) }

  /** _mm256_packs_epi32: signed saturation to 16 bits, within each 128-bit half. */
  function Packs32(a: Vec, b: Vec): Vec {
    [Words(SatS16(a[0]), SatS16(a[1])), Words(SatS16(a[2]), SatS16(a[3])),
     Words(SatS16(b[0]), SatS16(b[1])), Words(SatS16(b[2]), SatS16(b[3])),
     Words(SatS16(a[4]), SatS16(a[5])), Words(SatS16(a[6]), SatS16(a[7])),
     Words(SatS16(b[4]), SatS16(b[5])), Words(SatS16(b[6]), SatS16(b[7]))]
  }

  function SatU8(w: int): byte
    requires 0 <= w < W16
  {
    Clamp(S16(w), 0, 255)
  }

  function Bytes4(x: Lane, y: Lane): Lane {
    SatU8(Lo(x)) + 256 * SatU8(Hi(x)) + W16 * SatU8(Lo(y)) + 256 * W16 * SatU8(Hi(y))
  }

  /** _mm256_packus_epi16: unsigned saturation to 8 bits, within each 128-bit half. */
  function Packus16(a: Vec, b: Vec): Vec {
    [Bytes4(a[0], a[1]), Bytes4(a[2], a[3]), Bytes4(b[0], b[1]), Bytes4(b[2], b[3]),
     Bytes4(a[4], a[5]), Bytes4(a[6], a[7]), Bytes4(b[4], b[5]), Bytes4(b[6], b[7])]
  }

  /** _mm256_permutevar8x32_epi32 with the order 0, 4, 1, 5, 2, 6, 3, 7. */
  function Interleave(a: Vec): Vec { [a[0], a[4], a[1], a[5], a[2], a[6], a[3], a[7]] }

  /** _mm256_castsi256_si128 and _mm_storeu_si128: the low 16 bytes. */
  function Store128(a: Vec): (r: seq<byte>)
    ensures |r| == 16
    ensures forall i :: 0 <= i < 4 ==>
              r[4 * i] == a[i] % 256 && r[4 * i + 1] == a[i] / 256 % 256 &&
              r[4 * i + 2] == a[i] / W16 % 256 && r[4 * i + 3] == a[i] / (256 * W16)
  {
    LaneBytes(a[0]) + LaneBytes(a[1]) + LaneBytes(a[2]) + LaneBytes(a[3])
  }

  function LaneBytes(x: Lane): (r: seq<byte>)
    ensures |r| == 4
  {
    [x % 256, x / 256 % 256, x / W16 % 256, x / (256 * W16)]
  }

  lemma AndByteMask(a: byte)
    ensures AndByte(a, 255) == a && AndByte(a, 0) == 0
  {
  }
}
