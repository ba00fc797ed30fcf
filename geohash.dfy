/**
 * The integer core of the geohash score (geohash.go): Morton (Z-order)
 * interleaving of a 26-bit latitude grid number and a 26-bit longitude
 * grid number into one 52-bit score, and its inverse.
 *
 * Go's int is 64 bits wide; its bits are modelled as a bv64, so masks and
 * shifts are exact. The float normalisation that produces the grid numbers
 * and the grid-midpoint arithmetic of decoding are not part of this model.
 */
module Geohash {
  const Mask32: bv64 := 0x0000_0000_FFFF_FFFF
  /** The even bit positions 0, 2, ..., 62: where a spread number's bits go. */
  const EvenBits: bv64 := 0x5555_5555_5555_5555
  const OddBits: bv64 := 0xAAAA_AAAA_AAAA_AAAA
  const SignBit: bv64 := 0x8000_0000_0000_0000
  const HighBits: bv64 := 0xFFFF_FFFF_0000_0000
  const LowBits63: bv64 := 0x7FFF_FFFF_FFFF_FFFF

  /** Bit i of x. */
  predicate Bit(x: bv64, i: bv64)
    requires i < 64
  {
    (x >> i) & 1 == 1
  }

  /**
   * spreadInt32ToInt64: keeps the low 32 bits of x and moves bit i to bit
   * 2i; every odd bit of the result is clear.
   */
  function Spread(x: bv64): (r: bv64)
    ensures r & OddBits == 0
  {
    var x0 := x & Mask32;
    var x1 := (x0 | (x0 << 16)) & 0x0000_FFFF_0000_FFFF;
    var x2 := (x1 | (x1 << 8)) & 0x00FF_00FF_00FF_00FF;
    var x3 := (x2 | (x2 << 4)) & 0x0F0F_0F0F_0F0F_0F0F;
    var x4 := (x3 | (x3 << 2)) & 0x3333_3333_3333_3333;
    (x4 | (x4 << 1)) & EvenBits
  }

  /**
   * compactInt64ToInt32: gathers the even bits of x (bit 2i to bit i); the
   * result fits in 32 bits.
   */
  function Compact(x: bv64): (r: bv64)
    ensures r & HighBits == 0
  {
    var x0 := x & EvenBits;
    var x1 := (x0 | (x0 >> 1)) & 0x3333_3333_3333_3333;
    var x2 := (x1 | (x1 >> 2)) & 0x0F0F_0F0F_0F0F_0F0F;
    var x3 := (x2 | (x2 >> 4)) & 0x00FF_00FF_00FF_00FF;
    var x4 := (x3 | (x3 >> 8)) & 0x0000_FFFF_0000_FFFF;
    (x4 | (x4 >> 16)) & Mask32
  }

  /** interleave: latitude bits in the even positions, longitude bits in the odd ones. */
  function Interleave(lat: bv64, long: bv64): bv64 {
    Spread(lat) | (Spread(long) << 1)
  }

  /** Go's `score >> 1` on a signed int: an arithmetic shift, the sign bit copied in. */
  function ShiftRightSigned(s: bv64): bv64 {
    (s >> 1) | (s & SignBit)
  }

  /** Whether the shift copies the sign bit in or not is invisible to the even bits. */
  lemma SarEven(s: bv64)
    ensures ShiftRightSigned(s) & EvenBits == (s >> 1) & EvenBits
  {
  }

  /** The even bits of a score are the spread latitude, the odd bits the spread longitude. */
  lemma InterleaveHalves(lat: bv64, long: bv64)
    ensures Interleave(lat, long) & EvenBits == Spread(lat)
    ensures (Interleave(lat, long) >> 1) & EvenBits == Spread(long)
  {
  }

  /** The integer part of DecodeGeoScore: the latitude and longitude grid numbers. */
  function DecodeGrid(score: bv64): (bv64, bv64) {
    (Compact(score), Compact(ShiftRightSigned(score)))
  }

  /** Spread sends bit i of x to bit 2i and leaves bit 2i + 1 clear. */
  lemma SpreadBit(x: bv64, i: bv64)
    requires i < 32
    ensures Bit(Spread(x), 2 * i) == Bit(x, i)
    ensures !Bit(Spread(x), 2 * i + 1)
  {
  }

  /** Compact undoes Spread on the low 32 bits. */
  lemma CompactSpread(x: bv64)
    ensures Compact(Spread(x)) == x & Mask32
  {
  }

  /** Compact reads only the even bits. */
  lemma CompactEvenOnly(x: bv64)
    ensures Compact(x) == Compact(x & EvenBits)
  {
  }

  /** The two spread halves share no bit, so OR-ing them is adding them. */
  lemma InterleaveIsSum(lat: bv64, long: bv64)
    ensures Spread(lat) & (Spread(long) << 1) == 0
    ensures Interleave(lat, long) == Spread(lat) + (Spread(long) << 1)
  {
  }

  /** Decoding a score gives back both grid numbers (their low 32 bits). */
  lemma DecodeInterleave(lat: bv64, long: bv64)
    ensures DecodeGrid(Interleave(lat, long)) == (lat & Mask32, long & Mask32)
  {
    var s := Interleave(lat, long);
    InterleaveHalves(lat, long);
    CompactEvenOnly(s);
    CompactSpread(lat);
    SarEven(s);
    CompactEvenOnly(ShiftRightSigned(s));
    CompactSpread(long);
  }

  /** Two 26-bit grid numbers make a score below 2^52. */
  lemma ScoreBound(lat: bv64, long: bv64)
    requires lat < 1 << 26 && long < 1 << 26
    ensures Interleave(lat, long) < 1 << 52
  {
  }
}
