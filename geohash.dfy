/**
 * The FireGeo geohash codec: interval bisection over latitude and longitude,
 * five bits per base-32 character, most significant bit first, even-numbered
 * bits refining longitude and odd-numbered bits refining latitude.
 *
 * Coordinates are `real`, so every midpoint is exact.
 */
module Geohash {

  /** Character k of the alphabet encodes the 5-bit value k. */
  const Base32: string := "0123456789bcdefghjkmnpqrstuvwxyz"

  function Pow2(n: nat): (r: nat)
    ensures r >= 1
  {
    if n == 0 then 1 else 2 * Pow2(n - 1)
  }

  /** A closed range of one coordinate. */
  datatype Interval = Interval(lo: real, hi: real) {
    function Mid(): real { (lo + hi) / 2.0 }
    function HalfWidth(): real { (hi - lo) / 2.0 }
    predicate Contains(x: real) { lo <= x <= hi }
  }

  const LatRange: Interval := Interval(-90.0, 90.0)
  const LngRange: Interval := Interval(-180.0, 180.0)

  predicate InRange(lat: real, lng: real) {
    LatRange.Contains(lat) && LngRange.Contains(lng)
  }

  /** One bisection: the upper half when `up`, the lower half otherwise. */
  function Step(i: Interval, up: bool): Interval {
    if up then Interval(i.Mid(), i.hi) else Interval(i.lo, i.Mid())
  }

  /** The range of one coordinate after `n` bisections of `r` steered by `x`;
      a bisection keeps the upper half exactly when `x >= mid`. */
  function Narrow(x: real, r: Interval, n: nat): Interval {
    if n == 0 then r else var i := Narrow(x, r, n - 1); Step(i, x >= i.Mid())
  }

  /** The decision taken at bisection `k` of the coordinate `x`. */
  predicate Up(x: real, r: Interval, k: nat) {
    x >= Narrow(x, r, k).Mid()
  }

  /** Bit `t` of the interleaved stream is even-numbered (the source's `isEven`). */
  predicate EvenBit(t: nat) {
    if t == 0 then true else !EvenBit(t - 1)
  }

  /** How many of the first `t` bits bisect longitude. */
  function LngSteps(t: nat): nat {
    if t == 0 then 0 else LngSteps(t - 1) + (if EvenBit(t - 1) then 1 else 0)
  }

  /** How many of the first `t` bits bisect latitude. */
  function LatSteps(t: nat): nat {
    if t == 0 then 0 else LatSteps(t - 1) + (if EvenBit(t - 1) then 0 else 1)
  }

  /** Bit `t` of the interleaved stream: even bits bisect longitude, odd bits latitude. */
  predicate Bit(lat: real, lng: real, t: nat) {
    if EvenBit(t) then Up(lng, LngRange, LngSteps(t)) else Up(lat, LatRange, LatSteps(t))
  }

  /** The first `j` bits of character `k` packed most significant first. */
  function PackBits(lat: real, lng: real, k: nat, j: nat): (v: nat)
    requires j <= 5
    ensures v + Pow2(5 - j) <= 32
  {
    if j == 0 then 0
    else
      assert Pow2(5 - (j - 1)) == 2 * Pow2(5 - j);
      PackBits(lat, lng, k, j - 1) + (if Bit(lat, lng, 5 * k + j - 1) then Pow2(5 - j) else 0)
  }

  /** The 5-bit value of character `k` of the hash of (lat, lng). */
  function CharValue(lat: real, lng: real, k: nat): (v: nat)
    ensures v < 32
  {
    PackBits(lat, lng, k, 5)
  }

  /** The geohash of (lat, lng) with `p` characters. */
  function Encode(lat: real, lng: real, p: nat): string {
    if p == 0 then "" else Encode(lat, lng, p - 1) + [Base32[CharValue(lat, lng, p - 1)]]
  }

  /** The encoder's loop variables: characters done, bits of the current one, the
      parity, both ranges and the bits packed so far. */
  datatype Cursor = Cursor(k: nat, bit: nat, isEven: bool, lngI: Interval, latI: Interval, ch: nat)

  /** The loop variables as they stand after `5 * k + bit` bits of the stream. */
  predicate EncoderState(lat: real, lng: real, c: Cursor) {
    c.bit < 5 &&
    var t := 5 * c.k + c.bit;
    c.isEven == EvenBit(t) &&
    c.lngI == Narrow(lng, LngRange, LngSteps(t)) && c.latI == Narrow(lat, LatRange, LatSteps(t)) &&
    c.ch == PackBits(lat, lng, c.k, c.bit)
  }

  /** The decision of the current bit: the upper half of the coordinate it bisects. */
  predicate Upper(lat: real, lng: real, c: Cursor) {
    if c.isEven then lng >= c.lngI.Mid() else lat >= c.latI.Mid()
  }

  /** `ch` with the current bit recorded. */
  function Packed(lat: real, lng: real, c: Cursor): nat
    requires c.bit < 5
  {
    if Upper(lat, lng, c) then c.ch + Pow2(4 - c.bit) else c.ch
  }

  /** One pass of the source's loop body. */
  function Advance(lat: real, lng: real, c: Cursor): Cursor
    requires c.bit < 5
  {
    var up := Upper(lat, lng, c);
    var lngI := if c.isEven then Step(c.lngI, up) else c.lngI;
    var latI := if c.isEven then c.latI else Step(c.latI, up);
    if c.bit < 4 then Cursor(c.k, c.bit + 1, !c.isEven, lngI, latI, Packed(lat, lng, c))
    else Cursor(c.k + 1, 0, !c.isEven, lngI, latI, 0)
  }

  /** One pass of the loop body keeps the variables in step with the bit stream, and the
      fifth bit completes the next character of the hash. */
  lemma EncodeStep(lat: real, lng: real, c: Cursor)
    requires EncoderState(lat, lng, c)
    ensures EncoderState(lat, lng, Advance(lat, lng, c))
    ensures c.bit == 4 ==>
              Packed(lat, lng, c) < 32 &&
              Encode(lat, lng, c.k + 1) == Encode(lat, lng, c.k) + [Base32[Packed(lat, lng, c)]]
  {
    var t := 5 * c.k + c.bit;
    EncodeBit(lat, lng, c, t);
    if c.bit == 4 {
      assert 5 * (c.k + 1) + 0 == t + 1;
    }
  }

  /** The bit decided by the loop body is bit `t` of the stream. */
  lemma EncodeBit(lat: real, lng: real, c: Cursor, t: nat)
    requires EncoderState(lat, lng, c) && t == 5 * c.k + c.bit
    ensures EvenBit(t + 1) == !c.isEven
    ensures (if c.isEven then Step(c.lngI, Upper(lat, lng, c)) else c.lngI) == Narrow(lng, LngRange, LngSteps(t + 1))
    ensures (if c.isEven then c.latI else Step(c.latI, Upper(lat, lng, c))) == Narrow(lat, LatRange, LatSteps(t + 1))
    ensures Packed(lat, lng, c) == PackBits(lat, lng, c.k, c.bit + 1)
  {
    StreamStep(lat, lng, t);
    PackStep(lat, lng, c.k, c.bit, t);
    assert Upper(lat, lng, c) == Bit(lat, lng, t);
  }

  lemma PackStep(lat: real, lng: real, k: nat, bit: nat, t: nat)
    requires t == 5 * k + bit && bit < 5
    ensures EvenBit(t + 1) == !EvenBit(t)
    ensures PackBits(lat, lng, k, bit + 1) == PackBits(lat, lng, k, bit) + (if Bit(lat, lng, t) then Pow2(4 - bit) else 0)
  {
  }

  /** A precision below 1 produces the empty hash, as the source's loop guard does. */
  function Clamp0(precision: int): nat {
    if precision < 0 then 0 else precision
  }

  /** `encodeGeohash(lat, lng, precision)`, the source's loop. */
  method EncodeGeohash(lat: real, lng: real, precision: int) returns (geohash: string)
    ensures geohash == Encode(lat, lng, Clamp0(precision))
    ensures |geohash| == Clamp0(precision)
  {
    var isEven := true;
    var latMin, latMax, lngMin, lngMax := -90.0, 90.0, -180.0, 180.0;
    var bit: nat, ch: nat := 0, 0;
    geohash := "";
    while |geohash| < precision
      invariant |geohash| <= Clamp0(precision)
      invariant EncoderState(lat, lng, Cursor(|geohash|, bit, isEven, Interval(lngMin, lngMax), Interval(latMin, latMax), ch))
      invariant geohash == Encode(lat, lng, |geohash|)
      decreases 5 * (precision - |geohash|) - bit
    {
      ghost var before := Cursor(|geohash|, bit, isEven, Interval(lngMin, lngMax), Interval(latMin, latMax), ch);
      EncodeStep(lat, lng, before);
      var up: bool;
      if isEven {
        up, lngMin, lngMax := Bisect(lng, lngMin, lngMax);
      } else {
        up, latMin, latMax := Bisect(lat, latMin, latMax);
      }
      assert up == Upper(lat, lng, before);
      if up {
        // bit 4 - bit of ch is still clear, so `ch |= 1 << (4 - bit)` adds it
        ch := ch + Pow2(4 - bit);
      }
      assert ch == Packed(lat, lng, before);
      isEven := !isEven;
      if bit < 4 {
        bit := bit + 1;
      } else {
        geohash := geohash + [Base32[ch]];
        bit := 0;
        ch := 0;
      }
      assert Cursor(|geohash|, bit, isEven, Interval(lngMin, lngMax), Interval(latMin, latMax), ch) == Advance(lat, lng, before);
    }
  }

  /** One bisection of the source's loop: compare with the midpoint and keep the half
      that holds the value. */
  method Bisect(x: real, lo: real, hi: real) returns (up: bool, lo': real, hi': real)
    ensures up == (x >= Interval(lo, hi).Mid())
    ensures Interval(lo', hi') == Step(Interval(lo, hi), up)
  {
    var mid := (lo + hi) / 2.0;
    if x >= mid {
      up, lo', hi' := true, mid, hi;
    } else {
      up, lo', hi' := false, lo, mid;
    }
  }

  // ---------------------------------------------------------------------------
  // Decoding

  /** `BASE32_CHARS.indexOf(c)`: the first position of `c`, or -1. */
  function IndexOf(s: string, c: char): int {
    if |s| == 0 then -1
    else if s[0] == c then 0
    else var r := IndexOf(s[1..], c); if r == -1 then -1 else r + 1
  }

  lemma {:induction false} IndexOfSpec(s: string, c: char)
    ensures -1 <= IndexOf(s, c) < |s|
    ensures IndexOf(s, c) == -1 <==> c !in s
    ensures IndexOf(s, c) >= 0 ==> s[IndexOf(s, c)] == c && c !in s[..IndexOf(s, c)]
  {
    if |s| > 0 && s[0] != c {
      IndexOfSpec(s[1..], c);
      var r := IndexOf(s[1..], c);
      if r >= 0 {
        assert s[..r + 1] == [s[0]] + s[1..][..r];
      }
    }
  }

  /** `(cd & (1 << j)) != 0` on a two's-complement integer: bit `j` is the low bit
      of `cd` shifted right `j` times. Euclidean division by 2 rounds down, like an
      arithmetic shift, so -1 has every bit set, as in JavaScript. */
  predicate TestBit(cd: int, j: nat)
    decreases j
  {
    if j == 0 then cd % 2 == 1 else TestBit(cd / 2, j - 1)
  }

  /** The decoder's loop variables: which coordinate the next bit bisects, and both ranges. */
  datatype DecState = DecState(isEven: bool, lng: Interval, lat: Interval)

  const DecInit: DecState := DecState(true, LngRange, LatRange)

  /** Applying one bit: set means the upper half of the coordinate it refines. */
  function DecStep(s: DecState, b: bool): DecState {
    if s.isEven then DecState(false, Step(s.lng, b), s.lat)
    else DecState(true, s.lng, Step(s.lat, b))
  }

  /** The decoder's state after the first `i` characters of `h`. */
  function DecChars(h: string, i: nat): DecState
    requires i <= |h|
    decreases i, 0
  {
    if i == 0 then DecInit else DecBits(h, i - 1, 5)
  }

  /** The decoder's state after the first `n` of the five bits of character `i`,
      read most significant first. */
  function DecBits(h: string, i: nat, n: nat): DecState
    requires i < |h| && n <= 5
    decreases i, n + 1
  {
    if n == 0 then DecChars(h, i)
    else DecStep(DecBits(h, i, n - 1), TestBit(IndexOf(Base32, h[i]), 5 - n))
  }

  datatype Decoded = Decoded(latitude: real, longitude: real, latitudeError: real, longitudeError: real)

  /** The centre of the cell of `h` and its half-widths. */
  function Decode(h: string): Decoded {
    var s := DecChars(h, |h|);
    Decoded(s.lat.Mid(), s.lng.Mid(), s.lat.HalfWidth(), s.lng.HalfWidth())
  }

  /** `decodeGeohash(geohash)`, the source's nested loop. */
  method DecodeGeohash(geohash: string) returns (d: Decoded)
    ensures d == Decode(geohash)
  {
    var isEven := true;
    var latMin, latMax, lngMin, lngMax := -90.0, 90.0, -180.0, 180.0;
    for i := 0 to |geohash|
      invariant DecState(isEven, Interval(lngMin, lngMax), Interval(latMin, latMax)) == DecChars(geohash, i)
    {
      var cd := IndexOf(Base32, geohash[i]);
      var j := 4;
      while j >= 0
        invariant -1 <= j <= 4
        invariant DecState(isEven, Interval(lngMin, lngMax), Interval(latMin, latMax)) == DecBits(geohash, i, 4 - j)
      {
        if isEven {
          if TestBit(cd, j) {
            lngMin := (lngMin + lngMax) / 2.0;
          } else {
            lngMax := (lngMin + lngMax) / 2.0;
          }
        } else {
          if TestBit(cd, j) {
            latMin := (latMin + latMax) / 2.0;
          } else {
            latMax := (latMin + latMax) / 2.0;
          }
        }
        isEven := !isEven;
        j := j - 1;
      }
    }
    d := Decoded((latMin + latMax) / 2.0, (lngMin + lngMax) / 2.0,
                 (latMax - latMin) / 2.0, (lngMax - lngMin) / 2.0);
  }

  // ---------------------------------------------------------------------------
  // Properties of the encoder

  /** Every hash has exactly `p` characters, all from the alphabet; `p = 0` gives "". */
  lemma {:induction false} EncodeShape(lat: real, lng: real, p: nat)
    ensures |Encode(lat, lng, p)| == p
    ensures forall i | 0 <= i < p :: Encode(lat, lng, p)[i] in Base32
    ensures p == 0 ==> Encode(lat, lng, p) == ""
  {
    if p > 0 {
      EncodeShape(lat, lng, p - 1);
    }
  }

  /** Character `k` of a hash is the alphabet entry of the k-th 5-bit group. */
  lemma {:induction false} EncodeAt(lat: real, lng: real, p: nat, k: nat)
    requires k < p
    ensures |Encode(lat, lng, p)| == p
    ensures Encode(lat, lng, p)[k] == Base32[CharValue(lat, lng, k)]
  {
    EncodeShape(lat, lng, p);
    if k < p - 1 {
      EncodeAt(lat, lng, p - 1, k);
      EncodeShape(lat, lng, p - 1);
    }
  }

  /** Prefix monotonicity: a shorter hash of a point is a prefix of a longer one. */
  lemma {:induction false} EncodePrefix(lat: real, lng: real, p1: nat, p2: nat)
    requires p1 <= p2
    ensures |Encode(lat, lng, p2)| == p2
    ensures Encode(lat, lng, p1) == Encode(lat, lng, p2)[..p1]
  {
    EncodeShape(lat, lng, p2);
    if p1 < p2 {
      EncodePrefix(lat, lng, p1, p2 - 1);
      EncodeShape(lat, lng, p2 - 1);
      assert Encode(lat, lng, p2)[..p2 - 1] == Encode(lat, lng, p2 - 1);
    }
  }

  /** Even bits refine longitude and odd bits latitude: of the first `t` bits,
      ceil(t/2) bisect longitude and floor(t/2) bisect latitude. */
  lemma {:induction false} StepCounts(t: nat)
    ensures LngSteps(t) == (t + 1) / 2 && LatSteps(t) == t / 2
  {
    if t > 0 {
      StepCounts(t - 1);
      Parity(t - 1);
    }
  }

  /** `isEven` alternates starting from true: bit `t` is even-numbered iff `t` is even. */
  lemma {:induction false} Parity(t: nat)
    ensures EvenBit(t) == (t % 2 == 0)
  {
    if t > 0 {
      Parity(t - 1);
    }
  }

  /** A bisection of a range that holds `x`, steered by `x`, still holds `x`. */
  lemma {:induction false} NarrowContains(x: real, r: Interval, n: nat)
    requires r.Contains(x)
    ensures Narrow(x, r, n).Contains(x)
  {
    if n > 0 {
      NarrowContains(x, r, n - 1);
    }
  }

  /** While encoding an in-range point, every step keeps
      lngMin <= lng <= lngMax and latMin <= lat <= latMax. */
  lemma EncodeKeepsPoint(lat: real, lng: real, t: nat)
    requires InRange(lat, lng)
    ensures Narrow(lng, LngRange, LngSteps(t)).Contains(lng)
    ensures Narrow(lat, LatRange, LatSteps(t)).Contains(lat)
  {
    NarrowContains(lng, LngRange, LngSteps(t));
    NarrowContains(lat, LatRange, LatSteps(t));
  }

  /** `x` halved `n` times. */
  function Halved(x: real, n: nat): real {
    if n == 0 then x else Halved(x, n - 1) / 2.0
  }

  /** Halving `n` times divides by 2^n. */
  lemma {:induction false} HalvedDivides(x: real, n: nat)
    ensures Halved(x, n) == x / (Pow2(n) as real)
  {
    if n > 0 {
      HalvedDivides(x, n - 1);
      HalfOfQuotient(x, Pow2(n - 1) as real);
      assert (x / 2.0) / (Pow2(n - 1) as real) == x / (Pow2(n) as real) by {
        var w := Pow2(n - 1) as real;
        var q := (x / 2.0) / w;
        assert q * w == x / 2.0;
        assert q * (2.0 * w) == x;
      }
    }
  }

  lemma {:induction false} HalvedHalf(x: real, n: nat)
    ensures Halved(x, n) / 2.0 == Halved(x / 2.0, n)
  {
    if n > 0 {
      HalvedHalf(x, n - 1);
    }
  }

  lemma HalfOfQuotient(a: real, w: real)
    requires w >= 1.0
    ensures (a / w) / 2.0 == (a / 2.0) / w
  {
    var q := a / w;
    assert q * w == a;
    assert (q / 2.0) * w == a / 2.0;
  }

  /** Each bisection halves the range, whichever half is kept. */
  lemma {:induction false} NarrowWidth(x: real, r: Interval, n: nat)
    ensures Narrow(x, r, n).hi - Narrow(x, r, n).lo == Halved(r.hi - r.lo, n)
  {
    if n > 0 {
      NarrowWidth(x, r, n - 1);
    }
  }

  /** Ranges only shrink: a later range lies inside an earlier one. */
  lemma {:induction false} NarrowNested(x: real, r: Interval, k: nat, n: nat)
    requires r.lo < r.hi && k <= n
    ensures Narrow(x, r, k).lo <= Narrow(x, r, n).lo <= Narrow(x, r, n).hi <= Narrow(x, r, k).hi
  {
    NarrowProper(x, r, n);
    if k < n {
      NarrowNested(x, r, k, n - 1);
      NarrowProper(x, r, n - 1);
    }
  }

  /** Ranges of positive width keep a positive width. */
  lemma {:induction false} NarrowProper(x: real, r: Interval, n: nat)
    requires r.lo < r.hi
    ensures Narrow(x, r, n).lo < Narrow(x, r, n).hi
  {
    if n > 0 {
      NarrowProper(x, r, n - 1);
    }
  }

  /** The centre of the range reached after `n` bisections takes the same `n`
      decisions as the point that steered them. */
  lemma {:induction false} CentreFollowsPoint(x: real, r: Interval, n: nat, k: nat)
    requires r.lo < r.hi && k <= n
    ensures Narrow(Narrow(x, r, n).Mid(), r, k) == Narrow(x, r, k)
  {
    if k > 0 {
      var c := Narrow(x, r, n).Mid();
      CentreFollowsPoint(x, r, n, k - 1);
      NarrowProper(x, r, n);
      NarrowNested(x, r, k, n);
      var i := Narrow(x, r, k - 1);
      // the kept half of step k - 1 holds the final range, whose centre is strictly inside it
      assert (c >= i.Mid()) == (x >= i.Mid());
    }
  }

  // ---------------------------------------------------------------------------
  // Decoding an encoded hash

  /** The alphabet has no repeated character. */
  lemma Base32Distinct()
    ensures |Base32| == 32
    ensures forall i, j | 0 <= i < j < |Base32| :: Base32[i] != Base32[j]
  {
  }

  /** `indexOf` inverts the alphabet lookup. */
  lemma Base32Index(v: nat)
    requires v < 32
    ensures IndexOf(Base32, Base32[v]) == v
  {
    Base32Distinct();
    IndexOfSpec(Base32, Base32[v]);
    var r := IndexOf(Base32, Base32[v]);
    if r < v {
      assert Base32[r] == Base32[v];
    }
  }

  /** A character outside the alphabet is not rejected: `indexOf` gives -1, every bit
      of which is set, so the decoder reads it as 'z' (value 31). */
  lemma {:induction false} UnknownCharIsZ(c: char, j: nat)
    requires c !in Base32 && j < 5
    ensures TestBit(IndexOf(Base32, c), j) == TestBit(IndexOf(Base32, 'z'), j) == true
  {
    IndexOfSpec(Base32, c);
    Base32Index(31);
    MinusOneBits(j);
  }

  lemma {:induction false} MinusOneBits(j: nat)
    ensures TestBit(-1, j)
    ensures j < 5 ==> TestBit(31, j)
  {
    if j > 0 {
      MinusOneBits(j - 1);
      if j < 5 {
        assert 31 / 2 == 15 && 15 / 2 == 7 && 7 / 2 == 3 && 3 / 2 == 1;
      }
    }
  }

  function B(b: bool): nat { if b then 1 else 0 }

  /** Appending bit `e` below `w`: the new low bit is `e`, the others move up one. */
  lemma HalveKeeps(w: int, e: bool, m: nat)
    ensures TestBit(2 * w + B(e), 0) == e
    ensures TestBit(2 * w + B(e), m + 1) == TestBit(w, m)
  {
    assert (2 * w + B(e)) / 2 == w;
  }

  /** The five bits of a 5-bit value read back most significant first. */
  lemma FiveBits(b0: bool, b1: bool, b2: bool, b3: bool, b4: bool)
    ensures var v := 2 * (2 * (2 * (2 * B(b0) + B(b1)) + B(b2)) + B(b3)) + B(b4);
      TestBit(v, 4) == b0 && TestBit(v, 3) == b1 && TestBit(v, 2) == b2 && TestBit(v, 1) == b3 && TestBit(v, 0) == b4
  {
    var w3 := 2 * B(b0) + B(b1);
    var w2 := 2 * w3 + B(b2);
    var w1 := 2 * w2 + B(b3);
    HalveKeeps(w1, b4, 3);
    HalveKeeps(w2, b3, 2);
    HalveKeeps(w3, b2, 1);
    HalveKeeps(B(b0), b1, 0);
  }

  /** The value of character `k` spelled out from its five bits. */
  lemma CharValueBits(lat: real, lng: real, k: nat)
    ensures CharValue(lat, lng, k)
         == 2 * (2 * (2 * (2 * B(Bit(lat, lng, 5 * k)) + B(Bit(lat, lng, 5 * k + 1))) + B(Bit(lat, lng, 5 * k + 2)))
                 + B(Bit(lat, lng, 5 * k + 3))) + B(Bit(lat, lng, 5 * k + 4))
  {
    assert Pow2(0) == 1 && Pow2(1) == 2 && Pow2(2) == 4 && Pow2(3) == 8 && Pow2(4) == 16;
    assert PackBits(lat, lng, k, 1) == 16 * B(Bit(lat, lng, 5 * k));
    assert PackBits(lat, lng, k, 2) == PackBits(lat, lng, k, 1) + 8 * B(Bit(lat, lng, 5 * k + 1));
    assert PackBits(lat, lng, k, 3) == PackBits(lat, lng, k, 2) + 4 * B(Bit(lat, lng, 5 * k + 2));
    assert PackBits(lat, lng, k, 4) == PackBits(lat, lng, k, 3) + 2 * B(Bit(lat, lng, 5 * k + 3));
  }

  /** Bit r = 4 - j of the value of character `k` is bit t = 5k + j of the stream. */
  lemma CharBits(lat: real, lng: real, k: nat, j: nat, r: nat, t: nat)
    requires j < 5 && r + j == 4 && t == 5 * k + j
    ensures TestBit(CharValue(lat, lng, k), r) == Bit(lat, lng, t)
  {
    CharValueBits(lat, lng, k);
    FiveBits(Bit(lat, lng, 5 * k), Bit(lat, lng, 5 * k + 1), Bit(lat, lng, 5 * k + 2),
             Bit(lat, lng, 5 * k + 3), Bit(lat, lng, 5 * k + 4));
    if j == 0 {
      assert r == 4 && t == 5 * k;
    } else if j == 1 {
      assert r == 3 && t == 5 * k + 1;
    } else if j == 2 {
      assert r == 2 && t == 5 * k + 2;
    } else if j == 3 {
      assert r == 1 && t == 5 * k + 3;
    } else {
      assert r == 0 && t == 5 * k + 4;
    }
  }

  /** Reading bit `r` = 4 - j of character `i` back from a hash gives the bit
      t = 5i + j the encoder wrote. */
  lemma CharOfEncode(lat: real, lng: real, p: nat, i: nat, j: nat, r: nat, t: nat)
    requires i < p && j < 5 && r + j == 4 && t == 5 * i + j
    ensures |Encode(lat, lng, p)| == p
    ensures TestBit(IndexOf(Base32, Encode(lat, lng, p)[i]), r) == Bit(lat, lng, t)
  {
    EncodeAt(lat, lng, p, i);
    Base32Index(CharValue(lat, lng, i));
    CharBits(lat, lng, i, j, r, t);
  }

  /** Decoding replays the encoder's bisections: after the first `i` characters of a
      hash, t = 5i bits, the decoder's ranges are exactly the encoder's. */
  lemma {:induction false} DecCharsOfEncode(lat: real, lng: real, p: nat, i: nat, t: nat)
    requires i <= p && t == 5 * i
    ensures |Encode(lat, lng, p)| == p
    ensures DecChars(Encode(lat, lng, p), i)
         == DecState(EvenBit(t), Narrow(lng, LngRange, LngSteps(t)), Narrow(lat, LatRange, LatSteps(t)))
    decreases i, 0
  {
    EncodeShape(lat, lng, p);
    if i > 0 {
      DecBitsOfEncode(lat, lng, p, i - 1, 5, t);
    }
  }

  /** The same after `n` more bits of character `i`, t = 5i + n bits in all. */
  lemma {:induction false} DecBitsOfEncode(lat: real, lng: real, p: nat, i: nat, n: nat, t: nat)
    requires i < p && n <= 5 && t == 5 * i + n
    ensures |Encode(lat, lng, p)| == p
    ensures DecBits(Encode(lat, lng, p), i, n)
         == DecState(EvenBit(t), Narrow(lng, LngRange, LngSteps(t)), Narrow(lat, LatRange, LatSteps(t)))
    decreases i, n + 1
  {
    EncodeShape(lat, lng, p);
    if n == 0 {
      DecCharsOfEncode(lat, lng, p, i, t);
    } else {
      DecBitsOfEncode(lat, lng, p, i, n - 1, t - 1);
      DecBitOfEncode(lat, lng, p, Encode(lat, lng, p), i, n - 1, t - 1, t);
    }
  }

  lemma DecBitOfEncode(lat: real, lng: real, p: nat, h: string, i: nat, m: nat, t: nat, u: nat)
    requires h == Encode(lat, lng, p) && |h| == p
    requires i < p && m < 5 && t == 5 * i + m && u == t + 1
    requires DecBits(h, i, m)
          == DecState(EvenBit(t), Narrow(lng, LngRange, LngSteps(t)), Narrow(lat, LatRange, LatSteps(t)))
    ensures DecBits(h, i, m + 1)
         == DecState(EvenBit(u), Narrow(lng, LngRange, LngSteps(u)), Narrow(lat, LatRange, LatSteps(u)))
  {
    CharOfEncode(lat, lng, p, i, m, 4 - m, t);
    DecBitStep(lat, lng, t, u, DecBits(h, i, m), TestBit(IndexOf(Base32, h[i]), 4 - m));
  }

  /** Applying bit `t` of the stream of (lat, lng) to the state after `t` bits gives
      the state after `t + 1` bits. */
  lemma DecBitStep(lat: real, lng: real, t: nat, u: nat, s: DecState, b: bool)
    requires u == t + 1
    requires s == DecState(EvenBit(t), Narrow(lng, LngRange, LngSteps(t)), Narrow(lat, LatRange, LatSteps(t)))
    requires b == Bit(lat, lng, t)
    ensures DecStep(s, b)
         == DecState(EvenBit(u), Narrow(lng, LngRange, LngSteps(u)), Narrow(lat, LatRange, LatSteps(u)))
  {
    StreamStep(lat, lng, t);
  }

  /** One more bit of the stream bisects exactly one coordinate once more. */
  lemma StreamStep(lat: real, lng: real, t: nat)
    ensures LngSteps(t + 1) == LngSteps(t) + (if EvenBit(t) then 1 else 0)
    ensures LatSteps(t + 1) == LatSteps(t) + (if EvenBit(t) then 0 else 1)
    ensures Narrow(lng, LngRange, LngSteps(t) + 1) == Step(Narrow(lng, LngRange, LngSteps(t)), Up(lng, LngRange, LngSteps(t)))
    ensures Narrow(lat, LatRange, LatSteps(t) + 1) == Step(Narrow(lat, LatRange, LatSteps(t)), Up(lat, LatRange, LatSteps(t)))
  {
  }

  /** The decoder's ranges after the first `i` characters, or after `n` more bits of
      character `i`, have the width of the corresponding number of bisections,
      whatever the characters. */
  lemma {:induction false} DecCharsWidth(h: string, i: nat)
    requires i <= |h|
    ensures DecChars(h, i).isEven == EvenBit(5 * i)
    ensures DecChars(h, i).lng.hi - DecChars(h, i).lng.lo == Halved(360.0, LngSteps(5 * i))
    ensures DecChars(h, i).lat.hi - DecChars(h, i).lat.lo == Halved(180.0, LatSteps(5 * i))
    decreases i, 0
  {
    if i > 0 {
      DecBitsWidth(h, i - 1, 5);
    }
  }

  lemma {:induction false} DecBitsWidth(h: string, i: nat, n: nat)
    requires i < |h| && n <= 5
    ensures DecBits(h, i, n).isEven == EvenBit(5 * i + n)
    ensures DecBits(h, i, n).lng.hi - DecBits(h, i, n).lng.lo == Halved(360.0, LngSteps(5 * i + n))
    ensures DecBits(h, i, n).lat.hi - DecBits(h, i, n).lat.lo == Halved(180.0, LatSteps(5 * i + n))
    decreases i, n + 1
  {
    if n == 0 {
      DecCharsWidth(h, i);
    } else {
      DecBitsWidth(h, i, n - 1);
    }
  }

  /** The cell of a hash of length n spans 360 degrees of longitude halved ceil(5n/2)
      times and 180 degrees of latitude halved floor(5n/2) times; the decoded errors
      are half of those (so `HalvedDivides` turns them into 180 / 2^ceil(5n/2) and
      90 / 2^floor(5n/2)). */
  lemma DecodeErrors(h: string, n: nat)
    requires |h| == n
    ensures Decode(h).longitudeError == Halved(180.0, (5 * n + 1) / 2)
    ensures Decode(h).latitudeError == Halved(90.0, 5 * n / 2)
  {
    StepCounts(5 * n);
    DecCharsWidth(h, n);
    HalvedHalf(360.0, LngSteps(5 * n));
    HalvedHalf(180.0, LatSteps(5 * n));
  }

  /** Round trip, first half: an in-range point lies within the decoded error
      bounds of its own hash. */
  lemma DecodeEncodeWithin(lat: real, lng: real, p: nat)
    requires InRange(lat, lng)
    ensures Decode(Encode(lat, lng, p)).latitude - Decode(Encode(lat, lng, p)).latitudeError <= lat
    ensures lat <= Decode(Encode(lat, lng, p)).latitude + Decode(Encode(lat, lng, p)).latitudeError
    ensures Decode(Encode(lat, lng, p)).longitude - Decode(Encode(lat, lng, p)).longitudeError <= lng
    ensures lng <= Decode(Encode(lat, lng, p)).longitude + Decode(Encode(lat, lng, p)).longitudeError
  {
    DecCharsOfEncode(lat, lng, p, p, 5 * p);
    EncodeKeepsPoint(lat, lng, 5 * p);
  }

  /** Two points that take the same decisions at every bisection get the same hash. */
  lemma {:induction false} EncodeSameDecisions(lat: real, lng: real, lat2: real, lng2: real, p: nat)
    requires forall k | 0 <= k <= LngSteps(5 * p) :: Narrow(lng2, LngRange, k) == Narrow(lng, LngRange, k)
    requires forall k | 0 <= k <= LatSteps(5 * p) :: Narrow(lat2, LatRange, k) == Narrow(lat, LatRange, k)
    ensures Encode(lat2, lng2, p) == Encode(lat, lng, p)
  {
    if p > 0 {
      StepsMonotone(5 * (p - 1), 5 * p);
      EncodeSameDecisions(lat, lng, lat2, lng2, p - 1);
      CharSameDecisions(lat, lng, lat2, lng2, p - 1, 5);
    }
  }

  lemma {:induction false} StepsMonotone(t1: nat, t2: nat)
    requires t1 <= t2
    ensures LngSteps(t1) <= LngSteps(t2) && LatSteps(t1) <= LatSteps(t2)
  {
    if t1 < t2 {
      StepsMonotone(t1, t2 - 1);
    }
  }

  lemma {:induction false} CharSameDecisions(lat: real, lng: real, lat2: real, lng2: real, k: nat, j: nat)
    requires j <= 5
    requires forall n | 0 <= n <= LngSteps(5 * k + 5) :: Narrow(lng2, LngRange, n) == Narrow(lng, LngRange, n)
    requires forall n | 0 <= n <= LatSteps(5 * k + 5) :: Narrow(lat2, LatRange, n) == Narrow(lat, LatRange, n)
    ensures PackBits(lat2, lng2, k, j) == PackBits(lat, lng, k, j)
  {
    if j > 0 {
      CharSameDecisions(lat, lng, lat2, lng2, k, j - 1);
      var t := 5 * k + j - 1;
      StepsMonotone(t + 1, 5 * k + 5);
      assert LngSteps(t + 1) >= LngSteps(t) && LatSteps(t + 1) >= LatSteps(t);
      var nl, na := LngSteps(t), LatSteps(t);
      StreamStep(lat, lng, t);
      if EvenBit(t) {
        assert Narrow(lng2, LngRange, nl + 1) == Narrow(lng, LngRange, nl + 1);
        assert Narrow(lng2, LngRange, nl) == Narrow(lng, LngRange, nl);
        NarrowProper(lng, LngRange, nl);
        assert Up(lng2, LngRange, nl) == Up(lng, LngRange, nl);
      } else {
        assert Narrow(lat2, LatRange, na + 1) == Narrow(lat, LatRange, na + 1);
        assert Narrow(lat2, LatRange, na) == Narrow(lat, LatRange, na);
        NarrowProper(lat, LatRange, na);
        assert Up(lat2, LatRange, na) == Up(lat, LatRange, na);
      }
    }
  }

  /** Round trip, second half: re-encoding the decoded centre of a hash at the same
      precision gives the hash back. */
  lemma EncodeDecodeEncode(lat: real, lng: real, p: nat)
    ensures Encode(Decode(Encode(lat, lng, p)).latitude, Decode(Encode(lat, lng, p)).longitude, p)
         == Encode(lat, lng, p)
  {
    var n := 5 * p;
    DecCharsOfEncode(lat, lng, p, p, n);
    var d := Decode(Encode(lat, lng, p));
    assert d.longitude == Narrow(lng, LngRange, LngSteps(n)).Mid();
    assert d.latitude == Narrow(lat, LatRange, LatSteps(n)).Mid();
    forall k | 0 <= k <= LngSteps(n)
      ensures Narrow(d.longitude, LngRange, k) == Narrow(lng, LngRange, k)
    {
      CentreFollowsPoint(lng, LngRange, LngSteps(n), k);
    }
    forall k | 0 <= k <= LatSteps(n)
      ensures Narrow(d.latitude, LatRange, k) == Narrow(lat, LatRange, k)
    {
      CentreFollowsPoint(lat, LatRange, LatSteps(n), k);
    }
    EncodeSameDecisions(lat, lng, d.latitude, d.longitude, p);
  }

  // ---------------------------------------------------------------------------
  // Neighbouring cells

  datatype Coord = Coord(lat: real, lng: real)

  /** The centres of the eight cells around the cell of `d`, in the order north,
      north-east, east, south-east, south, south-west, west, north-west: one full
      cell width (twice the error) away. */
  function NeighborCoords(d: Decoded): (cs: seq<Coord>)
    ensures |cs| == 8
  {
    var latDelta, lngDelta := d.latitudeError * 2.0, d.longitudeError * 2.0;
    [ Coord(d.latitude + latDelta, d.longitude),
      Coord(d.latitude + latDelta, d.longitude + lngDelta),
      Coord(d.latitude, d.longitude + lngDelta),
      Coord(d.latitude - latDelta, d.longitude + lngDelta),
      Coord(d.latitude - latDelta, d.longitude),
      Coord(d.latitude - latDelta, d.longitude - lngDelta),
      Coord(d.latitude, d.longitude - lngDelta),
      Coord(d.latitude + latDelta, d.longitude - lngDelta) ]
  }

  /** The hashes, at precision `p`, of those coordinates that are on the globe, in order. */
  function EncodeInRange(cs: seq<Coord>, p: nat): seq<string> {
    if cs == [] then []
    else (if InRange(cs[0].lat, cs[0].lng) then [Encode(cs[0].lat, cs[0].lng, p)] else [])
         + EncodeInRange(cs[1..], p)
  }

  /** The neighbours of `h`: its eight surrounding cells, those off the globe dropped. */
  function Neighbors(h: string): seq<string> {
    EncodeInRange(NeighborCoords(Decode(h)), |h|)
  }

  /** `getGeohashNeighbors(geohash)`: decode, take the eight candidates, keep the
      ones on the globe. */
  method GetGeohashNeighbors(geohash: string) returns (neighbors: seq<string>)
    ensures neighbors == Neighbors(geohash)
  {
    var d := DecodeGeohash(geohash);
    neighbors := EncodeCandidates(NeighborCoords(d), |geohash|);
  }

  /** The source's loop over the candidates, encoding each one on the globe. */
  method EncodeCandidates(coords: seq<Coord>, precision: nat) returns (neighbors: seq<string>)
    ensures neighbors == EncodeInRange(coords, precision)
  {
    neighbors := [];
    for i := 0 to |coords|
      invariant neighbors + EncodeInRange(coords[i..], precision) == EncodeInRange(coords, precision)
    {
      assert coords[i..] == [coords[i]] + coords[i + 1..];
      var c := coords[i];
      if c.lat >= -90.0 && c.lat <= 90.0 && c.lng >= -180.0 && c.lng <= 180.0 {
        var g := EncodeGeohash(c.lat, c.lng, precision);
        neighbors := neighbors + [g];
      }
    }
  }

  /** What the neighbour list holds: a hash is listed exactly when it is the hash of
      an on-globe candidate; at most one hash per candidate, each as long as the input. */
  lemma {:induction false} EncodeInRangeSpec(cs: seq<Coord>, p: nat)
    ensures |EncodeInRange(cs, p)| <= |cs|
    ensures forall g | g in EncodeInRange(cs, p) :: |g| == p
    ensures forall g :: g in EncodeInRange(cs, p) <==>
              exists c | c in cs :: InRange(c.lat, c.lng) && Encode(c.lat, c.lng, p) == g
  {
    if cs != [] {
      EncodeInRangeSpec(cs[1..], p);
      EncodeShape(cs[0].lat, cs[0].lng, p);
      var rest := EncodeInRange(cs[1..], p);
      forall g
        ensures g in EncodeInRange(cs, p) <==>
                exists c | c in cs :: InRange(c.lat, c.lng) && Encode(c.lat, c.lng, p) == g
      {
        if g in EncodeInRange(cs, p) && g !in rest {
          assert InRange(cs[0].lat, cs[0].lng) && Encode(cs[0].lat, cs[0].lng, p) == g;
        }
        if exists c | c in cs :: InRange(c.lat, c.lng) && Encode(c.lat, c.lng, p) == g {
          var c :| c in cs && InRange(c.lat, c.lng) && Encode(c.lat, c.lng, p) == g;
          if c != cs[0] {
            assert c in cs[1..];
          }
        }
      }
    }
  }

  /** At most eight neighbours, each a hash of the same precision as the centre cell,
      and each the hash of one of the on-globe candidates. */
  lemma NeighborsSpec(h: string)
    ensures |Neighbors(h)| <= 8
    ensures forall g | g in Neighbors(h) :: |g| == |h|
    ensures forall g :: g in Neighbors(h) <==>
              exists c | c in NeighborCoords(Decode(h)) :: InRange(c.lat, c.lng) && Encode(c.lat, c.lng, |h|) == g
  {
    EncodeInRangeSpec(NeighborCoords(Decode(h)), |h|);
  }

  lemma {:induction false} HalvedPositive(x: real, n: nat)
    requires x > 0.0
    ensures Halved(x, n) > 0.0
  {
    if n > 0 {
      HalvedPositive(x, n - 1);
    }
  }

  /** A cell is never its own neighbour: every candidate lies one cell width outside
      the cell, while the cell of a point's hash contains the point. */
  lemma NeighborNotSelf(h: string, n: nat, c: Coord)
    requires |h| == n
    requires c in NeighborCoords(Decode(h)) && InRange(c.lat, c.lng)
    ensures Encode(c.lat, c.lng, n) != h
  {
    var s := DecChars(h, n);
    DecCharsWidth(h, n);
    HalvedPositive(360.0, LngSteps(5 * n));
    HalvedPositive(180.0, LatSteps(5 * n));
    if Encode(c.lat, c.lng, n) == h {
      DecCharsOfEncode(c.lat, c.lng, n, n, 5 * n);
      EncodeKeepsPoint(c.lat, c.lng, 5 * n);
      assert false;
    }
  }

  /** The neighbour list never contains the centre hash itself. */
  lemma NeighborsExcludeSelf(h: string)
    ensures h !in Neighbors(h)
  {
    NeighborsSpec(h);
    if h in Neighbors(h) {
      var c :| c in NeighborCoords(Decode(h)) && InRange(c.lat, c.lng) && Encode(c.lat, c.lng, |h|) == h;
      NeighborNotSelf(h, |h|, c);
    }
  }

  // ---------------------------------------------------------------------------
  // Precision for a radius

  /** A row of the source's precision table: the approximate cell width at the equator. */
  datatype PrecisionRow = PrecisionRow(precision: nat, widthKm: real)

  const PrecisionMap: seq<PrecisionRow> := [
    PrecisionRow(1, 5000.0), PrecisionRow(2, 1250.0), PrecisionRow(3, 156.0),
    PrecisionRow(4, 39.0), PrecisionRow(5, 4.9), PrecisionRow(6, 1.2),
    PrecisionRow(7, 0.152), PrecisionRow(8, 0.038), PrecisionRow(9, 0.005)
  ]

  /** The table lists precisions 1..9 in order, with strictly shrinking widths. */
  lemma PrecisionMapShape()
    ensures |PrecisionMap| == 9
    ensures forall i | 0 <= i < 9 :: PrecisionMap[i].precision == i + 1
    ensures forall i, j | 0 <= i < j < 9 :: PrecisionMap[j].widthKm < PrecisionMap[i].widthKm
  {
  }

  /** The table scan from row `i` on: the precision of the first row whose width the
      radius exceeds (never below 1), and 9 past the last row. */
  function PrecisionFrom(radiusKm: real, i: nat): nat
    requires i <= |PrecisionMap|
    decreases |PrecisionMap| - i
  {
    if i == |PrecisionMap| then 9
    else if radiusKm > PrecisionMap[i].widthKm then Max1(PrecisionMap[i].precision)
    else PrecisionFrom(radiusKm, i + 1)
  }

  function Max1(n: nat): nat { if 1 >= n then 1 else n }

  function PrecisionForRadius(radiusKm: real): nat {
    PrecisionFrom(radiusKm, 0)
  }

  /** `getPrecisionForRadius(radiusKm)`, the source's early-return loop over the table. */
  method GetPrecisionForRadius(radiusKm: real) returns (p: nat)
    ensures p == PrecisionForRadius(radiusKm)
  {
    for i := 0 to |PrecisionMap|
      invariant PrecisionFrom(radiusKm, i) == PrecisionForRadius(radiusKm)
    {
      if radiusKm > PrecisionMap[i].widthKm {
        return if 1 >= PrecisionMap[i].precision then 1 else PrecisionMap[i].precision;
      }
    }
    return 9;
  }

  lemma {:induction false} PrecisionFromSpec(radiusKm: real, i: nat)
    requires i <= 9
    ensures 1 <= PrecisionFrom(radiusKm, i) <= 9
    ensures forall k | i <= k < PrecisionFrom(radiusKm, i) - 1 :: radiusKm <= PrecisionMap[k].widthKm
    ensures PrecisionFrom(radiusKm, i) < 9 ==> radiusKm > PrecisionMap[PrecisionFrom(radiusKm, i) - 1].widthKm
    decreases 9 - i
  {
    PrecisionMapShape();
    if i < 9 && radiusKm <= PrecisionMap[i].widthKm {
      PrecisionFromSpec(radiusKm, i + 1);
    }
  }

  /** The precision is in 1..9 and is the position of the first row whose width the
      radius exceeds: no earlier row is exceeded, and that row is (unless 9 is the
      fallback). */
  lemma PrecisionSpec(radiusKm: real)
    ensures 1 <= PrecisionForRadius(radiusKm) <= 9
    ensures forall k | 0 <= k < PrecisionForRadius(radiusKm) - 1 :: radiusKm <= PrecisionMap[k].widthKm
    ensures PrecisionForRadius(radiusKm) < 9 ==> radiusKm > PrecisionMap[PrecisionForRadius(radiusKm) - 1].widthKm
  {
    PrecisionFromSpec(radiusKm, 0);
  }

  /** A larger radius never asks for a longer hash. */
  lemma PrecisionMonotone(r1: real, r2: real)
    requires r1 <= r2
    ensures PrecisionForRadius(r2) <= PrecisionForRadius(r1)
  {
    PrecisionSpec(r1);
    PrecisionSpec(r2);
  }

  /** The two ends of the table: beyond 5000 km one character, at 5 m or less nine. */
  lemma PrecisionExtremes(radiusKm: real)
    ensures radiusKm > 5000.0 ==> PrecisionForRadius(radiusKm) == 1
    ensures radiusKm <= 0.005 ==> PrecisionForRadius(radiusKm) == 9
  {
    PrecisionSpec(radiusKm);
    PrecisionMapShape();
  }
}
