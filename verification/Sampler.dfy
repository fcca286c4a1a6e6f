/**
 The sampler: from a rate it derives an interval of 64-bit numbers, and samples the transactions whose random bytes
 spell a number inside it.
 */
module Sampler {
  import opened Wrappers

  type Byte = b: int | 0 <= b < 256

  const TWO_63: int := 0x8000_0000_0000_0000
  const TWO_64: int := 0x1_0000_0000_0000_0000

  // ---------------------------------------------------------------- numbers and bytes

  function Power(k: nat): (p: nat)
    ensures p > 0
  {
    if k == 0 then 1 else 256 * Power(k - 1)
  }

  function LittleEndian(bytes: seq<Byte>): nat {
    if bytes == [] then 0 else bytes[0] + 256 * LittleEndian(bytes[1..])
  }

  function Bytes(n: nat, k: nat): (bytes: seq<Byte>)
    ensures |bytes| == k
  {
    if k == 0 then [] else [n % 256] + Bytes(n / 256, k - 1)
  }

  lemma {:induction false} LittleEndianBound(bytes: seq<Byte>)
    ensures LittleEndian(bytes) < Power(|bytes|)
  {
    if bytes != [] {
      LittleEndianBound(bytes[1..]);
    }
  }

  lemma {:induction false} BytesOfLittleEndian(bytes: seq<Byte>)
    ensures Bytes(LittleEndian(bytes), |bytes|) == bytes
  {
    if bytes != [] {
      BytesOfLittleEndian(bytes[1..]);
      LowByte(bytes[0], LittleEndian(bytes[1..]));
    }
  }

  lemma LowByte(low: Byte, high: nat)
    ensures (low + 256 * high) % 256 == low && (low + 256 * high) / 256 == high
  {}

  lemma {:induction false} LittleEndianOfBytes(n: nat, k: nat)
    requires n < Power(k)
    ensures LittleEndian(Bytes(n, k)) == n
  {
    if k > 0 {
      LittleEndianOfBytes(n / 256, k - 1);
      assert Bytes(n, k)[1..] == Bytes(n / 256, k - 1);
    }
  }

  lemma PowerOf8()
    ensures Power(8) == TWO_64
  {}

  /** The signed number that eight bytes spell. */
  function ToInt64(bytes: seq<Byte>): int
    requires |bytes| == 8
  {
    var n := LittleEndian(bytes);
    if n >= TWO_63 then n - TWO_64 else n
  }

  /** The eight bytes that spell it. */
  function FromInt64(v: int): (bytes: seq<Byte>)
    requires -TWO_63 <= v < TWO_63
    ensures |bytes| == 8
  {
    Bytes(if v < 0 then v + TWO_64 else v, 8)
  }

  lemma SpellsInt64(bytes: seq<Byte>)
    requires |bytes| == 8
    ensures -TWO_63 <= ToInt64(bytes) < TWO_63 && FromInt64(ToInt64(bytes)) == bytes
  {
    PowerOf8();
    LittleEndianBound(bytes);
    BytesOfLittleEndian(bytes);
  }

  lemma SpeltInt64(v: int)
    requires -TWO_63 <= v < TWO_63
    ensures ToInt64(FromInt64(v)) == v
  {
    PowerOf8();
    LittleEndianOfBytes(if v < 0 then v + TWO_64 else v, 8);
  }

  // ---------------------------------------------------------------- the sampler

  datatype Sampler = Sampler(rate: real, constant: Option<bool>, lowerBound: int, higherBound: int)

  datatype Failure = InvalidRate | TooFewBytes

  predicate IsValidRate(rate: real) {
    0.0 <= rate <= 1.0
  }

  /** Four decimal places, halves away from zero, but no positive rate becomes zero. */
  function RoundToPrecision(rate: real): real
    requires IsValidRate(rate)
  {
    if rate > 0.0 && rate < 0.0001 then 0.0001 else (rate * 10000.0 + 0.5).Floor as real / 10000.0
  }

  /** The largest 64-bit number, as a floating-point number, is the next power of two. */
  function Bound(rate: real): int {
    (TWO_63 as real * rate).Floor
  }

  function Make(rate: real): (r: Result<Sampler, Failure>)
    ensures r.Ok? <==> 0.0 <= rate <= 1.0
    ensures r.Ok? ==> 0.0 <= r.value.rate <= 1.0
    ensures r.Ok? ==> (r.value.constant == Some(false) <==> rate == 0.0)
    ensures r.Ok? ==> (r.value.constant == Some(true) <==> rate >= 0.99995)
    ensures r.Ok? && r.value.constant.Some? ==>
              if r.value.constant.value
              then r.value.lowerBound == -0x8000_0000_0000_0000 && r.value.higherBound == 0x7FFF_FFFF_FFFF_FFFF
              else r.value.lowerBound == r.value.higherBound == 0
    ensures r.Ok? && r.value.constant.None? ==>
              && r.value.lowerBound == -r.value.higherBound
              && r.value.higherBound as real <= TWO_63 as real * rate < r.value.higherBound as real + 1.0
  {
    if !IsValidRate(rate) then Err(InvalidRate)
    else
      var rounded := RoundToPrecision(rate);
      Ok(if rounded == 0.0 then Sampler(rounded, Some(false), 0, 0)
         else if rounded == 1.0 then Sampler(rounded, Some(true), -TWO_63, TWO_63 - 1)
         else Sampler(rounded, None, -Bound(rate), Bound(rate)))
  }

  function DecideIfToSample(s: Sampler, randomBytes: seq<Byte>): (r: Result<bool, Failure>)
    ensures r == Err(TooFewBytes) <==> |randomBytes| < 8
    ensures r.Ok? && s.constant.Some? ==> r.value == s.constant.value
    ensures r.Ok? && s.constant.None? ==> (r.value <==> s.lowerBound < ToInt64(randomBytes[..8]) < s.higherBound)
  {
    if |randomBytes| < 8 then Err(TooFewBytes)
    else
      var v := ToInt64(randomBytes[..8]);
      Ok(match s.constant
         case Some(decision) => decision
         case None => s.lowerBound < v < s.higherBound)
  }

  // ---------------------------------------------------------------- the rate

  /** The rate is a multiple of 0.0001, close to the given one; it is 0 only for 0. */
  lemma RateRounded(rate: real)
    requires IsValidRate(rate)
    ensures RoundToPrecision(rate) * 10000.0 == (RoundToPrecision(rate) * 10000.0).Floor as real
    ensures 0.0 <= RoundToPrecision(rate) <= 1.0
    ensures RoundToPrecision(rate) == 0.0 <==> rate == 0.0
    ensures RoundToPrecision(rate) == 1.0 <==> rate >= 0.99995
    ensures rate >= 0.0001 ==> -0.00005 < RoundToPrecision(rate) - rate <= 0.00005
  {}

  // ---------------------------------------------------------------- nesting

  predicate Samples(rate: real, randomBytes: seq<Byte>) {
    Make(rate).Ok? && DecideIfToSample(Make(rate).value, randomBytes) == Ok(true)
  }

  /** The decision by rate and bytes: a number strictly between the bounds, or any number once the rate rounds to 1. */
  lemma SamplesIff(rate: real, randomBytes: seq<Byte>)
    requires IsValidRate(rate) && |randomBytes| >= 8
    ensures Samples(rate, randomBytes)
       <==> rate >= 0.99995 || -Bound(rate) < ToInt64(randomBytes[..8]) < Bound(rate)
  {
    RateRounded(rate);
  }

  /** What a lower rate samples, a higher rate samples too, across the branches. */
  lemma SamplingNested(low: real, high: real, randomBytes: seq<Byte>)
    requires IsValidRate(low) && IsValidRate(high) && low <= high
    ensures Samples(low, randomBytes) ==> Samples(high, randomBytes)
  {}

  /** A rate of 0 samples nothing, and one that rounds to 1 everything. */
  lemma ConstantRates(rate: real, randomBytes: seq<Byte>)
    requires IsValidRate(rate) && |randomBytes| >= 8
    ensures rate == 0.0 ==> !Samples(rate, randomBytes)
    ensures rate >= 0.99995 ==> Samples(rate, randomBytes)
  {
    RateRounded(rate);
  }

  // ---------------------------------------------------------------- counting

  /** The byte strings that spell n numbers from lo on. */
  function Strings(lo: int, n: nat): set<seq<Byte>>
    requires -TWO_63 <= lo && lo + n <= TWO_63
  {
    if n == 0 then {} else Strings(lo, n - 1) + {FromInt64(lo + n - 1)}
  }

  lemma {:induction false} StringsSpell(lo: int, n: nat, bytes: seq<Byte>)
    requires -TWO_63 <= lo && lo + n <= TWO_63
    ensures bytes in Strings(lo, n) <==> |bytes| == 8 && lo <= ToInt64(bytes) < lo + n
  {
    if n > 0 {
      StringsSpell(lo, n - 1, bytes);
      SpeltInt64(lo + n - 1);
      if |bytes| == 8 {
        SpellsInt64(bytes);
      }
    }
  }

  lemma {:induction false} StringsCount(lo: int, n: nat)
    requires -TWO_63 <= lo && lo + n <= TWO_63
    ensures |Strings(lo, n)| == n
  {
    if n > 0 {
      StringsCount(lo, n - 1);
      StringsSpell(lo, n - 1, FromInt64(lo + n - 1));
      SpeltInt64(lo + n - 1);
    }
  }

  /** How many of the 2^64 byte strings an interval sampler samples. */
  function SampledCount(rate: real): nat
    requires IsValidRate(rate)
  {
    if Bound(rate) > 0 then 2 * Bound(rate) - 1 else 0
  }

  /**
   In the interval branch the sampled strings of eight bytes form a finite set whose size is within 3 of the rate's
   share of all 2^64.  It is empty exactly for a rate below 2^-63, which is reported as 0.0001 all the same.
   */
  lemma SampledAccurately(rate: real) returns (sampled: set<seq<Byte>>)
    requires IsValidRate(rate) && 0.0 < rate < 0.99995
    ensures forall bytes: seq<Byte> :: bytes in sampled <==> |bytes| == 8 && Samples(rate, bytes)
    ensures |sampled| == SampledCount(rate)
    ensures sampled == {} <==> TWO_63 as real * rate < 1.0
    ensures rate * TWO_64 as real - 3.0 <= |sampled| as real <= rate * TWO_64 as real
  {
    RateRounded(rate);
    var h, n := Bound(rate), SampledCount(rate);
    var lo := if h > 0 then 1 - h else 0;
    sampled := Strings(lo, n);
    StringsCount(lo, n);
    forall bytes: seq<Byte> ensures bytes in sampled <==> |bytes| == 8 && Samples(rate, bytes) {
      StringsSpell(lo, n, bytes);
      assert |bytes| == 8 ==> bytes[..8] == bytes;
    }
  }

  // ---------------------------------------------------------------- the rate reported, and the number drawn

  /**
   The rate a sampler reports is the ten-thousandth nearest to the one it was given, the higher of two, except that a
   rate below 0.0001 is reported as 0.0001, and only 0 as 0.
   */
  lemma RateReported(rate: real, n: int)
    requires IsValidRate(rate)
    ensures 0.0 < rate < 0.0001 ==> Make(rate).value.rate == 0.0001
    ensures rate == 0.0 || rate >= 0.0001 ==>
              (Make(rate).value.rate == n as real / 10000.0 <==> rate - 0.00005 < n as real / 10000.0 <= rate + 0.00005)
  {
    if rate == 0.0 || rate >= 0.0001 {
      Nearest(rate * 10000.0, n);
    }
  }

  lemma Nearest(x: real, n: int)
    ensures (x + 0.5).Floor == n <==> x - 0.5 < n as real <= x + 0.5
  {}

  /** Byte by byte, the lowest first; the highest bit is the sign. */
  lemma Int64ByBytes(b: seq<Byte>)
    requires |b| == 8
    ensures ToInt64(b)
         == (b[0] as int) + 0x100 * (b[1] as int) + 0x1_0000 * (b[2] as int) + 0x100_0000 * (b[3] as int)
          + 0x1_0000_0000 * (b[4] as int) + 0x100_0000_0000 * (b[5] as int) + 0x1_0000_0000_0000 * (b[6] as int)
          + 0x100_0000_0000_0000 * (if b[7] >= 128 then (b[7] as int) - 256 else b[7] as int)
  {
    FourBytes(b[..4]);
    FourBytes(b[4..]);
    LowAndHigh(b);
  }

  lemma FourBytes(b: seq<Byte>)
    requires |b| == 4
    ensures LittleEndian(b) == (b[0] as int) + 0x100 * (b[1] as int) + 0x1_0000 * (b[2] as int) + 0x100_0000 * (b[3] as int)
  {
    TwoBytes(b);
    TwoBytes(b[2..]);
    assert b[2..][2..] == [];
  }

  lemma TwoBytes(b: seq<Byte>)
    requires |b| >= 2
    ensures LittleEndian(b) == (b[0] as int) + 0x100 * (b[1] as int) + 0x1_0000 * LittleEndian(b[2..])
  {
    assert b[1..][1..] == b[2..];
  }

  lemma LowAndHigh(b: seq<Byte>)
    requires |b| == 8
    ensures LittleEndian(b) == LittleEndian(b[..4]) + 0x1_0000_0000 * LittleEndian(b[4..])
  {
    TwoBytes(b);
    TwoBytes(b[2..]);
    FourBytes(b[..4]);
    assert b[2..][2..] == b[4..];
  }
}
