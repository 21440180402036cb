/** Baud rates in Resources/libftdi1-1.2/src/ftdi.c: the search for a clock divisor, its encoding in the two
    words sent to the chip, and the tolerance test. */
module Baud {
  import Arith

  datatype Chip = AM | BM | C2232 | R | H2232 | H4232 | H232 | X230

  predicate HighSpeed(chip: Chip) {
    chip == H2232 || chip == H4232 || chip == H232
  }

  const H_CLK := 120000000
  const C_CLK := 48000000

  /** Encodes a divisor given in eighths: whole part, and a code for the fraction. */
  const FRAC_CODE: seq<nat> := [0, 3, 2, 4, 1, 5, 6, 7]

  // `(divisor >> 3) | (frac_code[divisor & 7] << 14)`: the two parts share no bit as long as the whole
  // part takes no more than 14 bits.
  function EncodeDivisor(divisor: nat): nat {
    divisor / 8 + FRAC_CODE[divisor % 8] * 0x4000
  }

  // ---------- BM and later: ftdi_to_clkbits ----------

  /** The achievable rate and the encoded divisor. */
  datatype Clkbits = Clkbits(baud: nat, encoded: nat)

  function RoundHalf(x: nat): nat {
    if x % 2 == 1 then x / 2 + 1 else x / 2
  }

  /** The divisor, in eighths, of the last branch. */
  function BestDivisor(baudrate: nat, clk: nat, clkDiv: nat): nat
    requires baudrate > 0 && clkDiv > 0
  {
    var best := RoundHalf(clk * 16 / clkDiv / baudrate);
    if best > 0x20000 then 0x1ffff else best
  }

  /** The two clocks in use: 48 MHz divided by 16, and 120 MHz divided by 10. */
  predicate Clock(clk: nat, clkDiv: nat) {
    (clk == C_CLK && clkDiv == 16) || (clk == H_CLK && clkDiv == 10)
  }

  /** Where `ftdi_convert_baudrate` uses them. */
  predicate InRange(baudrate: nat, clk: nat) {
    baudrate > 0 && (clk == H_CLK ==> baudrate * 10 > H_CLK / 0x3fff)
  }

  lemma DivideBounds(a: nat, b: nat)
    requires b > 0
    ensures var q := a / b; b * q <= a < b * q + b
  {
  }

  /** The computed divisor is the nearest eighth: it is off by at most half a step. */
  lemma HalfStep(r: nat, baudrate: nat)
    requires baudrate > 0
    ensures var d := RoundHalf(r / baudrate); r - baudrate < 2 * d * baudrate <= r + baudrate
  {
    DivideBounds(r, baudrate);
    var q := r / baudrate;
    var d := RoundHalf(q);
    if q % 2 == 1 {
      assert 2 * d == q + 1;
      assert 2 * d * baudrate == baudrate * q + baudrate;
    } else {
      assert 2 * d == q;
      assert 2 * d * baudrate == baudrate * q;
    }
  }

  lemma QuotientAtLeast(a: nat, b: nat, q: nat)
    requires b > 0 && q * b <= a
    ensures a / b >= q
  {
    DivideBounds(a, b);
    if a / b < q {
      Arith.MulGap(b, q, a / b);
    }
  }

  lemma QuotientBelow(a: nat, b: nat, q: nat)
    requires b > 0 && a < q * b
    ensures a / b < q
  {
    DivideBounds(a, b);
    if q < a / b {
      Arith.MulGap(b, a / b, q);
    }
  }

  /** In the computed branch the divisor always fits 14 + 3 bits and is at least 2.  The divisor 0x20000,
      which the cap lets through and which would not fit, is the result for no rate. */
  lemma DivisorFits(baudrate: nat, clk: nat, clkDiv: nat)
    requires Clock(clk, clkDiv) && InRange(baudrate, clk) && baudrate < clk / (2 * clkDiv)
    ensures 16 <= BestDivisor(baudrate, clk, clkDiv) <= 0x1ffff
  {
    if clk == C_CLK {
      assert clk * 16 / clkDiv == 48000000;
      QuotientAtLeast(48000000, baudrate, 32);
      if baudrate <= 183 {
        QuotientAtLeast(48000000, baudrate, 262295);
      } else {
        QuotientBelow(48000000, baudrate, 260870);
      }
    } else {
      assert clk * 16 / clkDiv == 192000000;
      QuotientAtLeast(192000000, baudrate, 32);
      QuotientBelow(192000000, baudrate, 261938);
    }
  }

  /** `ftdi_to_clkbits` */
  function ToClkbits(baudrate: nat, clk: nat, clkDiv: nat): Clkbits
    requires Clock(clk, clkDiv) && InRange(baudrate, clk)
  {
    if baudrate >= clk / clkDiv then Clkbits(clk / clkDiv, 0)
    else if baudrate >= clk / (clkDiv + clkDiv / 2) then Clkbits(clk / (clkDiv + clkDiv / 2), 1)
    else if baudrate >= clk / (2 * clkDiv) then Clkbits(clk / (2 * clkDiv), 2)
    else
      DivisorFits(baudrate, clk, clkDiv);
      var best := BestDivisor(baudrate, clk, clkDiv);
      Clkbits(RoundHalf(clk * 16 / clkDiv / best), EncodeDivisor(best))
  }

  // ---------- AM: ftdi_to_clkbits_AM ----------

  const ADJUST_UP: seq<nat> := [0, 0, 0, 1, 0, 3, 2, 1]
  const ADJUST_DOWN: seq<nat> := [0, 0, 0, 1, 0, 1, 2, 3]
  const AM_CLK := 24000000
  const AM_MAX := 0x1fff8

  /** The divisors an AM chip has: 1, or 2 and up in eighths of which it knows 0, 1, 2 and 4. */
  predicate Supported(d: nat) {
    d == 8 || (16 <= d <= AM_MAX && (d % 8 == 0 || d % 8 == 1 || d % 8 == 2 || d % 8 == 4))
  }

  /** The rate to the nearest integer */
  function Estimate(d: nat): nat
    requires d > 0
  {
    (AM_CLK + d / 2) / d
  }

  function Distance(a: nat, b: nat): nat {
    if a < b then b - a else a - b
  }

  /** The requested divisor rounded down to a supported fraction. */
  function RoundedDown(baudrate: nat): nat
    requires baudrate > 0
  {
    var divisor := AM_CLK / baudrate;
    divisor - ADJUST_DOWN[divisor % 8]
  }

  /** The divisor tried in round `i` of the search. */
  function Try(divisor: nat, i: nat): nat {
    var d := divisor + i;
    if d <= 8 then 8
    else if divisor < 16 then 16
    else
      var up := d + ADJUST_UP[d % 8];
      if up > AM_MAX then AM_MAX else up
  }

  lemma TryIsSupported(divisor: nat, i: nat)
    requires i <= 1
    ensures Supported(Try(divisor, i))
  {
  }

  /** The result of the search. */
  function AmDivisor(baudrate: nat): (d: nat)
    requires baudrate > 0
    ensures d > 0
  {
    var divisor := RoundedDown(baudrate);
    var d0, d1 := Try(divisor, 0), Try(divisor, 1);
    TryIsSupported(divisor, 0);
    TryIsSupported(divisor, 1);
    if Distance(Estimate(d1), baudrate) < Distance(Estimate(d0), baudrate) then d1 else d0
  }

  function AmEncoded(d: nat): nat {
    var e := EncodeDivisor(d);
    if e == 1 then 0 else if e == 0x4001 then 1 else e
  }

  lemma TryIsPositive(divisor: nat)
    ensures Try(divisor, 0) > 0 && Try(divisor, 1) > 0
  {
  }

  /** The divisor to try in round `i`: up to the next supported one, but not beyond the largest. */
  method RoundUp(divisor: nat, i: nat) returns (tryDivisor: nat)
    ensures tryDivisor == Try(divisor, i)
  {
    tryDivisor := divisor + i;
    if tryDivisor <= 8 {
      tryDivisor := 8;
    } else if divisor < 16 {
      tryDivisor := 16;
    } else {
      tryDivisor := tryDivisor + ADJUST_UP[tryDivisor % 8];
      if tryDivisor > 0x1fff8 {
        tryDivisor := 0x1fff8;
      }
    }
  }

  /** `ftdi_to_clkbits_AM` */
  method ToClkbitsAM(baudrate: nat) returns (bestBaud: nat, encoded: nat)
    requires baudrate > 0
    ensures bestBaud == Estimate(AmDivisor(baudrate)) && encoded == AmEncoded(AmDivisor(baudrate))
  {
    hide Estimate, EncodeDivisor, Try, Supported;
    var divisor := AM_CLK / baudrate;
    divisor := divisor - ADJUST_DOWN[divisor % 8];
    TryIsPositive(divisor);
    var bestDivisor, bestBaudDiff := 0, 0;
    bestBaud := 0;
    var i := 0;
    while i < 2
      invariant 0 <= i <= 2
      invariant i == 1 ==> bestDivisor == Try(divisor, 0)
      invariant i == 2 ==> bestDivisor == AmDivisor(baudrate)
      invariant 0 < i ==> bestDivisor > 0 && bestBaud == Estimate(bestDivisor) && bestBaudDiff == Distance(bestBaud, baudrate)
    {
      var tryDivisor := RoundUp(divisor, i);
      var baudEstimate := Estimate(tryDivisor);
      var baudDiff;
      if baudEstimate < baudrate {
        baudDiff := baudrate - baudEstimate;
      } else {
        baudDiff := baudEstimate - baudrate;
      }
      if i == 0 || baudDiff < bestBaudDiff {
        bestDivisor := tryDivisor;
        bestBaud := baudEstimate;
        bestBaudDiff := baudDiff;
        if baudDiff == 0 {
          break;
        }
      }
      i := i + 1;
    }
    encoded := EncodeDivisor(bestDivisor);
    if encoded == 1 {
      encoded := 0;
    } else if encoded == 0x4001 {
      encoded := 1;
    }
  }

  // ---------- the search finds the nearest rate ----------

  lemma TimesAtMost(a: nat, b: nat, k: nat)
    requires a <= b
    ensures a * k <= b * k
  {
  }

  lemma RoundingCarriesOver(d1: nat, d2: nat, k: nat)
    requires 0 < d1 <= d2 && 0 < k && d1 * k > AM_CLK + d1 / 2
    ensures d2 * k > AM_CLK + d2 / 2
  {
    var gap := d2 - d1;
    assert d2 * k == d1 * k + gap * k;
    TimesAtMost(1, k, gap);
  }

  lemma NextIsTooMuch(d: nat, e: nat)
    requires 0 < d && e == Estimate(d)
    ensures d * (e + 1) > AM_CLK + d / 2 && e * d <= AM_CLK + d / 2
  {
    DivideBounds(AM_CLK + d / 2, d);
  }

  lemma EstimateFalls(d1: nat, d2: nat)
    requires 0 < d1 <= d2
    ensures Estimate(d1) >= Estimate(d2)
  {
    hide Estimate;
    var e1, e2 := Estimate(d1), Estimate(d2);
    NextIsTooMuch(d1, e1);
    NextIsTooMuch(d2, e2);
    RoundingCarriesOver(d1, d2, e1 + 1);
    if e1 < e2 {
      TimesAtMost(e1 + 1, e2, d2);
    }
  }

  /** A divisor no larger than the exact ratio gives a rate no smaller than requested. */
  lemma EstimateAbove(d: nat, baudrate: nat)
    requires 0 < d && d * baudrate <= AM_CLK
    ensures Estimate(d) >= baudrate
  {
    DivideBounds(AM_CLK + d / 2, d);
    if Estimate(d) < baudrate {
      Arith.MulGap(d, baudrate, Estimate(d));
    }
  }

  /** A larger one gives a rate no larger. */
  lemma EstimateBelow(d: nat, baudrate: nat)
    requires 0 < d && d * baudrate > AM_CLK
    ensures Estimate(d) <= baudrate
  {
    DivideBounds(AM_CLK + d / 2, d);
    if baudrate < Estimate(d) {
      Arith.MulGap(d, Estimate(d), baudrate);
    }
  }

  /** `d` gives a rate as near to the request as any supported divisor. */
  ghost predicate Nearest(d: nat, baudrate: nat)
    requires d > 0
  {
    forall s: nat :: Supported(s) ==> Distance(Estimate(d), baudrate) <= Distance(Estimate(s), baudrate)
  }

  /** If no supported divisor lies strictly between two that bracket the exact ratio, the nearer of the
      two is the nearest of all. */
  lemma BracketIsNearest(lo: nat, hi: nat, baudrate: nat, d: nat)
    requires 0 < baudrate && 0 < lo && 0 < hi && (d == lo || d == hi)
    requires forall s: nat :: Supported(s) ==> (s <= lo && lo * baudrate <= AM_CLK) || (hi <= s && hi * baudrate > AM_CLK)
    requires Distance(Estimate(d), baudrate) <= Distance(Estimate(lo), baudrate)
    requires Distance(Estimate(d), baudrate) <= Distance(Estimate(hi), baudrate)
    ensures Nearest(d, baudrate)
  {
    forall s: nat | Supported(s) ensures Distance(Estimate(d), baudrate) <= Distance(Estimate(s), baudrate) {
      if s <= lo && lo * baudrate <= AM_CLK {
        EstimateFalls(s, lo);
        EstimateAbove(lo, baudrate);
      } else {
        EstimateFalls(hi, s);
        EstimateBelow(hi, baudrate);
      }
    }
  }

  /** All supported divisors lie on one side of the exact ratio. */
  lemma LargestIsNearest(d: nat, baudrate: nat)
    requires 0 < d && d * baudrate <= AM_CLK && forall s: nat :: Supported(s) ==> s <= d
    ensures Nearest(d, baudrate)
  {
    forall s: nat | Supported(s) ensures Distance(Estimate(d), baudrate) <= Distance(Estimate(s), baudrate) {
      EstimateFalls(s, d);
      EstimateAbove(d, baudrate);
    }
  }

  lemma SmallestIsNearest(d: nat, baudrate: nat)
    requires 0 < d && d * baudrate > AM_CLK && forall s: nat :: Supported(s) ==> d <= s
    ensures Nearest(d, baudrate)
  {
    forall s: nat | Supported(s) ensures Distance(Estimate(d), baudrate) <= Distance(Estimate(s), baudrate) {
      EstimateFalls(d, s);
      EstimateBelow(d, baudrate);
    }
  }

  /** Rounding down and trying the next one brackets the ratio, or hits the cap. */
  lemma TriesBracket(divisor: nat, lo: nat)
    requires 16 <= divisor && lo == divisor - ADJUST_DOWN[divisor % 8]
    ensures 16 <= lo <= divisor && Try(lo, 0) == if lo > AM_MAX then AM_MAX else lo
    ensures lo < AM_MAX ==> divisor < Try(lo, 1) && forall s: nat :: Supported(s) ==> s <= lo || Try(lo, 1) <= s
    ensures lo >= AM_MAX ==> Try(lo, 1) == AM_MAX
  {
  }

  /** The search takes the nearer of its two tries. */
  lemma SearchTakesNearer(baudrate: nat)
    requires baudrate > 0
    ensures var lo, d := RoundedDown(baudrate), AmDivisor(baudrate);
            var d0, d1 := Try(lo, 0), Try(lo, 1);
            && 0 < d0 && 0 < d1 && (d == d0 || d == d1)
            && Distance(Estimate(d), baudrate) <= Distance(Estimate(d0), baudrate)
            && Distance(Estimate(d), baudrate) <= Distance(Estimate(d1), baudrate)
  {
    TryIsSupported(RoundedDown(baudrate), 0);
    TryIsSupported(RoundedDown(baudrate), 1);
    hide Estimate;
  }

  lemma NearestAt(baudrate: nat, divisor: nat, lo: nat, d: nat)
    requires 16 <= divisor && divisor * baudrate <= AM_CLK < divisor * baudrate + baudrate
    requires lo == divisor - ADJUST_DOWN[divisor % 8]
    requires d > 0 && Try(lo, 0) > 0 && Try(lo, 1) > 0 && (d == Try(lo, 0) || d == Try(lo, 1))
    requires Distance(Estimate(d), baudrate) <= Distance(Estimate(Try(lo, 0)), baudrate)
    requires Distance(Estimate(d), baudrate) <= Distance(Estimate(Try(lo, 1)), baudrate)
    ensures Nearest(d, baudrate)
  {
    hide Try, Estimate, Distance, Nearest;
    TriesBracket(divisor, lo);
    if lo >= AM_MAX {
      TimesAtMost(AM_MAX, divisor, baudrate);
      LargestIsNearest(AM_MAX, baudrate);
    } else {
      var hi := Try(lo, 1);
      TimesAtMost(lo, divisor, baudrate);
      TimesAtMost(divisor + 1, hi, baudrate);
      BracketIsNearest(lo, hi, baudrate, d);
    }
  }

  lemma SlowRatesAreNearest(baudrate: nat)
    requires 0 < baudrate && AM_CLK / baudrate >= 16
    ensures Nearest(AmDivisor(baudrate), baudrate)
  {
    DivideBounds(AM_CLK, baudrate);
    SearchTakesNearer(baudrate);
    hide Try, Estimate, Distance, Nearest, AmDivisor;
    NearestAt(baudrate, AM_CLK / baudrate, RoundedDown(baudrate), AmDivisor(baudrate));
  }

  lemma FastRates(baudrate: nat)
    requires 0 < baudrate && AM_CLK / baudrate < 16
    ensures baudrate > 1500000
    ensures baudrate > 3000000 ==> AmDivisor(baudrate) == 8
    ensures 2666666 < baudrate <= 3000000 ==> Try(RoundedDown(baudrate), 0) == 8 && Try(RoundedDown(baudrate), 1) == 16
    ensures baudrate <= 2666666 ==> AmDivisor(baudrate) == 16
  {
    DivideBounds(AM_CLK, baudrate);
    var divisor := AM_CLK / baudrate;
    if baudrate <= 1500000 {
      QuotientAtLeast(AM_CLK, baudrate, 16);
    } else if baudrate <= 2666666 {
      QuotientAtLeast(AM_CLK, baudrate, 9);
    } else if baudrate <= 3000000 {
      QuotientAtLeast(AM_CLK, baudrate, 8);
      QuotientBelow(AM_CLK, baudrate, 9);
    } else {
      QuotientBelow(AM_CLK, baudrate, 8);
    }
  }

  /** The search finds a supported divisor of the nearest rate for every request except those from 2250001
      to 2666666, for which it passes over 3000000 baud. */
  lemma AmSearchIsNearest(baudrate: nat)
    requires baudrate > 0
    ensures Nearest(AmDivisor(baudrate), baudrate) <==> !(2250001 <= baudrate <= 2666666)
  {
    if AM_CLK / baudrate >= 16 {
      SlowRatesAreNearest(baudrate);
      assert baudrate <= 1500000 by {
        DivideBounds(AM_CLK, baudrate);
        TimesAtMost(16, AM_CLK / baudrate, baudrate);
      }
    } else {
      FastRates(baudrate);
      assert Estimate(8) == 3000000 && Estimate(16) == 1500000;
      assert Supported(8) && Supported(16);
      hide Try, Estimate, RoundedDown;
      if baudrate > 3000000 {
        SmallestIsNearest(8, baudrate);
      } else if baudrate > 2250000 && baudrate <= 2666666 {
        assert Distance(Estimate(8), baudrate) < Distance(Estimate(16), baudrate);
      } else {
        BracketIsNearest(8, 16, baudrate, AmDivisor(baudrate));
      }
    }
  }

  lemma AmDivisorIsSupported(baudrate: nat)
    requires baudrate > 0
    ensures Supported(AmDivisor(baudrate))
  {
    TryIsSupported(RoundedDown(baudrate), 0);
    TryIsSupported(RoundedDown(baudrate), 1);
  }

  // ---------- the words sent to the chip ----------

  datatype Option<T> = None | Some(value: T)

  datatype Setting = Setting(baud: nat, value: nat, index: nat)

  /** The divisor, encoded, with the bit that switches the clock, and the rate. */
  function Encoded(baudrate: nat, chip: Chip): Clkbits
    requires baudrate > 0
  {
    if HighSpeed(chip) then
      if baudrate * 10 > H_CLK / 0x3fff then
        var c := ToClkbits(baudrate, H_CLK, 10);
        Clkbits(c.baud, c.encoded + 0x20000)
      else ToClkbits(baudrate, C_CLK, 16)
    else if chip == BM || chip == C2232 || chip == R then ToClkbits(baudrate, C_CLK, 16)
    else
      var d := AmDivisor(baudrate);
      Clkbits(Estimate(d), AmEncoded(d))
  }

  /** How the encoded divisor is split into the two words. */
  function Split(c: Clkbits, chip: Chip, port: nat): Setting
    requires port < 0x100
  {
    Setting(c.baud, c.encoded % 0x10000,
            if HighSpeed(chip) then (c.encoded / 0x10000 % 0x100) * 0x100 + port else c.encoded / 0x10000)
  }

  /** `ftdi_convert_baudrate`; `port` is the number of the interface. */
  function ConvertBaudrate(baudrate: int, chip: Chip, port: nat): Option<Setting>
    requires port < 0x100
  {
    if baudrate <= 0 then None
    else
      Some(Split(Encoded(baudrate, chip), chip, port))
  }

  // ---------- reading the words back ----------

  const FRAC_DECODE: seq<nat> := [0, 4, 2, 1, 3, 5, 6, 7]

  /** The divisor in eighths that an encoded divisor stands for. */
  function DecodeDivisor(encoded: nat): nat {
    var whole, frac := encoded % 0x4000, encoded / 0x4000 % 8;
    if frac == 0 && whole == 0 then 8
    else if frac == 0 && whole == 1 then 12
    else whole * 8 + FRAC_DECODE[frac]
  }

  /** The low 17 bits of the encoded divisor, and whether the fast clock is chosen. */
  function EncodedIn(s: Setting, chip: Chip): (nat, bool) {
    if HighSpeed(chip) then (s.value + (s.index / 0x100 % 2) * 0x10000, s.index / 0x200 % 2 == 1)
    else (s.value + s.index * 0x10000, false)
  }

  lemma EncodingIsLossless(d: nat)
    requires 16 <= d <= 0x1ffff
    ensures DecodeDivisor(EncodeDivisor(d)) == d
    ensures EncodeDivisor(d) < 0x20000 && EncodeDivisor(d) != 0 && EncodeDivisor(d) != 1
  {
    var whole, frac := d / 8, d % 8;
    assert EncodeDivisor(d) % 0x4000 == whole && EncodeDivisor(d) / 0x4000 == FRAC_CODE[frac];
  }

  /** What the divisor should be: 1, 1.5 or 2 where these are called for, otherwise the nearest eighth. */
  function Chosen(baudrate: nat, r: nat): (d: nat)
    requires baudrate > 0
    ensures d > 0
  {
    if baudrate >= r / 16 then 8
    else if baudrate >= r / 24 then 12
    else if baudrate >= r / 32 then 16
    else
      QuotientAtLeast(r, baudrate, 1);
      var best := RoundHalf(r / baudrate);
      if best > 0x20000 then 0x1ffff else best
  }

  /** The rate of `d` eighths of the reference clock `r` (which is 16 times the basic rate). */
  function RateOf(r: nat, d: nat): nat
    requires d > 0
  {
    RoundHalf(r / d)
  }

  /** The encoded divisor can be read back as `d`, and the rate is that of `d` eighths. */
  predicate Decodes(c: Clkbits, r: nat, d: nat) {
    (d == 8 || d == 12 || 16 <= d <= 0x1ffff) && c.encoded < 0x20000 && DecodeDivisor(c.encoded) == d
    && c.baud == RateOf(r, d)
  }

  function Reference(clk: nat): nat {
    if clk == H_CLK then 192000000 else 48000000
  }

  lemma SpecialCodes()
    ensures DecodeDivisor(0) == 8 && DecodeDivisor(1) == 12 && DecodeDivisor(2) == 16
    ensures RateOf(48000000, 8) == 3000000 && RateOf(48000000, 12) == 2000000 && RateOf(48000000, 16) == 1500000
    ensures RateOf(192000000, 8) == 12000000 && RateOf(192000000, 12) == 8000000 && RateOf(192000000, 16) == 6000000
  {
  }

  lemma Slow(baudrate: nat, clk: nat, clkDiv: nat)
    requires Clock(clk, clkDiv) && InRange(baudrate, clk) && baudrate < clk / (2 * clkDiv)
    ensures var best := BestDivisor(baudrate, clk, clkDiv);
            && best > 0 && best == Chosen(baudrate, Reference(clk))
            && ToClkbits(baudrate, clk, clkDiv) == Clkbits(RateOf(Reference(clk), best), EncodeDivisor(best))
  {
    hide EncodeDivisor, RoundHalf;
    DivisorFits(baudrate, clk, clkDiv);
    if clk == C_CLK {
      assert clk * 16 / clkDiv == 48000000;
    } else {
      assert clk * 16 / clkDiv == 192000000;
    }
  }

  lemma SlowDecodes(baudrate: nat, clk: nat, clkDiv: nat)
    requires Clock(clk, clkDiv) && InRange(baudrate, clk) && baudrate < clk / (2 * clkDiv)
    ensures Decodes(ToClkbits(baudrate, clk, clkDiv), Reference(clk), Chosen(baudrate, Reference(clk)))
  {
    hide DecodeDivisor, EncodeDivisor, RateOf, ToClkbits, BestDivisor, Chosen;
    Slow(baudrate, clk, clkDiv);
    DivisorFits(baudrate, clk, clkDiv);
    EncodingIsLossless(BestDivisor(baudrate, clk, clkDiv));
  }

  lemma FastDecodes(baudrate: nat, clk: nat, clkDiv: nat)
    requires Clock(clk, clkDiv) && InRange(baudrate, clk) && baudrate >= clk / (2 * clkDiv)
    ensures Decodes(ToClkbits(baudrate, clk, clkDiv), Reference(clk), Chosen(baudrate, Reference(clk)))
  {
    hide DecodeDivisor, RateOf, BestDivisor, EncodeDivisor, RoundHalf;
    SpecialCodes();
    if clk == C_CLK {
      assert clk / clkDiv == 3000000 && clk / (clkDiv + clkDiv / 2) == 2000000 && clk / (2 * clkDiv) == 1500000;
    } else {
      assert clk / clkDiv == 12000000 && clk / (clkDiv + clkDiv / 2) == 8000000 && clk / (2 * clkDiv) == 6000000;
    }
  }

  lemma ClkbitsDecode(baudrate: nat, clk: nat, clkDiv: nat)
    requires Clock(clk, clkDiv) && InRange(baudrate, clk)
    ensures Decodes(ToClkbits(baudrate, clk, clkDiv), Reference(clk), Chosen(baudrate, Reference(clk)))
  {
    hide Decodes, ToClkbits, Chosen;
    if baudrate < clk / (2 * clkDiv) {
      SlowDecodes(baudrate, clk, clkDiv);
    } else {
      FastDecodes(baudrate, clk, clkDiv);
    }
  }

  lemma HalfOfThree()
    ensures DecodeDivisor(0x4001) == 12
  {
  }

  lemma AmEncodingIsLossless(d: nat)
    requires Supported(d)
    ensures AmEncoded(d) < 0x20000 && DecodeDivisor(AmEncoded(d)) == d
  {
    if d == 8 {
      assert EncodeDivisor(8) == 1;
    } else {
      EncodingIsLossless(d);
      HalfOfThree();
      hide EncodeDivisor, DecodeDivisor;
    }
  }

  predicate FastClock(baudrate: nat, chip: Chip) {
    HighSpeed(chip) && baudrate * 10 > H_CLK / 0x3fff
  }

  /** The divisor in eighths that a request leads to, and the reported rate. */
  function ChosenFor(baudrate: nat, chip: Chip): (nat, nat)
    requires baudrate > 0
  {
    if chip == AM || chip == X230 then (AmDivisor(baudrate), Estimate(AmDivisor(baudrate)))
    else
      var r := if FastClock(baudrate, chip) then 192000000 else 48000000;
      (Chosen(baudrate, r), RateOf(r, Chosen(baudrate, r)))
  }

  lemma EncodedDecodes(baudrate: nat, chip: Chip)
    requires baudrate > 0
    ensures var c := Encoded(baudrate, chip);
            var low := if FastClock(baudrate, chip) then c.encoded - 0x20000 else c.encoded;
            0 <= low < 0x20000 && (DecodeDivisor(low), c.baud) == ChosenFor(baudrate, chip)
  {
    if chip == AM || chip == X230 {
      AmDivisorIsSupported(baudrate);
      AmEncodingIsLossless(AmDivisor(baudrate));
      hide AmEncoded, DecodeDivisor, AmDivisor, Estimate;
    } else {
      hide ToClkbits, DecodeDivisor, Chosen, RateOf;
      if FastClock(baudrate, chip) {
        ClkbitsDecode(baudrate, H_CLK, 10);
      } else {
        ClkbitsDecode(baudrate, C_CLK, 16);
      }
    }
  }

  lemma SplitIsLossless(baud: nat, low: nat, fast: bool, chip: Chip, port: nat)
    requires low < 0x20000 && port < 0x100 && (fast ==> HighSpeed(chip))
    ensures EncodedIn(Split(Clkbits(baud, if fast then low + 0x20000 else low), chip, port), chip) == (low, fast)
  {
    var c := if fast then low + 0x20000 else low;
    assert c % 0x10000 == low % 0x10000 && c / 0x10000 == low / 0x10000 + if fast then 2 else 0;
    if HighSpeed(chip) {
      assert (c / 0x10000 * 0x100 + port) / 0x100 == c / 0x10000;
      assert (c / 0x10000 * 0x100 + port) / 0x200 == c / 0x20000;
    }
  }

  /** Nothing is lost in the two words sent to the chip: they determine the clock, the divisor and with
      them the reported rate. */
  lemma SettingIsLossless(baudrate: nat, chip: Chip, port: nat)
    requires baudrate > 0 && port < 0x100
    ensures ConvertBaudrate(baudrate, chip, port).Some?
    ensures var s := ConvertBaudrate(baudrate, chip, port).value;
            && EncodedIn(s, chip).1 == FastClock(baudrate, chip)
            && (DecodeDivisor(EncodedIn(s, chip).0), s.baud) == ChosenFor(baudrate, chip)
            && (HighSpeed(chip) ==> s.index % 0x100 == port)
  {
    EncodedDecodes(baudrate, chip);
    var c := Encoded(baudrate, chip);
    var fast := FastClock(baudrate, chip);
    var low := if fast then c.encoded - 0x20000 else c.encoded;
    hide Encoded, DecodeDivisor, ChosenFor, EncodedIn, Split, FastClock;
    OnlyHighSpeedIsFast(baudrate, chip);
    assert c == Clkbits(c.baud, if fast then low + 0x20000 else low);
    SplitIsLossless(c.baud, low, fast, chip, port);
    PortIsKept(c, chip, port);
  }

  lemma PortIsKept(c: Clkbits, chip: Chip, port: nat)
    requires port < 0x100
    ensures Split(c, chip, port).baud == c.baud && (HighSpeed(chip) ==> Split(c, chip, port).index % 0x100 == port)
  {
  }

  lemma OnlyHighSpeedIsFast(baudrate: nat, chip: Chip)
    ensures FastClock(baudrate, chip) ==> HighSpeed(chip)
  {
  }

  // ---------- known settings ----------

  /** A request leads to this rate, whole divisor, code of the fraction and clock in MHz, as the words sent to
      the chip are laid out. */
  predicate Programmed(baudrate: nat, chip: Chip, actual: nat, divisor: nat, fraction: nat, clock: nat) {
    && ConvertBaudrate(baudrate, chip, 0).Some?
    && var s := ConvertBaudrate(baudrate, chip, 0).value;
    && s.baud == actual && s.value % 0x4000 == divisor
    && s.value / 0x4000 + 4 * (if HighSpeed(chip) then s.index / 0x100 % 2 else s.index % 2) == fraction
    && (if s.index / 0x200 % 2 == 1 then 120 else 48) == clock
  }

  lemma WordParts(c: nat, low: nat, fast: bool)
    requires low < 0x20000 && c == if fast then low + 0x20000 else low
    ensures c % 0x10000 % 0x4000 == low % 0x4000
    ensures c % 0x10000 / 0x4000 + 4 * (c / 0x10000 % 0x100 * 0x100 / 0x100 % 2) == low / 0x4000
    ensures !fast ==> c % 0x10000 / 0x4000 + 4 * (c / 0x10000 % 2) == low / 0x4000 && c / 0x10000 / 0x200 == 0
    ensures c / 0x10000 % 0x100 * 0x100 / 0x200 % 2 == if fast then 1 else 0
  {
    var top := c / 0x10000;
    assert top == low / 0x10000 + if fast then 2 else 0;
    assert top % 0x100 == top && (top * 0x100) / 0x100 == top && (top * 0x100) / 0x200 == top / 2;
  }

  lemma WordsOf(baudrate: nat, chip: Chip, baud: nat, low: nat, fast: bool)
    requires baudrate > 0 && low < 0x20000 && (fast ==> HighSpeed(chip))
    requires Encoded(baudrate, chip) == Clkbits(baud, if fast then low + 0x20000 else low)
    ensures Programmed(baudrate, chip, baud, low % 0x4000, low / 0x4000, if fast then 120 else 48)
  {
    hide Encoded;
    WordParts(if fast then low + 0x20000 else low, low, fast);
  }

  /** A rate in the computed branch, given the divisor in eighths */
  lemma SlowWords(baudrate: nat, chip: Chip, r: nat, d: nat, baud: nat, fast: bool)
    requires chip != AM && chip != X230 && fast == FastClock(baudrate, chip) && 0 < baudrate < r / 32
    requires r == (if fast then 192000000 else 48000000) && 16 <= d <= 0x1ffff
    requires d == RoundHalf(r / baudrate) && baud == RoundHalf(r / d)
    ensures Programmed(baudrate, chip, baud, d / 8, FRAC_CODE[d % 8], if fast then 120 else 48)
  {
    hide EncodeDivisor, RoundHalf, Programmed, Chosen;
    var clk, clkDiv := if fast then H_CLK else C_CLK, if fast then 10 else 16;
    EncodingIsLossless(d);
    Slow(baudrate, clk, clkDiv);
    ChosenIs(baudrate, r);
    WordsOf(baudrate, chip, baud, EncodeDivisor(d), fast);
    CodeParts(d);
  }

  lemma ChosenIs(baudrate: nat, r: nat)
    requires baudrate > 0 && baudrate < r / 32
    ensures RoundHalf(r / baudrate) <= 0x1ffff ==> Chosen(baudrate, r) == RoundHalf(r / baudrate)
  {
  }

  lemma CodeParts(d: nat)
    requires d <= 0x1ffff
    ensures EncodeDivisor(d) % 0x4000 == d / 8 && EncodeDivisor(d) / 0x4000 == FRAC_CODE[d % 8]
  {
  }

  /** The three fastest settings */
  lemma FastWords(baudrate: nat, chip: Chip, code: nat)
    requires chip != AM && chip != X230 && code <= 1
    requires if HighSpeed(chip) then baudrate == (if code == 0 then 12000000 else 8000000)
             else baudrate == (if code == 0 then 3000000 else 2000000)
    ensures Programmed(baudrate, chip, baudrate, code, 0, if HighSpeed(chip) then 120 else 48)
  {
    hide Programmed;
    WordsOf(baudrate, chip, baudrate, code, HighSpeed(chip));
  }

  /** Settings with every code of a fraction, on the later chips, */
  lemma KnownOnBM(chip: Chip)
    requires chip == BM || chip == C2232 || chip == R
    ensures Programmed(184, chip, 184, 16304, 4, 48)
    ensures Programmed(300, chip, 300, 10000, 0, 48)
    ensures Programmed(9600, chip, 9600, 312, 1, 48)
    ensures Programmed(19200, chip, 19200, 156, 2, 48)
    ensures Programmed(57600, chip, 57554, 52, 3, 48)
    ensures Programmed(1066667, chip, 1090909, 2, 6, 48)
    ensures Programmed(1116280, chip, 1142857, 2, 5, 48)
    ensures Programmed(1050000, chip, 1043478, 2, 7, 48)
    ensures Programmed(2000000, chip, 2000000, 1, 0, 48)
    ensures Programmed(3000000, chip, 3000000, 0, 0, 48)
  {
    hide Programmed;
    SlowWords(184, chip, 48000000, 130435, 184, false);
    SlowWords(300, chip, 48000000, 80000, 300, false);
    SlowWords(9600, chip, 48000000, 2500, 9600, false);
    SlowWords(19200, chip, 48000000, 1250, 19200, false);
    SlowWords(57600, chip, 48000000, 417, 57554, false);
    SlowWords(1066667, chip, 48000000, 22, 1090909, false);
    SlowWords(1116280, chip, 48000000, 21, 1142857, false);
    SlowWords(1050000, chip, 48000000, 23, 1043478, false);
    FastWords(2000000, chip, 1);
    FastWords(3000000, chip, 0);
  }

  /** on the high-speed ones */
  lemma KnownOnH(chip: Chip)
    requires HighSpeed(chip)
    ensures Programmed(184, chip, 184, 16304, 4, 48)
    ensures Programmed(600, chip, 600, 5000, 0, 48)
    ensures Programmed(1200, chip, 1200, 10000, 0, 120)
    ensures Programmed(38400, chip, 38400, 312, 1, 120)
    ensures Programmed(57600, chip, 57588, 208, 4, 120)
    ensures Programmed(115200, chip, 115246, 104, 3, 120)
    ensures Programmed(4173913, chip, 4173913, 2, 7, 120)
    ensures Programmed(8000000, chip, 8000000, 1, 0, 120)
    ensures Programmed(12000000, chip, 12000000, 0, 0, 120)
  {
    hide Programmed;
    SlowWords(184, chip, 48000000, 130435, 184, false);
    SlowWords(600, chip, 48000000, 40000, 600, false);
    SlowWords(1200, chip, 192000000, 80000, 1200, true);
    SlowWords(38400, chip, 192000000, 2500, 38400, true);
    SlowWords(57600, chip, 192000000, 1667, 57588, true);
    SlowWords(115200, chip, 192000000, 833, 115246, true);
    SlowWords(4173913, chip, 192000000, 23, 4173913, true);
    FastWords(8000000, chip, 1);
    FastWords(12000000, chip, 0);
  }

  /** When the ratio is a supported divisor, that is the one; otherwise the two tries around it compete. */
  lemma AmWords(baudrate: nat, ratio: nat, d: nat, baud: nat)
    requires baudrate > 0 && ratio == AM_CLK / baudrate && baud > 0
    requires 16 <= d <= AM_MAX && d == AmDivisor(baudrate) && baud == Estimate(d)
    ensures Programmed(baudrate, AM, baud, d / 8, FRAC_CODE[d % 8], 48)
  {
    hide Programmed, AmDivisor, Estimate, EncodeDivisor;
    EncodingIsLossless(d);
    CodeParts(d);
    AmDivisorIsSupported(baudrate);
    WordsOf(baudrate, AM, Estimate(d), EncodeDivisor(d), false);
  }

  /** What the search chooses, from the two tries and their rates */
  lemma AmChoice(baudrate: nat, ratio: nat, d0: nat, d1: nat, first: bool)
    requires baudrate > 0 && ratio * baudrate <= AM_CLK < (ratio + 1) * baudrate && d0 > 0 && d1 > 0
    requires var lo := ratio - ADJUST_DOWN[ratio % 8]; d0 == Try(lo, 0) && d1 == Try(lo, 1)
    requires first <==> Distance(Estimate(d0), baudrate) <= Distance(Estimate(d1), baudrate)
    ensures AmDivisor(baudrate) == if first then d0 else d1
  {
    hide Try, Estimate, Distance;
    QuotientAtLeast(AM_CLK, baudrate, ratio);
    QuotientBelow(AM_CLK, baudrate, ratio + 1);
  }

  lemma TopRate()
    ensures Programmed(3000000, AM, 3000000, 0, 0, 48)
  {
    hide Programmed;
    WordsOf(3000000, AM, 3000000, 0, false);
  }

  lemma Am9600()
    ensures Programmed(9600, AM, 9600, 312, 1, 48)
  {
    hide Programmed, AmDivisor;
    AmChoice(9600, 2500, 2500, 2504, true);
    AmWords(9600, 2500, 2500, 9600);
  }

  lemma Am19200()
    ensures Programmed(19200, AM, 19200, 156, 2, 48)
  {
    hide Programmed, AmDivisor;
    AmChoice(19200, 1250, 1250, 1252, true);
    AmWords(19200, 1250, 1250, 19200);
  }

  lemma Am57600()
    ensures Programmed(57600, AM, 57554, 52, 3, 48)
  {
    hide Programmed, AmDivisor;
    AmChoice(57600, 416, 416, 417, false);
    AmWords(57600, 416, 417, 57554);
  }

  lemma Am2000000()
    ensures Programmed(2000000, AM, 1500000, 2, 0, 48)
  {
    hide Programmed, AmDivisor;
    AmChoice(2000000, 12, 16, 16, true);
    AmWords(2000000, 12, 16, 1500000);
  }

  /** and on AM. */
  lemma KnownOnAM()
    ensures Programmed(9600, AM, 9600, 312, 1, 48)
    ensures Programmed(19200, AM, 19200, 156, 2, 48)
    ensures Programmed(57600, AM, 57554, 52, 3, 48)
    ensures Programmed(2000000, AM, 1500000, 2, 0, 48)
    ensures Programmed(3000000, AM, 3000000, 0, 0, 48)
  {
    hide Programmed;
    Am9600();
    Am19200();
    Am57600();
    Am2000000();
    TopRate();
  }

  /** High-speed chips use the fast clock from 733 baud up, which is where 14 bits of divisor suffice. */
  lemma ClockChoice(baudrate: nat, chip: Chip)
    ensures FastClock(baudrate, chip) <==> HighSpeed(chip) && baudrate >= 733
  {
  }

  // ---------- the tolerance test ----------

  /** The test of `ftdi_set_baudrate`; the first comparison catches overflows of the others. */
  predicate WithinTolerance(actual: nat, baudrate: nat) {
    && actual * 2 >= baudrate
    && if actual < baudrate then actual * 21 >= baudrate * 20 else baudrate * 21 >= actual * 20
  }

  predicate Accepted(baudrate: int, chip: Chip) {
    baudrate > 0 && Encoded(baudrate, chip).baud > 0 && WithinTolerance(Encoded(baudrate, chip).baud, baudrate)
  }

  /** The rate of a divisor rounded to the nearest eighth stays within about 1/32 of the request. */
  lemma CloseRate(r: nat, baudrate: nat, d: nat)
    requires baudrate > 0 && d >= 16 && r - baudrate < 2 * d * baudrate <= r + baudrate
    ensures 32 * baudrate < 32 * RateOf(r, d) + baudrate + 16
    ensures 32 * RateOf(r, d) < 32 * baudrate + baudrate + 16
  {
    DivideBounds(r, d);
    var x := r / d;
    var a := RateOf(r, d);
    assert 2 * a == x || 2 * a == x + 1;
    var over, under := 2 * a - 2 * baudrate - 1, 2 * baudrate - 2 * a - 1;
    assert d * (2 * a - 1) <= d * x by { if x > 2 * a - 1 { Arith.MulGap(d, x, 2 * a - 1); } }
    assert d * x <= d * (2 * a) by { if 2 * a > x { Arith.MulGap(d, 2 * a, x); } }
    assert d * over == d * (2 * a - 1) - 2 * d * baudrate;
    assert d * under == 2 * d * baudrate - d * (2 * a) - d;
    assert d * over < baudrate + 1 && d * under < baudrate;
    if over > 0 { SixteenAtMost(d, over); }
    if under > 0 { SixteenAtMost(d, under); }
  }

  lemma SixteenAtMost(d: nat, k: nat)
    requires d >= 16
    ensures 16 * k <= d * k
  {
  }

  /** The rates accepted with reference clock `r`: up to 5% above the three fastest settings, everything
      else that the longest divisor comes close to. */
  lemma CloseIsAccepted(actual: nat, baudrate: nat)
    requires baudrate >= 31
    requires 32 * baudrate < 32 * actual + baudrate + 16 && 32 * actual < 32 * baudrate + baudrate + 16
    ensures WithinTolerance(actual, baudrate)
  {
  }

  lemma CappedDivisor(baudrate: nat)
    requires 0 < baudrate <= 183
    ensures Chosen(baudrate, 48000000) == 0x1ffff && RateOf(48000000, 0x1ffff) == 183
  {
    QuotientAtLeast(48000000, baudrate, 262295);
  }

  lemma SlowAccepted(baudrate: nat, r: nat)
    requires (r == 48000000 && 183 < baudrate) || (r == 192000000 && 732 < baudrate)
    requires baudrate < r / 32
    ensures WithinTolerance(RateOf(r, Chosen(baudrate, r)), baudrate) && RateOf(r, Chosen(baudrate, r)) > 0
  {
    HalfStep(r, baudrate);
    QuotientAtLeast(r, baudrate, 32);
    if r == 48000000 {
      QuotientBelow(r, baudrate, 260870);
    } else {
      QuotientBelow(r, baudrate, 261938);
    }
    var d := RoundHalf(r / baudrate);
    assert Chosen(baudrate, r) == d;
    hide Chosen;
    CloseRate(r, baudrate, d);
    hide RateOf;
    CloseIsAccepted(RateOf(r, d), baudrate);
  }

  /** On BM, 2232C and R chips the tolerance test accepts exactly these rates. */
  lemma AcceptedOnBM(baudrate: int, chip: Chip)
    requires chip == BM || chip == C2232 || chip == R
    ensures Accepted(baudrate, chip) <==>
      175 <= baudrate <= 1575000 || 2000000 <= baudrate <= 2100000 || 3000000 <= baudrate <= 3150000
  {
    if baudrate > 0 {
      EncodedDecodes(baudrate, chip);
      SpecialCodes();
      hide Encoded, DecodeDivisor, RateOf;
      if baudrate <= 183 {
        CappedDivisor(baudrate);
      } else if baudrate < 1500000 {
        SlowAccepted(baudrate, 48000000);
      }
    }
  }

  /** On the high-speed chips, with the 12 MHz base. */
  lemma AcceptedOnH(baudrate: int, chip: Chip)
    requires HighSpeed(chip)
    ensures Accepted(baudrate, chip) <==>
      175 <= baudrate <= 6300000 || 8000000 <= baudrate <= 8400000 || 12000000 <= baudrate <= 12600000
  {
    if baudrate > 0 {
      EncodedDecodes(baudrate, chip);
      SpecialCodes();
      hide Encoded, DecodeDivisor, RateOf;
      if baudrate <= 183 {
        CappedDivisor(baudrate);
      } else if baudrate <= 732 {
        SlowAccepted(baudrate, 48000000);
      } else if baudrate < 6000000 {
        SlowAccepted(baudrate, 192000000);
      }
    }
  }

  /** The fields of `ftdi_context` that `ftdi_set_baudrate` uses. */
  class Context {
    var usbOpen: bool
    var bitbangEnabled: bool
    var baudrate: int
    var chip: Chip
    var port: nat

    /** The rate that is asked of the chip: bitbang rates count four to one. */
    function Requested(rate: int): int
      reads this
    {
      if bitbangEnabled then rate * 4 else rate
    }

    /** `ftdi_set_baudrate`; `sent` is the setting that went into the control transfer and `transferOk`
        whether the transfer succeeded. */
    method SetBaudrate(rate: int, transferOk: bool) returns (code: int, sent: Option<Setting>)
      requires port < 0x100
      modifies this`baudrate
      ensures code == -3 <==> !usbOpen
      ensures code == -1 <==> usbOpen && !Accepted(Requested(rate), chip)
      ensures code == -2 <==> usbOpen && Accepted(Requested(rate), chip) && !transferOk
      ensures code == 0 <==> usbOpen && Accepted(Requested(rate), chip) && transferOk
      ensures code in {-3, -2, -1, 0}
      ensures sent == if code == 0 || code == -2 then ConvertBaudrate(Requested(rate), chip, port) else None
      ensures baudrate == if code != 0 then old(baudrate) else if bitbangEnabled then 4 * rate else rate
    {
      hide Encoded;
      sent := None;
      if !usbOpen {
        return -3, None;
      }
      var wanted := rate;
      if bitbangEnabled {
        wanted := wanted * 4;
      }
      var converted := ConvertBaudrate(wanted, chip, port);
      if converted.None? || converted.value.baud <= 0 {
        return -1, None;
      }
      var actual := converted.value.baud;
      if actual * 2 < wanted || (if actual < wanted then actual * 21 < wanted * 20 else wanted * 21 < actual * 20) {
        return -1, None;
      }
      sent := converted;
      if !transferOk {
        return -2, sent;
      }
      baudrate := wanted;
      return 0, sent;
    }
  }
}
