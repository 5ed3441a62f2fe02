/** Rates travel as IEEE 754 binary32: converting an unsigned integer to it and truncating it back to an int. */
module Binary32 {
  import opened Octets

  function Log2(n: nat): (e: nat)
    requires n > 0
    ensures Pow2(e) <= n < 2 * Pow2(e)
  {
    if n == 1 then 0 else 1 + Log2(n / 2)
  }

  /** The significand, with its leading one, of the nearest float; ties go to even. */
  function Significand(n: Word32): nat
    requires n > 0
  {
    var e := Log2(n);
    if e <= 23 then n * Pow2(23 - e) else RoundTo(n, Pow2(e - 23))
  }

  function RoundTo(n: nat, ulp: nat): nat
    requires ulp > 0
  {
    var q, rem := n / ulp, n % ulp;
    if 2 * rem > ulp || (2 * rem == ulp && q % 2 == 1) then q + 1 else q
  }

  /** Rounding picks a nearest multiple, and of two equally near ones the even one. */
  lemma RoundsToNearest(n: nat, ulp: nat)
    requires ulp > 0
    ensures var m := RoundTo(n, ulp) * ulp;
            && 2 * m <= 2 * n + ulp && 2 * n <= 2 * m + ulp
            && (2 * m == 2 * n + ulp || 2 * n == 2 * m + ulp ==> RoundTo(n, ulp) % 2 == 0)
  {
    var q, rem := n / ulp, n % ulp;
    assert n == q * ulp + rem;
    assert (q + 1) * ulp == q * ulp + ulp;
  }

  /** A significand of 2^24 after rounding up carries into the exponent field by itself. */
  function FloatFields(n: Word32): nat {
    if n == 0 then 0 else 0x80_0000 * (127 + Log2(n)) + (Significand(n) - 0x80_0000)
  }

  /** A float read back and cut to an int. Values an int cannot hold convert to `outOfRange`. */
  datatype Truncated = Negative | Value(n: Word32)

  function Truncate(bits: Word32, outOfRange: Word32): Truncated {
    ScaledInRange(bits % 0x80_0000, bits / 0x80_0000 % 256);
    var exponent, fraction := bits / 0x80_0000 % 256, bits % 0x80_0000;
    if exponent == 255 && fraction != 0 then Value(outOfRange)
    else if bits > 0x8000_0000 then Negative
    else if bits == 0x8000_0000 || exponent < 127 then Value(0)
    else if exponent >= 158 then Value(outOfRange)
    else if exponent >= 150 then Value((0x80_0000 + fraction) * Pow2(exponent - 150))
    else Value((0x80_0000 + fraction) / Pow2(150 - exponent))
  }

  lemma ScaledInRange(fraction: nat, exponent: nat)
    requires fraction < 0x80_0000
    ensures 150 <= exponent < 158 ==> (0x80_0000 + fraction) * Pow2(exponent - 150) < 0x8000_0000
    ensures exponent < 150 ==> 0 <= (0x80_0000 + fraction) / Pow2(150 - exponent) <= 0x80_0000 + fraction
  {
    if 150 <= exponent < 158 {
      Pow2Monotone(exponent - 150, 7);
      MulBound(0x80_0000 + fraction, Pow2(exponent - 150));
    } else if exponent < 150 {
      QuotientBound(0x80_0000 + fraction, Pow2(150 - exponent));
    }
  }

  lemma MulBound(a: nat, p: nat)
    requires a < 0x100_0000 && p <= 128
    ensures a * p < 0x8000_0000
  {
    assert a * p <= a * 128 by { assert a * 128 == a * p + a * (128 - p); }
  }

  lemma QuotientBound(a: nat, p: nat)
    requires p > 0
    ensures 0 <= a / p <= a
  {
    var q := a / p;
    assert a == p * q + a % p;
    MulMonotone(1, p, q);
  }

  /** Integers that binary32 holds exactly and an int can hold too. */
  predicate ExactRate(n: Word32) {
    n == 0 || (n < 0x8000_0000 && (Log2(n) <= 23 || n % Pow2(Log2(n) - 23) == 0))
  }

  lemma SignificandRange(n: Word32)
    requires n > 0
    ensures Log2(n) < 32
    ensures 0x80_0000 <= Significand(n) <= 0x100_0000
    ensures Log2(n) <= 23 ==> Significand(n) < 0x100_0000
  {
    hide RoundTo, Pow2, Log2;
    var e := Log2(n);
    Pow2Values();
    if e >= 32 {
      Pow2Monotone(32, e);
    }
    if e <= 23 {
      Pow2Add(e, 23 - e);
      ScaleRange(n, Pow2(e), Pow2(23 - e));
    } else {
      var ulp := Pow2(e - 23);
      Pow2Add(23, e - 23);
      assert Pow2(e) == 0x80_0000 * ulp;
      RoundRange(n, ulp);
    }
  }

  lemma ScaleRange(n: nat, p: nat, d: nat)
    requires p <= n < 2 * p && d > 0
    ensures p * d <= n * d < 2 * (p * d)
  {
    MulMonotone(p, n, d);
    MulMonotone(n, 2 * p - 1, d);
    assert (2 * p - 1) * d == 2 * (p * d) - d;
  }

  lemma MulMonotone(a: nat, b: nat, d: nat)
    requires a <= b
    ensures a * d <= b * d
  {
    assert b * d == a * d + (b - a) * d;
  }

  lemma RoundRange(n: nat, ulp: nat)
    requires ulp > 0 && 0x80_0000 * ulp <= n < 2 * (0x80_0000 * ulp)
    ensures 0x80_0000 <= RoundTo(n, ulp) <= 0x100_0000
  {
    QuotientRange(n, ulp);
  }

  lemma QuotientRange(n: nat, ulp: nat)
    requires ulp > 0 && 0x80_0000 * ulp <= n < 2 * (0x80_0000 * ulp)
    ensures 0x80_0000 <= n / ulp < 0x100_0000
  {
    var q := n / ulp;
    assert n == q * ulp + n % ulp;
    assert q < 0x80_0000 ==> (q + 1) * ulp <= 0x80_0000 * ulp;
    assert q >= 0x100_0000 ==> q * ulp >= 0x100_0000 * ulp;
  }

  function FloatBits(n: Word32): Word32 {
    if n > 0 then SignificandRange(n); FloatFields(n) else 0
  }

  /** The fields of a float as the decoder extracts them. */
  lemma FieldsRead(n: Word32)
    requires n > 0
    ensures var b, e, s := FloatBits(n), Log2(n), Significand(n);
            && b < 0x8000_0000
            && (s < 0x100_0000 ==> b / 0x80_0000 % 256 == 127 + e && b % 0x80_0000 == s - 0x80_0000)
            && (s == 0x100_0000 ==> b / 0x80_0000 % 256 == 128 + e && b % 0x80_0000 == 0)
  {
    hide Significand, Log2;
    SignificandRange(n);
    var b, e, s := FloatBits(n), Log2(n), Significand(n);
    if s < 0x100_0000 {
      assert b / 0x80_0000 == 127 + e;
    } else {
      assert b / 0x80_0000 == 128 + e;
    }
  }

  lemma QuotientOfProduct(n: nat, d: nat)
    requires d > 0
    ensures n * d / d == n
  {
    var q := n * d / d;
    assert n * d == q * d + n * d % d;
    assert q < n ==> (q + 1) * d <= n * d;
    assert q > n ==> q * d >= (n + 1) * d;
  }

  lemma SmallRateRead(n: Word32, outOfRange: Word32)
    requires 0 < n && Log2(n) <= 23
    ensures Truncate(FloatBits(n), outOfRange) == Value(n)
  {
    hide FloatBits, Log2, Pow2;
    SignificandRange(n);
    FieldsRead(n);
    QuotientOfProduct(n, Pow2(23 - Log2(n)));
    NoScaling();
  }

  lemma NoScaling()
    ensures Pow2(0) == 1
  {
  }

  lemma LargeRateRead(n: Word32, outOfRange: Word32)
    requires 0 < n && 23 < Log2(n) < 31
    ensures var e, s, t := Log2(n), Significand(n), Truncate(FloatBits(n), outOfRange);
            && t.Value?
            && t.n == if e == 30 && s == 0x100_0000 then outOfRange as int else s * Pow2(e - 23)
  {
    hide FloatBits, Significand, Pow2, Log2;
    SignificandRange(n);
    FieldsRead(n);
    CarryScale(Log2(n));
  }

  lemma CarryScale(e: nat)
    requires e >= 23
    ensures 0x80_0000 * Pow2(e - 22) == 0x100_0000 * Pow2(e - 23)
  {
  }

  lemma RoundedDiffers(n: Word32)
    requires 0 < n && 23 < Log2(n)
    ensures Significand(n) * Pow2(Log2(n) - 23) == n <==> n % Pow2(Log2(n) - 23) == 0
  {
    hide Pow2, Log2, RoundTo;
    RoundExact(n, Pow2(Log2(n) - 23));
  }

  lemma RoundExact(n: nat, ulp: nat)
    requires ulp > 0
    ensures RoundTo(n, ulp) * ulp == n <==> n % ulp == 0
  {
    var q, rem := n / ulp, n % ulp;
    assert n == q * ulp + rem;
    assert (q + 1) * ulp == q * ulp + ulp;
  }

  lemma LogBounds(n: Word32)
    requires n > 0
    ensures n < 0x100_0000 <==> Log2(n) <= 23
    ensures n < 0x8000_0000 <==> Log2(n) < 31
  {
    Pow2Values();
    var e := Log2(n);
    if e <= 23 { Pow2Monotone(e, 23); } else { Pow2Monotone(24, e); }
    if e < 31 { Pow2Monotone(e, 30); } else { Pow2Monotone(31, e); }
  }

  /** A rate survives the trip through a float, on every platform, exactly when the float holds it. */
  lemma RateRoundTripExactly(n: Word32)
    ensures ExactRate(n) <==> forall outOfRange: Word32 :: Truncate(FloatBits(n), outOfRange) == Value(n)
  {
    hide FloatBits, Significand, Truncate;
    if n == 0 {
      ZeroRateRead();
    } else {
      LogBounds(n);
      var e := Log2(n);
      forall outOfRange: Word32
        ensures Truncate(FloatBits(n), outOfRange) == Value(n) <==> ExactRate(n) || (Overflows(n) && outOfRange == n)
      {
        RateRead(n, outOfRange);
      }
      var other: Word32 := if n == 1 then 2 else 1;
      assert Truncate(FloatBits(n), other) == Value(n) <==> ExactRate(n);
    }
  }

  predicate Overflows(n: Word32)
    requires n > 0
  {
    Log2(n) >= 31 || (Log2(n) == 30 && Significand(n) == 0x100_0000)
  }

  lemma ZeroRateRead()
    ensures forall outOfRange: Word32 :: Truncate(FloatBits(0), outOfRange) == Value(0)
  {
  }

  lemma HugeRateRead(n: Word32, outOfRange: Word32)
    requires 0 < n && Log2(n) >= 31
    ensures Truncate(FloatBits(n), outOfRange) == Value(outOfRange)
  {
    hide FloatBits, Significand;
    SignificandRange(n);
    FieldsRead(n);
  }

  lemma RateRead(n: Word32, outOfRange: Word32)
    requires n > 0
    ensures Truncate(FloatBits(n), outOfRange) == Value(n) <==> ExactRate(n) || (Overflows(n) && outOfRange == n)
  {
    hide FloatBits, Truncate, Significand, Pow2, Log2;
    LogBounds(n);
    var e := Log2(n);
    if e <= 23 {
      SmallRateRead(n, outOfRange);
    } else if e >= 31 {
      HugeRateRead(n, outOfRange);
    } else {
      LargeRateRead(n, outOfRange);
      RoundedDiffers(n);
      CarryIsTooLarge();
    }
  }

  lemma CarryIsTooLarge()
    ensures 0x100_0000 * Pow2(7) == 0x8000_0000
  {
  }

  // ----- the values floats stand for -----

  /** The exponent field and the significand with its leading one; the value is the significand times 2^(exponent - 150). */
  function Exponent(bits: Word32): nat {
    bits / 0x80_0000 % 256
  }

  function Whole(bits: Word32): nat {
    0x80_0000 + bits % 0x80_0000
  }

  lemma ExactScale(n: Word32)
    requires n > 0 && Log2(n) <= 23
    ensures 127 <= Exponent(FloatBits(n)) <= 150 && Whole(FloatBits(n)) == n * Pow2(150 - Exponent(FloatBits(n)))
  {
    hide FloatBits, Log2, Pow2;
    SignificandRange(n);
    FieldsRead(n);
  }

  lemma RoundedScale(n: Word32)
    requires n > 0 && Log2(n) > 23
    ensures var e, f, s := Log2(n), FloatBits(n), Significand(n);
            && 150 < Exponent(f) <= 159
            && Whole(f) * Pow2(Exponent(f) - 150) == s * Pow2(e - 23)
            && (s == 0x100_0000 ==> Exponent(f) == e + 128) && (s < 0x100_0000 ==> Exponent(f) == e + 127 && Whole(f) == s)
  {
    hide FloatBits, Log2, Pow2, Significand;
    SignificandRange(n);
    FieldsRead(n);
    CarryScale(Log2(n));
  }

  lemma Pow2Step(n: nat)
    requires n > 0
    ensures Pow2(n) == 2 * Pow2(n - 1)
  {
  }

  /**
    * The float of an integer, by its value: zero is all zeros; below 2^24 the value is the integer itself; above, it is a
    * nearest one among the multiples of its last place, and of two equally near the one with an even significand.
    */
  lemma FloatBitsNearest(n: Word32)
    ensures FloatBits(0) == 0 && FloatBits(n) < 0x8000_0000
    ensures 0 < n < 0x100_0000 ==>
              var f := FloatBits(n);
              127 <= Exponent(f) <= 150 && Whole(f) == n * Pow2(150 - Exponent(f))
    ensures n >= 0x100_0000 ==>
              var f := FloatBits(n);
              && 150 < Exponent(f) <= 159
              && var place := Pow2(Exponent(f) - 150);
                 var value := Whole(f) * place;
                 && 2 * value <= 2 * n + place && 2 * n <= 2 * value + place
                 && (2 * value == 2 * n + place || 2 * n == 2 * value + place ==> Whole(f) % 2 == 0)
  {
    hide FloatBits, Log2, Pow2, Exponent, Whole, Significand;
    ZeroBits();
    if n > 0 {
      LogBounds(n);
      FieldsRead(n);
      if n < 0x100_0000 {
        ExactScale(n);
      } else {
        LargeNearest(n);
      }
    }
  }

  lemma LargeNearest(n: Word32)
    requires n >= 0x100_0000
    ensures var f := FloatBits(n);
            && 150 < Exponent(f) <= 159
            && var place := Pow2(Exponent(f) - 150);
               var value := Whole(f) * place;
               && 2 * value <= 2 * n + place && 2 * n <= 2 * value + place
               && (2 * value == 2 * n + place || 2 * n == 2 * value + place ==> Whole(f) % 2 == 0)
  {
    hide FloatBits, Log2, Pow2, Exponent, Whole, RoundTo;
    LogBounds(n);
    SignificandRange(n);
    RoundedScale(n);
    var e, f := Log2(n), FloatBits(n);
    RoundsToNearest(n, Pow2(e - 23));
    Pow2Step(e - 22);
    Nearest(n, Significand(n), Pow2(e - 23), Whole(f), Pow2(Exponent(f) - 150));
  }

  /** Rounding up to the next power of two doubles the last place and keeps the value. */
  lemma Nearest(n: nat, s: nat, ulp: nat, w: nat, place: nat)
    requires ulp > 0 && w * place == s * ulp
    requires (place == ulp && w == s) || place == 2 * ulp
    requires 2 * (s * ulp) <= 2 * n + ulp && 2 * n <= 2 * (s * ulp) + ulp
    requires 2 * (s * ulp) == 2 * n + ulp || 2 * n == 2 * (s * ulp) + ulp ==> s % 2 == 0
    ensures var value := w * place;
            && 2 * value <= 2 * n + place && 2 * n <= 2 * value + place
            && (2 * value == 2 * n + place || 2 * n == 2 * value + place ==> w % 2 == 0)
  {
    var x := s * ulp;
  }

  lemma ZeroBits()
    ensures FloatBits(0) == 0
  {
  }

  /**
    * Reading a float as an int, by its value: not a number and values from 2^31 up give what the platform gives, negative
    * ones are refused, minus zero and values below one give zero, and the rest is rounded down.
    */
  lemma TruncateIsFloor(bits: Word32, outOfRange: Word32)
    ensures var t, e, w := Truncate(bits, outOfRange), Exponent(bits), Whole(bits);
            if e == 255 && bits % 0x80_0000 != 0 then t == Value(outOfRange)
            else if bits >= 0x8000_0000 then t == if bits == 0x8000_0000 then Value(0) else Negative
            else if e < 127 then t == Value(0)
            else if e >= 158 then t == Value(outOfRange)
            else
              && t.Value?
              && (e >= 150 ==> t.n == w * Pow2(e - 150))
              && (e < 150 ==> t.n * Pow2(150 - e) <= w < (t.n + 1) * Pow2(150 - e))
  {
    hide Pow2;
    var e, w := Exponent(bits), Whole(bits);
    if bits < 0x8000_0000 && 127 <= e < 150 {
      QuotientFloor(w, Pow2(150 - e));
    }
  }

  lemma QuotientFloor(a: nat, p: nat)
    requires p > 0
    ensures a / p * p <= a < (a / p + 1) * p
  {
    var q := a / p;
    assert a == q * p + a % p && (q + 1) * p == q * p + p;
  }
}
