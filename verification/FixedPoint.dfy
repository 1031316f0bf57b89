/** The 64-bit fixed-point arithmetic of the NTP clock discipline (klib/ntp.c).

    A value v stands for v / 2^32.  The C types are `s64` and `u64`; here a
    value is an `int` and every place where C would wrap is written out.
 */
module FixedPoint {
  import opened Powers

  const FPMAX: int := TWO63 - 1

  /** An operand that may be negated: C leaves -INT64_MIN undefined. */
  predicate Operand(x: int) {
    -TWO63 < x < TWO63
  }

  function Abs(x: int): nat {
    if x < 0 then -x else x
  }

  /** Reduction to a two's complement signed 64-bit value. */
  function Wrap64(x: int): (r: int)
    ensures -TWO63 <= r < TWO63
    ensures -TWO63 <= x < TWO63 ==> r == x
  {
    var u := x % TWO64;
    if u < TWO63 then u else u - TWO64
  }

  /** Index of the most significant set bit; all ones when there is none. */
  function Msb(x: nat): (m: nat)
    ensures x == 0 ==> m == TWO64 - 1
    ensures x > 0 ==> Pow2(m) <= x < 2 * Pow2(m)
  {
    if x == 0 then TWO64 - 1
    else if x == 1 then 0
    else 1 + Msb(x / 2)
  }

  /** A most significant bit at or above k is the same as a value of 2^k or more. */
  lemma MsbAtLeast(x: nat, k: nat)
    requires x > 0
    ensures Msb(x) >= k <==> x >= Pow2(k)
  {
    if Msb(x) >= k {
      Pow2Mono(k, Msb(x));
    } else {
      Pow2Mono(Msb(x) + 1, k);
    }
  }

  function MsbWide(x: nat): (m: nat)
    requires 0 < x < TWO128
  {
    if x / TWO64 != 0 then 64 + Msb(x / TWO64) else Msb(x)
  }

  lemma HighWord(x: nat, h: nat, p: nat)
    requires h == x / TWO64 && p <= h < 2 * p && x < TWO128
    ensures TWO64 * p <= x < 2 * (TWO64 * p)
    ensures h < TWO64
  {
  }

  lemma MsbWideBounds(x: nat)
    requires 0 < x < TWO128
    ensures Pow2(MsbWide(x)) <= x < 2 * Pow2(MsbWide(x))
    ensures MsbWide(x) < 128
    ensures MsbWide(x) <= 63 <==> x < TWO64
  {
    var h := x / TWO64;
    Pow2At();
    if h != 0 {
      Pow2Add(64, Msb(h));
      HighWord(x, h, Pow2(Msb(h)));
      MsbAtLeast(h, 64);
    } else {
      MsbAtLeast(x, 64);
    }
  }

  /** The number of low bits of the dividend that the single 64-bit division drops. */
  function DroppedBits(dividend: nat): (s: nat)
    requires dividend < TWO128
  {
    if dividend < TWO64 then 0
    else
      MsbWideBounds(dividend);
      MsbWide(dividend) - 63
  }

  /** C's division of unsigned values, defined by repeated subtraction. */
  function Quotient(x: nat, d: nat): (k: nat)
    requires d > 0
    ensures k * d <= x < (k + 1) * d
  {
    if x < d then 0 else 1 + Quotient(x - d, d)
  }

  lemma Cancel(u: int, v: int, b: int)
    requires b > 0 && u * b < v * b
    ensures u < v
  {
  }

  function Div128By64(dividend: nat, divisor: nat): (q: nat)
    requires dividend < TWO128 && divisor < TWO64
  {
    if dividend == 0 then 0
    else if divisor == 0 then TWO64 - 1
    else
      var top := MsbWide(dividend);
      if top <= 63 then Quotient(dividend % TWO64, divisor)
      else NarrowedQuotient(dividend, divisor, top - 63)
  }

  /** The branch for a dividend wider than 64 bits: one division of its top word. */
  function NarrowedQuotient(dividend: nat, divisor: nat, shift: nat): (q: nat)
    requires 0 < divisor
  {
    Rescale(Quotient(Quotient(dividend, Pow2(shift)) % TWO64, divisor), shift)
  }

  function Rescale(div: nat, shift: nat): (q: nat) {
    if Msb(div) >= 64 - shift then TWO64 - 1 else (div * Pow2(shift)) % TWO64
  }

  lemma MulMono(a: int, b: int, c: nat)
    requires a <= b
    ensures a * c <= b * c
  {
  }

  /** Dividing by p and then by d brackets the quotient by p * d. */
  lemma NestedQuotient(x: nat, p: nat, d: nat)
    requires p > 0 && d > 0
    ensures var k := Quotient(Quotient(x, p), d);
      k * (p * d) <= x < (k + 1) * (p * d)
  {
    var t := Quotient(x, p);
    Nested(x, p, d, t, Quotient(t, d));
  }

  lemma Nested(x: nat, p: nat, d: nat, t: nat, k: nat)
    requires t * p <= x < (t + 1) * p && k * d <= t < (k + 1) * d
    ensures k * (p * d) <= x < (k + 1) * (p * d)
  {
    MulMono(k * d, t, p);
    MulMono(t + 1, (k + 1) * d, p);
    assert k * (p * d) == (k * d) * p;
    assert (k + 1) * (p * d) == ((k + 1) * d) * p;
  }

  lemma NestedReaches(x: nat, p: nat, d: nat, n: nat)
    requires p > 0 && d > 0
    ensures Quotient(Quotient(x, p), d) >= n <==> x >= n * (p * d)
  {
    NestedQuotient(x, p, d);
    var k := Quotient(Quotient(x, p), d);
    if k >= n { MulMono(n, k, p * d); } else { MulMono(k + 1, n, p * d); }
  }

  /** Shifting the leading bit down to bit 63 leaves a word with bit 63 set. */
  lemma TopWord(x: nat, p: nat)
    requires p > 0 && TWO63 * p <= x < TWO64 * p
    ensures TWO63 <= Quotient(x, p) < TWO64
  {
    var t := Quotient(x, p);
    if t < TWO63 { MulMono(t + 1, TWO63, p); }
    if t >= TWO64 { MulMono(TWO64, t, p); }
  }

  /** q approximates dividend / divisor from below, to within 2^s. */
  predicate Brackets(q: nat, s: nat, dividend: nat, divisor: nat) {
    && q * divisor <= dividend < (q + Pow2(s)) * divisor
    && q + Pow2(s) <= TWO64
    && (q < TWO63 ==> q + Pow2(s) <= TWO63)
    && (q > TWO63 ==> q >= TWO63 + Pow2(s))
  }

  /** All ones when the quotient needs more than 64 bits, else an approximation. */
  predicate WideQuotient(q: nat, s: nat, dividend: nat, divisor: nat) {
    if dividend >= TWO64 * divisor then q == TWO64 - 1 else Brackets(q, s, dividend, divisor)
  }

  /** A top word that reaches the divisor gives a usable quotient. */
  lemma NarrowedBounds(dividend: nat, divisor: nat, s: nat)
    requires 0 < divisor && 0 < s <= 64
    requires TWO63 * Pow2(s) <= dividend < TWO64 * Pow2(s) && divisor * Pow2(s) <= dividend
    ensures WideQuotient(NarrowedQuotient(dividend, divisor, s), s, dividend, divisor)
  {
    var t := Quotient(dividend, Pow2(s));
    TopWord(dividend, Pow2(s));
    TopReaches(dividend, Pow2(s), divisor);
    QuotientPositive(t, divisor);
    NarrowedDiv(dividend, divisor, s);
    RescaleBounds(dividend, divisor, s, Quotient(t, divisor));
    SmallWord(t);
  }

  lemma TopReaches(x: nat, p: nat, d: nat)
    requires p > 0
    ensures Quotient(x, p) >= d <==> d * p <= x
  {
    var t := Quotient(x, p);
    if t >= d { MulMono(d, t, p); } else { MulMono(t + 1, d, p); }
  }

  /** A top word below the divisor has quotient zero, which is taken for an overflow although
      the quotient of the whole dividend fits. */
  lemma NarrowedFails(dividend: nat, divisor: nat, s: nat)
    requires 0 < divisor && 0 < s <= 64
    requires TWO63 * Pow2(s) <= dividend < TWO64 * Pow2(s) && dividend < divisor * Pow2(s)
    ensures NarrowedQuotient(dividend, divisor, s) == TWO64 - 1
  {
    TopWord(dividend, Pow2(s));
    TopReaches(dividend, Pow2(s), divisor);
    ZeroQuotient(Quotient(dividend, Pow2(s)), divisor, s);
  }

  lemma ZeroQuotient(t: nat, divisor: nat, s: nat)
    requires t < divisor && t < TWO64
    ensures Rescale(Quotient(t % TWO64, divisor), s) == TWO64 - 1
  {
    SmallWord(t);
  }

  lemma QuotientFits(dividend: nat, divisor: nat, s: nat)
    requires s <= 64 && dividend < divisor * Pow2(s)
    ensures dividend < TWO64 * divisor
  {
    WordPower(s);
    MulMono(Pow2(s), TWO64, divisor);
  }

  lemma WordPower(s: nat)
    requires s <= 64
    ensures Pow2(s) <= TWO64
  {
    Pow2At();
    Pow2Mono(s, 64);
  }

  /** The quotient of the top word brackets the full quotient. */
  lemma NarrowedDiv(dividend: nat, divisor: nat, s: nat)
    requires 0 < divisor && 0 < s <= 64
    requires s == 64 ==> Quotient(Quotient(dividend, Pow2(s)), divisor) >= 1
    ensures var div := Quotient(Quotient(dividend, Pow2(s)), divisor);
      && (div >= Pow2(64 - s) <==> dividend >= TWO64 * divisor)
      && (div < Pow2(64 - s) ==> Brackets(div * Pow2(s), s, dividend, divisor))
  {
    Pow2At();
    Pow2Add(64 - s, s);
    NarrowedCore(dividend, divisor, Pow2(s), Pow2(64 - s));
    if s < 64 {
      Pow2Add(63 - s, s);
      BelowHalf(Quotient(Quotient(dividend, Pow2(s)), divisor), Pow2(s), Pow2(63 - s));
    }
  }

  lemma SmallWord(x: nat)
    requires x < TWO64
    ensures x % TWO64 == x
  {
  }

  lemma QuotientPositive(t: nat, d: nat)
    requires 0 < d <= t
    ensures Quotient(t, d) >= 1
  {
  }

  lemma RescaleBounds(dividend: nat, divisor: nat, s: nat, div: nat)
    requires s <= 64 && div >= 1
    requires div >= Pow2(64 - s) <==> dividend >= TWO64 * divisor
    requires var q := div * Pow2(s);
      div < Pow2(64 - s) ==> Brackets(q, s, dividend, divisor)
    ensures WideQuotient(Rescale(div, s), s, dividend, divisor)
  {
    RescaleValue(div, s);
  }

  lemma RescaleValue(div: nat, s: nat)
    requires s <= 64 && div >= 1
    requires div < Pow2(64 - s) ==> div * Pow2(s) < TWO64
    ensures Rescale(div, s) == if div >= Pow2(64 - s) then TWO64 - 1 else div * Pow2(s)
  {
    MsbAtLeast(div, 64 - s);
    if div < Pow2(64 - s) { SmallWord(div * Pow2(s)); }
  }

  /** The same bounds with the powers of two named: h * p is 2^64. */
  lemma NarrowedCore(dividend: nat, divisor: nat, p: nat, h: nat)
    requires divisor > 0 && p > 0 && h * p == TWO64
    ensures var div := Quotient(Quotient(dividend, p), divisor);
      && (div >= h <==> dividend >= TWO64 * divisor)
      && (div < h ==> div * p + p <= TWO64 && (div * p) * divisor <= dividend < (div * p + p) * divisor)
  {
    var div := Quotient(Quotient(dividend, p), divisor);
    NestedReaches(dividend, p, divisor, h);
    Regroup(h, p, divisor);
    NestedQuotient(dividend, p, divisor);
    Regroup(div, p, divisor);
    if div < h { MulMono(div + 1, h, p); }
  }

  lemma BelowHalf(k: nat, p: nat, g: nat)
    requires g * p == TWO63
    ensures k * p < TWO63 ==> k * p + p <= TWO63
    ensures k * p > TWO63 ==> k * p >= TWO63 + p
  {
    Regroup(k, p, 1);
    Regroup(g, p, 1);
    if k < g { MulMono(k + 1, g, p); } else if k > g { MulMono(g + 1, k, p); }
  }

  lemma Regroup(k: nat, p: nat, d: nat)
    ensures k * (p * d) == (k * p) * d
    ensures (k + 1) * (p * d) == (k * p + p) * d
    ensures (k + 1) * p == k * p + p
  {
  }

  lemma SmallDividend(dividend: nat, divisor: nat)
    requires dividend < TWO64 && 0 < divisor
    ensures WideQuotient(Quotient(dividend, divisor), 0, dividend, divisor)
  {
    var q := Quotient(dividend, divisor);
    MulMono(1, divisor, q);
    MulMono(1, divisor, TWO64);
  }

  /** The dividend has more than 64 bits and its top word is below the divisor. */
  predicate TopTooSmall(dividend: nat, divisor: nat)
    requires dividend < TWO128
  {
    dividend >= TWO64 && dividend < divisor * Pow2(DroppedBits(dividend))
  }

  /** What the wide division returns, for every dividend and divisor: all ones when the
      quotient does not fit in 64 bits, and otherwise a lower bound that is off by less than
      2^s, where s is the number of dropped bits; except that a top word below the divisor
      also gives all ones. */
  lemma DivisionExactly(dividend: nat, divisor: nat)
    requires dividend < TWO128 && 0 < divisor < TWO64
    ensures WideQuotient(Div128By64(dividend, divisor), DroppedBits(dividend), dividend, divisor) <==>
            !TopTooSmall(dividend, divisor)
    ensures TopTooSmall(dividend, divisor) ==> Div128By64(dividend, divisor) == TWO64 - 1
  {
    if dividend > 0 {
      MsbWideBounds(dividend);
      Pow2At();
      if dividend < TWO64 {
        SmallWord(dividend);
        SmallDividend(dividend, divisor);
      } else {
        var s := MsbWide(dividend) - 63;
        Pow2Add(63, s);
        if TopTooSmall(dividend, divisor) {
          NarrowedFails(dividend, divisor, s);
          QuotientFits(dividend, divisor, s);
          assert Pow2(s) == 2 * Pow2(s - 1);
        } else {
          NarrowedBounds(dividend, divisor, s);
        }
      }
    }
  }

  /** The top word reaches every divisor of 63 bits, so the operands of a signed division
      are never among the exceptions. */
  lemma DivisionBounds(dividend: nat, divisor: nat)
    requires dividend < TWO128 && 0 < divisor <= TWO63
    ensures WideQuotient(Div128By64(dividend, divisor), DroppedBits(dividend), dividend, divisor)
  {
    DivisionExactly(dividend, divisor);
    if dividend >= TWO64 {
      MsbWideBounds(dividend);
      Pow2At();
      var s := MsbWide(dividend) - 63;
      Pow2Add(63, s);
      MulMono(divisor, TWO63, Pow2(s));
    }
  }

  /** Dividing 2^64 by 2^64 - 1 gives all ones instead of 1. */
  lemma DivisionFails()
    ensures TopTooSmall(TWO64, TWO64 - 1) && Div128By64(TWO64, TWO64 - 1) == TWO64 - 1
  {
    MsbWideBounds(TWO64);
    Pow2At();
    MsbAtMost(MsbWide(TWO64), TWO64, 64);
    assert DroppedBits(TWO64) == 1 && Pow2(1) == 2;
    DivisionExactly(TWO64, TWO64 - 1);
  }

  /** Exactly one of the two operands is negative. */
  predicate OppositeSigns(a: int, b: int) {
    (a < 0 || b < 0) && !(a < 0 && b < 0)
  }

  function Negate(negative: bool, v: int): (r: int) {
    if negative then Wrap64(-v) else v
  }

  function FpMul(a: int, b: int): (r: int)
    requires Operand(a) && Operand(b)
    ensures -TWO63 <= r < TWO63
  {
    Negate(OppositeSigns(a, b), Wrap64((Abs(a) * Abs(b)) / TWO32))
  }

  function FpDiv(dividend: int, divisor: int): (r: int)
    requires Operand(dividend) && Operand(divisor)
    ensures -TWO63 <= r < TWO63
  {
    Signed(Div128By64(Abs(dividend) * TWO32, Abs(divisor)), OppositeSigns(dividend, divisor))
  }

  /** The unsigned quotient read as signed, tested for the out-of-range marker,
      and negated when the operands have opposite signs. */
  function Signed(quotient: nat, opposite: bool): (r: int)
    ensures -TWO63 <= r < TWO63
  {
    var q := Wrap64(quotient);
    Negate(opposite, if q == -1 then FPMAX else q)
  }

  /** Low bits lost in the division of the fixed-point value a by anything. */
  function LostBits(a: int): (s: nat)
    requires Operand(a)
    ensures s <= 31
  {
    DroppedAtMost(a);
    DroppedBits(Abs(a) * TWO32)
  }

  /** A product by 2^32 has at most 95 bits, and is not one below a power of two. */
  lemma DroppedAtMost(a: int)
    requires Operand(a)
    ensures var d := Abs(a) * TWO32;
      d < TWO128 && DroppedBits(d) <= 31 && (DroppedBits(d) == 0 ==> d < TWO64 - 1)
  {
    var d := Abs(a) * TWO32;
    if d >= TWO64 {
      MsbWideBounds(d);
      Pow2Half();
      Pow2At();
      Pow2Add(32, 63);
      MsbAtMost(MsbWide(d), d, 94);
    }
  }

  lemma MsbAtMost(m: nat, x: nat, k: nat)
    requires Pow2(m) <= x < 2 * Pow2(k)
    ensures m <= k
  {
    if m > k { Pow2Mono(k + 1, m); }
  }

  /** m is the magnitude of a / b in fixed point, low by less than p. */
  predicate Near(m: nat, p: nat, a: int, b: int) {
    m * Abs(b) <= Abs(a) * TWO32 < (m + p) * Abs(b)
  }

  /** r is a / b in fixed point: the right sign, never too large in magnitude,
      and too small by less than 2^s. */
  predicate Rounds(r: int, s: nat, a: int, b: int) {
    && Near(Abs(r), Pow2(s), a, b)
    && (r > 0 ==> !OppositeSigns(a, b))
    && (r < 0 ==> OppositeSigns(a, b))
  }

  lemma SignedValue(q: nat, opposite: bool)
    requires q < TWO64
    ensures q < TWO63 ==> Signed(q, opposite) == (if opposite then 0 - q else q)
    ensures q == TWO63 ==> Signed(q, opposite) == -TWO63
    ensures TWO63 < q < TWO64 - 1 ==> Signed(q, opposite) == if opposite then TWO64 - q else q - TWO64
    ensures q == TWO64 - 1 ==> Signed(q, opposite) == if opposite then -FPMAX else FPMAX
  {
  }

  /** The signed quotient has the right sign exactly when the unsigned one is below 2^63,
      or is 2^63 and the result is negative. */
  lemma SignedSign(q: nat, opposite: bool)
    requires q < TWO64 - 1
    ensures var r := Signed(q, opposite);
      && (q <= TWO63 ==> Abs(r) == q)
      && ((r > 0 ==> !opposite) && (r < 0 ==> opposite) <==> q < TWO63 || (opposite && q == TWO63))
  {
    SignedValue(q, opposite);
  }

  /** A quotient that fits is never mistaken for the out-of-range marker. */
  lemma NotMarker(q: nat, s: nat, n: nat, d: nat)
    requires Brackets(q, s, n, d) && d >= 1
    requires s == 0 ==> n < TWO64 - 1
    ensures q < TWO64 - 1
  {
    if s == 0 { MulMono(1, d, q); } else { Pow2Mono(1, s); }
  }

  lemma SignedFits(q: nat, p: nat, a: int, b: int)
    requires b != 0 && p >= 1 && Near(q, p, a, b)
    requires (q < TWO63 ==> q + p <= TWO63) && (q > TWO63 ==> q >= TWO63 + p)
    ensures q < TWO63 <==> Abs(a) * TWO32 < TWO63 * Abs(b)
    ensures q <= TWO63 <==> Abs(a) * TWO32 < (TWO63 + p) * Abs(b)
  {
    var d := Abs(b);
    if q < TWO63 { MulMono(q + p, TWO63, d); } else { MulMono(TWO63, q, d); }
    if q <= TWO63 { MulMono(q + p, TWO63 + p, d); } else { MulMono(TWO63 + p, q, d); }
  }

  /** When division gives the right answer. */
  predicate InRange(s: nat, a: int, b: int) {
    || Abs(a) * TWO32 < TWO63 * Abs(b)
    || (OppositeSigns(a, b) && Abs(a) * TWO32 < (TWO63 + Pow2(s)) * Abs(b))
  }

  lemma FitsRounds(q: nat, s: nat, a: int, b: int)
    requires b != 0 && q < TWO64 - 1 && Brackets(q, s, Abs(a) * TWO32, Abs(b))
    ensures Rounds(Signed(q, OppositeSigns(a, b)), s, a, b) <==> InRange(s, a, b)
  {
    SignedSign(q, OppositeSigns(a, b));
    SignedFits(q, Pow2(s), a, b);
    if q <= TWO63 { NearSame(Abs(Signed(q, OppositeSigns(a, b))), q, Pow2(s), a, b); }
  }

  lemma NearSame(m: nat, q: nat, p: nat, a: int, b: int)
    requires m == q && Near(q, p, a, b)
    ensures Near(m, p, a, b)
  {
  }

  lemma SaturatedRounds(s: nat, a: int, b: int)
    requires b != 0 && s <= 31 && Abs(a) * TWO32 >= TWO64 * Abs(b)
    ensures !Rounds(Signed(TWO64 - 1, OppositeSigns(a, b)), s, a, b) && !InRange(s, a, b)
  {
    Pow2Mono(s, 31);
    Pow2Half();
    SignedValue(TWO64 - 1, OppositeSigns(a, b));
    assert Abs(Signed(TWO64 - 1, OppositeSigns(a, b))) == FPMAX;
    MulMono(FPMAX + Pow2(s), TWO64, Abs(b));
    MulMono(TWO63 + Pow2(s), TWO64, Abs(b));
    MulMono(TWO63, TWO64, Abs(b));
  }

  /** Division is right exactly when the quotient is below 2^63, or is negative
      and rounds to -2^63 itself.  Between 2^63 and 2^64 the sign comes out
      wrong, because only a quotient of 2^64 or more is reported as out of range. */
  lemma DivideExactly(a: int, b: int)
    requires Operand(a) && Operand(b) && b != 0
    ensures Rounds(FpDiv(a, b), LostBits(a), a, b) <==> InRange(LostBits(a), a, b)
  {
    var n, d := Abs(a) * TWO32, Abs(b);
    DroppedAtMost(a);
    DivisionBounds(n, d);
    if n >= TWO64 * d {
      SaturatedRounds(LostBits(a), a, b);
    } else {
      NotMarker(Div128By64(n, d), LostBits(a), n, d);
      FitsRounds(Div128By64(n, d), LostBits(a), a, b);
    }
  }

  /** A quotient of 2^64 or more, and any division of a nonzero value by zero,
      saturates with the sign of the true quotient. */
  lemma DivideSaturates(a: int, b: int)
    requires Operand(a) && Operand(b) && a != 0
    requires Abs(a) * TWO32 >= TWO64 * Abs(b)
    ensures FpDiv(a, b) == if OppositeSigns(a, b) then -FPMAX else FPMAX
  {
    if b != 0 { DivisionBounds(Abs(a) * TWO32, Abs(b)); }
    SignedValue(TWO64 - 1, OppositeSigns(a, b));
  }

  /** For example 1.0 divided by 2^-31 is 2^31, which comes out negative. */
  lemma DivideWrongSign()
    ensures !Rounds(FpDiv(TWO32, 2), LostBits(TWO32), TWO32, 2)
  {
    DivideExactly(TWO32, 2);
  }

  /** Multiplying back: with the quotient below 2^63, the product has the sign of
      the dividend, never exceeds it in magnitude, and falls short of it by less
      than one unit plus the error of the quotient scaled by the divisor. */
  lemma MultiplyBack(a: int, b: int)
    requires Operand(a) && Operand(b) && b != 0
    requires Abs(a) * TWO32 < TWO63 * Abs(b)
    ensures Operand(FpDiv(a, b))
    ensures var m := FpMul(FpDiv(a, b), b);
      && (m > 0 ==> a > 0) && (m < 0 ==> a < 0)
      && Abs(m) <= Abs(a)
      && (Abs(a) - Abs(m)) * TWO32 < TWO32 + Pow2(LostBits(a)) * Abs(b)
  {
    DivideExactly(a, b);
    var r := FpDiv(a, b);
    BelowLimit(Abs(r), Abs(a) * TWO32, Abs(b));
    ProductBack(r, a, b, Pow2(LostBits(a)));
  }

  lemma BelowLimit(q: nat, n: nat, d: nat)
    requires q * d <= n < TWO63 * d
    ensures q < TWO63
  {
    if q >= TWO63 { MulMono(TWO63, q, d); }
  }

  lemma ProductBack(r: int, a: int, b: int, p: nat)
    requires Operand(r) && Operand(a) && Operand(b) && Near(Abs(r), p, a, b)
    requires (r > 0 ==> !OppositeSigns(a, b)) && (r < 0 ==> OppositeSigns(a, b))
    ensures var m := FpMul(r, b);
      && (m > 0 ==> a > 0) && (m < 0 ==> a < 0) && Abs(m) <= Abs(a)
      && (Abs(a) - Abs(m)) * TWO32 < TWO32 + p * Abs(b)
  {
    var k := Abs(r) * Abs(b);
    Distribute(Abs(r), p, Abs(b));
    ShiftDown(k, Abs(a), p * Abs(b));
    ProductValue(r, b, k);
  }

  lemma Distribute(m: nat, p: nat, d: nat)
    ensures (m + p) * d == m * d + p * d
  {
  }

  lemma ProductValue(r: int, b: int, k: nat)
    requires Operand(r) && Operand(b) && k == Abs(r) * Abs(b) && k / TWO32 < TWO63
    ensures FpMul(r, b) == if OppositeSigns(r, b) then -(k / TWO32) else k / TWO32
    ensures r == 0 ==> FpMul(r, b) == 0
  {
  }

  /** r is p, the product of two magnitudes, scaled back, rounded towards zero and signed. */
  predicate IsScaled(r: int, p: nat, negative: bool) {
    Abs(r) * TWO32 <= p < (Abs(r) + 1) * TWO32 && (r < 0 ==> negative) && (r > 0 ==> !negative)
  }

  /** The scaled product fits in a signed 64-bit number. */
  predicate ScaledFits(p: nat, negative: bool) {
    p / TWO32 < TWO63 || (p / TWO32 == TWO63 && negative)
  }

  /** The product is right exactly when it fits. */
  lemma MultiplyExactly(a: int, b: int, p: nat)
    requires Operand(a) && Operand(b) && p == Abs(a) * Abs(b)
    ensures IsScaled(FpMul(a, b), p, OppositeSigns(a, b)) <==> ScaledFits(p, OppositeSigns(a, b))
  {
    ScaledExactly(p, OppositeSigns(a, b));
  }

  lemma ScaledExactly(p: nat, negative: bool)
    ensures IsScaled(Negate(negative, Wrap64(p / TWO32)), p, negative) <==> ScaledFits(p, negative)
  {
    Truncated(Abs(Negate(negative, Wrap64(p / TWO32))), p / TWO32, p);
    WrappedBelow(p / TWO32);
  }

  lemma Truncated(m: nat, k: nat, p: nat)
    requires k == p / TWO32
    ensures m * TWO32 <= p < (m + 1) * TWO32 <==> m == k
  {
  }

  /** A magnitude that does not fit comes out smaller. */
  lemma WrappedBelow(k: nat)
    ensures k > TWO63 ==> Abs(Wrap64(k)) < k && Abs(Wrap64(-Wrap64(k))) < k
    ensures k == TWO63 ==> Wrap64(k) == -TWO63 && Wrap64(-Wrap64(k)) == -TWO63
  {
  }

  lemma ShiftDown(k: nat, a: nat, slack: nat)
    requires k <= a * TWO32 < k + slack && a < TWO63
    ensures 0 <= k / TWO32 <= a
    ensures (a - k / TWO32) * TWO32 < TWO32 + slack
  {
  }
}
