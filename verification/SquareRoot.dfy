/** The fixed-point square root of klib/ntp.c, digit by digit in signed 64-bit arithmetic,
    and exactly when wrap-around spoils its result. */
module SquareRoot {
  import opened FixedPoint
  import opened Powers

  /** 2^62: the first step, and the scale of the number whose root is taken. */
  const TWO62: int := 0x4000_0000_0000_0000
  /** 2^60: below it nothing wraps. */
  const TWO60: int := 0x1000_0000_0000_0000

  /** q is the floor of the square root of m. */
  ghost predicate FloorRoot(q: int, m: int) {
    q >= 0 && q * q <= m < (q + 1) * (q + 1)
  }

  function Times(k: int, c: int): (r: int) {
    k * c
  }

  ghost predicate Multiple(x: int, c: int) {
    exists k :: x == Times(k, c)
  }

  /** x is the square root of a * 2^62 cut off after bit e + 1. */
  ghost predicate RootTo(a: int, e: nat, x: int) {
    && x >= 0 && Multiple(x, 2 * Pow2(e))
    && x * x <= a * TWO62 < (x + 2 * Pow2(e)) * (x + 2 * Pow2(e))
  }

  /** The remainder left by x, divided by 2^e, is a signed 64-bit number. */
  predicate RemainderFits(a: int, e: nat, x: int) {
    a * TWO62 - x * x < TWO63 * Pow2(e)
  }

  /** For every leading part of the root that reaches above bit 15, the remainder fits. */
  ghost predicate NoWrap(a: int) {
    forall e: nat, x: int | 15 <= e <= 61 && RootTo(a, e, x) :: RemainderFits(a, e, x)
  }

  // ---- multiples ----

  lemma MultipleTrans(x: int, b: int, c: int)
    requires Multiple(x, b) && Multiple(b, c)
    ensures Multiple(x, c)
  {
    var k :| x == Times(k, b);
    var j :| b == Times(j, c);
    assert k * (j * c) == (k * j) * c;
    assert x == Times(k * j, c);
  }

  /** A multiple of 2b, and b more than it, are multiples of b. */
  lemma MultipleHalves(x: int, b: int)
    requires Multiple(x, 2 * b)
    ensures Multiple(x, b) && Multiple(x + b, b)
  {
    var k :| x == Times(k, 2 * b);
    assert x == Times(2 * k, b);
    assert x + b == Times(2 * k + 1, b);
  }

  lemma Pow2Multiple(e: nat, k: nat)
    requires k <= e
    ensures Multiple(Pow2(e), Pow2(k))
  {
    Pow2Add(e - k, k);
    assert Pow2(e) == Times(Pow2(e - k), Pow2(k));
  }

  lemma Pow2Fifteen()
    ensures Pow2(15) == 0x8000 && Pow2(14) == 0x4000
  {
    Pow2Low();
    Pow2Add(7, 8);
    assert Pow2(15) == 2 * Pow2(14);
  }

  lemma Pow2SixtyTwo()
    ensures Pow2(62) == TWO62 && Pow2(61) == ROOT_LIMIT
  {
    Pow2At();
    assert Pow2(62) == 2 * Pow2(61);
  }

  lemma Squares(u: nat, v: nat)
    requires u <= v
    ensures u * u <= v * v
  {
    MulMono(u, v, u);
    MulMono(u, v, v);
  }

  lemma RootsClose(x: int, y: int, n: int, c: int)
    requires x >= 0 && y >= 0 && c > 0 && x * x <= n < (y + c) * (y + c)
    ensures x < y + c
  {
    if x >= y + c { Squares(y + c, x); }
  }

  /** There is only one such part of the root. */
  lemma RootToUnique(a: int, e: nat, x: int, y: int)
    requires RootTo(a, e, x) && RootTo(a, e, y)
    ensures x == y
  {
    var c := 2 * Pow2(e);
    RootsClose(x, y, a * TWO62, c);
    RootsClose(y, x, a * TWO62, c);
    var k :| x == Times(k, c);
    var l :| y == Times(l, c);
    CloseMultiples(k, l, c);
  }

  lemma CloseMultiples(k: int, l: int, c: int)
    requires c > 0 && k * c < l * c + c && l * c < k * c + c
    ensures k == l
  {
    assert l * c + c == (l + 1) * c && k * c + c == (k + 1) * c;
    Cancel(k, l + 1, c);
    Cancel(l, k + 1, c);
  }

  // ---- exact rounds ----

  /** The root so far is a multiple of 2b, where the step b is 2^e, and together with 2b it
      does not exceed 2^l. */
  ghost predicate RootSize(l: nat, x: int, e: nat, b: int) {
    && b == Pow2(e) && 6 <= e <= 62 && x >= 0 && Multiple(x, 2 * b)
    && (x + 2 * b <= Pow2(l) || (x == 0 && e >= l))
  }

  /** x is the root of n so far, to within 2b, and the remainder n - x^2 is kept divided by
      the step b. */
  ghost predicate RootValue(n: int, x: int, b: int, r: int) {
    && r * b == n - x * x
    && x * x <= n < (x + 2 * b) * (x + 2 * b)
  }

  /** Both, for a * 2^62, whose root is below 2^l. */
  ghost predicate RootState(a: int, l: nat, x: int, e: nat, b: int, r: int) {
    && 61 <= l <= 62 && a * TWO62 < Pow2(l) * Pow2(l)
    && RootSize(l, x, e, b) && RootValue(a * TWO62, x, b, r)
  }

  lemma InitialRoot(a: int, l: nat)
    requires (l == 61 && 0 <= a < TWO60) || (l == 62 && 0 <= a < TWO62)
    ensures RootState(a, l, 0, 62, TWO62, a)
  {
    Pow2SixtyTwo();
    assert 0 == Times(0, 2 * TWO62);
  }

  lemma SizeInRange(l: nat, x: int, e: nat, b: int)
    requires RootSize(l, x, e, b) && 61 <= l <= 62
    ensures 0 <= 2 * x + b < TWO63 && 64 <= b <= TWO62 && (b == 64 <==> e == 6)
  {
    Pow2Low();
    Pow2Mono(6, e);
    if e > 6 { Pow2Mono(7, e); }
    Pow2SixtyTwo();
    Pow2Mono(e, 62);
  }

  lemma SizeStep(l: nat, x: int, e: nat, b: int)
    requires RootSize(l, x, e, b) && e > 6
    ensures RootSize(l, x, e - 1, b / 2) && b == 2 * (b / 2) && b / 2 > 0
    ensures x + b < Pow2(l) ==> RootSize(l, x + b, e - 1, b / 2)
  {
    assert Pow2(e) == 2 * Pow2(e - 1);
    MultipleHalves(x, b);
    if e >= l { Pow2Mono(l, e); }
  }

  /** The remainder scaled by the step b = 2h stays n - x^2. */
  lemma RootRemainder(n: int, x: int, h: int, r: int)
    requires r * (2 * h) == n - x * x
    ensures (2 * r) * h == n - x * x
    ensures (2 * (r - (2 * x + 2 * h))) * h == n - (x + 2 * h) * (x + 2 * h)
  {
  }

  /** The bracket x <= sqrt(n) < x + 2b narrows to a step of b. */
  lemma RootNarrows(n: int, x: int, b: int, r: int)
    requires r * b == n - x * x && b > 0
    ensures r < 2 * x + b ==> n < (x + b) * (x + b)
    ensures r >= 2 * x + b ==> n >= (x + b) * (x + b)
  {
    if r < 2 * x + b {
      assert r * b < (2 * x + b) * b;
    } else {
      assert r * b >= (2 * x + b) * b;
    }
    assert (x + b) * (x + b) == x * x + (2 * x + b) * b;
  }

  lemma RemainderBound(n: int, x: int, b: int, r: int)
    requires RootValue(n, x, b, r) && b > 0 && x >= 0
    ensures 0 <= r < 4 * x + 4 * b
  {
    assert (x + 2 * b) * (x + 2 * b) == x * x + (4 * x + 4 * b) * b;
    Cancel(r, 4 * x + 4 * b, b);
    Cancel(-1, r, b);
  }

  /** The root is kept: the next remainder is twice the present one. */
  lemma ValueSkip(n: int, x: int, b: int, h: int, r: int)
    requires RootValue(n, x, b, r) && b == 2 * h && h > 0 && r < 2 * x + b && x >= 0
    ensures RootValue(n, x, h, 2 * r) && 0 <= 2 * r < 4 * x + 4 * h
  {
    RootRemainder(n, x, h, r);
    RootNarrows(n, x, b, r);
    RemainderBound(n, x, h, 2 * r);
  }

  /** The step is added to the root. */
  lemma ValueTake(n: int, x: int, b: int, h: int, r: int)
    requires RootValue(n, x, b, r) && b == 2 * h && h > 0 && r >= 2 * x + b && x >= 0
    ensures RootValue(n, x + b, h, 2 * (r - (2 * x + b))) && 0 <= 2 * (r - (2 * x + b)) < 4 * (x + b) + 4 * h
  {
    RootRemainder(n, x, h, r);
    RootNarrows(n, x, b, r);
    RemainderBound(n, x + b, h, 2 * (r - (2 * x + b)));
  }

  lemma RootBelow(n: int, y: int, limit: nat)
    requires y >= 0 && y * y <= n < limit * limit
    ensures y < limit
  {
    if y >= limit { Squares(limit, y); }
  }

  /** The root and the remainder after a round without wrap-around. */
  function NextRoot(x: int, b: int, r: int): (y: int) {
    if r >= 2 * x + b then x + b else x
  }

  function NextRemainder(x: int, b: int, r: int): (s: int) {
    2 * if r >= 2 * x + b then r - (2 * x + b) else r
  }

  lemma SkipRound(a: int, l: nat, x: int, e: nat, b: int, r: int)
    requires RootState(a, l, x, e, b, r) && b > 64 && r < 2 * x + b
    ensures RootState(a, l, x, e - 1, b / 2, 2 * r) && 0 <= 2 * r < if l == 61 then TWO63 else TWO64
  {
    SizeStep(l, x, e, b);
    ValueSkip(a * TWO62, x, b, b / 2, r);
    SizeInRange(l, x, e, b);
    Pow2SixtyTwo();
    if e >= 61 { Pow2Mono(e, 62); }
  }

  lemma TakeRound(a: int, l: nat, x: int, e: nat, b: int, r: int)
    requires RootState(a, l, x, e, b, r) && b > 64 && r >= 2 * x + b
    ensures RootState(a, l, x + b, e - 1, b / 2, 2 * (r - (2 * x + b)))
    ensures 0 <= 2 * (r - (2 * x + b)) < if l == 61 then TWO63 else TWO64
    ensures 2 * x + 2 * b < TWO63
  {
    SizeStep(l, x, e, b);
    ValueTake(a * TWO62, x, b, b / 2, r);
    RootBelow(a * TWO62, x + b, Pow2(l));
    Pow2SixtyTwo();
    if e >= l { Pow2Mono(l, e); }
  }

  lemma ExactRound(a: int, l: nat, x: int, e: nat, b: int, r: int)
    requires RootState(a, l, x, e, b, r) && b > 64
    ensures RootState(a, l, NextRoot(x, b, r), e - 1, b / 2, NextRemainder(x, b, r))
    ensures 0 <= NextRemainder(x, b, r) < if l == 61 then TWO63 else TWO64
    ensures 0 <= 2 * x + b < TWO63 && (r >= 2 * x + b ==> 2 * x + 2 * b < TWO63)
  {
    SizeInRange(l, x, e, b);
    if r >= 2 * x + b { TakeRound(a, l, x, e, b, r); } else { SkipRound(a, l, x, e, b, r); }
  }

  lemma Compare(r: int, t: int, b: int)
    requires b > 0
    ensures r < t <==> r * b < t * b
  {
    if r < t { assert (t - r) * b > 0; } else { MulMono(t, r, b); }
  }

  lemma StateIsRootTo(a: int, l: nat, x: int, e: nat, b: int, r: int)
    requires RootState(a, l, x, e, b, r)
    ensures RootTo(a, e, x) && (RemainderFits(a, e, x) <==> r < TWO63)
  {
    Compare(r, TWO63, b);
  }

  // ---- the rounds of the code ----

  /** What the loop holds before a round. */
  datatype Round = Round(b: int, r: int, q: int)

  /** The remainder and the doubled root after a round, in signed 64-bit arithmetic. */
  function Remains(s: Round): (r: int) {
    var t := Wrap64(s.q + s.b);
    Wrap64(2 * if s.r >= t then Wrap64(s.r - t) else s.r)
  }

  function Grows(s: Round): (q: int) {
    var t := Wrap64(s.q + s.b);
    if s.r >= t then Wrap64(t + s.b) else s.q
  }

  function Next(s: Round): (n: Round) {
    Round(s.b / 2, Remains(s), Grows(s))
  }

  predicate Signed64(x: int) {
    -TWO63 <= x < TWO63
  }

  /** No value that the round computes wraps. */
  predicate InRange(s: Round) {
    var t := s.q + s.b;
    && Signed64(t) && (s.r >= t ==> Signed64(s.r - t) && Signed64(t + s.b))
    && Signed64(2 * if s.r >= t then s.r - t else s.r)
  }

  /** The rounds of the loop for argument a. */
  predicate Rounds(a: int, rounds: seq<Round>) {
    && |rounds| > 0 && rounds[0] == Round(TWO62, a, 0)
    && forall k | 0 < k < |rounds| :: rounds[k] == Next(rounds[k - 1])
  }

  /** Nothing has wrapped, and the root is below 2^l. */
  ghost predicate Faithful(a: int, l: nat, x: int, e: nat, s: Round) {
    s.q == 2 * x && 0 <= s.r < TWO63 && RootState(a, l, x, e, s.b, s.r)
  }

  lemma FaithfulRound(a: int, l: nat, x: int, e: nat, s: Round)
    requires Faithful(a, l, x, e, s) && s.b > 64
    ensures Grows(s) == 2 * NextRoot(x, s.b, s.r) && Remains(s) == Wrap64(NextRemainder(x, s.b, s.r))
    ensures RootState(a, l, NextRoot(x, s.b, s.r), e - 1, s.b / 2, NextRemainder(x, s.b, s.r))
    ensures 0 <= NextRemainder(x, s.b, s.r) < if l == 61 then TWO63 else TWO64
    ensures e > 6 && (l == 61 ==> InRange(s))
  {
    SizeInRange(l, x, e, s.b);
    ExactRound(a, l, x, e, s.b, s.r);
  }

  /** The remainders fit down to bit e. */
  ghost predicate FitsFrom(a: int, e: nat) {
    forall k: nat, y: int | 15 <= k && e <= k <= 61 && RootTo(a, k, y) :: RemainderFits(a, k, y)
  }

  /** The root stays between two bounds, whatever the remainder has become. */
  predicate Within(s: Round, x: int, low: int, high: int) {
    s.q == 2 * x && 0 <= low <= x && x + 2 * s.b <= high <= TWO62
  }

  lemma WithinRound(s: Round, x: int, low: int, high: int, n: Round)
    requires Within(s, x, low, high) && s.b > 64 && s.b % 2 == 0 && n == Next(s)
    ensures Within(n, n.q / 2, low, high)
  {
  }

  /** The code has missed a bit that the root has: m is not above the root. */
  ghost predicate Missed(a: int, m: int, x: int, s: Round) {
    && !NoWrap(a) && Multiple(m, 0x8000) && m * m <= a * TWO62
    && (Within(s, x, 0, m) || (s.q == 2 * x && 0 <= x && s.r < 0 && x + s.b <= m <= TWO62))
  }

  lemma MissedRound(a: int, m: int, x: int, s: Round, n: Round)
    requires Missed(a, m, x, s) && s.b > 64 && s.b % 2 == 0 && n == Next(s)
    ensures Missed(a, m, n.q / 2, n)
  {
    if Within(s, x, 0, m) { WithinRound(s, x, 0, m, n); } else { SkippedRound(s, x, m, n); }
  }

  lemma SkippedRound(s: Round, x: int, m: int, n: Round)
    requires s.q == 2 * x && 0 <= x && s.r < 0 && x + s.b <= m <= TWO62
    requires s.b > 64 && s.b % 2 == 0 && n == Next(s)
    ensures Within(n, n.q / 2, 0, m)
  {
  }

  /** The part of the root that the result keeps is settled. */
  ghost predicate Settled(a: int, m: int, x: int, s: Round) {
    NoWrap(a) && RootTo(a, 14, m) && Within(s, x, m, m + 0x8000)
  }

  ghost predicate Mode(a: int, m: int, x: int, e: nat, s: Round) {
    || (e >= 15 && Faithful(a, 62, x, e, s) && FitsFrom(a, e))
    || Missed(a, m, x, s)
    || (e <= 14 && Settled(a, m, x, s))
  }

  /** The first remainder that does not fit reads as negative, so the code skips a step that
      belongs to the root. */
  lemma Misses(a: int, x: int, e: nat, s: Round, r: int) returns (m: int)
    requires 15 <= e <= 61 && RootState(a, 62, x, e, s.b, r) && TWO63 <= r < TWO64
    requires s.q == 2 * x && s.r == r - TWO64
    ensures Missed(a, m, x, s)
  {
    m := x + s.b;
    StateIsRootTo(a, 62, x, e, s.b, r);
    assert !RemainderFits(a, e, x);
    SizeInRange(62, x, e, s.b);
    RootNarrows(a * TWO62, x, s.b, r);
    MultipleHalves(x, s.b);
    Pow2Fifteen();
    Pow2Multiple(e, 15);
    MultipleTrans(x + s.b, s.b, 0x8000);
    Pow2SixtyTwo();
  }

  lemma Continues(a: int, x: int, e: nat, b: int, r: int)
    requires RootState(a, 62, x, e, b, r) && FitsFrom(a, e + 1) && r < TWO63
    ensures FitsFrom(a, e)
  {
    StateIsRootTo(a, 62, x, e, b, r);
    forall k: nat, y: int | 15 <= k && e <= k <= 61 && RootTo(a, k, y) ensures RemainderFits(a, k, y) {
      if k == e { RootToUnique(a, e, x, y); }
    }
  }

  lemma Settles(a: int, x: int, e: nat, r: int, s: Round) returns (m: int)
    requires e == 14 && RootState(a, 62, x, e, s.b, r) && FitsFrom(a, 15) && s.q == 2 * x
    ensures Settled(a, m, x, s)
  {
    m := x;
    StateIsRootTo(a, 62, x, e, s.b, r);
    Pow2Fifteen();
    Pow2SixtyTwo();
  }

  /** A round of the code on an exact state: y and r are the exact values. */
  lemma FaithfulStep(a: int, l: nat, x: int, e: nat, s: Round, n: Round) returns (y: int, r: int)
    requires Faithful(a, l, x, e, s) && s.b > 64 && n == Next(s)
    ensures e > 6 && RootState(a, l, y, e - 1, n.b, r)
    ensures n.q == 2 * y && n.r == Folded(r) && 0 <= r < if l == 61 then TWO63 else TWO64
    ensures l == 61 ==> InRange(s)
  {
    y, r := NextRoot(x, s.b, s.r), NextRemainder(x, s.b, s.r);
    FaithfulRound(a, l, x, e, s);
    WrapFolds(r);
  }

  /** An unsigned 64-bit number read as signed. */
  function Folded(r: int): (s: int) {
    if r < TWO63 then r else r - TWO64
  }

  lemma WrapFolds(r: int)
    requires 0 <= r < TWO64
    ensures Wrap64(r) == Folded(r)
  {
  }

  lemma FaithfulAgain(a: int, l: nat, y: int, e: nat, r: int, n: Round)
    requires RootState(a, l, y, e, n.b, r) && n.q == 2 * y && n.r == r && 0 <= r < TWO63
    ensures Faithful(a, l, y, e, n)
  {
    SameValue(a * TWO62, y, n.b, r, n.r);
  }

  lemma SameValue(n: int, x: int, b: int, r: int, s: int)
    requires RootValue(n, x, b, r) && r == s
    ensures RootValue(n, x, b, s)
  {
  }

  lemma UpperMode(a: int, y: int, e: nat, r: int, n: Round) returns (m: int)
    requires 15 <= e <= 61 && RootState(a, 62, y, e, n.b, r) && FitsFrom(a, e + 1)
    requires n.q == 2 * y && n.r == Folded(r) && 0 <= r < TWO64
    ensures (Faithful(a, 62, y, e, n) && FitsFrom(a, e)) || Missed(a, m, y, n)
  {
    if r < TWO63 {
      m := 0;
      Continues(a, y, e, n.b, r);
      FaithfulAgain(a, 62, y, e, r, n);
    } else {
      m := Misses(a, y, e, n, r);
    }
  }

  lemma ModeRound(a: int, m: int, x: int, e: nat, s: Round, n: Round) returns (m': int, y: int)
    requires Mode(a, m, x, e, s) && 7 <= e <= 62 && s.b > 64 && s.b % 2 == 0 && n == Next(s)
    ensures Mode(a, m', y, e - 1, n)
  {
    m', y := m, n.q / 2;
    if Missed(a, m, x, s) {
      MissedRound(a, m, x, s, n);
    } else if e <= 14 {
      WithinRound(s, x, m, m + 0x8000, n);
    } else {
      var r;
      y, r := FaithfulStep(a, 62, x, e, s, n);
      if e == 15 { m' := Settles(a, y, e - 1, r, n); } else { m' := UpperMode(a, y, e - 1, r, n); }
    }
  }

  // ---- the result ----

  lemma ScaleSquare(k: int, a: int)
    ensures (k * 0x8000) * (k * 0x8000) == (k * k) * 0x4000_0000
    ensures (k * k) * 0x4000_0000 <= a * TWO62 <==> k * k <= a * TWO32
    ensures a * TWO62 < (k * k) * 0x4000_0000 <==> a * TWO32 < k * k
  {
  }

  lemma SettledEnd(a: int, m: int, x: int, s: Round)
    requires Settled(a, m, x, s) && s.b == 64
    ensures FloorRoot(s.q / 0x1_0000, a * TWO32)
  {
    Pow2Fifteen();
    var k :| m == Times(k, 0x8000);
    assert s.q / 0x1_0000 == k;
    ScaleSquare(k, a);
    ScaleSquare(k + 1, a);
    assert (k + 1) * 0x8000 == m + 0x8000;
  }

  lemma MissedEnd(a: int, m: int, x: int, s: Round)
    requires Missed(a, m, x, s) && s.b == 64
    ensures !FloorRoot(s.q / 0x1_0000, a * TWO32)
  {
    var k :| m == Times(k, 0x8000);
    var root := s.q / 0x1_0000;
    assert 0 <= root && root + 1 <= k;
    Squares(root + 1, k);
    ScaleSquare(k, a);
  }

  /** For arguments of 2^62 and more the first step makes q negative, and it stays so. */
  predicate Negative(a: int, s: Round) {
    || s == Round(TWO62, a, 0)
    || (-TWO63 <= s.q < 0 && s.q + 4 * s.b <= 0)
  }

  lemma NegativeRound(a: int, s: Round)
    requires TWO62 <= a < TWO63 && Negative(a, s) && s.b > 64
    ensures Negative(a, Next(s))
  {
  }

  /** The rounds for 3 * 2^60, whose remainder wraps to zero after one step. */
  predicate Stuck(s: Round) {
    || s == Round(TWO62, 3 * TWO60, 0)
    || s == Round(TWO62 / 2, 6 * TWO60, 0)
    || s == Round(TWO60, -TWO63, TWO62)
    || (s.b <= TWO60 / 2 && s.r == 0 && s.q == TWO62)
  }

  lemma StuckRound(s: Round)
    requires Stuck(s) && s.b > 64
    ensures Stuck(Next(s))
  {
  }

  /** What is known of the rounds for every argument. */
  ghost predicate RootAt(a: int, m: int, x: int, z: int, e: nat, s: Round) {
    && s.b == Pow2(e) && 6 <= e <= 62
    && (0 <= a < TWO60 ==> Faithful(a, 61, z, e, s))
    && (0 <= a < TWO62 ==> Mode(a, m, x, e, s))
    && (TWO62 <= a ==> Negative(a, s))
    && (a == 3 * TWO60 ==> Stuck(s))
  }

  lemma RootStart(a: int)
    requires Signed64(a)
    ensures RootAt(a, 0, 0, 0, 62, Round(TWO62, a, 0))
  {
    Pow2SixtyTwo();
    if 0 <= a < TWO60 { InitialRoot(a, 61); }
    if 0 <= a < TWO62 { InitialRoot(a, 62); }
  }

  lemma HalfStep(e: nat, b: int)
    requires b == Pow2(e) && b > 64
    ensures e > 6 && b % 2 == 0 && b / 2 == Pow2(e - 1)
  {
    Pow2Low();
    if e < 6 { Pow2Mono(e, 6); }
    assert Pow2(e) == 2 * Pow2(e - 1);
  }

  lemma SmallRound(a: int, x: int, e: nat, s: Round, n: Round) returns (y: int)
    requires Faithful(a, 61, x, e, s) && s.b > 64 && n == Next(s)
    ensures e > 6 && Faithful(a, 61, y, e - 1, n) && InRange(s)
  {
    var r;
    y, r := FaithfulStep(a, 61, x, e, s, n);
    FaithfulAgain(a, 61, y, e - 1, r, n);
  }

  lemma RootRound(a: int, m: int, x: int, z: int, e: nat, s: Round, n: Round) returns (m': int, y: int, w: int)
    requires Signed64(a) && RootAt(a, m, x, z, e, s) && s.b > 64 && n == Next(s)
    ensures e > 6 && RootAt(a, m', y, w, e - 1, n)
    ensures 0 <= a < TWO60 ==> InRange(s)
  {
    m', y, w := m, x, z;
    HalfStep(e, s.b);
    if 0 <= a < TWO60 { w := SmallRound(a, z, e, s, n); }
    if 0 <= a < TWO62 { m', y := ModeRound(a, m, x, e, s, n); }
    if TWO62 <= a { NegativeRound(a, s); }
    if a == 3 * TWO60 { StuckRound(s); }
  }

  lemma RootEnd(a: int, m: int, x: int, z: int, e: nat, s: Round)
    requires RootAt(a, m, x, z, e, s) && s.b <= 64
    ensures e == 6
    ensures FloorRoot(s.q / 0x1_0000, a * TWO32) <==> 0 <= a < TWO62 && NoWrap(a)
    ensures TWO62 <= a ==> s.q / 0x1_0000 < 0
    ensures a == 3 * TWO60 ==> s.q / 0x1_0000 == 0x4000_0000_0000
  {
    Pow2Low();
    if e > 6 { Pow2Mono(7, e); }
    if 0 <= a < TWO62 {
      if Missed(a, m, x, s) { MissedEnd(a, m, x, s); } else { SettledEnd(a, m, x, s); }
    }
  }

  /** The rounds so far, the last of which is to come. */
  predicate Tracing(a: int, rounds: seq<Round>, e: nat, s: Round) {
    && |rounds| + e == 63 && Rounds(a, rounds) && rounds[|rounds| - 1] == s
    && (0 <= a < TWO60 ==> forall k | 0 <= k < |rounds| - 1 :: InRange(rounds[k]))
  }

  lemma TraceNext(a: int, rounds: seq<Round>, e: nat, s: Round)
    requires e > 0 && Tracing(a, rounds, e, s) && (0 <= a < TWO60 ==> InRange(s))
    ensures Tracing(a, rounds + [Next(s)], e - 1, Next(s))
  {
    var more := rounds + [Next(s)];
    forall k | 0 < k < |more| ensures more[k] == Next(more[k - 1]) {
      if k < |rounds| { assert more[k] == rounds[k] && more[k - 1] == rounds[k - 1]; }
    }
  }

  method OneRound(b: int, r: int, q: int) returns (r': int, q': int)
    ensures Round(b / 2, r', q') == Next(Round(b, r, q))
  {
    r', q' := r, q;
    var t := Wrap64(q + b);
    if r >= t {
      r' := Wrap64(r - t);
      q' := Wrap64(t + b);
    }
    r' := Wrap64(2 * r');
  }

  /** The fixed-point square root. It is the exact floor of the square root of a * 2^32 if
      and only if a is below 2^62 and no remainder above bit 15 wraps. Below 2^60 nothing
      wraps at all; from 2^62 on the result is negative. */
  method FpSqrt(a: int) returns (root: int, ghost rounds: seq<Round>)
    requires Signed64(a)
    ensures FloorRoot(root, a * TWO32) <==> 0 <= a < TWO62 && NoWrap(a)
    ensures 0 <= a < TWO60 ==> FloorRoot(root, a * TWO32)
    ensures TWO62 <= a ==> root < 0
    ensures a == 3 * TWO60 ==> root == 0x4000_0000_0000
    ensures |rounds| == 57 && Rounds(a, rounds) && root == rounds[56].q / 0x1_0000
    ensures 0 <= a < TWO60 ==> forall k | 0 <= k < 56 :: InRange(rounds[k])
  {
    var r, b, q := a, TWO62, 0;
    ghost var s, m, x, z, e: nat := Round(b, r, q), 0, 0, 0, 62;
    rounds := [s];
    RootStart(a);
    while b > 0x40
      invariant s == Round(b, r, q) && RootAt(a, m, x, z, e, s) && Tracing(a, rounds, e, s)
      decreases b
    {
      m, x, z := RootRound(a, m, x, z, e, s, Next(s));
      TraceNext(a, rounds, e, s);
      r, q := OneRound(b, r, q);
      b := b / 2;
      s, e, rounds := Next(s), e - 1, rounds + [Next(s)];
    }
    RootEnd(a, m, x, z, e, s);
    if 0 <= a < TWO60 { SmallNoWrap(a); }
    root := q / 0x1_0000;
  }

  /** No remainder wraps for arguments below 2^60. */
  lemma SmallNoWrap(a: int)
    requires 0 <= a < TWO60
    ensures NoWrap(a)
  {
    forall e: nat, x: int | 15 <= e <= 61 && RootTo(a, e, x) ensures RemainderFits(a, e, x) {
      SmallFits(a, e, x);
    }
  }

  lemma SmallFits(a: int, e: nat, x: int)
    requires 0 <= a < TWO60 && 15 <= e <= 61 && RootTo(a, e, x)
    ensures RemainderFits(a, e, x)
  {
    Pow2SixtyTwo();
    if e < 61 {
      RootBelow(a * TWO62, x, ROOT_LIMIT);
      BelowLimitBy(x, e);
      BelowBound(a * TWO62, x, Pow2(e));
    }
  }

  /** A multiple of 2^(e + 1) below 2^61 is at least that much below it. */
  lemma BelowLimitBy(x: int, e: nat)
    requires e < 61 && Multiple(x, 2 * Pow2(e)) && x < ROOT_LIMIT
    ensures x + 2 * Pow2(e) <= ROOT_LIMIT
  {
    Pow2SixtyTwo();
    Pow2Multiple(61, e + 1);
    var k :| x == Times(k, 2 * Pow2(e));
    var j :| ROOT_LIMIT == Times(j, Pow2(e + 1));
    Cancel(k, j, 2 * Pow2(e));
    MulMono(k + 1, j, 2 * Pow2(e));
    assert (k + 1) * (2 * Pow2(e)) == k * (2 * Pow2(e)) + 2 * Pow2(e);
  }

  lemma BelowBound(n: int, x: int, b: nat)
    requires 0 <= x && x + 2 * b <= ROOT_LIMIT && b > 0 && n < (x + 2 * b) * (x + 2 * b)
    ensures n - x * x < TWO63 * b
  {
    assert (x + 2 * b) * (x + 2 * b) == x * x + (4 * x + 4 * b) * b;
    MulMono(4 * x + 4 * b, TWO63, b);
  }

  /** For 3 * 2^60 the remainder at bit 60 is 2^63. It wraps, and 2^46 is not the root. */
  lemma WrappingSquare()
    ensures !NoWrap(3 * TWO60) && !FloorRoot(0x4000_0000_0000, 3 * TWO60 * TWO32)
  {
    Pow2SixtyTwo();
    assert Pow2(61) == 2 * Pow2(60);
    assert ROOT_LIMIT == Times(1, 2 * Pow2(60));
    assert RootTo(3 * TWO60, 60, ROOT_LIMIT);
    assert !RemainderFits(3 * TWO60, 60, ROOT_LIMIT);
  }
}
