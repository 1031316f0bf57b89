/** Bit-serial CRC-32C (section 12.1 of RFC 3720): division of the message by the
    generator polynomial over GF(2), one bit at a time.

    Words are sequences of bits, least significant first. */
module BitSerial {
  import opened Common

  type Bits = seq<bool>

  function Xor(a: Bits, b: Bits): (r: Bits)
    requires |a| == |b|
    ensures |r| == |a|
    ensures forall i | 0 <= i < |a| :: r[i] == (a[i] != b[i])
  {
    seq(|a|, i requires 0 <= i < |a| => a[i] != b[i])
  }

  function Zeros(n: nat): (r: Bits)
    ensures |r| == n
    ensures forall i | 0 <= i < n :: !r[i]
  {
    seq(n, i => false)
  }

  /** The low k bits of a number. */
  function ToBits(n: nat, k: nat): (r: Bits)
    ensures |r| == k
    decreases k
  {
    if k == 0 then [] else [n % 2 == 1] + ToBits(n / 2, k - 1)
  }

  function ToNat(w: Bits): (n: nat) {
    if w == [] then 0 else (if w[0] then 1 else 0) + 2 * ToNat(w[1..])
  }

  lemma {:induction false} BitsOfNat(w: Bits)
    ensures ToBits(ToNat(w), |w|) == w
  {
    if w != [] {
      BitsOfNat(w[1..]);
      assert ToNat(w) / 2 == ToNat(w[1..]);
      assert w == [w[0]] + w[1..];
    }
  }

  /** 0x82F63B78, the reflected Castagnoli polynomial without its leading term. */
  const POLY: Bits := [
    false, false, false, true, true, true, true, false,
    true, true, false, true, true, true, false, false,
    false, true, true, false, true, true, true, true,
    false, true, false, false, false, false, false, true]

  /** One step of the division: the bit leaving the register decides whether the
      polynomial is subtracted. */
  function Shift(c: Bits): (r: Bits)
    requires |c| == 32
    ensures |r| == 32
  {
    var d := c[1..] + [false];
    if c[0] then Xor(d, POLY) else d
  }

  /** k steps in a row. */
  function Shifts(c: Bits, k: nat): (r: Bits)
    requires |c| == 32
    ensures |r| == 32
    decreases k
  {
    if k == 0 then c else Shifts(Shift(c), k - 1)
  }

  /** The register after a string of message bits. */
  function Feed(c: Bits, bits: Bits): (r: Bits)
    requires |c| == 32
    ensures |r| == 32
    decreases |bits|
  {
    if bits == [] then c else Feed(Shift(c[0 := c[0] != bits[0]]), bits[1..])
  }

  function MessageBits(data: seq<U8>): (bits: Bits)
    ensures |bits| == 8 * |data|
  {
    if data == [] then [] else ToBits(data[0], 8) + MessageBits(data[1..])
  }

  function Ones(): (r: Bits)
    ensures |r| == 32
  {
    Complement(Zeros(32))
  }

  function Complement(c: Bits): (r: Bits)
    ensures |r| == |c|
    ensures forall i | 0 <= i < |c| :: r[i] == !c[i]
  {
    seq(|c|, i requires 0 <= i < |c| => !c[i])
  }

  /** The checksum by definition: all-ones start, complemented at the end. */
  function Checksum(data: seq<U8>): (crc: Bits)
    ensures |crc| == 32
  {
    Complement(Feed(Ones(), MessageBits(data)))
  }

  lemma {:induction false} FeedConcat(c: Bits, u: Bits, v: Bits)
    requires |c| == 32
    ensures Feed(c, u + v) == Feed(Feed(c, u), v)
    decreases |u|
  {
    if u == [] {
      assert u + v == v;
    } else {
      assert (u + v)[1..] == u[1..] + v;
      FeedConcat(Shift(c[0 := c[0] != u[0]]), u[1..], v);
    }
  }

  lemma {:induction false} MessageConcat(x: seq<U8>, y: seq<U8>)
    ensures MessageBits(x + y) == MessageBits(x) + MessageBits(y)
  {
    if x == [] {
      assert x + y == y;
    } else {
      assert (x + y)[1..] == x[1..] + y;
      MessageConcat(x[1..], y);
    }
  }

  /** The step is linear over exclusive or. */
  lemma ShiftLinear(x: Bits, y: Bits)
    requires |x| == 32 == |y|
    ensures Shift(Xor(x, y)) == Xor(Shift(x), Shift(y))
  {
    var l, r := Shift(Xor(x, y)), Xor(Shift(x), Shift(y));
    assert forall i | 0 <= i < 32 :: l[i] == r[i];
  }

  lemma {:induction false} ShiftsLinear(x: Bits, y: Bits, k: nat)
    requires |x| == 32 == |y|
    ensures Shifts(Xor(x, y), k) == Xor(Shifts(x, k), Shifts(y, k))
    decreases k
  {
    if k > 0 {
      ShiftLinear(x, y);
      ShiftsLinear(Shift(x), Shift(y), k - 1);
    }
  }

  /** The step loses nothing: the bit shifted out reappears at the top. */
  lemma ShiftInjective(x: Bits, y: Bits)
    requires |x| == 32 == |y| && Shift(x) == Shift(y)
    ensures x == y
  {
    assert x[0] == y[0] by { assert Shift(x)[31] == Shift(y)[31]; }
    assert x[1..] == y[1..] by {
      forall i | 0 <= i < 31 ensures x[1..][i] == y[1..][i] {
        assert Shift(x)[i] == Shift(y)[i];
      }
    }
    assert x == [x[0]] + x[1..] && y == [y[0]] + y[1..];
  }

  lemma {:induction false} ShiftsInjective(x: Bits, y: Bits, k: nat)
    requires |x| == 32 == |y| && Shifts(x, k) == Shifts(y, k)
    ensures x == y
    decreases k
  {
    if k > 0 {
      ShiftsInjective(Shift(x), Shift(y), k - 1);
      ShiftInjective(x, y);
    }
  }

  /** Two registers that differ stay different while the same bits are fed. */
  lemma {:induction false} FeedInjective(x: Bits, y: Bits, bits: Bits)
    requires |x| == 32 == |y| && Feed(x, bits) == Feed(y, bits)
    ensures x == y
    decreases |bits|
  {
    if bits != [] {
      var x', y' := x[0 := x[0] != bits[0]], y[0 := y[0] != bits[0]];
      FeedInjective(Shift(x'), Shift(y'), bits[1..]);
      ShiftInjective(x', y');
      assert x == x'[0 := x[0]] && y == y'[0 := y[0]];
      assert x[0] == y[0];
    }
  }

  /** Bits w padded with zeros to a word. */
  function Pad(w: Bits): (r: Bits)
    requires |w| <= 32
    ensures |r| == 32
  {
    w + Zeros(32 - |w|)
  }

  /** Feeding up to 32 bits is the same as adding them to the register at once
      and then shifting. */
  lemma {:induction false} FeedAtOnce(c: Bits, w: Bits)
    requires |c| == 32 && |w| <= 32
    ensures Feed(c, w) == Shifts(Xor(c, Pad(w)), |w|)
    decreases |w|
  {
    if w == [] {
      assert Xor(c, Pad(w)) == c;
    } else {
      var c' := c[0 := c[0] != w[0]];
      FeedAtOnce(Shift(c'), w[1..]);
      FirstBit(c, w, c', [false] + w[1..]);
    }
  }

  /** The first bit goes into the register, the others are shifted along. */
  lemma FirstBit(c: Bits, w: Bits, c': Bits, rest: Bits)
    requires |c| == 32 && 0 < |w| <= 32 && c' == c[0 := c[0] != w[0]] && rest == [false] + w[1..]
    ensures Xor(Shift(c'), Pad(w[1..])) == Shift(Xor(c, Pad(w)))
  {
    assert Shift(Pad(rest)) == Pad(w[1..]);
    assert Xor(c', Pad(rest)) == Xor(c, Pad(w));
    ShiftLinear(c', Pad(rest));
  }

  /** Eight steps with a clear low byte only move the rest down. */
  lemma {:induction false} ShiftsMove(c: Bits, k: nat)
    requires |c| == 32 && k <= 32 && forall i | 0 <= i < k :: !c[i]
    ensures Shifts(c, k) == c[k..] + Zeros(k)
    decreases k
  {
    if k == 0 {
      assert c[0..] + Zeros(0) == c;
    } else {
      var d := c[1..] + [false];
      ShiftsMove(d, k - 1);
      assert d[k - 1..] + Zeros(k - 1) == c[k..] + Zeros(k);
    }
  }
}
