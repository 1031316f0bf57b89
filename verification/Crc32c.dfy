/** The table-driven CRC-32C of klib/crc32.c: it computes the bit-serial checksum,
    and that checksum detects every burst of up to 32 bits and every error that
    flips an odd number of bits. */
module Crc32c {
  import opened Common
  import opened Powers
  import opened BitSerial
  import opened Crc32cTable

  /** The bits of a byte register update: index with the low byte, move the rest down. */
  function TableStep(c: Bits, b: U8): (r: Bits)
    requires |c| == 32 && Shape(TableRow)
    ensures |r| == 32
  {
    ByteRange(Xor(c[..8], ToBits(b, 8)));
    Xor(Lookup(TableRow, ToNat(Xor(c[..8], ToBits(b, 8)))), c[8..] + Zeros(8))
  }

  lemma ByteRange(w: Bits)
    requires |w| == 8
    ensures ToNat(w) < 256
  {
    Pow2Low();
    NatRange(w);
  }

  lemma {:induction false} NatRange(w: Bits)
    ensures ToNat(w) < Pow2(|w|)
  {
    if w != [] { NatRange(w[1..]); }
  }

  /** One table step is eight bit-serial steps. */
  lemma StepRefines(c: Bits, b: U8)
    requires |c| == 32
    ensures Shape(TableRow) && TableStep(c, b) == Feed(c, ToBits(b, 8))
  {
    var w := ToBits(b, 8);
    var low := Xor(c[..8], w);
    FeedAtOnce(c, w);
    ByteParts(c, w);
    ShiftsLinear(Pad(low), Zeros(8) + c[8..], 8);
    ShiftsMove(Zeros(8) + c[8..], 8);
    assert (Zeros(8) + c[8..])[8..] == c[8..];
    ByteRange(low);
    EntryCorrect(ToNat(low));
    BitsOfNat(low);
  }

  lemma ByteParts(c: Bits, w: Bits)
    requires |c| == 32 && |w| == 8
    ensures Xor(c, Pad(w)) == Xor(Pad(Xor(c[..8], w)), Zeros(8) + c[8..])
  {
  }

  /** The register after the first i bytes. */
  function Register(data: seq<U8>, i: nat): (c: Bits)
    requires i <= |data|
    ensures |c| == 32
  {
    Feed(Ones(), MessageBits(data[..i]))
  }

  lemma RegisterNext(data: seq<U8>, i: nat)
    requires i < |data|
    ensures Shape(TableRow) && Register(data, i + 1) == TableStep(Register(data, i), data[i])
  {
    var u := MessageBits(data[..i]);
    assert data[..i] + [data[i]] == data[..i + 1];
    MessageConcat(data[..i], [data[i]]);
    assert MessageBits([data[i]]) == ToBits(data[i], 8);
    FeedConcat(Ones(), u, ToBits(data[i], 8));
    StepRefines(Register(data, i), data[i]);
  }

  method Compute(data: seq<U8>) returns (crc: Bits)
    ensures crc == Checksum(data)
  {
    var c := Ones();
    for i := 0 to |data|
      invariant |c| == 32 && c == Register(data, i)
    {
      RegisterNext(data, i);
      c := TableStep(c, data[i]);
    }
    assert data[..|data|] == data;
    crc := Complement(c);
  }

  /** Bit strings that differ only within 32 consecutive bits leave different registers. */
  lemma BurstBits(c: Bits, before: Bits, u: Bits, v: Bits, after: Bits)
    requires |c| == 32 && |u| == |v| <= 32 && u != v
    ensures Feed(c, before + u + after) != Feed(c, before + v + after)
  {
    var s := Feed(c, before);
    FeedConcat(c, before + u, after);
    FeedConcat(c, before + v, after);
    FeedConcat(c, before, u);
    FeedConcat(c, before, v);
    if Feed(c, before + u + after) == Feed(c, before + v + after) {
      FeedInjective(Feed(s, u), Feed(s, v), after);
      FeedAtOnce(s, u);
      FeedAtOnce(s, v);
      ShiftsInjective(Xor(s, Pad(u)), Xor(s, Pad(v)), |u|);
      SameAddend(s, u, v);
    }
  }

  lemma SameAddend(s: Bits, u: Bits, v: Bits)
    requires |s| == 32 && |u| == |v| <= 32 && Xor(s, Pad(u)) == Xor(s, Pad(v))
    ensures u == v
  {
    forall i | 0 <= i < |u| ensures u[i] == v[i] {
      assert Xor(s, Pad(u))[i] == Xor(s, Pad(v))[i];
    }
  }

  lemma {:induction false} ByteInjective(m: nat, n: nat, k: nat)
    requires ToBits(m, k) == ToBits(n, k) && m < Pow2(k) && n < Pow2(k)
    ensures m == n
  {
    if k > 0 {
      assert ToBits(m, k)[0] == ToBits(n, k)[0];
      assert ToBits(m, k)[1..] == ToBits(n, k)[1..];
      ByteInjective(m / 2, n / 2, k - 1);
    }
  }

  lemma {:induction false} MessageInjective(x: seq<U8>, y: seq<U8>)
    requires |x| == |y| && MessageBits(x) == MessageBits(y)
    ensures x == y
  {
    if x != [] {
      assert MessageBits(x)[..8] == MessageBits(y)[..8];
      assert MessageBits(x)[8..] == MessageBits(x[1..]) && MessageBits(y)[8..] == MessageBits(y[1..]);
      Pow2Low();
      ByteInjective(x[0], y[0], 8);
      MessageInjective(x[1..], y[1..]);
    }
  }

  /** Two different messages of one length whose bits agree outside a window of
      n <= 32 bits have different checksums. */
  lemma BurstDetected(x: seq<U8>, y: seq<U8>, i: nat, n: nat)
    requires |x| == |y| && x != y && n <= 32 && i + n <= 8 * |x|
    requires MessageBits(x)[..i] == MessageBits(y)[..i]
    requires MessageBits(x)[i + n..] == MessageBits(y)[i + n..]
    ensures Checksum(x) != Checksum(y)
  {
    var u, v := MessageBits(x), MessageBits(y);
    if Checksum(x) == Checksum(y) {
      ComplementInjective(Feed(Ones(), u), Feed(Ones(), v));
      WindowEqual(u, v, i, n);
      MessageInjective(x, y);
    }
  }

  lemma WindowEqual(u: Bits, v: Bits, i: nat, n: nat)
    requires |u| == |v| && n <= 32 && i + n <= |u|
    requires u[..i] == v[..i] && u[i + n..] == v[i + n..]
    requires Feed(Ones(), u) == Feed(Ones(), v)
    ensures u == v
  {
    var p, q := u[i..i + n], v[i..i + n];
    assert u == u[..i] + p + u[i + n..];
    assert v == u[..i] + q + u[i + n..];
    if p != q {
      BurstBits(Ones(), u[..i], p, q, u[i + n..]);
    }
  }

  lemma ComplementInjective(a: Bits, b: Bits)
    requires |a| == |b| && Complement(a) == Complement(b)
    ensures a == b
  {
    forall i | 0 <= i < |a| ensures a[i] == b[i] {
      assert Complement(a)[i] == Complement(b)[i];
    }
  }

  /** In particular: two messages that differ within at most four bytes. */
  lemma FourBytesDetected(before: seq<U8>, p: seq<U8>, q: seq<U8>, after: seq<U8>)
    requires |p| == |q| <= 4 && p != q
    ensures Checksum(before + p + after) != Checksum(before + q + after)
  {
    var x, y := before + p + after, before + q + after;
    FourBytesWindow(before, p, after);
    FourBytesWindow(before, q, after);
    assert x != y by {
      assert x[|before|..|before| + |p|] == p && y[|before|..|before| + |p|] == q;
    }
    BurstDetected(x, y, 8 * |before|, 8 * |p|);
  }

  lemma FourBytesWindow(before: seq<U8>, p: seq<U8>, after: seq<U8>)
    ensures var bits, i := MessageBits(before + p + after), 8 * |before|;
      && bits[..i] == MessageBits(before)
      && bits[i + 8 * |p|..] == MessageBits(after)
  {
    MessageConcat(before + p, after);
    MessageConcat(before, p);
  }

  /** Whether the number of set bits is odd. */
  function Parity(w: Bits): (odd: bool) {
    if w == [] then false else w[0] != Parity(w[1..])
  }

  lemma {:induction false} ParityXor(a: Bits, b: Bits)
    requires |a| == |b|
    ensures Parity(Xor(a, b)) == (Parity(a) != Parity(b))
  {
    if a != [] {
      ParityXor(a[1..], b[1..]);
      assert Xor(a, b)[1..] == Xor(a[1..], b[1..]);
    }
  }

  lemma {:induction false} ParityConcat(a: Bits, b: Bits)
    ensures Parity(a + b) == (Parity(a) != Parity(b))
  {
    if a == [] {
      assert a + b == b;
    } else {
      ParityConcat(a[1..], b);
      assert (a + b)[1..] == a[1..] + b;
    }
  }

  /** Parity of four bits of w, starting at i. */
  function Nibble(w: Bits, i: nat): (odd: bool)
    requires i + 4 <= |w|
  {
    (w[i] != w[i + 1]) != (w[i + 2] != w[i + 3])
  }

  lemma ParityFrom(w: Bits, i: nat)
    requires i < |w|
    ensures Parity(w[i..]) == (w[i] != Parity(w[i + 1..]))
  {
    assert w[i..][1..] == w[i + 1..];
  }

  lemma ParityNibble(w: Bits, i: nat)
    requires i + 4 <= |w|
    ensures Parity(w[i..]) == (Nibble(w, i) != Parity(w[i + 4..]))
  {
    ParityFrom(w, i);
    ParityFrom(w, i + 1);
    ParityFrom(w, i + 2);
    ParityFrom(w, i + 3);
  }

  function Half(w: Bits, i: nat): (odd: bool)
    requires i + 16 <= |w|
  {
    (Nibble(w, i) != Nibble(w, i + 4)) != (Nibble(w, i + 8) != Nibble(w, i + 12))
  }

  lemma ParityHalf(w: Bits, i: nat)
    requires i + 16 <= |w|
    ensures Parity(w[i..]) == (Half(w, i) != Parity(w[i + 16..]))
  {
    ParityNibble(w, i);
    ParityNibble(w, i + 4);
    ParityNibble(w, i + 8);
    ParityNibble(w, i + 12);
  }

  lemma ParityWord(w: Bits)
    requires |w| == 32
    ensures Parity(w) == (Half(w, 0) != Half(w, 16))
  {
    ParityHalf(w, 0);
    ParityHalf(w, 16);
    assert w[0..] == w && w[32..] == [];
  }

  lemma PolyLowHalf()
    ensures Half(POLY, 0)
  {
    assert Nibble(POLY, 0) && Nibble(POLY, 4);
    assert Nibble(POLY, 8) && !Nibble(POLY, 12);
  }

  lemma PolyHighHalf()
    ensures !Half(POLY, 16)
  {
    assert !Nibble(POLY, 16) && !Nibble(POLY, 20);
    assert Nibble(POLY, 24) && Nibble(POLY, 28);
  }

  /** The generator is divisible by x + 1: it has an even number of terms. */
  lemma ParityPoly()
    ensures Parity(POLY)
  {
    PolyLowHalf();
    PolyHighHalf();
    ParityWord(POLY);
  }

  lemma ParityShift(c: Bits)
    requires |c| == 32
    ensures Parity(Shift(c)) == Parity(c)
  {
    var d := c[1..] + [false];
    ParityConcat(c[1..], [false]);
    ParityPoly();
    if c[0] { ParityXor(d, POLY); }
  }

  lemma {:induction false} ParityFeed(c: Bits, bits: Bits)
    requires |c| == 32
    ensures Parity(Feed(c, bits)) == (Parity(c) != Parity(bits))
    decreases |bits|
  {
    if bits != [] {
      var c' := c[0 := c[0] != bits[0]];
      assert c'[1..] == c[1..];
      ParityShift(c');
      ParityFeed(Shift(c'), bits[1..]);
    }
  }

  /** The number of positions where two bit strings differ. */
  function Distance(u: Bits, v: Bits): (d: nat)
    requires |u| == |v|
  {
    if u == [] then 0 else (if u[0] != v[0] then 1 else 0) + Distance(u[1..], v[1..])
  }

  lemma {:induction false} ParityDistance(u: Bits, v: Bits)
    requires |u| == |v|
    ensures (Distance(u, v) % 2 == 1) == (Parity(u) != Parity(v))
  {
    if u != [] { ParityDistance(u[1..], v[1..]); }
  }

  /** Any error that flips an odd number of bits changes the checksum. */
  lemma OddErrorDetected(x: seq<U8>, y: seq<U8>)
    requires |x| == |y| && Distance(MessageBits(x), MessageBits(y)) % 2 == 1
    ensures Checksum(x) != Checksum(y)
  {
    ParityDistance(MessageBits(x), MessageBits(y));
    ParityFeed(Ones(), MessageBits(x));
    ParityFeed(Ones(), MessageBits(y));
    if Checksum(x) == Checksum(y) {
      ComplementInjective(Feed(Ones(), MessageBits(x)), Feed(Ones(), MessageBits(y)));
    }
  }
}
