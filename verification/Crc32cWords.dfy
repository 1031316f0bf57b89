/** CRC-32C as klib/crc32.c computes it, on 32-bit machine words. */
module Crc32cWords {
  import opened Common
  import opened BitSerial
  import opened Crc32c
  import opened Crc32cTable
  import opened Powers

  /** The bits of a byte, as part of a word. */
  function ByteBits(b: bv8): (w: Bits)
    ensures |w| == 8
  {
    WordBits(b as bv32)[..8]
  }

  /** The number a byte stands for. */
  function Byte(b: bv8): (n: U8) {
    ByteRange(ByteBits(b));
    ToNat(ByteBits(b))
  }

  function Bytes(data: seq<bv8>): (s: seq<U8>)
    ensures |s| == |data| && forall i | 0 <= i < |s| :: s[i] == Byte(data[i])
  {
    seq(|data|, i requires 0 <= i < |data| => Byte(data[i]))
  }

  /** The table index in the low byte of a word. */
  function Index(e: bv32): (i: nat)
    ensures i < 256
  {
    ByteRange(WordBits(e)[..8]);
    ToNat(WordBits(e)[..8])
  }

  function Entry(e: bv32): (r: bv32) {
    Row(Index(e) / 8)[Index(e) % 8]
  }

  /** The register after one more byte. */
  function Update(c: bv32, b: bv8): (r: bv32) {
    Entry((c & 0xff) ^ (b as bv32)) ^ (c >> 8)
  }

  lemma Shifts(e: bv32)
    ensures (e >> 1) >> 1 == e >> 2 && (e >> 2) >> 2 == e >> 4 && (e >> 4) >> 4 == e >> 8
  {
  }

  lemma ShiftTwo(e: bv32)
    ensures WordBits(e >> 2) == WordBits(e)[2..] + Zeros(2)
  {
    WordHalf(e);
    WordHalf(e >> 1);
    Shifts(e);
    var a, b, c := WordBits(e), WordBits(e >> 1), WordBits((e >> 1) >> 1);
    forall i | 0 <= i < 32 ensures c[i] == (a[2..] + Zeros(2))[i] { TwoDown(a, b, c, i); }
  }

  lemma TwoDown(a: Bits, b: Bits, c: Bits, i: nat)
    requires |a| == |b| == |c| == 32 && b == a[1..] + [false] && c == b[1..] + [false] && i < 32
    ensures c[i] == (a[2..] + Zeros(2))[i]
  {
  }

  lemma ShiftFour(e: bv32)
    ensures WordBits(e >> 4) == WordBits(e)[4..] + Zeros(4)
  {
    ShiftTwo(e);
    ShiftTwo(e >> 2);
    Shifts(e);
  }

  lemma ShiftByte(e: bv32)
    ensures WordBits(e >> 8) == WordBits(e)[8..] + Zeros(8)
  {
    ShiftFour(e);
    ShiftFour(e >> 4);
    Shifts(e);
  }

  lemma LowBit(e: bv32, i: nat)
    requires i < 8
    ensures Has(e & 0xff, MASKS[i]) == Has(e, MASKS[i])
  {
    LowMask(i);
    LowHas(e, MASKS[i]);
  }

  lemma LowMask(i: nat)
    requires i < 8
    ensures MASKS[i] & 0xff == MASKS[i]
  {
    match i case 0 => case 1 => case 2 => case 3 => case 4 => case 5 => case 6 => case _ =>
  }

  lemma LowHas(e: bv32, mask: bv32)
    requires mask & 0xff == mask
    ensures Has(e & 0xff, mask) == Has(e, mask)
  {
  }

  lemma LowByte(e: bv32)
    ensures WordBits(e & 0xff)[..8] == WordBits(e)[..8]
  {
    forall i | 0 <= i < 8 ensures WordBits(e & 0xff)[i] == WordBits(e)[i] { LowBit(e, i); }
  }

  lemma LookupWord(k: nat)
    requires k < 256
    ensures Shape(TableRow) && Lookup(TableRow, k) == WordBits(Row(k / 8)[k % 8])
  {
  }

  lemma XorLow(a: Bits, b: Bits, c: Bits)
    requires |a| == |b| == |c| == 32 && a[..8] == c[..8]
    ensures Xor(a, b)[..8] == Xor(c[..8], b[..8])
  {
    forall i | 0 <= i < 8 ensures Xor(a, b)[i] == Xor(c[..8], b[..8])[i] { assert a[..8][i] == c[..8][i]; }
  }

  lemma IndexBits(c: bv32, b: bv8)
    ensures WordBits((c & 0xff) ^ (b as bv32))[..8] == Xor(WordBits(c)[..8], ToBits(Byte(b), 8))
  {
    WordXor(c & 0xff, b as bv32);
    LowByte(c);
    BitsOfNat(ByteBits(b));
    XorLow(WordBits(c & 0xff), WordBits(b as bv32), WordBits(c));
  }

  lemma EntryBits(e: bv32) returns (w: bv32)
    ensures w == Entry(e) && Shape(TableRow) && WordBits(w) == Lookup(TableRow, Index(e))
  {
    w := Entry(e);
    LookupWord(Index(e));
  }

  lemma UpdateParts(w: bv32, h: bv32, rest: Bits)
    requires WordBits(h) == rest
    ensures |rest| == 32 && WordBits(w ^ h) == Xor(WordBits(w), rest)
  {
    WordXor(w, h);
  }

  lemma UpdateBits(w: bv32, c: bv32)
    ensures WordBits(w ^ (c >> 8)) == Xor(WordBits(w), WordBits(c)[8..] + Zeros(8))
  {
    ShiftByte(c);
    UpdateParts(w, c >> 8, WordBits(c)[8..] + Zeros(8));
  }

  lemma StepParts(c: Bits, b: U8, w: Bits)
    requires |c| == 32 && w == Xor(c[..8], ToBits(b, 8))
    ensures Shape(TableRow) && ToNat(w) < 256
    ensures TableStep(c, b) == Xor(Lookup(TableRow, ToNat(w)), c[8..] + Zeros(8))
  {
    ByteRange(w);
    LookupWord(ToNat(w));
  }

  /** The update of the register on words is the one on bits. */
  lemma WordTableStep(c: bv32, b: bv8)
    ensures Shape(TableRow) && WordBits(Update(c, b)) == TableStep(WordBits(c), Byte(b))
  {
    var e := (c & 0xff) ^ (b as bv32);
    var w := EntryBits(e);
    UpdateBits(w, c);
    IndexBits(c, b);
    StepParts(WordBits(c), Byte(b), WordBits(e)[..8]);
  }

  lemma HasAll(mask: bv32)
    requires OneBit(mask)
    ensures Has(0xffff_ffff, mask)
  {
  }

  lemma AllOnes()
    ensures WordBits(0xffff_ffff) == Ones()
  {
    forall i | 0 <= i < 32 ensures WordBits(0xffff_ffff)[i] {
      EveryMask(i);
      HasAll(MASKS[i]);
    }
  }

  lemma WordComplement(c: bv32)
    ensures WordBits(!c) == Complement(WordBits(c))
  {
    assert !c == c ^ 0xffff_ffff;
    WordXor(c, 0xffff_ffff);
    AllOnes();
  }

  /** The loop over the bytes of a message computes the bits of its checksum. */
  method ComputeWord(data: seq<bv8>) returns (crc: bv32)
    ensures WordBits(crc) == Checksum(Bytes(data))
  {
    crc := 0xffff_ffff;
    AllOnes();
    ghost var s := Bytes(data);
    assert s[..0] == [];
    for i := 0 to |data|
      invariant WordBits(crc) == Register(s, i)
    {
      RegisterNext(s, i);
      WordTableStep(crc, data[i]);
      crc := Update(crc, data[i]);
    }
    assert s[..|data|] == s;
    WordComplement(crc);
    crc := !crc;
  }

  lemma {:induction false} AllSet(w: Bits, n: nat)
    requires |w| == n && forall i | 0 <= i < n :: w[i]
    ensures ToNat(w) == Pow2(n) - 1
  {
    if n > 0 { AllSet(w[1..], n - 1); }
  }

  lemma {:induction false} NoBits(k: nat)
    ensures ToBits(0, k) == Zeros(k)
  {
    if k > 0 { NoBits(k - 1); }
  }

  lemma LastEntry()
    ensures Shape(TableRow) && Lookup(TableRow, 255) == WordBits(0xad7d5351)
  {
    LookupWord(255);
    assert Row(31)[7] == 0xad7d5351;
  }

  /** The register after a zero byte, and its complement. */
  lemma ZeroStep()
    ensures Shape(TableRow) && TableStep(Ones(), 0) == WordBits(0xad82_acae)
    ensures Complement(WordBits(0xad82_acae)) == WordBits(0x527d_5351)
  {
    NoBits(8);
    var low := Xor(Ones()[..8], ToBits(0, 8));
    AllSet(low, 8);
    Pow2Low();
    LastEntry();
    ByteRange(low);
    StepParts(Ones(), 0, low);
    AllOnes();
    UpdateBits(0xad7d5351, 0xffff_ffff);
    assert (0xad7d5351 as bv32) ^ ((0xffff_ffff as bv32) >> 8) == 0xad82_acae;
    WordComplement(0xad82_acae);
    assert !(0xad82_acae as bv32) == 0x527d_5351;
  }

  lemma OneByte(b: U8)
    ensures Shape(TableRow) && Checksum([b]) == Complement(TableStep(Ones(), b))
  {
    StepRefines(Ones(), b);
    assert MessageBits([b]) == ToBits(b, 8) + MessageBits([]);
    assert ToBits(b, 8) + MessageBits([]) == ToBits(b, 8);
  }

  /** A known value: the checksum of one zero byte. */
  lemma ZeroByte(b: U8)
    requires b == 0
    ensures Checksum([b]) == WordBits(0x527d_5351)
  {
    ZeroStep();
    OneByte(b);
  }
}
