/** The 256-entry lookup table of klib/crc32.c, as 32 rows of 8 words, and the
    proof that every entry is the 8-step remainder of its index. */
module Crc32cTable {
  import opened BitSerial
  import opened Powers
  import opened FixedPoint

  function Row(r: nat): (s: seq<bv32>)
    ensures |s| == 8
  {
    match r
    case 0 => [0x00000000, 0xf26b8303, 0xe13b70f7, 0x1350f3f4, 0xc79a971f, 0x35f1141c, 0x26a1e7e8, 0xd4ca64eb]
    case 1 => [0x8ad958cf, 0x78b2dbcc, 0x6be22838, 0x9989ab3b, 0x4d43cfd0, 0xbf284cd3, 0xac78bf27, 0x5e133c24]
    case 2 => [0x105ec76f, 0xe235446c, 0xf165b798, 0x030e349b, 0xd7c45070, 0x25afd373, 0x36ff2087, 0xc494a384]
    case 3 => [0x9a879fa0, 0x68ec1ca3, 0x7bbcef57, 0x89d76c54, 0x5d1d08bf, 0xaf768bbc, 0xbc267848, 0x4e4dfb4b]
    case 4 => [0x20bd8ede, 0xd2d60ddd, 0xc186fe29, 0x33ed7d2a, 0xe72719c1, 0x154c9ac2, 0x061c6936, 0xf477ea35]
    case 5 => [0xaa64d611, 0x580f5512, 0x4b5fa6e6, 0xb93425e5, 0x6dfe410e, 0x9f95c20d, 0x8cc531f9, 0x7eaeb2fa]
    case 6 => [0x30e349b1, 0xc288cab2, 0xd1d83946, 0x23b3ba45, 0xf779deae, 0x05125dad, 0x1642ae59, 0xe4292d5a]
    case 7 => [0xba3a117e, 0x4851927d, 0x5b016189, 0xa96ae28a, 0x7da08661, 0x8fcb0562, 0x9c9bf696, 0x6ef07595]
    case 8 => [0x417b1dbc, 0xb3109ebf, 0xa0406d4b, 0x522bee48, 0x86e18aa3, 0x748a09a0, 0x67dafa54, 0x95b17957]
    case 9 => [0xcba24573, 0x39c9c670, 0x2a993584, 0xd8f2b687, 0x0c38d26c, 0xfe53516f, 0xed03a29b, 0x1f682198]
    case 10 => [0x5125dad3, 0xa34e59d0, 0xb01eaa24, 0x42752927, 0x96bf4dcc, 0x64d4cecf, 0x77843d3b, 0x85efbe38]
    case 11 => [0xdbfc821c, 0x2997011f, 0x3ac7f2eb, 0xc8ac71e8, 0x1c661503, 0xee0d9600, 0xfd5d65f4, 0x0f36e6f7]
    case 12 => [0x61c69362, 0x93ad1061, 0x80fde395, 0x72966096, 0xa65c047d, 0x5437877e, 0x4767748a, 0xb50cf789]
    case 13 => [0xeb1fcbad, 0x197448ae, 0x0a24bb5a, 0xf84f3859, 0x2c855cb2, 0xdeeedfb1, 0xcdbe2c45, 0x3fd5af46]
    case 14 => [0x7198540d, 0x83f3d70e, 0x90a324fa, 0x62c8a7f9, 0xb602c312, 0x44694011, 0x5739b3e5, 0xa55230e6]
    case 15 => [0xfb410cc2, 0x092a8fc1, 0x1a7a7c35, 0xe811ff36, 0x3cdb9bdd, 0xceb018de, 0xdde0eb2a, 0x2f8b6829]
    case 16 => [0x82f63b78, 0x709db87b, 0x63cd4b8f, 0x91a6c88c, 0x456cac67, 0xb7072f64, 0xa457dc90, 0x563c5f93]
    case 17 => [0x082f63b7, 0xfa44e0b4, 0xe9141340, 0x1b7f9043, 0xcfb5f4a8, 0x3dde77ab, 0x2e8e845f, 0xdce5075c]
    case 18 => [0x92a8fc17, 0x60c37f14, 0x73938ce0, 0x81f80fe3, 0x55326b08, 0xa759e80b, 0xb4091bff, 0x466298fc]
    case 19 => [0x1871a4d8, 0xea1a27db, 0xf94ad42f, 0x0b21572c, 0xdfeb33c7, 0x2d80b0c4, 0x3ed04330, 0xccbbc033]
    case 20 => [0xa24bb5a6, 0x502036a5, 0x4370c551, 0xb11b4652, 0x65d122b9, 0x97baa1ba, 0x84ea524e, 0x7681d14d]
    case 21 => [0x2892ed69, 0xdaf96e6a, 0xc9a99d9e, 0x3bc21e9d, 0xef087a76, 0x1d63f975, 0x0e330a81, 0xfc588982]
    case 22 => [0xb21572c9, 0x407ef1ca, 0x532e023e, 0xa145813d, 0x758fe5d6, 0x87e466d5, 0x94b49521, 0x66df1622]
    case 23 => [0x38cc2a06, 0xcaa7a905, 0xd9f75af1, 0x2b9cd9f2, 0xff56bd19, 0x0d3d3e1a, 0x1e6dcdee, 0xec064eed]
    case 24 => [0xc38d26c4, 0x31e6a5c7, 0x22b65633, 0xd0ddd530, 0x0417b1db, 0xf67c32d8, 0xe52cc12c, 0x1747422f]
    case 25 => [0x49547e0b, 0xbb3ffd08, 0xa86f0efc, 0x5a048dff, 0x8ecee914, 0x7ca56a17, 0x6ff599e3, 0x9d9e1ae0]
    case 26 => [0xd3d3e1ab, 0x21b862a8, 0x32e8915c, 0xc083125f, 0x144976b4, 0xe622f5b7, 0xf5720643, 0x07198540]
    case 27 => [0x590ab964, 0xab613a67, 0xb831c993, 0x4a5a4a90, 0x9e902e7b, 0x6cfbad78, 0x7fab5e8c, 0x8dc0dd8f]
    case 28 => [0xe330a81a, 0x115b2b19, 0x020bd8ed, 0xf0605bee, 0x24aa3f05, 0xd6c1bc06, 0xc5914ff2, 0x37faccf1]
    case 29 => [0x69e9f0d5, 0x9b8273d6, 0x88d28022, 0x7ab90321, 0xae7367ca, 0x5c18e4c9, 0x4f48173d, 0xbd23943e]
    case 30 => [0xf36e6f75, 0x0105ec76, 0x12551f82, 0xe03e9c81, 0x34f4f86a, 0xc69f7b69, 0xd5cf889d, 0x27a40b9e]
    case _ => [0x79b737ba, 0x8bdcb4b9, 0x988c474d, 0x6ae7c44e, 0xbe2da0a5, 0x4c4623a6, 0x5f16d052, 0xad7d5351]
  }

  const MASKS: seq<bv32> := [
    0x1, 0x2, 0x4, 0x8, 0x10, 0x20, 0x40, 0x80,
    0x100, 0x200, 0x400, 0x800, 0x1000, 0x2000, 0x4000, 0x8000,
    0x10000, 0x20000, 0x40000, 0x80000, 0x100000, 0x200000, 0x400000, 0x800000,
    0x1000000, 0x2000000, 0x4000000, 0x8000000, 0x10000000, 0x20000000, 0x40000000, 0x80000000]

  predicate Has(e: bv32, mask: bv32) {
    e & mask != 0
  }

  predicate OneBit(mask: bv32) {
    mask != 0 && mask & (mask - 1) == 0
  }

  predicate MaskOk(i: nat)
    requires i < 32
  {
    OneBit(MASKS[i]) && (i < 31 ==> MASKS[i + 1] == MASKS[i] << 1 && !Has(MASKS[i], 0x8000_0000))
  }

  /** The bits of a table word, least significant first. */
  function WordBits(e: bv32): (r: Bits)
    ensures |r| == 32
  {
    seq(32, i requires 0 <= i < 32 => Has(e, MASKS[i]))
  }

  lemma MaskGroup0(k: nat)
    requires k < 8
    ensures MaskOk(0 + k)
  {
    match k case 0 => case 1 => case 2 => case 3 => case 4 => case 5 => case 6 => case _ =>
  }

  lemma MaskGroup1(k: nat)
    requires k < 8
    ensures MaskOk(8 + k)
  {
    match k case 0 => case 1 => case 2 => case 3 => case 4 => case 5 => case 6 => case _ =>
  }

  lemma MaskGroup2(k: nat)
    requires k < 8
    ensures MaskOk(16 + k)
  {
    match k case 0 => case 1 => case 2 => case 3 => case 4 => case 5 => case 6 => case _ =>
  }

  lemma MaskGroup3(k: nat)
    requires k < 8
    ensures MaskOk(24 + k)
  {
    match k case 0 => case 1 => case 2 => case 3 => case 4 => case 5 => case 6 => case _ =>
  }

  lemma EveryMask(i: nat)
    requires i < 32
    ensures MaskOk(i)
  {
    if i < 8 { MaskGroup0(i); } else if i < 16 { MaskGroup1(i - 8); }
    else if i < 24 { MaskGroup2(i - 16); } else { MaskGroup3(i - 24); }
  }

  lemma HasXor(a: bv32, b: bv32, mask: bv32)
    requires OneBit(mask)
    ensures Has(a ^ b, mask) == (Has(a, mask) != Has(b, mask))
  {
  }

  lemma HasHalf(e: bv32, mask: bv32)
    requires !Has(mask, 0x8000_0000)
    ensures Has(e >> 1, mask) == Has(e, mask << 1)
  {
  }

  lemma TopHalf(e: bv32)
    ensures !Has(e >> 1, 0x8000_0000)
  {
  }

  lemma WordXor(a: bv32, b: bv32)
    ensures WordBits(a ^ b) == Xor(WordBits(a), WordBits(b))
  {
    forall i: nat | i < 32 ensures Has(a ^ b, MASKS[i]) == (Has(a, MASKS[i]) != Has(b, MASKS[i])) {
      EveryMask(i);
      HasXor(a, b, MASKS[i]);
    }
  }

  lemma WordHalf(e: bv32)
    ensures WordBits(e >> 1) == WordBits(e)[1..] + [false]
  {
    forall i: nat | i < 31 ensures Has(e >> 1, MASKS[i]) == Has(e, MASKS[i + 1]) {
      EveryMask(i);
      HasHalf(e, MASKS[i]);
    }
    TopHalf(e);
  }

  lemma PolyGroup0(k: nat)
    requires k < 8
    ensures Has(0x82F63B78, MASKS[0 + k]) == POLY[0 + k]
  {
    match k case 0 => case 1 => case 2 => case 3 => case 4 => case 5 => case 6 => case _ =>
  }

  lemma PolyGroup1(k: nat)
    requires k < 8
    ensures Has(0x82F63B78, MASKS[8 + k]) == POLY[8 + k]
  {
    match k case 0 => case 1 => case 2 => case 3 => case 4 => case 5 => case 6 => case _ =>
  }

  lemma PolyGroup2(k: nat)
    requires k < 8
    ensures Has(0x82F63B78, MASKS[16 + k]) == POLY[16 + k]
  {
    match k case 0 => case 1 => case 2 => case 3 => case 4 => case 5 => case 6 => case _ =>
  }

  lemma PolyGroup3(k: nat)
    requires k < 8
    ensures Has(0x82F63B78, MASKS[24 + k]) == POLY[24 + k]
  {
    match k case 0 => case 1 => case 2 => case 3 => case 4 => case 5 => case 6 => case _ =>
  }

  lemma PolyBits()
    ensures WordBits(0x82F63B78) == POLY
  {
    forall i: nat | i < 32 ensures Has(0x82F63B78, MASKS[i]) == POLY[i] {
      if i < 8 { PolyGroup0(i); } else if i < 16 { PolyGroup1(i - 8); }
      else if i < 24 { PolyGroup2(i - 16); } else { PolyGroup3(i - 24); }
    }
  }

  /** The division step on a machine word. */
  function WordStep(e: bv32): (r: bv32) {
    if Has(e, 1) then (e >> 1) ^ 0x82F63B78 else e >> 1
  }

  lemma WordStepBits(e: bv32)
    ensures WordBits(WordStep(e)) == Shift(WordBits(e))
  {
    WordHalf(e);
    PolyBits();
    WordXor(e >> 1, 0x82F63B78);
  }

  /** The leading bit of a row number. */
  function TopBit(r: nat): (t: nat)
    requires 0 < r < 32
    ensures 0 < t <= r
  {
    if r < 2 then 1 else if r < 4 then 2 else if r < 8 then 4 else if r < 16 then 8 else 16
  }

  function Sum(h: bv32, z: seq<bv32>, j: nat): (e: bv32)
    requires j < |z|
  {
    h ^ z[j]
  }

  /** Row s is row z with the word h added to every entry. */
  predicate SumRow(s: seq<bv32>, h: bv32, z: seq<bv32>)
    requires |s| == 8 == |z|
  {
    && s[0] == Sum(h, z, 0) && s[1] == Sum(h, z, 1) && s[2] == Sum(h, z, 2) && s[3] == Sum(h, z, 3)
    && s[4] == Sum(h, z, 4) && s[5] == Sum(h, z, 5) && s[6] == Sum(h, z, 6) && s[7] == Sum(h, z, 7)
  }

  lemma SumRowAt(s: seq<bv32>, h: bv32, z: seq<bv32>, j: nat)
    requires |s| == 8 == |z| && j < 8 && SumRow(s, h, z)
    ensures s[j] == Sum(h, z, j)
  {
    match j case 0 => case 1 => case 2 => case 3 => case 4 => case 5 => case 6 => case _ =>
  }

  lemma RowsFrom1(k: nat)
    requires k < 7
    ensures SumRow(Row(1 + k), Row(TopBit(1 + k))[0], Row(1 + k - TopBit(1 + k)))
  {
    match k case 0 => case 1 => case 2 => case 3 => case 4 => case 5 => case _ =>
  }

  lemma RowsFrom8(k: nat)
    requires k < 8
    ensures SumRow(Row(8 + k), Row(TopBit(8 + k))[0], Row(8 + k - TopBit(8 + k)))
  {
    match k case 0 => case 1 => case 2 => case 3 => case 4 => case 5 => case 6 => case _ =>
  }

  lemma RowsFrom16(k: nat)
    requires k < 8
    ensures SumRow(Row(16 + k), Row(TopBit(16 + k))[0], Row(16 + k - TopBit(16 + k)))
  {
    match k case 0 => case 1 => case 2 => case 3 => case 4 => case 5 => case 6 => case _ =>
  }

  lemma RowsFrom24(k: nat)
    requires k < 8
    ensures SumRow(Row(24 + k), Row(TopBit(24 + k))[0], Row(24 + k - TopBit(24 + k)))
  {
    match k case 0 => case 1 => case 2 => case 3 => case 4 => case 5 => case 6 => case _ =>
  }

  lemma EveryRow(r: nat)
    requires 0 < r < 32
    ensures SumRow(Row(r), Row(TopBit(r))[0], Row(r - TopBit(r)))
  {
    if r < 8 { RowsFrom1(r - 1); } else if r < 16 { RowsFrom8(r - 8); }
    else if r < 24 { RowsFrom16(r - 16); } else { RowsFrom24(r - 24); }
  }

  /** Eight steps from the byte i. */
  function Remainder(i: nat): (r: Bits)
    ensures |r| == 32
  {
    Shifts(Pad(ToBits(i, 8)), 8)
  }

  /** A number below 2^k added to 2^k occupies other bits. */
  lemma {:induction false} DisjointBits(k: nat, n: nat, len: nat)
    requires n < Pow2(k)
    ensures ToBits(Pow2(k) + n, len) == Xor(ToBits(Pow2(k), len), ToBits(n, len))
    decreases len
  {
    if len > 0 {
      if k > 0 {
        DisjointBits(k - 1, n / 2, len - 1);
        Halves(Pow2(k - 1), n);
      } else {
        ZeroBits(len - 1);
      }
    }
  }

  lemma Halves(p: nat, n: nat)
    ensures (2 * p + n) / 2 == p + n / 2 && (2 * p + n) % 2 == n % 2 && (2 * p) % 2 == 0 && (2 * p) / 2 == p
  {
  }

  lemma {:induction false} ZeroBits(len: nat)
    ensures ToBits(0, len) == Zeros(len)
    ensures Xor(Zeros(len), Zeros(len)) == Zeros(len)
  {
    if len > 0 {
      ZeroBits(len - 1);
      assert Zeros(len) == [false] + Zeros(len - 1);
    }
  }

  lemma PadXor(u: Bits, v: Bits)
    requires |u| == |v| <= 32
    ensures Pad(Xor(u, v)) == Xor(Pad(u), Pad(v))
  {
  }

  lemma StepsSum(u: Bits, v: Bits)
    requires |u| == |v| == 8
    ensures Shifts(Pad(Xor(u, v)), 8) == Xor(Shifts(Pad(u), 8), Shifts(Pad(v), 8))
  {
    PadXor(u, v);
    ShiftsLinear(Pad(u), Pad(v), 8);
  }

  lemma RemainderSum(k: nat, n: nat)
    requires n < Pow2(k)
    ensures Remainder(Pow2(k) + n) == Xor(Remainder(Pow2(k)), Remainder(n))
  {
    DisjointBits(k, n, 8);
    StepsSum(ToBits(Pow2(k), 8), ToBits(n, 8));
  }

  /** A single bit moves down one place per step. */
  lemma RemainderHalves(k: nat)
    requires k < 7
    ensures Remainder(Pow2(k)) == Shift(Remainder(Pow2(k + 1)))
  {
    SingleShift(k);
    ShiftsLast(Pad(ToBits(Pow2(k + 1), 8)), 8);
  }

  lemma SingleShift(k: nat)
    requires k < 7
    ensures Shift(Pad(ToBits(Pow2(k + 1), 8))) == Pad(ToBits(Pow2(k), 8))
  {
    SingleBit(k, 8);
    SingleBit(k + 1, 8);
    var v := Pad(Zeros(8)[k + 1 := true]);
    assert !v[0];
    assert v[1..] + [false] == Pad(Zeros(8)[k := true]);
  }

  lemma {:induction false} SingleBit(k: nat, len: nat)
    requires k < len
    ensures ToBits(Pow2(k), len) == Zeros(len)[k := true]
  {
    if k == 0 {
      ZeroBits(len - 1);
      assert Zeros(len)[0 := true] == [true] + Zeros(len - 1);
    } else {
      SingleBit(k - 1, len - 1);
      Halves(Pow2(k - 1), 0);
      assert Zeros(len)[k := true] == [false] + Zeros(len - 1)[k - 1 := true];
    }
  }

  lemma {:induction false} ShiftsLast(c: Bits, k: nat)
    requires |c| == 32
    ensures Shifts(Shift(c), k) == Shift(Shifts(c, k))
    decreases k
  {
    if k > 0 { ShiftsLast(Shift(c), k - 1); }
  }

  /** The byte 0x80 leaves the polynomial itself. */
  lemma RemainderTop()
    ensures Remainder(Pow2(7)) == POLY
  {
    SingleBit(7, 8);
    var u := Pad(ToBits(Pow2(7), 8));
    ShiftsMove(u, 7);
    ShiftsLast(u, 7);
    var e := u[7..] + Zeros(7);
    assert Shifts(u, 8) == Shifts(Shift(u), 7);
    assert e[0] && Shift(e) == POLY;
  }

  /** A table of 256 words in 32 rows, given by the bits of its words. */
  type BitRows = nat -> seq<Bits>

  predicate Shape(row: BitRows) {
    && (forall r: nat | r < 32 :: |row(r)| == 8)
    && (forall r: nat, j: nat | r < 32 && j < 8 :: |row(r)[j]| == 32)
  }

  /** What is checked of the table.  Every row is the row without its leading bit
      plus one word; the first row obeys the same rule entry by entry; and the
      entries at powers of two are successive division steps from the polynomial. */
  predicate RowsAdd(row: BitRows)
    requires Shape(row)
  {
    forall r: nat, j: nat | 0 < r < 32 && j < 8 :: RowAdds(row, r, j)
  }

  predicate RowAdds(row: BitRows, r: nat, j: nat)
    requires Shape(row) && 0 < r < 32 && j < 8
  {
    row(r)[j] == Xor(row(TopBit(r))[0], row(r - TopBit(r))[j])
  }

  predicate FirstRowAdds(s: seq<Bits>)
    requires |s| == 8 && forall j | 0 <= j < 8 :: |s[j]| == 32
  {
    && s[0] == Zeros(32) && s[3] == Xor(s[2], s[1])
    && s[5] == Xor(s[4], s[1]) && s[6] == Xor(s[4], s[2]) && s[7] == Xor(s[4], s[3])
  }

  /** The entries at powers of two. */
  function PowerWords(row: BitRows): (w: seq<Bits>)
    requires Shape(row)
    ensures |w| == 8 && forall k | 0 <= k < 8 :: |w[k]| == 32
  {
    [row(0)[1], row(0)[2], row(0)[4], row(1)[0], row(2)[0], row(4)[0], row(8)[0], row(16)[0]]
  }

  predicate PowersStep(w: seq<Bits>)
    requires |w| == 8 && forall k | 0 <= k < 8 :: |w[k]| == 32
  {
    w[7] == POLY && forall k | 0 <= k < 7 :: w[k] == Shift(w[k + 1])
  }

  predicate Checked(row: BitRows) {
    Shape(row) && RowsAdd(row) && FirstRowAdds(row(0)) && PowersStep(PowerWords(row))
  }

  function Lookup(row: BitRows, i: nat): (e: Bits)
    requires i < 256 && Shape(row)
    ensures |e| == 32
  {
    row(i / 8)[i % 8]
  }

  lemma {:induction false} PowerBits(w: seq<Bits>, k: nat)
    requires |w| == 8 && (forall k | 0 <= k < 8 :: |w[k]| == 32) && PowersStep(w) && k < 8
    ensures w[k] == Remainder(Pow2(k))
    decreases 8 - k
  {
    if k == 7 {
      RemainderTop();
    } else {
      PowerBits(w, k + 1);
      RemainderHalves(k);
    }
  }

  lemma PowerEntry(row: BitRows, k: nat)
    requires Shape(row) && k < 8
    ensures Pow2(k) < 256 && Lookup(row, Pow2(k)) == PowerWords(row)[k]
  {
    match k case 0 => case 1 => case 2 => case 3 => case 4 => case 5 => case 6 => case _ =>
  }

  /** Index 2^k + n lies n rows below the row of 2^k, in the column of n. */
  lemma RowIndex(k: nat, n: nat)
    requires 3 <= k < 8 && n < Pow2(k)
    ensures var p := Pow2(k - 3);
      && Pow2(k) == 8 * p && n / 8 < p
      && (Pow2(k) + n) / 8 == p + n / 8 && (Pow2(k) + n) % 8 == n % 8
      && Pow2(k) / 8 == p && Pow2(k) % 8 == 0
      && 0 < p + n / 8 < 32 && TopBit(p + n / 8) == p
  {
    assert Pow2(k) == 2 * Pow2(k - 1) && Pow2(k - 1) == 2 * Pow2(k - 2) && Pow2(k - 2) == 2 * Pow2(k - 3);
    match k case 3 => case 4 => case 5 => case 6 => case _ =>
  }

  lemma SumRuleFirst(row: BitRows, k: nat, n: nat)
    requires Checked(row) && k < 3 && 0 < n < Pow2(k)
    ensures Lookup(row, Pow2(k) + n) == Xor(Lookup(row, Pow2(k)), Lookup(row, n))
  {
    assert Pow2(0) == 1 && Pow2(1) == 2 && Pow2(2) == 4;
  }

  lemma SumRuleRow(row: BitRows, k: nat, n: nat)
    requires Checked(row) && 3 <= k < 8 && 0 < n < Pow2(k) && Pow2(k) + n < 256
    ensures Lookup(row, Pow2(k) + n) == Xor(Lookup(row, Pow2(k)), Lookup(row, n))
  {
    RowIndex(k, n);
    assert RowAdds(row, Pow2(k - 3) + n / 8, n % 8);
  }

  /** The sum rule for every entry: the part above and the part below the leading bit. */
  lemma SumRule(row: BitRows, k: nat, n: nat)
    requires Checked(row) && k < 8 && 0 < n < Pow2(k) && Pow2(k) + n < 256
    ensures Lookup(row, Pow2(k) + n) == Xor(Lookup(row, Pow2(k)), Lookup(row, n))
  {
    if k < 3 { SumRuleFirst(row, k, n); } else { SumRuleRow(row, k, n); }
  }

  lemma LeadingBit(i: nat) returns (k: nat, n: nat)
    requires 0 < i < 256
    ensures k < 8 && n < Pow2(k) && i == Pow2(k) + n
  {
    Pow2Low();
    MsbAtLeast(i, 8);
    k := Msb(i);
    n := i - Pow2(k);
  }

  /** rem is additive over disjoint bits. */
  ghost predicate Additive(rem: nat -> Bits) {
    && (forall i: nat :: |rem(i)| == 32)
    && rem(0) == Zeros(32)
    && (forall k: nat, n: nat | n < Pow2(k) :: Adds(rem, k, n))
  }

  ghost predicate Adds(rem: nat -> Bits, k: nat, n: nat)
    requires forall i: nat :: |rem(i)| == 32
  {
    rem(Pow2(k) + n) == Xor(rem(Pow2(k)), rem(n))
  }

  /** The checks determine the table: rows that pass them agree everywhere with
      any additive function that they agree with at powers of two. */
  lemma {:induction false} ChecksSuffice(row: BitRows, rem: nat -> Bits, i: nat)
    requires Checked(row) && Additive(rem) && i < 256
    requires forall k: nat | k < 8 :: PowerWords(row)[k] == rem(Pow2(k))
    ensures Lookup(row, i) == rem(i)
    decreases i
  {
    if i == 0 {
      ZeroSuffices(row, rem);
    } else {
      var k, n := LeadingBit(i);
      PowerSuffices(row, rem, k);
      if n > 0 {
        ChecksSuffice(row, rem, n);
        SumSuffices(row, rem, k, n);
      } else {
        assert i == Pow2(k);
      }
    }
  }

  lemma PowerSuffices(row: BitRows, rem: nat -> Bits, k: nat)
    requires Shape(row) && k < 8 && PowerWords(row)[k] == rem(Pow2(k))
    ensures Pow2(k) < 256 && Lookup(row, Pow2(k)) == rem(Pow2(k))
  {
    PowerEntry(row, k);
  }

  lemma ZeroSuffices(row: BitRows, rem: nat -> Bits)
    requires Checked(row) && Additive(rem)
    ensures Lookup(row, 0) == rem(0)
  {
  }

  lemma SumSuffices(row: BitRows, rem: nat -> Bits, k: nat, n: nat)
    requires Checked(row) && Additive(rem) && k < 8 && 0 < n < Pow2(k) && Pow2(k) + n < 256
    requires Lookup(row, Pow2(k)) == rem(Pow2(k)) && Lookup(row, n) == rem(n)
    ensures Lookup(row, Pow2(k) + n) == rem(Pow2(k) + n)
  {
    SumRule(row, k, n);
    assert Adds(rem, k, n);
  }

  lemma RemainderZero()
    ensures Remainder(0) == Zeros(32)
  {
    ZeroBits(8);
    var z := Pad(ToBits(0, 8));
    ShiftsMove(z, 8);
    assert z[8..] + Zeros(8) == Zeros(32);
  }

  /** The rows of the table above as bits. */
  function TableRow(r: nat): (s: seq<Bits>)
    ensures |s| == 8 && forall j | 0 <= j < 8 :: |s[j]| == 32
  {
    var words := Row(r);
    seq(8, j requires 0 <= j < 8 => WordBits(words[j]))
  }

  lemma TableRowsAdd(r: nat, j: nat)
    requires 0 < r < 32 && j < 8
    ensures TableRow(r)[j] == Xor(TableRow(TopBit(r))[0], TableRow(r - TopBit(r))[j])
  {
    EveryRow(r);
    SumRowBits(Row(r), Row(TopBit(r)), Row(r - TopBit(r)), j);
  }

  lemma SumRowBits(s: seq<bv32>, h: seq<bv32>, z: seq<bv32>, j: nat)
    requires |s| == 8 == |z| && |h| == 8 && j < 8 && SumRow(s, h[0], z)
    ensures WordBits(s[j]) == Xor(WordBits(h[0]), WordBits(z[j]))
  {
    SumRowAt(s, h[0], z, j);
    WordXor(h[0], z[j]);
  }

  lemma TableFirstRow()
    ensures FirstRowAdds(TableRow(0))
  {
    assert Row(0) == [0x00000000, 0xf26b8303, 0xe13b70f7, 0x1350f3f4, 0xc79a971f, 0x35f1141c, 0x26a1e7e8, 0xd4ca64eb];
    WordXor(0xe13b70f7, 0xf26b8303);
    WordXor(0xc79a971f, 0xf26b8303);
    WordXor(0xc79a971f, 0xe13b70f7);
    WordXor(0xc79a971f, 0x1350f3f4);
    assert WordBits(0) == Zeros(32);
  }

  lemma StepBits(e: bv32, prior: bv32)
    requires e == WordStep(prior)
    ensures WordBits(e) == Shift(WordBits(prior))
  {
    WordStepBits(prior);
  }

  lemma TablePower(k: nat)
    requires k < 7
    ensures PowerWords(TableRow)[k] == Shift(PowerWords(TableRow)[k + 1])
  {
    PowerBitsOf();
    StepBits(POWER_WORDS[k], POWER_WORDS[k + 1]) by {
      match k case 0 => case 1 => case 2 => case 3 => case 4 => case 5 => case _ =>
    }
  }

  const POWER_WORDS: seq<bv32> :=
    [0xf26b8303, 0xe13b70f7, 0xc79a971f, 0x8ad958cf, 0x105ec76f, 0x20bd8ede, 0x417b1dbc, 0x82f63b78]

  lemma PowerBitsOf()
    ensures forall k: nat | k < 8 :: PowerWords(TableRow)[k] == WordBits(POWER_WORDS[k])
  {
    PowerRows();
  }

  lemma PowerRows()
    ensures Row(0)[1] == 0xf26b8303 && Row(0)[2] == 0xe13b70f7 && Row(0)[4] == 0xc79a971f && Row(1)[0] == 0x8ad958cf
    ensures Row(2)[0] == 0x105ec76f && Row(4)[0] == 0x20bd8ede && Row(8)[0] == 0x417b1dbc && Row(16)[0] == 0x82f63b78
  {
  }

  lemma TableChecked()
    ensures Checked(TableRow)
  {
    forall r: nat, j: nat | 0 < r < 32 && j < 8
      ensures RowAdds(TableRow, r, j)
    {
      TableRowsAdd(r, j);
    }
    TableFirstRow();
    forall k: nat | k < 7 ensures PowerWords(TableRow)[k] == Shift(PowerWords(TableRow)[k + 1]) {
      TablePower(k);
    }
    PowerRows();
    PolyBits();
  }

  lemma RemainderAdditive()
    ensures Additive(Remainder)
  {
    RemainderZero();
    forall k: nat, n: nat | n < Pow2(k) ensures Adds(Remainder, k, n) {
      RemainderSum(k, n);
    }
  }

  /** Every table entry is the remainder left by eight bit-serial steps. */
  lemma EntryCorrect(i: nat)
    requires i < 256
    ensures Shape(TableRow) && Lookup(TableRow, i) == Shifts(Pad(ToBits(i, 8)), 8)
  {
    TableChecked();
    RemainderAdditive();
    forall k: nat | k < 8 ensures PowerWords(TableRow)[k] == Remainder(Pow2(k)) {
      PowerBits(PowerWords(TableRow), k);
    }
    ChecksSuffice(TableRow, Remainder, i);
  }
}
