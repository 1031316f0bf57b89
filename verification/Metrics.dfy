/** The metrics encoding of klib/digitalocean.c: one uncompressed chunk of the Snappy
    framing format, whose payload lists names and double-precision values; and a decoder
    for it, written from sections 3 and 4.3 of the framing format and section 3.4 of
    IEEE 754-2019. */
module Metrics {
  import opened BitSerial
  import opened Common
  import opened Powers
  import Crc32c
  import FixedPoint

  type Bytes = seq<U8>

  datatype Metric = Metric(name: Bytes, value: nat)

  const TWO16: int := 0x1_0000
  const TWO24: int := 0x100_0000
  const TWO52: int := 0x10_0000_0000_0000
  const TWO53: int := 0x20_0000_0000_0000

  // ---- little-endian numbers ----

  function Le(n: nat, k: nat): (b: Bytes)
    ensures |b| == k
    decreases k
  {
    if k == 0 then [] else [n % 256] + Le(n / 256, k - 1)
  }

  function FromLe(b: Bytes): (n: nat) {
    if b == [] then 0 else b[0] + 256 * FromLe(b[1..])
  }

  function Pow256(k: nat): (p: nat)
    ensures p > 0
  {
    if k == 0 then 1 else 256 * Pow256(k - 1)
  }

  lemma {:induction false} LeRoundTrip(n: nat, k: nat)
    requires n < Pow256(k)
    ensures FromLe(Le(n, k)) == n
    decreases k
  {
    if k > 0 {
      LeRoundTrip(n / 256, k - 1);
      assert Le(n, k)[1..] == Le(n / 256, k - 1);
    }
  }

  lemma Pow256At()
    ensures Pow256(2) == TWO16 && Pow256(3) == TWO24 && Pow256(4) == TWO32 && Pow256(8) == TWO64
  {
    assert Pow256(4) == 256 * Pow256(3);
    assert Pow256(8) == 256 * (256 * (256 * (256 * Pow256(4))));
  }

  // ---- doubles ----

  function Times(a: nat, b: nat): (p: nat) {
    a * b
  }

  /** What is below the leading bit m, moved up to bit 51. */
  function Fraction(value: nat, m: nat): (f: nat)
    requires m <= 52 && Pow2(m) <= value
  {
    Times(value - Pow2(m), Pow2(52 - m))
  }

  /** A number below 2^53 as a double: exponent and fraction. */
  function ToDouble(value: nat): (n: nat)
    requires value < TWO53
  {
    if value == 0 then 0 else
      MsbBelow53(value);
      var m := FixedPoint.Msb(value);
      (1023 + m) * TWO52 + Fraction(value, m)
  }

  lemma Pow2At52()
    ensures Pow2(52) == TWO52 && Pow2(53) == TWO53
  {
    Pow2Half();
    Pow2Low();
    Pow2Add(8, 8);
    Pow2Add(16, 4);
    Pow2Add(20, 32);
    assert Pow2(4) == 16;
  }

  lemma MsbBelow53(value: nat)
    requires 0 < value < TWO53
    ensures FixedPoint.Msb(value) <= 52
  {
    Pow2At52();
    FixedPoint.MsbAtLeast(value, 53);
  }

  /** The integer that a double stands for, if it is zero or a positive integer below 2^53. */
  function FromDouble(n: nat): (value: Option<nat>) {
    if n == 0 then Some(0) else FromParts(n / TWO52, TWO52 + n % TWO52)
  }

  /** The integer mantissa / 2^(1075 - exponent), if it is one. */
  function FromParts(exponent: nat, mantissa: nat): (value: Option<nat>) {
    if exponent < 1023 || exponent > 1075 then None else Halved(mantissa, 1075 - exponent)
  }

  /** The number halved k times, if it is even each time. */
  function Halved(x: nat, k: nat): (r: Option<nat>)
    decreases k
  {
    if k == 0 then Some(x) else if x % 2 == 1 then None else Halved(x / 2, k - 1)
  }

  lemma {:induction false} HalvedExact(v: nat, k: nat)
    ensures Halved(Times(v, Pow2(k)), k) == Some(v)
  {
    if k > 0 {
      HalvedExact(v, k - 1);
      DoubleTimes(v, Pow2(k - 1));
    }
  }

  lemma DoubleTimes(v: nat, p: nat)
    ensures Times(v, 2 * p) == 2 * Times(v, p)
  {
  }

  /** The leading bit and the fraction together are the value, shifted. */
  lemma MantissaIs(value: nat, m: nat)
    requires m <= 52 && Pow2(m) <= value < 2 * Pow2(m)
    ensures TWO52 + Fraction(value, m) == Times(value, Pow2(52 - m)) && Fraction(value, m) < TWO52
  {
    Pow2At52();
    Pow2Add(m, 52 - m);
    var p, q := Pow2(m), Pow2(52 - m);
    Subtract(value, p, q);
    Below(value - p, p, q);
  }

  lemma Subtract(v: nat, p: nat, q: nat)
    ensures (v - p) * q == v * q - p * q
  {
  }

  lemma Below(a: nat, p: nat, q: nat)
    requires a < p && q > 0
    ensures a * q < p * q
  {
  }

  lemma SplitWord(e: nat, f: nat)
    requires f < TWO52
    ensures (e * TWO52 + f) / TWO52 == e && (e * TWO52 + f) % TWO52 == f
  {
  }

  lemma PartsRoundTrip(value: nat, m: nat)
    requires m <= 52 && Pow2(m) <= value < 2 * Pow2(m)
    ensures FromParts(1023 + m, TWO52 + Fraction(value, m)) == Some(value)
  {
    MantissaIs(value, m);
    HalvedExact(value, 52 - m);
    assert 1075 - (1023 + m) == 52 - m;
  }

  lemma FromWord(e: nat, f: nat, value: nat)
    requires 1023 <= e <= 1075 && f < TWO52 && FromParts(e, TWO52 + f) == Some(value)
    ensures FromDouble(e * TWO52 + f) == Some(value) && e * TWO52 + f < TWO64
  {
    SplitWord(e, f);
  }

  lemma DoubleParts(value: nat) returns (e: nat, f: nat)
    requires 0 < value < TWO53
    ensures ToDouble(value) == e * TWO52 + f
    ensures 1023 <= e <= 1075 && f < TWO52 && FromParts(e, TWO52 + f) == Some(value)
  {
    MsbBelow53(value);
    var m := FixedPoint.Msb(value);
    e, f := 1023 + m, Fraction(value, m);
    MantissaIs(value, m);
    PartsRoundTrip(value, m);
  }

  lemma DoubleRoundTrip(value: nat)
    requires value < TWO53
    ensures FromDouble(ToDouble(value)) == Some(value) && ToDouble(value) < TWO64
  {
    if value > 0 {
      var e, f := DoubleParts(value);
      FromWord(e, f, value);
    }
  }

  /** Known values: 1.0 and 3.0. */
  lemma KnownDoubles(one: nat, three: nat)
    requires one == 1 && three == 3
    ensures ToDouble(one) == 0x3ff0_0000_0000_0000 && ToDouble(three) == 0x4008_0000_0000_0000
  {
    LeadingBit(one, 0);
    LeadingBit(three, 1);
    Pow2At52();
    assert Pow2(52) == 2 * Pow2(51);
  }

  lemma LeadingBit(value: nat, m: nat)
    requires Pow2(m) <= value < 2 * Pow2(m)
    ensures FixedPoint.Msb(value) == m
  {
    FixedPoint.MsbAtLeast(value, m);
    FixedPoint.MsbAtLeast(value, m + 1);
  }

  // ---- records ----

  /** Name length, name, eight zero bytes, value. */
  function Record(m: Metric): (b: Bytes)
    requires m.value < TWO53
    ensures |b| == 18 + |m.name|
  {
    Le(|m.name|, 2) + m.name + Le(0, 8) + Le(ToDouble(m.value), 8)
  }

  predicate Encodable(m: Metric) {
    m.value < TWO53
  }

  /** The length of the name fits its field. */
  predicate ShortName(m: Metric) {
    |m.name| < TWO16
  }

  predicate ShortNames(ms: seq<Metric>) {
    forall i | 0 <= i < |ms| :: ShortName(ms[i])
  }

  predicate AllEncodable(ms: seq<Metric>) {
    forall i | 0 <= i < |ms| :: Encodable(ms[i])
  }

  function Records(ms: seq<Metric>): (b: Bytes)
    requires AllEncodable(ms)
  {
    if ms == [] then [] else Record(ms[0]) + Records(ms[1..])
  }

  function FromRecords(b: Bytes): (ms: Option<seq<Metric>>)
    decreases |b|
  {
    if b == [] then Some([])
    else if |b| < 2 then None
    else
      var n := FromLe(b[..2]);
      if |b| < 18 + n || FromLe(b[2 + n..10 + n]) != 0 then None
      else
        var value, rest := FromDouble(FromLe(b[10 + n..18 + n])), FromRecords(b[18 + n..]);
        if value.None? || rest.None? then None else Some([Metric(b[2..2 + n], value.value)] + rest.value)
  }

  lemma Slices<T>(a: seq<T>, b: seq<T>, c: seq<T>, d: seq<T>, e: seq<T>)
    ensures var s, i, j, k := a + b + c + d + e, |a| + |b|, |a| + |b| + |c|, |a| + |b| + |c| + |d|;
      s[..|a|] == a && s[|a|..i] == b && s[i..j] == c && s[j..k] == d && s[k..] == e
  {
  }

  /** The fields of a record and what follows it. */
  lemma RecordFields(m: Metric, rest: Bytes)
    requires Encodable(m)
    ensures var b, n := Record(m) + rest, |m.name|;
      && b[..2] == Le(n, 2) && b[2..2 + n] == m.name && b[2 + n..10 + n] == Le(0, 8)
      && b[10 + n..18 + n] == Le(ToDouble(m.value), 8) && b[18 + n..] == rest
  {
    Slices(Le(|m.name|, 2), m.name, Le(0, 8), Le(ToDouble(m.value), 8), rest);
  }

  lemma RecordRoundTrip(m: Metric, rest: Bytes)
    requires Encodable(m) && ShortName(m)
    ensures FromRecords(Record(m) + rest) ==
      if FromRecords(rest).None? then None else Some([m] + FromRecords(rest).value)
  {
    RecordFields(m, rest);
    Pow256At();
    LeRoundTrip(|m.name|, 2);
    LeRoundTrip(0, 8);
    DoubleRoundTrip(m.value);
    LeRoundTrip(ToDouble(m.value), 8);
  }

  /** A number of k bytes is below 256^k. */
  lemma {:induction false} FromLeBelow(b: Bytes)
    ensures FromLe(b) < Pow256(|b|)
  {
    if b != [] { FromLeBelow(b[1..]); }
  }

  lemma {:induction false} DecodedShort(b: Bytes, ms: seq<Metric>)
    requires FromRecords(b) == Some(ms)
    ensures ShortNames(ms)
    decreases |b|
  {
    if b != [] {
      var n := FromLe(b[..2]);
      FromLeBelow(b[..2]);
      Pow256At();
      var rest := FromRecords(b[18 + n..]).value;
      DecodedShort(b[18 + n..], rest);
      forall i | 0 <= i < |ms| ensures ShortName(ms[i]) {
        if i > 0 { assert ms[i] == rest[i - 1] && ShortName(rest[i - 1]); }
      }
    }
  }

  lemma {:induction false} RecordsRoundTrip(ms: seq<Metric>)
    requires AllEncodable(ms) && ShortNames(ms)
    ensures FromRecords(Records(ms)) == Some(ms)
  {
    if ms != [] {
      RecordsRoundTrip(ms[1..]);
      var rest := Records(ms[1..]);
      RecordRoundTrip(ms[0], rest);
      assert Records(ms) == Record(ms[0]) + rest;
      assert ms == [ms[0]] + ms[1..];
    }
  }

  lemma {:induction false} RecordsAppend(ms: seq<Metric>, m: Metric)
    requires AllEncodable(ms) && Encodable(m)
    ensures AllEncodable(ms + [m]) && Records(ms + [m]) == Records(ms) + Record(m)
  {
    if ms == [] {
      assert ms + [m] == [m];
      assert Records([m]) == Record(m) + [];
    } else {
      RecordsAppend(ms[1..], m);
      assert (ms + [m])[1..] == ms[1..] + [m];
      Associative(Record(ms[0]), Records(ms[1..]), Record(m));
    }
  }

  // ---- the checksum ----

  const MASK_DELTA := 0xa282_ead8

  function RotateRight15(c: nat): (r: nat)
    requires c < TWO32
    ensures r < TWO32
  {
    c / 0x8000 + c % 0x8000 * 0x2_0000
  }

  function RotateLeft15(c: nat): (r: nat)
    requires c < TWO32
    ensures r < TWO32
  {
    c / 0x2_0000 + c % 0x2_0000 * 0x8000
  }

  function Mask(c: nat): (r: nat)
    requires c < TWO32
    ensures r < TWO32
  {
    (RotateRight15(c) + MASK_DELTA) % TWO32
  }

  function Unmask(c: nat): (r: nat)
    requires c < TWO32
    ensures r < TWO32
  {
    RotateLeft15((c + (TWO32 - MASK_DELTA)) % TWO32)
  }

  lemma MaskRoundTrip(c: nat)
    requires c < TWO32
    ensures Unmask(Mask(c)) == c
  {
    ShiftBack(RotateRight15(c));
    RotateBack(c);
  }

  lemma ShiftBack(r: nat)
    requires r < TWO32
    ensures ((r + MASK_DELTA) % TWO32 + (TWO32 - MASK_DELTA)) % TWO32 == r
  {
  }

  lemma RotateBack(c: nat)
    requires c < TWO32
    ensures RotateLeft15(RotateRight15(c)) == c
  {
    var high, low := c / 0x8000, c % 0x8000;
    assert RotateRight15(c) == low * 0x2_0000 + high && high < 0x2_0000;
    assert RotateRight15(c) / 0x2_0000 == low && RotateRight15(c) % 0x2_0000 == high;
  }

  /** Known values: bit 0 moves to bit 17 and bit 15 to bit 0. */
  lemma KnownMasks(low: nat, high: nat)
    requires low == 1 && high == 0x8000
    ensures Mask(low) == 0xa284_ead8 && Mask(high) == 0xa282_ead9
  {
  }

  function Crc(data: Bytes): (c: nat)
    ensures c < TWO32
  {
    Crc32c.NatRange(Checksum(data));
    Pow2Half();
    ToNat(Checksum(data))
  }

  // ---- framing ----

  function StreamId(): (b: Bytes)
    ensures |b| == 10
  {
    [0xff, 6, 0, 0, 0x73, 0x4e, 0x61, 0x50, 0x70, 0x59]
  }

  /** The identifier is a chunk of type 0xff that holds a name of six bytes. */
  lemma StreamIdIs(len: nat, name: string)
    requires len == 6 && name == "sNaPpY"
    ensures StreamId()[..4] == [0xff] + Le(len, 3)
    ensures forall i | 0 <= i < |name| :: StreamId()[4 + i] == name[i] as int
  {
    HeaderBytes(len);
  }

  const UNCOMPRESSED := 1

  /** The header and checksum of an uncompressed chunk. */
  function ChunkHeader(data: Bytes): (b: Bytes)
    ensures |b| == 8
  {
    [UNCOMPRESSED] + Le(|data| + 4, 3) + Le(Mask(Crc(data)), 4)
  }

  function Encode(ms: seq<Metric>): (b: Bytes)
    requires AllEncodable(ms)
  {
    StreamId() + ChunkHeader(Records(ms)) + Records(ms)
  }

  /** The most data an uncompressed chunk may hold. */
  const CHUNK_MAX := 65536

  /** A stream of one uncompressed chunk: its identifier, length and checksum are right. */
  function Decode(b: Bytes): (ms: Option<seq<Metric>>) {
    if |b| < 18 || |b| > 18 + CHUNK_MAX || b[..10] != StreamId() || b[10] != UNCOMPRESSED then None
    else if |b| != 14 + FromLe(b[11..14]) then None
    else
      Pow256At();
      var stored := FromLe(b[14..18]);
      if stored >= TWO32 || Unmask(stored) != Crc(b[18..]) then None else FromRecords(b[18..])
  }

  lemma FrameFields(data: Bytes)
    ensures Framed(StreamId() + ChunkHeader(data) + data, data)
  {
    var len, crc := Le(|data| + 4, 3), Le(Mask(Crc(data)), 4);
    Slices(StreamId(), [UNCOMPRESSED], len, crc, data);
    Regroup(StreamId(), [UNCOMPRESSED], len, crc, data);
  }

  lemma Regroup(a: Bytes, b: Bytes, c: Bytes, d: Bytes, e: Bytes)
    ensures a + (b + c + d) + e == a + b + c + d + e
  {
  }

  /** What the decoder looks at in a chunk with its data. */
  predicate Framed(b: Bytes, data: Bytes) {
    && |b| == 18 + |data| && b[..10] == StreamId() && b[10] == UNCOMPRESSED
    && b[11..14] == Le(|data| + 4, 3) && b[14..18] == Le(Mask(Crc(data)), 4) && b[18..] == data
  }

  lemma LengthField(data: Bytes)
    requires |data| <= CHUNK_MAX
    ensures FromLe(Le(|data| + 4, 3)) == |data| + 4
  {
    Pow256At();
    LeRoundTrip(|data| + 4, 3);
  }

  lemma ChecksumField(data: Bytes)
    ensures var stored := FromLe(Le(Mask(Crc(data)), 4));
      stored < TWO32 && Unmask(stored) == Crc(data)
  {
    Pow256At();
    LeRoundTrip(Mask(Crc(data)), 4);
    MaskRoundTrip(Crc(data));
  }

  lemma FramedDecodes(b: Bytes, data: Bytes)
    requires Framed(b, data) && |data| <= CHUNK_MAX
    ensures Decode(b) == FromRecords(data)
  {
    LengthField(data);
    ChecksumField(data);
  }

  /** A chunk that is not too long passes the checks of the framing. */
  lemma FrameAccepted(data: Bytes)
    ensures Decode(StreamId() + ChunkHeader(data) + data) == if |data| <= CHUNK_MAX then FromRecords(data) else None
  {
    var b := StreamId() + ChunkHeader(data) + data;
    FrameFields(data);
    if |data| <= CHUNK_MAX { FramedDecodes(b, data); }
  }

  /** Records are longer than every name in them. */
  lemma {:induction false} RecordsLonger(ms: seq<Metric>)
    requires AllEncodable(ms)
    ensures forall i | 0 <= i < |ms| :: |ms[i].name| + 18 <= |Records(ms)|
  {
    if ms != [] {
      RecordsLonger(ms[1..]);
      forall i | 0 <= i < |ms| ensures |ms[i].name| + 18 <= |Records(ms)| {
        if i > 0 { assert ms[i] == ms[1..][i - 1]; }
      }
    }
  }

  /** The decoder accepts the encoded bytes and recovers the list exactly when the chunk is
      not too long for the format. Then the lengths of all names fit their fields too. */
  lemma RoundTrip(ms: seq<Metric>)
    requires AllEncodable(ms)
    ensures Decode(Encode(ms)) == Some(ms) <==> |Records(ms)| <= CHUNK_MAX
    ensures |Records(ms)| <= CHUNK_MAX ==> ShortNames(ms)
  {
    FrameAccepted(Records(ms));
    RecordsLonger(ms);
    if |Records(ms)| <= CHUNK_MAX { RecordsRoundTrip(ms); }
  }

  /** Records alone are read back exactly when the names are short. */
  lemma RecordsExactly(ms: seq<Metric>)
    requires AllEncodable(ms)
    ensures FromRecords(Records(ms)) == Some(ms) <==> ShortNames(ms)
  {
    if ShortNames(ms) { RecordsRoundTrip(ms); }
    if FromRecords(Records(ms)) == Some(ms) { DecodedShort(Records(ms), ms); }
  }

  /** A name of 2^16 zero bytes is neither read back nor accepted. */
  lemma LongName(m: Metric)
    requires m == Metric(seq(TWO16, _ => 0), 0)
    ensures Decode(Encode([m])) != Some([m]) && FromRecords(Records([m])) != Some([m])
  {
    assert !ShortName([m][0]);
    RoundTrip([m]);
    RecordsExactly([m]);
  }

  /** Overwrites part of a byte string. */
  function Patch(b: Bytes, at: nat, part: Bytes): (r: Bytes)
    requires at + |part| <= |b|
    ensures |r| == |b|
  {
    b[..at] + part + b[at + |part|..]
  }

  lemma HeaderBytes(len: nat)
    ensures Le(len, 3) == [len % 256, len / 256 % 256, len / 0x1_0000 % 256]
  {
    assert len / 256 / 256 == len / 0x1_0000;
    assert Le(len, 3) == [len % 256] + ([len / 256 % 256] + ([len / 256 / 256 % 256] + Le(len / 256 / 256 / 256, 0)));
  }

  lemma FillHeader(b: Bytes, header: Bytes, checksum: Bytes)
    requires |b| >= 18 && |header| == 4 && |checksum| == 4
    ensures Patch(Patch(b, 10, header), 14, checksum) == b[..10] + (header + checksum) + b[18..]
  {
    var p := Patch(b, 10, header);
    assert p[..14] == b[..10] + header;
    assert p[18..] == b[18..];
  }

  /** The identifier, eight bytes of room, and the records of some metrics. */
  ghost predicate Started(b: Bytes, ms: seq<Metric>) {
    AllEncodable(ms) && |b| >= 18 && b[..10] == StreamId() && b[18..] == Records(ms)
  }

  lemma StartedAdd(b: Bytes, ms: seq<Metric>, m: Metric)
    requires Started(b, ms) && Encodable(m)
    ensures Started(b + Record(m), ms + [m])
  {
    RecordsAppend(ms, m);
    TailGrows(b, Record(m));
  }

  lemma TailGrows(b: Bytes, r: Bytes)
    requires |b| >= 18
    ensures (b + r)[..10] == b[..10] && (b + r)[18..] == b[18..] + r
  {
  }

  lemma JoinFields(b: Bytes, m: Metric)
    requires Encodable(m)
    ensures b + Le(|m.name|, 2) + m.name + Le(0, 8) + Le(ToDouble(m.value), 8) == b + Record(m)
  {
    Join(b, Le(|m.name|, 2), m.name, Le(0, 8), Le(ToDouble(m.value), 8));
  }

  lemma Join(a: Bytes, b: Bytes, c: Bytes, d: Bytes, e: Bytes)
    ensures a + b + c + d + e == a + (b + c + d + e)
  {
  }

  /** The type and length of a chunk, byte by byte. */
  function LengthBytes(len: nat): (b: Bytes)
    ensures b == [UNCOMPRESSED] + Le(len, 3) && |b| == 4
  {
    HeaderBytes(len);
    [UNCOMPRESSED, len % 256, len / 256 % 256, len / 0x1_0000 % 256]
  }

  lemma Assemble(b: Bytes, id: Bytes, header: Bytes, checksum: Bytes, data: Bytes)
    requires |b| >= 18 && |header| == 4 && |checksum| == 4 && b[..10] == id && b[18..] == data
    ensures Patch(Patch(b, 10, header), 14, checksum) == id + (header + checksum) + data
  {
    FillHeader(b, header, checksum);
  }

  lemma EncodeIs(ms: seq<Metric>, data: Bytes, header: Bytes, checksum: Bytes)
    requires AllEncodable(ms) && data == Records(ms)
    requires header == [UNCOMPRESSED] + Le(|data| + 4, 3) && checksum == Le(Mask(Crc(data)), 4)
    ensures Encode(ms) == StreamId() + (header + checksum) + data
  {
    HeaderIs(data, header, checksum);
  }

  lemma HeaderIs(data: Bytes, header: Bytes, checksum: Bytes)
    requires header == [UNCOMPRESSED] + Le(|data| + 4, 3) && checksum == Le(Mask(Crc(data)), 4)
    ensures ChunkHeader(data) == header + checksum
  {
  }

  /** A body of metrics under construction. */
  class Body {
    var bytes: Bytes
    /** The metrics added so far. */
    ghost var added: seq<Metric>

    /** Starts with the stream identifier and leaves room for the chunk header, whose
        bytes are whatever the buffer held. */
    constructor (junk: Bytes)
      requires |junk| == 8
      ensures Started(bytes, added) && added == []
    {
      bytes := StreamId() + junk;
      added := [];
    }

    /** Appends to the buffer, unless it cannot grow. */
    method Append(part: Bytes) returns (ok: bool)
      modifies this
      ensures bytes == (if ok then old(bytes) + part else old(bytes)) && added == old(added)
    {
      ok := *;
      if ok { bytes := bytes + part; }
    }

    /** Appends the four fields of a record; a write that fails leaves a part behind. */
    method AddFields(name: Bytes, word: nat) returns (ok: bool)
      modifies this
      ensures added == old(added) && old(bytes) <= bytes
      ensures ok ==> bytes == old(bytes) + Le(|name|, 2) + name + Le(0, 8) + Le(word, 8)
    {
      ok := Append(Le(|name|, 2));
      if !ok { return; }
      ok := Append(name);
      if !ok { return; }
      ok := Append(Le(0, 8));
      if !ok { return; }
      ok := Append(Le(word, 8));
    }

    /** Appends a metric. For a value of 2^53 or more C leaves the shift of the fraction, and
        so the word that is written, undefined: it is then `junk`. */
    method Add(m: Metric, junk: nat) returns (ok: bool)
      requires Started(bytes, added)
      modifies this
      ensures old(bytes) <= bytes
      ensures ok && Encodable(m) ==>
        Started(bytes, added) && added == old(added) + [m] && bytes == old(bytes) + Record(m)
      ensures ok && !Encodable(m) ==>
        added == old(added) && bytes == old(bytes) + Le(|m.name|, 2) + m.name + Le(0, 8) + Le(junk, 8)
      ensures !ok ==> added == old(added)
    {
      if m.value < TWO53 {
        JoinFields(bytes, m);
        StartedAdd(bytes, added, m);
        ok := AddFields(m.name, ToDouble(m.value));
        if ok { added := added + [m]; }
      } else {
        ok := AddFields(m.name, junk);
      }
    }

    /** Fills in the chunk header. */
    method Commit()
      requires Started(bytes, added)
      modifies this
      ensures added == old(added) && AllEncodable(added) && bytes == Encode(added)
    {
      var data := bytes[18..];
      var checksum := ChecksumBytes(data);
      var header := LengthBytes(|bytes| - 14);
      Assemble(bytes, StreamId(), header, checksum, data);
      EncodeIs(added, data, header, checksum);
      bytes := Patch(Patch(bytes, 10, header), 14, checksum);
    }
  }

  /** The masked checksum as it is stored. */
  method ChecksumBytes(data: Bytes) returns (b: Bytes)
    ensures |b| == 4 && b == Le(Mask(Crc(data)), 4)
  {
    var crc := Crc32c.Compute(data);
    Crc32c.NatRange(crc);
    Pow2Half();
    b := Le(Mask(ToNat(crc)), 4);
  }
}
