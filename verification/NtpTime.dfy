/** Conversion between kernel timestamps and NTP timestamps (klib/ntp.c,
    section 6 of RFC 5905).  A kernel timestamp is a 64-bit count of 2^-32
    seconds since 1970; an NTP timestamp holds seconds since 1900 and a fraction,
    both 32 bits wide and in network byte order. */
module NtpTime {
  import opened Common
  import opened Powers
  import opened FixedPoint

  const EPOCH_DELTA: int := 2208988800

  /** A 32-bit word in network byte order. */
  datatype Word = Word(b3: U8, b2: U8, b1: U8, b0: U8)

  datatype NtpTs = NtpTs(seconds: Word, fraction: Word)

  predicate U64(x: int) {
    0 <= x < TWO64
  }

  function HostToNet(x: int): (w: Word)
    requires 0 <= x < TWO32
  {
    Word(x / 0x100_0000, x / 0x1_0000 % 256, x / 256 % 256, x % 256)
  }

  function NetToHost(w: Word): (x: int)
    ensures 0 <= x < TWO32
  {
    ((w.b3 * 256 + w.b2) * 256 + w.b1) * 256 + w.b0
  }

  lemma NetRoundTrip(x: int)
    requires 0 <= x < TWO32
    ensures NetToHost(HostToNet(x)) == x
  {
    var y, z := x / 256, x / 0x1_0000;
    assert z == y / 256 && x / 0x100_0000 == z / 256;
  }

  function ToNtp(t: int): (n: NtpTs)
    requires U64(t)
  {
    NtpTs(HostToNet((EPOCH_DELTA + t / TWO32) % TWO32), HostToNet(t % TWO32))
  }

  /** A number of seconds as a timestamp: C multiplies by 2^32 modulo 2^64. */
  function Seconds(n: int): (t: int)
    ensures U64(t)
  {
    ((n % TWO64) * TWO32) % TWO64
  }

  function FromNtp(n: NtpTs): (t: int)
    ensures U64(t)
  {
    Assemble(NetToHost(n.seconds), NetToHost(n.fraction))
  }

  function Assemble(sec: int, fraction: int): (t: int)
    ensures U64(t)
  {
    (Seconds(sec - EPOCH_DELTA) + fraction) % TWO64
  }

  function Diff(t1: NtpTs, t2: NtpTs): (d: int) {
    DiffOfParts(NetToHost(t1.seconds), NetToHost(t2.seconds), NetToHost(t1.fraction), NetToHost(t2.fraction))
  }

  function DiffOfParts(s1: int, s2: int, f1: int, f2: int): (d: int) {
    Wrap64(Seconds((s1 - s2) % TWO32) + f1 - f2)
  }

  /** Seconds scaled by 2^32 depend only on the low 32 bits of their number. */
  lemma SecondsValue(s: int)
    ensures Seconds(s) == (s % TWO32) * TWO32
  {
    var h := s % TWO64;
    LowBits(s);
    assert h * TWO32 == (h / TWO32) * TWO64 + (h % TWO32) * TWO32;
  }

  lemma LowBits(s: int)
    ensures (s % TWO64) % TWO32 == s % TWO32
  {
    assert s == (s / TWO64) * TWO32 * TWO32 + s % TWO64;
  }

  /** Every timestamp survives the trip, also past the 2036 era wrap. */
  lemma RoundTrip(t: int)
    requires U64(t)
    ensures FromNtp(ToNtp(t)) == t
  {
    var s := (EPOCH_DELTA + t / TWO32) % TWO32;
    NetRoundTrip(s);
    NetRoundTrip(t % TWO32);
    assert FromNtp(ToNtp(t)) == Assemble(s, t % TWO32);
    AssembleParts(t, s);
  }

  lemma AssembleParts(t: int, s: int)
    requires U64(t) && s == (EPOCH_DELTA + t / TWO32) % TWO32
    ensures Assemble(s, t % TWO32) == t
  {
    AssembleValue(s, t % TWO32);
    EraWrap(s, t / TWO32);
  }

  lemma AssembleValue(s: int, f: int)
    requires 0 <= f < TWO32
    ensures Assemble(s, f) == ((s - EPOCH_DELTA) % TWO32) * TWO32 + f
  {
    SecondsValue(s - EPOCH_DELTA);
  }

  lemma EraWrap(s: int, sec: int)
    requires 0 <= sec < TWO32 && s == (EPOCH_DELTA + sec) % TWO32
    ensures (s - EPOCH_DELTA) % TWO32 == sec
  {
  }

  /** Days from the start of 1900 to the start of 1970: 17 of the 70 years are leap years. */
  const DAYS_1900_TO_1970 := 70 * 365 + 17

  /** The seconds on the wire are those since 1900, modulo 2^32. */
  lemma SecondsSince1900(t: int)
    requires U64(t)
    ensures NetToHost(ToNtp(t).seconds) == (t / TWO32 + DAYS_1900_TO_1970 * 24 * 60 * 60) % TWO32
    ensures NetToHost(ToNtp(t).fraction) == t % TWO32
  {
    NetRoundTrip((EPOCH_DELTA + t / TWO32) % TWO32);
    NetRoundTrip(t % TWO32);
  }

  /** The bytes sent for the start of 1970, most significant first. */
  lemma StartOf1970()
    ensures ToNtp(0) == NtpTs(Word(0x83, 0xAA, 0x7E, 0x80), Word(0, 0, 0, 0))
  {
  }

  /** The difference is that of the converted timestamps, modulo 2^64. */
  lemma DiffAgrees(t1: NtpTs, t2: NtpTs)
    ensures Diff(t1, t2) == Wrap64(FromNtp(t1) - FromNtp(t2))
  {
    PartsAgree(NetToHost(t1.seconds), NetToHost(t2.seconds), NetToHost(t1.fraction), NetToHost(t2.fraction));
  }

  lemma PartsAgree(s1: int, s2: int, f1: int, f2: int)
    requires 0 <= f1 < TWO32 && 0 <= f2 < TWO32
    ensures DiffOfParts(s1, s2, f1, f2) == Wrap64(Assemble(s1, f1) - Assemble(s2, f2))
  {
    AssembleValue(s1, f1);
    AssembleValue(s2, f2);
    SecondsValue((s1 - s2) % TWO32);
    LowTwice(s1 - s2);
    var k := Residues(s1, s2);
    WrapOfParts((s1 - EPOCH_DELTA) % TWO32, (s2 - EPOCH_DELTA) % TWO32, (s1 - s2) % TWO32, f1, f2, k);
  }

  lemma WrapOfParts(a: int, b: int, c: int, f1: int, f2: int, k: int)
    requires a - b == c + k * TWO32
    ensures Wrap64((a * TWO32 + f1) - (b * TWO32 + f2)) == Wrap64(c * TWO32 + f1 - f2)
  {
    assert (a * TWO32 + f1) - (b * TWO32 + f2) == c * TWO32 + f1 - f2 + k * TWO64;
    WrapShift(c * TWO32 + f1 - f2, k);
  }

  lemma LowTwice(s: int)
    ensures (s % TWO32) % TWO32 == s % TWO32
  {
  }

  lemma Residues(s1: int, s2: int) returns (k: int)
    ensures (s1 - EPOCH_DELTA) % TWO32 - (s2 - EPOCH_DELTA) % TWO32 == (s1 - s2) % TWO32 + k * TWO32
  {
    k := (s1 - s2) / TWO32 - (s1 - EPOCH_DELTA) / TWO32 + (s2 - EPOCH_DELTA) / TWO32;
  }

  lemma WrapShift(x: int, k: int)
    ensures Wrap64(x + k * TWO64) == Wrap64(x)
  {
  }
}
