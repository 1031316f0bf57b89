/** The packet filter of klib/firewall.c. */
module Firewall {
  import opened Common

  const NEXTH_HOPBYHOP := 0
  const NEXTH_TCP := 6
  const NEXTH_UDP := 17
  const NEXTH_ROUTING := 43
  const NEXTH_FRAGMENT := 44
  const NEXTH_NONE := 59
  const NEXTH_DESTOPTS := 60
  const IP6_HLEN := 40

  // ---- address prefixes ----

  /** Bit k of a byte string, the most significant bit of a byte first. */
  function Bit(a: seq<U8>, k: nat): (b: nat)
    requires k / 8 < |a|
  {
    BitOf(a[k / 8], k % 8)
  }

  function BitOf(b: U8, j: nat): (r: nat)
    requires j < 8
  {
    (b / Half(7 - j)) % 2
  }

  function Half(j: nat): (p: nat)
    requires j <= 8
    ensures p > 0
  {
    match j
    case 0 => 1 case 1 => 2 case 2 => 4 case 3 => 8 case 4 => 16 case 5 => 32 case 6 => 64 case 7 => 128 case _ => 256
  }

  /** The first n bits agree. */
  predicate SamePrefix(a: seq<U8>, b: seq<U8>, n: nat)
    requires n <= 8 * |a| && n <= 8 * |b|
  {
    forall k | 0 <= k < n :: Bit(a, k) == Bit(b, k)
  }

  /** The number that the first n bits of a byte write. */
  function Top(b: U8, n: nat): (r: nat)
    requires n <= 8
  {
    b / Half(8 - n)
  }

  /** A byte with all but its first n bits cleared. */
  function Masked(b: U8, n: nat): (r: nat)
    requires n <= 8
  {
    Top(b, n) * Half(8 - n)
  }

  lemma TopNext(b: U8, n: nat)
    requires 0 < n <= 8
    ensures Top(b, n) == 2 * Top(b, n - 1) + BitOf(b, n - 1) && BitOf(b, n - 1) <= 1
  {
    match n
    case 1 => case 2 => case 3 => case 4 => case 5 => case 6 => case 7 => case _ =>
  }

  lemma MaskedTop(b: U8, c: U8, n: nat)
    requires n <= 8
    ensures Masked(b, n) == Masked(c, n) <==> Top(b, n) == Top(c, n)
  {
    match n
    case 0 => case 1 => case 2 => case 3 => case 4 => case 5 => case 6 => case 7 => case _ =>
  }

  predicate SameBits(b: U8, c: U8, n: nat)
    requires n <= 8
  {
    forall j | 0 <= j < n :: BitOf(b, j) == BitOf(c, j)
  }

  lemma {:induction false} TopBits(b: U8, c: U8, n: nat)
    requires n <= 8
    ensures Top(b, n) == Top(c, n) <==> SameBits(b, c, n)
  {
    if n == 0 {
      assert Half(8) == 256;
    } else {
      TopBits(b, c, n - 1);
      TopNext(b, n);
      TopNext(c, n);
    }
  }

  lemma ByteBits(b: U8, c: U8)
    ensures b == c <==> SameBits(b, c, 8)
  {
    TopBits(b, c, 8);
    assert Half(0) == 1;
  }

  /** The whole bytes and then the bits of a prefix. */
  lemma PrefixSplits(a: seq<U8>, b: seq<U8>, n: nat)
    requires n <= 8 * |a| && n <= 8 * |b|
    ensures SamePrefix(a, b, n) <==>
      a[..n / 8] == b[..n / 8] && (n % 8 != 0 ==> SameBits(a[n / 8], b[n / 8], n % 8))
  {
    if SamePrefix(a, b, n) {
      forall i | 0 <= i < n / 8 ensures a[i] == b[i] {
        forall j | 0 <= j < 8 ensures BitOf(a[i], j) == BitOf(b[i], j) { BitAt(a, b, n, i, j); }
        ByteBits(a[i], b[i]);
      }
      if n % 8 != 0 {
        forall j | 0 <= j < n % 8 ensures BitOf(a[n / 8], j) == BitOf(b[n / 8], j) { BitAt(a, b, n, n / 8, j); }
      }
    }
    if a[..n / 8] == b[..n / 8] && (n % 8 != 0 ==> SameBits(a[n / 8], b[n / 8], n % 8)) {
      forall k | 0 <= k < n ensures Bit(a, k) == Bit(b, k) {
        if k / 8 < n / 8 {
          assert a[..n / 8][k / 8] == b[..n / 8][k / 8];
        }
      }
    }
  }

  lemma BitAt(a: seq<U8>, b: seq<U8>, n: nat, i: nat, j: nat)
    requires n <= 8 * |a| && n <= 8 * |b| && SamePrefix(a, b, n) && j < 8 && 8 * i + j < n
    ensures BitOf(a[i], j) == BitOf(b[i], j)
  {
    var k := 8 * i + j;
    assert k / 8 == i && k % 8 == j;
    assert Bit(a, k) == Bit(b, k);
  }

  /** Compares the first `bits` bits of an address with those of a constraint. */
  predicate MatchBuf(address: seq<U8>, buf: seq<U8>, bits: nat, equals: bool)
    requires bits <= 8 * |address| && bits <= 8 * |buf|
  {
    var bytes := bits / 8;
    if bytes != 0 && address[..bytes] != buf[..bytes] then !equals
    else if bits % 8 == 0 then true
    else (Masked(address[bytes], bits % 8) == Masked(buf[bytes], bits % 8)) == equals
  }

  /** The comparison is right for a constraint of equality. For a negated one it is
      right exactly when the prefix is not a whole number of bytes or the prefixes differ. */
  lemma MatchBufExact(address: seq<U8>, buf: seq<U8>, bits: nat)
    requires bits <= 8 * |address| && bits <= 8 * |buf|
    ensures MatchBuf(address, buf, bits, true) <==> SamePrefix(address, buf, bits)
    ensures (MatchBuf(address, buf, bits, false) <==> !SamePrefix(address, buf, bits)) <==>
      bits % 8 != 0 || !SamePrefix(address, buf, bits)
  {
    PrefixSplits(address, buf, bits);
    if bits % 8 != 0 {
      MaskedTop(address[bits / 8], buf[bits / 8], bits % 8);
      TopBits(address[bits / 8], buf[bits / 8], bits % 8);
    }
    assert bits / 8 == 0 ==> address[..0] == buf[..0];
  }

  /** What a source constraint comes down to: its prefix agrees, or disagrees if it is
      negated, except that a negated prefix of whole bytes holds of every address. */
  predicate PrefixHolds(address: seq<U8>, buf: seq<U8>, bits: nat, equals: bool)
    requires bits <= 8 * |address| && bits <= 8 * |buf|
  {
    (!equals && bits % 8 == 0) || SamePrefix(address, buf, bits) == equals
  }

  lemma MatchBufMeans(address: seq<U8>, buf: seq<U8>, bits: nat, equals: bool)
    requires bits <= 8 * |address| && bits <= 8 * |buf|
    ensures MatchBuf(address, buf, bits, equals) <==> PrefixHolds(address, buf, bits, equals)
  {
    MatchBufExact(address, buf, bits);
  }

  /** A rule for sources outside 10.0.0.0/8 matches 10.0.0.1. */
  lemma NegatedPrefixMatches()
    ensures MatchBuf([10, 0, 0, 1], [10, 0, 0, 0], 8, false) && SamePrefix([10, 0, 0, 1], [10, 0, 0, 0], 8)
  {
    assert [10, 0, 0, 1][..1] == [10] && [10, 0, 0, 0][..1] == [10];
    PrefixSplits([10, 0, 0, 1], [10, 0, 0, 0], 8);
  }

  // ---- the IPv6 header chain ----

  /** How a walk over the headers of a packet ends: at an upper-layer header (or no next
      header), at a header whose fixed part does not fit, or at one whose body does not. */
  datatype Chain =
    | Upper(kind: U8, at: nat)
    | Short(kind: U8, at: nat)
    | Cut(kind: U8, at: nat)
    | Extension(kind: U8, at: nat, size: nat, next: Chain)

  predicate IsExtension(kind: U8) {
    kind in {NEXTH_HOPBYHOP, NEXTH_DESTOPTS, NEXTH_ROUTING, NEXTH_FRAGMENT}
  }

  /** The bytes of an extension header that must fit before its size can be read. */
  function FixedPart(kind: U8): (n: nat) {
    if kind == NEXTH_HOPBYHOP || kind == NEXTH_DESTOPTS then 2 else if kind == NEXTH_ROUTING then 4 else 0
  }

  function ExtensionSize(p: seq<U8>, kind: U8, at: nat): (n: nat)
    requires IsExtension(kind) && at + FixedPart(kind) <= |p|
    ensures n >= 8
  {
    var units: nat := if kind == NEXTH_FRAGMENT then 0 else p[at + 1];
    8 * (1 + units)
  }

  /** The chain of headers from position `at` on, the first one of the given kind. */
  function Parse(p: seq<U8>, kind: U8, at: nat): (c: Chain)
    requires at <= |p|
    decreases |p| - at
  {
    if kind == NEXTH_NONE || !IsExtension(kind) then Upper(kind, at)
    else if at + FixedPart(kind) > |p| then Short(kind, at)
    else
      var size := ExtensionSize(p, kind, at);
      if at + size > |p| then Cut(kind, at) else Extension(kind, at, size, Parse(p, p[at], at + size))
  }

  function Headers(p: seq<U8>): (c: Chain)
    requires |p| >= IP6_HLEN
  {
    Parse(p, p[6], IP6_HLEN)
  }

  /** Every header of a chain lies inside the packet, right after the one before it, and
      has the kind that one announces. */
  predicate WellPlaced(p: seq<U8>, c: Chain) {
    && c.at <= |p|
    && (c.Extension? ==>
          && 0 < c.size && c.at + c.size <= |p| && c.next.at == c.at + c.size
          && c.next.kind == p[c.at] && WellPlaced(p, c.next))
  }

  lemma {:induction false} ParsePlaced(p: seq<U8>, kind: U8, at: nat)
    requires at <= |p|
    ensures Parse(p, kind, at).at == at && Parse(p, kind, at).kind == kind && WellPlaced(p, Parse(p, kind, at))
    decreases |p| - at
  {
    var c := Parse(p, kind, at);
    if c.Extension? { ParsePlaced(p, p[at], at + c.size); }
  }

  /** A pointer that the walk writes, or leaves as it was. */
  datatype Pointer = Unwritten | Null | At(pos: nat)

  datatype Found = Found(kind: U8, ptr: Pointer)

  /** The first header of the wanted kind, or the end of the chain. */
  function Find(c: Chain, wanted: U8): (f: Found) {
    match c
    case Upper(kind, at) => Found(kind, At(at))
    case Short(_, _) => Found(0, Unwritten)
    case Cut(kind, _) => Found(kind, Null)
    case Extension(kind, at, _, next) => if kind == wanted then Found(kind, At(at)) else Find(next, wanted)
  }

  /** Walks the header chain for a header of the wanted kind. */
  method GetHeader(p: seq<U8>, wanted: U8) returns (kind: U8, ptr: Pointer)
    requires |p| >= IP6_HLEN
    ensures Found(kind, ptr) == Find(Headers(p), wanted)
  {
    kind := p[6];
    var at: nat, len: nat := IP6_HLEN, |p| - IP6_HLEN;
    while kind != NEXTH_NONE
      invariant at + len == |p| && IP6_HLEN <= at
      invariant Find(Parse(p, kind, at), wanted) == Find(Headers(p), wanted)
      decreases len
    {
      var size: nat, units: nat := 0, 0;
      if kind == NEXTH_HOPBYHOP || kind == NEXTH_DESTOPTS {
        if len < 2 { return 0, Unwritten; }
        units := p[at + 1];
        size := 8 * (1 + units);
      } else if kind == NEXTH_ROUTING {
        if len < 4 { return 0, Unwritten; }
        units := p[at + 1];
        size := 8 * (1 + units);
      } else if kind == NEXTH_FRAGMENT {
        size := 8;
      }
      if len < size { return kind, Null; }
      if kind == wanted || size == 0 { break; }
      kind := p[at];
      at, len := at + size, len - size;
    }
    ptr := At(at);
  }

  /** The first fragment header of a chain carries a nonzero offset. */
  predicate Fragmented(p: seq<U8>, c: Chain)
    requires WellPlaced(p, c)
  {
    && c.Extension?
    && if c.kind == NEXTH_FRAGMENT then c.size == 8 && FragmentOffset(p, c.at) != 0 else Fragmented(p, c.next)
  }

  /** The offset field of a fragment header, without the flag bits. */
  function FragmentOffset(p: seq<U8>, at: nat): (n: nat)
    requires at + 8 <= |p|
  {
    Word(p, at + 2) / 8
  }

  /** Two bytes in network order. */
  function Word(p: seq<U8>, at: nat): (n: nat)
    requires at + 2 <= |p|
  {
    var high: nat, low: nat := p[at], p[at + 1];
    256 * high + low
  }

  /** The upper-layer header at the end of a chain that fits the packet. */
  function UpperLayer(c: Chain): (u: Option<(U8, nat)>) {
    match c
    case Upper(kind, at) => Some((kind, at))
    case Extension(_, _, _, next) => UpperLayer(next)
    case _ => None
  }

  /** A walk that looks for no header at all ends at the upper-layer header, if there is one. */
  lemma {:induction false} FindUpper(p: seq<U8>, kind: U8, at: nat)
    requires at <= |p|
    ensures var c := Parse(p, kind, at); var f := Find(c, NEXTH_NONE);
      if UpperLayer(c).Some?
      then f == Found(UpperLayer(c).value.0, At(UpperLayer(c).value.1)) && UpperLayer(c).value.1 <= |p|
      else f.ptr.Null? || (f.ptr.Unwritten? && f.kind == 0)
    decreases |p| - at
  {
    var c := Parse(p, kind, at);
    if c.Extension? { FindUpper(p, p[at], at + c.size); }
  }

  lemma {:induction false} FindFragment(p: seq<U8>, kind: U8, at: nat)
    requires at <= |p|
    ensures var c := Parse(p, kind, at); var f := Find(c, NEXTH_FRAGMENT);
      && WellPlaced(p, c)
      && (Fragmented(p, c) <==>
            f.kind == NEXTH_FRAGMENT && f.ptr.At? && f.ptr.pos + 8 <= |p| && FragmentOffset(p, f.ptr.pos) != 0)
      && (f.kind == NEXTH_FRAGMENT && f.ptr.At? ==> f.ptr.pos + 8 <= |p|)
    decreases |p| - at
  {
    ParsePlaced(p, kind, at);
    var c := Parse(p, kind, at);
    if c.Extension? { FindFragment(p, p[at], at + c.size); }
  }

  predicate IsFragment(p: seq<U8>)
    requires |p| >= IP6_HLEN
  {
    ParsePlaced(p, p[6], IP6_HLEN);
    Fragmented(p, Headers(p))
  }

  method Ip6IsFragment(p: seq<U8>) returns (r: bool)
    requires |p| >= IP6_HLEN
    ensures r == IsFragment(p)
  {
    FindFragment(p, p[6], IP6_HLEN);
    var kind, ptr := GetHeader(p, NEXTH_FRAGMENT);
    if kind != NEXTH_FRAGMENT || !ptr.At? { return false; }
    return FragmentOffset(p, ptr.pos) != 0;
  }
}
