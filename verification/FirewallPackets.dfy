/** Packets built from named header fields, and what a rule as written says about them. */
module FirewallPackets {
  import opened Common
  import opened Firewall
  import opened FirewallRules

  // ---- encoding ----

  /** A 16-bit number in network order. */
  function Be(n: nat): (bs: seq<U8>)
    requires n < 65536
    ensures |bs| == 2
  {
    [n / 256, n % 256]
  }

  /** The fields of an IPv4 header. `words` is its length in units of four bytes and `offset`
      the fragment offset, which follows the three flag bits. */
  datatype V4 = V4(words: nat, service: U8, length: nat, id: nat, flags: nat, offset: nat, ttl: U8, protocol: U8,
                   checksum: nat, src: seq<U8>, dst: seq<U8>, options: seq<U8>)

  predicate Valid4(h: V4) {
    && 5 <= h.words < 16 && h.length < 65536 && h.id < 65536 && h.flags < 8 && h.offset < 8192 && h.checksum < 65536
    && |h.src| == 4 && |h.dst| == 4 && |h.options| == 4 * h.words - 20
  }

  function Fixed4(h: V4): (bs: seq<U8>)
    requires Valid4(h)
    ensures |bs| == 12
  {
    var fragment := h.flags * 8192 + h.offset;
    [4 * 16 + h.words, h.service, h.length / 256, h.length % 256, h.id / 256, h.id % 256,
     fragment / 256, fragment % 256, h.ttl, h.protocol, h.checksum / 256, h.checksum % 256]
  }

  function Encode4(h: V4, payload: seq<U8>): (p: seq<U8>)
    requires Valid4(h)
    ensures |p| == 4 * h.words + |payload|
  {
    Fixed4(h) + h.src + (h.dst + h.options + payload)
  }

  /** The fields of an IPv6 header: traffic class and flow label are the low half of the first
      byte and the three bytes after it. */
  datatype V6 = V6(top: nat, flow: seq<U8>, length: nat, next: U8, hops: U8, src: seq<U8>, dst: seq<U8>)

  predicate Valid6(h: V6) {
    h.top < 16 && |h.flow| == 3 && h.length < 65536 && |h.src| == 16 && |h.dst| == 16
  }

  function Fixed6(h: V6): (bs: seq<U8>)
    requires Valid6(h)
    ensures |bs| == 8
  {
    [6 * 16 + h.top, h.flow[0], h.flow[1], h.flow[2], h.length / 256, h.length % 256, h.next, h.hops]
  }

  /** An extension header with its size beyond the first eight bytes in units of as many, or a
      fragment header. */
  datatype Ext = Options(kind: U8, units: U8, body: seq<U8>) | Fragment(offset: nat, flags: nat, id: seq<U8>)

  predicate ValidExt(e: Ext) {
    match e
    case Options(kind, units, body) =>
      kind in {NEXTH_HOPBYHOP, NEXTH_DESTOPTS, NEXTH_ROUTING} && |body| == 6 + 8 * units
    case Fragment(offset, flags, id) => offset < 8192 && flags < 8 && |id| == 4
  }

  predicate AllValid(es: seq<Ext>) {
    forall i | 0 <= i < |es| :: ValidExt(es[i])
  }

  function KindOf(e: Ext): (kind: U8) {
    if e.Options? then e.kind else NEXTH_FRAGMENT
  }

  /** The kind of the first header of a chain that ends with the upper-layer protocol. */
  function FirstKind(es: seq<Ext>, upper: U8): (kind: U8) {
    if es == [] then upper else KindOf(es[0])
  }

  function EncodeExt(e: Ext, next: U8): (bs: seq<U8>)
    requires ValidExt(e)
    ensures |bs| >= 8
  {
    match e
    case Options(_, units, body) => [next, units] + body
    case Fragment(offset, flags, id) => [next, 0] + Be(offset * 8 + flags) + id
  }

  function EncodeExts(es: seq<Ext>, upper: U8): (bs: seq<U8>)
    requires AllValid(es)
  {
    if es == [] then [] else EncodeExt(es[0], FirstKind(es[1..], upper)) + EncodeExts(es[1..], upper)
  }

  predicate ValidChain(h: V6, es: seq<Ext>, upper: U8) {
    Valid6(h) && AllValid(es) && !IsExtension(upper) && h.next == FirstKind(es, upper)
  }

  function Encode6(h: V6, es: seq<Ext>, upper: U8, payload: seq<U8>): (p: seq<U8>)
    requires ValidChain(h, es, upper)
    ensures |p| == IP6_HLEN + |EncodeExts(es, upper)| + |payload|
  {
    Fixed6(h) + h.src + (h.dst + (EncodeExts(es, upper) + payload))
  }

  // ---- the fields are found ----

  lemma Slice(a: seq<U8>, b: seq<U8>, c: seq<U8>)
    ensures (a + b + c)[|a|..|a| + |b|] == b
    ensures forall i | 0 <= i < |a| :: (a + b + c)[i] == a[i]
  {
  }

  lemma Fields4(h: V4, payload: seq<U8>) returns (p: seq<U8>)
    requires Valid4(h)
    ensures p == Encode4(h, payload) && |p| == 4 * h.words + |payload| && p[12..16] == h.src && p[9] == h.protocol
    ensures Version(p) == 4 && Ip4HeaderLength(p) == 4 * h.words && Word(p, 6) % 8192 == h.offset
    ensures p[4 * h.words..] == payload
  {
    p := Encode4(h, payload);
    Slice(Fixed4(h), h.src, h.dst + h.options + payload);
    assert Fixed4(h)[0] == 4 * 16 + h.words;
    assert Word(p, 6) == h.flags * 8192 + h.offset;
  }

  lemma Fields6(h: V6, es: seq<Ext>, upper: U8, payload: seq<U8>) returns (p: seq<U8>)
    requires ValidChain(h, es, upper)
    ensures p == Encode6(h, es, upper, payload) && |p| == IP6_HLEN + |EncodeExts(es, upper)| + |payload|
    ensures p[8..24] == h.src && p[6] == h.next && Version(p) == 6
    ensures p[IP6_HLEN..] == EncodeExts(es, upper) + payload
  {
    p := Encode6(h, es, upper, payload);
    Slice(Fixed6(h), h.src, h.dst + (EncodeExts(es, upper) + payload));
    assert Fixed6(h)[0] == 6 * 16 + h.top;
  }

  /** The offset of the first fragment header, or zero. */
  function FragmentAt(es: seq<Ext>): (offset: nat) {
    if es == [] then 0 else if es[0].Fragment? then es[0].offset else FragmentAt(es[1..])
  }

  /** The walk reads the extension header at this position as e. */
  predicate ExtRead(p: seq<U8>, at: nat, e: Ext, next: U8, size: nat) {
    && 8 <= size && at + size <= |p| && at + FixedPart(KindOf(e)) <= |p| && IsExtension(KindOf(e))
    && ExtensionSize(p, KindOf(e), at) == size && p[at] == next
    && (e.Fragment? ==> size == 8 && FragmentOffset(p, at) == e.offset)
  }

  lemma ReadsExt(p: seq<U8>, at: nat, e: Ext, next: U8, rest: seq<U8>) returns (size: nat)
    requires ValidExt(e) && at <= |p| && p[at..] == EncodeExt(e, next) + rest
    ensures size == |EncodeExt(e, next)| && ExtRead(p, at, e, next, size) && p[at + size..] == rest
  {
    var bs := EncodeExt(e, next);
    size := |bs|;
    assert |p| - at == |bs| + |rest|;
    forall i | 0 <= i < |bs| ensures p[at + i] == bs[i] { assert p[at..][i] == bs[i]; }
    assert p[at + |bs|..] == p[at..][|bs|..];
    if e.Fragment? { assert p[at + 2] == bs[2] && p[at + 3] == bs[3]; }
  }

  /** What a walk finds: the upper-layer header, and whether this is a later fragment. */
  datatype Walk = Walk(upper: Option<(U8, nat)>, fragment: bool)

  function Walked(p: seq<U8>, kind: U8, at: nat): (w: Walk)
    requires at <= |p|
  {
    ParsePlaced(p, kind, at);
    Walk(UpperLayer(Parse(p, kind, at)), Fragmented(p, Parse(p, kind, at)))
  }

  /** What one more extension header in front makes of it. */
  function Before(e: Ext, w: Walk): (v: Walk) {
    w.(fragment := if e.Fragment? then e.offset != 0 else w.fragment)
  }

  lemma WalksOn(p: seq<U8>, kind: U8, at: nat, e: Ext, next: U8, size: nat)
    requires ValidExt(e) && kind == KindOf(e) && ExtRead(p, at, e, next, size)
    ensures Walked(p, kind, at) == Before(e, Walked(p, next, at + size))
  {
    ParsePlaced(p, kind, at);
    assert Parse(p, kind, at) == Extension(kind, at, size, Parse(p, p[at], at + size));
  }

  lemma StepsOver(p: seq<U8>, kind: U8, at: nat, e: Ext, next: U8, rest: seq<U8>) returns (size: nat)
    requires ValidExt(e) && kind == KindOf(e) && at <= |p| && p[at..] == EncodeExt(e, next) + rest
    ensures at + size <= |p| && p[at + size..] == rest
    ensures Walked(p, kind, at) == Before(e, Walked(p, next, at + size))
  {
    size := ReadsExt(p, at, e, next, rest);
    WalksOn(p, kind, at, e, next, size);
  }

  lemma ChainUnfold(es: seq<Ext>, upper: U8, payload: seq<U8>) returns (next: U8, rest: seq<U8>)
    requires AllValid(es) && es != []
    ensures next == FirstKind(es[1..], upper) && rest == EncodeExts(es[1..], upper) + payload
    ensures EncodeExts(es, upper) + payload == EncodeExt(es[0], next) + rest
  {
    next := FirstKind(es[1..], upper);
    rest := EncodeExts(es[1..], upper) + payload;
    Associative(EncodeExt(es[0], next), EncodeExts(es[1..], upper), payload);
  }

  /** What the walk over a chain finds: it ends at the upper-layer header, and meets the first
      fragment header on its way. */
  function ChainWalk(es: seq<Ext>, upper: U8, end: nat): (w: Walk) {
    Walk(Some((upper, end)), FragmentAt(es) != 0)
  }

  lemma {:induction false} WalksChain(p: seq<U8>, kind: U8, at: nat, es: seq<Ext>, upper: U8, payload: seq<U8>)
    returns (w: Walk)
    requires AllValid(es) && !IsExtension(upper) && kind == FirstKind(es, upper)
    requires at <= |p| && p[at..] == EncodeExts(es, upper) + payload
    ensures |payload| <= |p| && w == Walked(p, kind, at) && w == ChainWalk(es, upper, |p| - |payload|)
    decreases |es|
  {
    assert |p| - at == |EncodeExts(es, upper)| + |payload|;
    if es == [] {
      w := Walked(p, kind, at);
    } else {
      var next, rest := ChainUnfold(es, upper, payload);
      var size := StepsOver(p, kind, at, es[0], next, rest);
      var v := WalksChain(p, next, at + size, es[1..], upper, payload);
      w := Before(es[0], v);
    }
  }

  // ---- a rule as written ----

  /** What the network part of a rule says about a source address and about being a later
      fragment. */
  predicate NetworkSays(spec: L3Spec, ipv6: bool, src: seq<U8>, fragment: bool)
    requires L3Valid(spec, ipv6) && Parsed(spec, |src|) && |src| == if ipv6 then 16 else 4
  {
    && (spec.src.Given? ==>
          PrefixHolds(src, spec.src.value.address, MaskLength(spec.src.value, ipv6), !spec.src.value.negated))
    && (spec.fragment.Given? ==> fragment == spec.fragment.value)
  }

  /** A source without a mask is one address. */
  lemma WholeAddress(spec: L3Spec, ipv6: bool, src: seq<U8>, fragment: bool)
    requires L3Valid(spec, ipv6) && Parsed(spec, |src|) && |src| == if ipv6 then 16 else 4
    requires spec.src.Given? && spec.src.value.mask.Absent? && !spec.src.value.negated && spec.fragment.Absent?
    ensures NetworkSays(spec, ipv6, src, fragment) <==> src == spec.src.value.address
  {
    var address, n := spec.src.value.address, 8 * |src|;
    PrefixSplits(src, address, n);
    assert n / 8 == |src| && src[..|src|] == src && address[..|src|] == address;
  }

  /** The destination port of a TCP or UDP header. */
  function DestPort(payload: seq<U8>): (port: nat)
    requires |payload| >= 4
  {
    Word(payload, 2)
  }

  lemma DestPortIs(source: nat, dest: nat, rest: seq<U8>)
    requires source < 65536 && dest < 65536
    ensures DestPort(Be(source) + Be(dest) + rest) == dest
  {
    var p := Be(source) + Be(dest) + rest;
    assert p[2] == dest / 256 && p[3] == dest % 256;
  }

  /** What the transport part says about a protocol and what comes after the network headers: a
      destination port is looked for in the first fragment only, in a header that fits. */
  predicate TransportSays(spec: L4Spec, proto: U8, size: nat, protocol: U8, fragment: bool, payload: seq<U8>)
    requires L4Valid(spec) && size >= 4
  {
    && protocol == proto
    && (spec.dest.Given? ==>
          && !fragment && |payload| >= size
          && (DestPort(payload) == spec.dest.value.number % 65536) == !spec.dest.value.negated)
  }

  /** What a rule says about a packet of one version. */
  predicate Says(spec: RuleSpec, ipv6: bool, src: seq<U8>, fragment: bool, protocol: U8, payload: seq<U8>)
    requires SpecValid(spec) && ParsedRule(spec) && |src| == if ipv6 then 16 else 4
  {
    && (if ipv6 then spec.ip4.None? else spec.ip6.None?)
    && (!ipv6 && spec.ip4.Some? ==> NetworkSays(spec.ip4.value, false, src, fragment))
    && (ipv6 && spec.ip6.Some? ==> NetworkSays(spec.ip6.value, true, src, fragment))
    && (spec.tcp.Some? ==> TransportSays(spec.tcp.value, NEXTH_TCP, 20, protocol, fragment, payload))
    && (spec.udp.Some? ==> TransportSays(spec.udp.value, NEXTH_UDP, 8, protocol, fragment, payload))
  }

  lemma ListHolds4(spec: L3Spec, h: V4, p: seq<U8>)
    requires L3Valid(spec, false) && Parsed(spec, 4) && |p| >= 20 && |h.src| == 4
    requires p[12..16] == h.src && Word(p, 6) % 8192 == h.offset
    ensures (forall c | c in L3List(spec, false) :: SrcOk(c, 4) && Holds4(p, c)) <==>
            NetworkSays(spec, false, h.src, h.offset != 0)
  {
    var src := if spec.src.Given?
      then [Src(spec.src.value.address, MaskLength(spec.src.value, false), !spec.src.value.negated)] else [];
    var frag := if spec.fragment.Given? then [Frag(spec.fragment.value)] else [];
    assert L3List(spec, false) == src + frag;
    assert spec.src.Given? ==> src[0] in src + frag;
    assert spec.fragment.Given? ==> frag[0] in src + frag;
  }

  lemma ListHolds6(spec: L3Spec, h: V6, p: seq<U8>)
    requires L3Valid(spec, true) && Parsed(spec, 16) && |p| >= IP6_HLEN && |h.src| == 16 && p[8..24] == h.src
    ensures (forall c | c in L3List(spec, true) :: SrcOk(c, 16) && Holds6(p, c)) <==>
            NetworkSays(spec, true, h.src, IsFragment(p))
  {
    var src := if spec.src.Given?
      then [Src(spec.src.value.address, MaskLength(spec.src.value, true), !spec.src.value.negated)] else [];
    var frag := if spec.fragment.Given? then [Frag(spec.fragment.value)] else [];
    assert L3List(spec, true) == src + frag;
    assert spec.src.Given? ==> src[0] in src + frag;
    assert spec.fragment.Given? ==> frag[0] in src + frag;
  }

  /** A property of all elements of a list and of one more. */
  lemma AllOfBoth(cs: seq<L3>, ds: seq<L3>, p: seq<U8>, ipv6: bool)
    requires |p| >= if ipv6 then IP6_HLEN else 20
    ensures AllHold(cs + ds, p, ipv6) <==> AllHold(cs, p, ipv6) && AllHold(ds, p, ipv6)
  {
    forall c | c in cs || c in ds ensures c in cs + ds {
    }
  }

  predicate AllHold(cs: seq<L3>, p: seq<U8>, ipv6: bool)
    requires |p| >= if ipv6 then IP6_HLEN else 20
  {
    if ipv6 then forall c | c in cs :: SrcOk(c, 16) && Holds6(p, c)
    else forall c | c in cs :: SrcOk(c, 4) && Holds4(p, c)
  }

  function ProtoPart(spec: RuleSpec): (cs: seq<L3>) {
    if TransportProto(spec) != 0 then [Proto(TransportProto(spec), true)] else []
  }

  /** What the constraints of the rule say about an IPv4 packet. */
  lemma Constraints4(spec: RuleSpec, h: V4, p: seq<U8>)
    requires SpecValid(spec) && ParsedRule(spec) && spec.ip6.None? && |p| >= 20 && |h.src| == 4
    requires p[12..16] == h.src && Word(p, 6) % 8192 == h.offset && p[9] == h.protocol
    ensures AllHold(NetworkPart(spec) + ProtoPart(spec), p, false) <==>
      && (spec.ip4.Some? ==> NetworkSays(spec.ip4.value, false, h.src, h.offset != 0))
      && (TransportProto(spec) != 0 ==> h.protocol == TransportProto(spec))
  {
    AllOfBoth(NetworkPart(spec), ProtoPart(spec), p, false);
    assert TransportProto(spec) != 0 ==> Proto(TransportProto(spec), true) in ProtoPart(spec);
    if spec.ip4.Some? { ListHolds4(spec.ip4.value, h, p); }
  }

  lemma Constraints6(spec: RuleSpec, h: V6, p: seq<U8>, protocol: U8, at: nat)
    requires SpecValid(spec) && ParsedRule(spec) && spec.ip4.None? && |p| >= IP6_HLEN && |h.src| == 16
    requires p[8..24] == h.src && UpperLayer(Headers(p)) == Some((protocol, at))
    ensures AllHold(NetworkPart(spec) + ProtoPart(spec), p, true) <==>
      && (spec.ip6.Some? ==> NetworkSays(spec.ip6.value, true, h.src, IsFragment(p)))
      && (TransportProto(spec) != 0 ==> protocol == TransportProto(spec))
  {
    AllOfBoth(NetworkPart(spec), ProtoPart(spec), p, true);
    assert TransportProto(spec) != 0 ==> Proto(TransportProto(spec), true) in ProtoPart(spec);
    if spec.ip6.Some? { ListHolds6(spec.ip6.value, h, p); }
  }

  /** What the transport constraints say about the bytes after the network headers. */
  lemma PortHolds(spec: L4Spec, p: seq<U8>, at: nat, size: nat, fragment: bool)
    requires L4Valid(spec) && L4List(spec) != [] && at <= |p| && size >= 4
    ensures TransportHolds(p, if fragment then None else Some(at), size, L4List(spec)) <==>
      && !fragment && |p[at..]| >= size
      && (DestPort(p[at..]) == spec.dest.value.number % 65536) == !spec.dest.value.negated
  {
    var c := Dest(spec.dest.value.number % 65536, !spec.dest.value.negated);
    assert L4List(spec) == [c] && c in L4List(spec);
    if at + size <= |p| { assert Word(p[at..], 2) == Word(p, at + 2); }
  }

  /** The whole rule, given where the packet's transport header would be. */
  lemma TransportSaid(spec: RuleSpec, p: seq<U8>, at: nat, fragment: bool, protocol: U8)
    requires SpecValid(spec) && at <= |p|
    ensures var r := RuleOf(spec);
      && (TransportProto(spec) != 0 ==> protocol == TransportProto(spec))
      && (r.l4.Some? ==>
            TransportHolds(p, if fragment then None else Some(at), TransportSize(r), r.l4.value)) <==>
      && (spec.tcp.Some? ==> TransportSays(spec.tcp.value, NEXTH_TCP, 20, protocol, fragment, p[at..]))
      && (spec.udp.Some? ==> TransportSays(spec.udp.value, NEXTH_UDP, 8, protocol, fragment, p[at..]))
  {
    if spec.tcp.Some? {
      if L4List(spec.tcp.value) != [] { PortHolds(spec.tcp.value, p, at, 20, fragment); }
    } else if spec.udp.Some? {
      if L4List(spec.udp.value) != [] { PortHolds(spec.udp.value, p, at, 8, fragment); }
    }
  }

  /** An IPv4 packet matches the rule of a specification exactly when the specification says
      so about its header fields and payload. */
  lemma MatchesFields4(spec: RuleSpec, h: V4, payload: seq<U8>) returns (p: seq<U8>)
    requires SpecValid(spec) && ParsedRule(spec) && Valid4(h)
    ensures p == Encode4(h, payload) && |p| >= 20 && Built(RuleOf(spec))
    ensures Matches(p, RuleOf(spec)) <==> Says(spec, false, h.src, h.offset != 0, h.protocol, payload)
  {
    p := Fields4(h, payload);
    RuleIsBuilt(spec);
    if spec.ip6.None? {
      Constraints4(spec, h, p);
      TransportSaid(spec, p, 4 * h.words, h.offset != 0, h.protocol);
      assert NetworkPart(spec) + [] == NetworkPart(spec);
    }
  }

  lemma Found6(h: V6, es: seq<Ext>, upper: U8, payload: seq<U8>) returns (p: seq<U8>, at: nat)
    requires ValidChain(h, es, upper)
    ensures p == Encode6(h, es, upper, payload) && |p| >= IP6_HLEN && p[8..24] == h.src && Version(p) == 6
    ensures UpperLayer(Headers(p)) == Some((upper, at)) && (IsFragment(p) <==> FragmentAt(es) != 0)
    ensures at <= |p| && p[at..] == payload
  {
    p := Fields6(h, es, upper, payload);
    at := |p| - |payload|;
    var w := WalksChain(p, p[6], IP6_HLEN, es, upper, payload);
    assert p[at..] == p[IP6_HLEN..][|EncodeExts(es, upper)|..];
  }

  /** And so an IPv6 packet, with any chain of extension headers. */
  lemma MatchesFields6(spec: RuleSpec, h: V6, es: seq<Ext>, upper: U8, payload: seq<U8>) returns (p: seq<U8>)
    requires SpecValid(spec) && ParsedRule(spec) && ValidChain(h, es, upper)
    ensures p == Encode6(h, es, upper, payload) && |p| >= 20 && Built(RuleOf(spec))
    ensures Matches(p, RuleOf(spec)) <==> Says(spec, true, h.src, FragmentAt(es) != 0, upper, payload)
  {
    var at;
    p, at := Found6(h, es, upper, payload);
    RuleIsBuilt(spec);
    if spec.ip4.None? {
      Constraints6(spec, h, p, upper, at);
      TransportSaid(spec, p, at, FragmentAt(es) != 0, upper);
      assert NetworkPart(spec) + [] == NetworkPart(spec);
    }
  }

  /** A rule drops what it matches unless it says otherwise. */
  predicate Drops(spec: RuleSpec) {
    spec.dropAction.Given? ==> spec.dropAction.value
  }

  /** The rules that a configuration leaves match a packet, and drop it, as they are written. */
  lemma RulesSay4(specs: seq<RuleSpec>, rules: seq<Rule>, h: V4, payload: seq<U8>) returns (p: seq<U8>)
    requires Read(rules, specs, |specs|) && Valid4(h) && forall i | 0 <= i < |specs| :: ParsedRule(specs[i])
    ensures p == Encode4(h, payload) && |p| >= 20
    ensures forall i | 0 <= i < |specs| ::
      && Reads(rules[i], specs[i]) && rules[i].drop == Drops(specs[i])
      && (Matches(p, rules[i]) <==> Says(specs[i], false, h.src, h.offset != 0, h.protocol, payload))
  {
    p := Encode4(h, payload);
    forall i | 0 <= i < |specs|
      ensures Reads(rules[i], specs[i]) && rules[i].drop == Drops(specs[i])
      ensures Matches(p, rules[i]) <==> Says(specs[i], false, h.src, h.offset != 0, h.protocol, payload)
    {
      assert Reads(rules[i], specs[i]);
      var _ := MatchesFields4(specs[i], h, payload);
    }
  }

  lemma RulesSay6(specs: seq<RuleSpec>, rules: seq<Rule>, h: V6, es: seq<Ext>, upper: U8, payload: seq<U8>)
    returns (p: seq<U8>)
    requires Read(rules, specs, |specs|) && ValidChain(h, es, upper)
    requires forall i | 0 <= i < |specs| :: ParsedRule(specs[i])
    ensures p == Encode6(h, es, upper, payload) && |p| >= 20
    ensures forall i | 0 <= i < |specs| ::
      && Reads(rules[i], specs[i]) && rules[i].drop == Drops(specs[i])
      && (Matches(p, rules[i]) <==> Says(specs[i], true, h.src, FragmentAt(es) != 0, upper, payload))
  {
    p := Encode6(h, es, upper, payload);
    forall i | 0 <= i < |specs|
      ensures Reads(rules[i], specs[i]) && rules[i].drop == Drops(specs[i])
      ensures Matches(p, rules[i]) <==> Says(specs[i], true, h.src, FragmentAt(es) != 0, upper, payload)
    {
      assert Reads(rules[i], specs[i]);
      var _ := MatchesFields6(specs[i], h, es, upper, payload);
    }
  }
}
