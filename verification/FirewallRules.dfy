/** Rules of the packet filter (klib/firewall.c): how they are built and what they match. */
module FirewallRules {
  import opened Common
  import opened Firewall

  datatype L3 = Src(buf: seq<U8>, bits: nat, equals: bool) | Frag(val: bool) | Proto(proto: nat, equals: bool)

  datatype L4 = Dest(port: nat, equals: bool)

  datatype Rule = Rule(ipVersion: nat, l4Proto: nat, l3: Option<seq<L3>>, l4: Option<seq<L4>>, drop: bool)

  // ---- building ----

  datatype Field<+T> = Absent | Invalid | Given(value: T)

  /** A source address as written: its bytes, an optional mask length, an optional "!". */
  datatype Source = Source(address: seq<U8>, mask: Field<nat>, negated: bool)

  datatype Port = Port(number: nat, negated: bool)

  datatype L3Spec = NoTuple3 | L3Spec(src: Field<Source>, fragment: Field<bool>)

  datatype L4Spec = NoTuple4 | L4Spec(dest: Field<Port>)

  datatype RuleSpec = RuleSpec(ip4: Option<L3Spec>, ip6: Option<L3Spec>, tcp: Option<L4Spec>, udp: Option<L4Spec>,
                               dropAction: Field<bool>)

  /** The parser returns as many bytes as the protocol's addresses have. */
  predicate Parsed(spec: L3Spec, size: nat) {
    spec.L3Spec? && spec.src.Given? ==> |spec.src.value.address| == size
  }

  predicate ParsedRule(spec: RuleSpec) {
    && (spec.ip4.Some? ==> Parsed(spec.ip4.value, 4))
    && (spec.ip6.Some? ==> Parsed(spec.ip6.value, 16))
  }

  /** A source constraint that can be compared with an address of the given size. */
  predicate SrcOk(c: L3, size: nat) {
    c.Src? ==> 0 < c.bits <= 8 * size && c.bits <= 8 * |c.buf|
  }

  function AddressSize(ipVersion: nat): (n: nat) {
    if ipVersion == 4 then 4 else 16
  }

  predicate ConstraintOk(c: L3, r: Rule) {
    && SrcOk(c, AddressSize(r.ipVersion)) && (c.Src? ==> r.ipVersion != 0)
    && (c.Proto? ==> c == Proto(r.l4Proto, true) && r.l4Proto != 0)
  }

  /** What every rule that is built satisfies: a transport constraint comes with a network
      constraint that demands the same protocol. */
  predicate Built(r: Rule) {
    && r.ipVersion in {0, 4, 6} && r.l4Proto in {0, NEXTH_TCP, NEXTH_UDP}
    && (r.l4.Some? ==> r.l4Proto != 0 && r.l3.Some?)
    && (r.l4Proto != 0 ==> r.l3.Some? && Proto(r.l4Proto, true) in r.l3.value)
    && (r.l3.Some? ==> forall c | c in r.l3.value :: ConstraintOk(c, r))
  }

  predicate MaskOk(s: Source, ipv6: bool) {
    s.mask.Absent? || (s.mask.Given? && 0 < s.mask.value <= if ipv6 then 128 else 32)
  }

  function MaskLength(s: Source, ipv6: bool): (n: nat) {
    if s.mask.Given? then s.mask.value else if ipv6 then 128 else 32
  }

  predicate L3Valid(spec: L3Spec, ipv6: bool) {
    && spec.L3Spec? && !spec.src.Invalid? && !spec.fragment.Invalid?
    && (spec.src.Given? ==> MaskOk(spec.src.value, ipv6))
  }

  function L3List(spec: L3Spec, ipv6: bool): (cs: seq<L3>)
    requires L3Valid(spec, ipv6)
  {
    (if spec.src.Given?
     then [Src(spec.src.value.address, MaskLength(spec.src.value, ipv6), !spec.src.value.negated)] else [])
    + if spec.fragment.Given? then [Frag(spec.fragment.value)] else []
  }

  predicate L4Valid(spec: L4Spec) {
    spec.L4Spec? && !spec.dest.Invalid?
  }

  function L4List(spec: L4Spec): (cs: seq<L4>)
    requires L4Valid(spec)
  {
    if spec.dest.Given? then [Dest(spec.dest.value.number % 65536, !spec.dest.value.negated)] else []
  }

  function Present<T>(cs: seq<T>): (o: Option<seq<T>>) {
    if cs == [] then None else Some(cs)
  }

  /** A rule is well-formed: at most one network and one transport part, each valid. */
  predicate SpecValid(spec: RuleSpec) {
    && (spec.ip4.Some? ==> L3Valid(spec.ip4.value, false))
    && (spec.ip6.Some? ==> L3Valid(spec.ip6.value, true) && spec.ip4.None?)
    && (spec.tcp.Some? ==> L4Valid(spec.tcp.value))
    && (spec.udp.Some? ==> L4Valid(spec.udp.value) && spec.tcp.None?)
    && !spec.dropAction.Invalid?
  }

  function NetworkPart(spec: RuleSpec): (cs: seq<L3>)
    requires SpecValid(spec)
  {
    if spec.ip4.Some? then L3List(spec.ip4.value, false)
    else if spec.ip6.Some? then L3List(spec.ip6.value, true)
    else []
  }

  function TransportProto(spec: RuleSpec): (proto: nat) {
    if spec.tcp.Some? then NEXTH_TCP else if spec.udp.Some? then NEXTH_UDP else 0
  }

  function TransportPart(spec: RuleSpec): (cs: seq<L4>)
    requires SpecValid(spec)
  {
    if spec.tcp.Some? then L4List(spec.tcp.value) else if spec.udp.Some? then L4List(spec.udp.value) else []
  }

  /** The rule a specification stands for. */
  function RuleOf(spec: RuleSpec): (r: Rule)
    requires SpecValid(spec)
  {
    var proto := TransportProto(spec);
    Rule(if spec.ip4.Some? then 4 else if spec.ip6.Some? then 6 else 0,
         proto,
         Present(NetworkPart(spec) + if proto != 0 then [Proto(proto, true)] else []),
         Present(TransportPart(spec)),
         if spec.dropAction.Given? then spec.dropAction.value else true)
  }

  /** The constraints of the network part. */
  lemma NetworkBuilt(spec: RuleSpec, r: Rule)
    requires ParsedRule(spec) && SpecValid(spec)
    requires r.ipVersion == if spec.ip4.Some? then 4 else if spec.ip6.Some? then 6 else 0
    ensures forall c | c in NetworkPart(spec) :: ConstraintOk(c, r)
  {
    if spec.ip4.Some? {
      ListBuilt(spec.ip4.value, false, r);
    } else if spec.ip6.Some? {
      ListBuilt(spec.ip6.value, true, r);
    }
  }

  lemma ListBuilt(spec: L3Spec, ipv6: bool, r: Rule)
    requires L3Valid(spec, ipv6) && r.ipVersion == (if ipv6 then 6 else 4) && Parsed(spec, if ipv6 then 16 else 4)
    ensures forall c | c in L3List(spec, ipv6) :: ConstraintOk(c, r)
  {
  }

  /** Every rule that is built is in order. */
  lemma RuleIsBuilt(spec: RuleSpec)
    requires ParsedRule(spec) && SpecValid(spec)
    ensures Built(RuleOf(spec))
  {
    var r, proto, cs := RuleOf(spec), TransportProto(spec), NetworkPart(spec);
    NetworkBuilt(spec, r);
    if proto != 0 {
      assert (cs + [Proto(proto, true)])[|cs|] == Proto(proto, true);
      forall c | c in cs + [Proto(proto, true)] ensures ConstraintOk(c, r) {
        assert c in cs || c == Proto(proto, true);
      }
    } else {
      assert cs + [] == cs;
    }
  }

  method ParseL3(r: Rule, spec: L3Spec, ipv6: bool) returns (ok: bool, s: Rule)
    ensures ok <==> L3Valid(spec, ipv6)
    ensures ok ==> s == r.(ipVersion := if ipv6 then 6 else 4, l3 := Present(L3List(spec, ipv6)))
  {
    s := r;
    if spec.NoTuple3? { return false, s; }
    var cs := [];
    if !spec.src.Absent? {
      if spec.src.Invalid? || !MaskOk(spec.src.value, ipv6) { return false, s; }
      cs := cs + [Src(spec.src.value.address, MaskLength(spec.src.value, ipv6), !spec.src.value.negated)];
    }
    if !spec.fragment.Absent? {
      if spec.fragment.Invalid? { return false, s; }
      cs := cs + [Frag(spec.fragment.value)];
    }
    assert cs == L3List(spec, ipv6);
    return true, s.(ipVersion := if ipv6 then 6 else 4, l3 := Present(cs));
  }

  /** Adds the protocol constraint that transport constraints rely on. */
  method AddL4Proto(r: Rule, proto: nat) returns (s: Rule)
    ensures s == r.(l3 := Some((if r.l3.Some? then r.l3.value else []) + [Proto(proto, true)]), l4Proto := proto)
  {
    s := r;
    if s.l3.None? { s := s.(l3 := Some([])); }
    s := s.(l3 := Some(s.l3.value + [Proto(proto, true)]), l4Proto := proto);
  }

  method ParseL4(r: Rule, spec: L4Spec, proto: nat) returns (ok: bool, s: Rule)
    ensures ok <==> L4Valid(spec)
    ensures ok ==> s == r.(l3 := Some((if r.l3.Some? then r.l3.value else []) + [Proto(proto, true)]),
                           l4Proto := proto, l4 := Present(L4List(spec)))
  {
    s := r;
    if spec.NoTuple4? { return false, s; }
    var cs := [];
    if !spec.dest.Absent? {
      if spec.dest.Invalid? { return false, s; }
      cs := cs + [Dest(spec.dest.value.number % 65536, !spec.dest.value.negated)];
    }
    assert cs == L4List(spec);
    s := AddL4Proto(s, proto);
    return true, s.(l4 := Present(cs));
  }

  /** The configured rules. */
  class Ruleset {
    var rules: seq<Rule>

    constructor ()
      ensures rules == []
    {
      rules := [];
    }

    method SetLast(r: Rule)
      requires rules != []
      modifies this
      ensures rules == old(rules)[..|old(rules)| - 1] + [r]
    {
      rules := rules[|rules| - 1 := r];
    }

    /** Adds a rule. It is on the list before it is complete, so a failure leaves it there. */
    method CreateRule(spec: RuleSpec) returns (ok: bool)
      modifies this
      ensures |rules| == |old(rules)| + 1 && rules[..|old(rules)|] == old(rules)
      ensures ok <==> SpecValid(spec)
      ensures ok ==> rules[|rules| - 1] == RuleOf(spec)
    {
      var r := Rule(0, 0, None, None, true);
      rules := rules + [r];
      if spec.ip4.Some? {
        ok, r := ParseL3(r, spec.ip4.value, false);
        if !ok { return; }
      }
      if spec.ip6.Some? {
        if spec.ip4.Some? { return false; }
        ok, r := ParseL3(r, spec.ip6.value, true);
        if !ok { return; }
      }
      if spec.tcp.Some? {
        ok, r := ParseL4(r, spec.tcp.value, NEXTH_TCP);
        if !ok { return; }
      }
      if spec.udp.Some? {
        if r.l4Proto != 0 { return false; }
        ok, r := ParseL4(r, spec.udp.value, NEXTH_UDP);
        if !ok { return; }
      }
      if spec.dropAction.Invalid? { return false; }
      r := r.(drop := if spec.dropAction.Given? then spec.dropAction.value else true);
      assert NetworkPart(spec) + [] == NetworkPart(spec) && [] + [Proto(r.l4Proto, true)] == [Proto(r.l4Proto, true)];
      assert r == RuleOf(spec);
      SetLast(r);
      return true;
    }

    /** Reads the whole configuration; one bad rule clears them all. */
    method Configure(specs: seq<RuleSpec>) returns (ok: bool)
      requires forall i | 0 <= i < |specs| :: ParsedRule(specs[i])
      modifies this
      ensures ok <==> forall i | 0 <= i < |specs| :: SpecValid(specs[i])
      ensures ok ==> |rules| == |specs|
      ensures ok ==> forall i | 0 <= i < |specs| :: rules[i] == RuleOf(specs[i]) && Built(rules[i])
      ensures !ok ==> rules == []
    {
      rules := [];
      for i := 0 to |specs|
        invariant Read(rules, specs, i)
      {
        ghost var before := rules;
        ok := CreateRule(specs[i]);
        if !ok {
          rules := [];
          return;
        }
        ReadNext(before, rules, specs, i);
      }
      return true;
    }
  }

  predicate Reads(r: Rule, spec: RuleSpec) {
    SpecValid(spec) && r == RuleOf(spec) && Built(r)
  }

  /** The rules of the first i specifications. */
  predicate Read(rules: seq<Rule>, specs: seq<RuleSpec>, i: nat) {
    |rules| == i <= |specs| && forall k | 0 <= k < i :: Reads(rules[k], specs[k])
  }

  lemma ReadNext(before: seq<Rule>, rules: seq<Rule>, specs: seq<RuleSpec>, i: nat)
    requires i < |specs| && ParsedRule(specs[i]) && Read(before, specs, i)
    requires |rules| == i + 1 && rules[..i] == before && SpecValid(specs[i]) && rules[i] == RuleOf(specs[i])
    ensures Read(rules, specs, i + 1)
  {
    RuleIsBuilt(specs[i]);
    forall k | 0 <= k < i ensures Reads(rules[k], specs[k]) {
      assert rules[k] == rules[..i][k];
      assert Reads(before[k], specs[k]);
    }
    assert Reads(rules[i], specs[i]);
  }

  // ---- matching ----

  const TCP_HLEN := 20
  const UDP_HLEN := 8

  /** What a network constraint says about an IPv6 packet. */
  predicate Holds6(p: seq<U8>, c: L3)
    requires |p| >= IP6_HLEN && SrcOk(c, 16)
  {
    match c
    case Src(buf, bits, equals) => PrefixHolds(p[8..24], buf, bits, equals)
    case Frag(val) => IsFragment(p) == val
    case Proto(proto, equals) => UpperLayer(Headers(p)).Some? && (UpperLayer(Headers(p)).value.0 == proto) == equals
  }

  /** And about an IPv4 packet. */
  predicate Holds4(p: seq<U8>, c: L3)
    requires |p| >= 20 && SrcOk(c, 4)
  {
    match c
    case Src(buf, bits, equals) => PrefixHolds(p[12..16], buf, bits, equals)
    case Frag(val) => (Word(p, 6) % 8192 != 0) == val
    case Proto(proto, equals) => (p[9] == proto) == equals
  }

  /** Where the transport header is, if it is in this packet. */
  function Transport6(p: seq<U8>): (at: Option<nat>)
    requires |p| >= IP6_HLEN
  {
    if IsFragment(p) || UpperLayer(Headers(p)).None? then None else Some(UpperLayer(Headers(p)).value.1)
  }

  function Ip4HeaderLength(p: seq<U8>): (n: nat)
    requires |p| >= 20
  {
    var first: nat := p[0];
    first % 16 * 4
  }

  function Transport4(p: seq<U8>): (at: Option<nat>)
    requires |p| >= 20
  {
    if Word(p, 6) % 8192 == 0 then Some(Ip4HeaderLength(p)) else None
  }

  predicate DestHolds(p: seq<U8>, at: nat, c: L4)
    requires at + 4 <= |p|
  {
    (Word(p, at + 2) == c.port) == c.equals
  }

  /** What transport constraints say about a header of the given minimal size. */
  predicate TransportHolds(p: seq<U8>, at: Option<nat>, size: nat, cs: seq<L4>)
    requires size >= 4
  {
    at.Some? && at.value + size <= |p| && forall c | c in cs :: DestHolds(p, at.value, c)
  }

  function Version(p: seq<U8>): (v: nat)
    requires p != []
  {
    p[0] / 16
  }

  function TransportSize(r: Rule): (n: nat) {
    if r.l4Proto == NEXTH_TCP then TCP_HLEN else UDP_HLEN
  }

  /** The meaning of a rule. */
  predicate Matches(p: seq<U8>, r: Rule)
    requires |p| >= 20 && Built(r)
  {
    && (r.ipVersion != 0 ==> r.ipVersion == Version(p))
    && (r.l3.Some? ==>
          if Version(p) == 4 then
            && |p| >= Ip4HeaderLength(p)
            && (forall c | c in r.l3.value :: SrcOk(c, 4) && Holds4(p, c))
            && (r.l4.Some? ==> TransportHolds(p, Transport4(p), TransportSize(r), r.l4.value))
          else
            && |p| >= IP6_HLEN
            && (forall c | c in r.l3.value :: SrcOk(c, 16) && Holds6(p, c))
            && (r.l4.Some? ==> TransportHolds(p, Transport6(p), TransportSize(r), r.l4.value)))
  }

  /** The constraints of a built rule, as the matchers rely on them. */
  predicate Usable(cs: seq<L3>, size: nat) {
    forall c | c in cs :: SrcOk(c, size) && (c.Proto? ==> c.equals && c.proto in {NEXTH_TCP, NEXTH_UDP})
  }

  function AsPointer(at: Option<nat>): (ptr: Pointer) {
    if at.None? then Null else At(at.value)
  }

  predicate HasProto(cs: seq<L3>) {
    exists c | c in cs :: c.Proto?
  }

  lemma NextConstraint(cs: seq<L3>, i: nat)
    requires i < |cs|
    ensures cs[..i + 1] == cs[..i] + [cs[i]]
    ensures HasProto(cs[..i + 1]) <==> HasProto(cs[..i]) || cs[i].Proto?
  {
    assert cs[..i + 1] == cs[..i] + [cs[i]];
    if cs[i].Proto? { assert cs[..i + 1][i].Proto?; }
  }

  /** Matches the network constraints of a rule against an IPv6 packet. `wild` is whether
      a pointer the walk has not written happens not to be null. */
  method Ip6Match(cs: seq<L3>, p: seq<U8>, wild: bool) returns (ok: bool, l4: Pointer)
    requires Usable(cs, 16)
    ensures ok <==> |p| >= IP6_HLEN && forall c | c in cs :: Holds6(p, c)
    ensures ok && HasProto(cs) ==> l4 == AsPointer(Transport6(p))
  {
    l4 := Unwritten;
    if |p| < IP6_HLEN { return false, l4; }
    FindUpper(p, p[6], IP6_HLEN);
    for i := 0 to |cs|
      invariant forall c | c in cs[..i] :: Holds6(p, c)
      invariant HasProto(cs[..i]) ==> l4 == AsPointer(Transport6(p))
    {
      NextConstraint(cs, i);
      assert cs[i] in cs;
      match cs[i] {
        case Src(buf, bits, equals) =>
          MatchBufMeans(p[8..24], buf, bits, equals);
          if !MatchBuf(p[8..24], buf, bits, equals) {
            assert !Holds6(p, cs[i]);
            return false, l4;
          }
        case Frag(val) =>
          var fragment := Ip6IsFragment(p);
          if fragment != val { return false, l4; }
        case Proto(proto, equals) =>
          var kind, ptr := GetHeader(p, NEXTH_NONE);
          if ptr != Unwritten { l4 := ptr; }
          var nonNull := if l4 == Unwritten then wild else l4.At?;
          if !nonNull || (kind == proto) != equals { return false, l4; }
          var fragment := Ip6IsFragment(p);
          if fragment { l4 := Null; }
      }
      assert Holds6(p, cs[i]);
    }
    assert cs[..|cs|] == cs;
    return true, l4;
  }

  /** Matches the network constraints of a rule against an IPv4 packet. */
  method Ip4Match(cs: seq<L3>, p: seq<U8>) returns (ok: bool, l4: Pointer)
    requires |p| >= 20 && Usable(cs, 4)
    ensures ok <==> |p| >= Ip4HeaderLength(p) && forall c | c in cs :: Holds4(p, c)
    ensures ok ==> l4 == AsPointer(Transport4(p))
  {
    var length := Ip4HeaderLength(p);
    if |p| < length { return false, Unwritten; }
    for i := 0 to |cs|
      invariant forall c | c in cs[..i] :: Holds4(p, c)
    {
      NextConstraint(cs, i);
      assert cs[i] in cs;
      match cs[i] {
        case Src(buf, bits, equals) =>
          MatchBufMeans(p[12..16], buf, bits, equals);
          if !MatchBuf(p[12..16], buf, bits, equals) {
            assert !Holds4(p, cs[i]);
            return false, Unwritten;
          }
        case Frag(val) =>
          if (Word(p, 6) % 8192 != 0) != val { return false, Unwritten; }
        case Proto(proto, equals) =>
          if (p[9] == proto) != equals { return false, Unwritten; }
      }
      assert Holds4(p, cs[i]);
    }
    assert cs[..|cs|] == cs;
    l4 := if Word(p, 6) % 8192 == 0 then At(length) else Null;
    return true, l4;
  }

  method TransportMatch(cs: seq<L4>, p: seq<U8>, at: nat, size: nat) returns (ok: bool)
    requires at <= |p| && size >= 4
    ensures ok <==> TransportHolds(p, Some(at), size, cs)
  {
    if |p| - at < size { return false; }
    for i := 0 to |cs|
      invariant forall c | c in cs[..i] :: DestHolds(p, at, c)
    {
      assert cs[..i + 1] == cs[..i] + [cs[i]];
      if (Word(p, at + 2) == cs[i].port) != cs[i].equals {
        assert !DestHolds(p, at, cs[i]);
        return false;
      }
    }
    assert cs[..|cs|] == cs;
    return true;
  }

  lemma UsableBuilt(r: Rule, v: nat)
    requires Built(r) && r.l3.Some? && (r.ipVersion != 0 ==> r.ipVersion == v)
    ensures Usable(r.l3.value, if v == 4 then 4 else 16)
    ensures r.l4.Some? ==> HasProto(r.l3.value)
  {
    forall c | c in r.l3.value
      ensures SrcOk(c, if v == 4 then 4 else 16) && (c.Proto? ==> c.equals && c.proto in {NEXTH_TCP, NEXTH_UDP})
    {
      assert ConstraintOk(c, r);
    }
  }

  /** Whether a packet matches a rule; what an unwritten pointer holds makes no difference. */
  method Match(p: seq<U8>, r: Rule, wild: bool) returns (ok: bool)
    requires |p| >= 20 && Built(r)
    ensures ok <==> Matches(p, r)
  {
    var version := Version(p);
    if r.ipVersion != 0 && r.ipVersion != version { return false; }
    if r.l3.None? { return true; }
    UsableBuilt(r, version);
    var l4;
    if version == 4 {
      ok, l4 := Ip4Match(r.l3.value, p);
    } else {
      ok, l4 := Ip6Match(r.l3.value, p, wild);
    }
    if !ok || r.l4.None? { return; }
    if l4 == Null { return false; }
    if version != 4 { FindUpper(p, p[6], IP6_HLEN); }
    if r.l4Proto == NEXTH_TCP {
      ok := TransportMatch(r.l4.value, p, l4.pos, TCP_HLEN);
    } else {
      ok := TransportMatch(r.l4.value, p, l4.pos, UDP_HLEN);
    }
  }

  /** The verdict on a packet is that of the first rule it matches, and to accept it if
      there is none. */
  method Filter(rules: seq<Rule>, p: seq<U8>, wild: seq<bool>) returns (accept: bool)
    requires |p| >= 20 && |wild| == |rules| && forall i | 0 <= i < |rules| :: Built(rules[i])
    ensures (forall i | 0 <= i < |rules| :: !Matches(p, rules[i])) ==> accept
    ensures forall i | 0 <= i < |rules| && Matches(p, rules[i]) && (forall j | 0 <= j < i :: !Matches(p, rules[j])) ::
      accept == !rules[i].drop
  {
    for i := 0 to |rules|
      invariant forall j | 0 <= j < i :: !Matches(p, rules[j])
    {
      var ok := Match(p, rules[i], wild[i]);
      if ok { return !rules[i].drop; }
    }
    return true;
  }
}
