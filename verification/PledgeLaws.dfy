/** What the pledge sandbox grants: which files can be opened, what the other calls need,
    and which abilities a list of promises leaves. */
module PledgeLaws {
  import opened Common
  import opened PathCanon
  import opened Pledge
  import opened Text

  // ---- opening files ----

  /** The canonical form is that of a list of components exactly when the path resolves to it. */
  lemma CanonicalIs(p: string, s: seq<string>)
    requires Absolute(p) && AllProper(s) && s != []
    ensures Canonical(p) == Render(s) <==> Resolved(p) == s
  {
    ResolvedProper(p);
    RenderUnique(Resolved(p), s);
    assert |Render(s)| >= 2;
  }

  lemma RenderUnique(s: seq<string>, t: seq<string>)
    requires AllProper(s) && AllProper(t)
    ensures Render(s) == Render(t) <==> s == t
  {
    ComponentsRender(s, "");
    ComponentsRender(t, "");
    assert Render(s) + "" == Render(s) && Render(t) + "" == Render(t);
    assert s + Components("") == s && t + Components("") == t;
  }

  const ZONEINFO: seq<string> := ["usr", "share", "zoneinfo"]

  predicate InEtc(s: seq<string>, names: set<string>) {
    |s| == 2 && s[0] == "etc" && s[1] in names
  }

  /** The files that may be read without rpath, by the components they resolve to. */
  predicate Reads(m: Mask, call: IoCall, s: seq<string>) {
    match call
    case OpenAt =>
      || (|s| > 3 && s[..3] == ZONEINFO) || InEtc(s, {"localtime"})
      || (DNS in m && InEtc(s, {"resolv.conf", "hosts", "services", "protocols"}))
    case FAccessAt => InEtc(s, {"localtime"})
    case NewFStatAt => DNS in m && InEtc(s, {"resolv.conf", "hosts"})
    case OtherCall => false
  }

  lemma RenderTwo(a: string, b: string)
    ensures Render([a, b]) == "/" + a + "/" + b
  {
    assert [a, b] == [a] + [b];
    RenderLast([a], b);
    assert Render([a]) == "/" + a + Render([]);
  }

  lemma EtcFile(p: string, name: string, full: string)
    requires Absolute(p) && Proper(name) && full == "/" + "etc" + "/" + name
    ensures Canonical(p) == full <==> InEtc(Resolved(p), {name})
  {
    RenderTwo("etc", name);
    CanonicalIs(p, ["etc", name]);
  }

  lemma Localtime(p: string)
    requires Absolute(p)
    ensures Canonical(p) == "/etc/localtime" <==> InEtc(Resolved(p), {"localtime"})
  {
    EtcFile(p, "localtime", "/etc/localtime");
  }

  lemma ResolvConf(p: string)
    requires Absolute(p)
    ensures Canonical(p) == "/etc/resolv.conf" <==> InEtc(Resolved(p), {"resolv.conf"})
  {
    EtcFile(p, "resolv.conf", "/etc/resolv.conf");
  }

  lemma Hosts(p: string)
    requires Absolute(p)
    ensures Canonical(p) == "/etc/hosts" <==> InEtc(Resolved(p), {"hosts"})
  {
    EtcFile(p, "hosts", "/etc/hosts");
  }

  lemma Services(p: string)
    requires Absolute(p)
    ensures Canonical(p) == "/etc/services" <==> InEtc(Resolved(p), {"services"})
  {
    EtcFile(p, "services", "/etc/services");
  }

  lemma Protocols(p: string)
    requires Absolute(p)
    ensures Canonical(p) == "/etc/protocols" <==> InEtc(Resolved(p), {"protocols"})
  {
    EtcFile(p, "protocols", "/etc/protocols");
  }

  lemma RenderThree(a: string, b: string, c: string)
    ensures Render([a, b, c]) == "/" + a + "/" + b + "/" + c
  {
    assert [a, b, c] == [a, b] + [c];
    RenderLast([a, b], c);
    RenderTwo(a, b);
  }

  lemma InZoneinfo(p: string)
    requires Absolute(p)
    ensures InDir(Canonical(p), "/usr/share/zoneinfo/") <==> |Resolved(p)| > 3 && Resolved(p)[..3] == ZONEINFO
  {
    RenderThree("usr", "share", "zoneinfo");
    assert "/" + "usr" + "/" + "share" + "/" + "zoneinfo" + "/" == "/usr/share/zoneinfo/";
    InDirCanonical(p, ZONEINFO);
  }

  lemma ReadableMeans(m: Mask, call: IoCall, p: string)
    requires Absolute(p)
    ensures Readable(m, call, Canonical(p)) <==> Reads(m, call, Resolved(p))
  {
    InZoneinfo(p);
    Localtime(p);
    ResolvConf(p);
    Hosts(p);
    Services(p);
    Protocols(p);
  }

  /** The path resolves strictly below /tmp and the process may use such paths. */
  predicate InOwnTmp(m: Mask, path: string) {
    && TMPPATH in m && Absolute(path) && Fits([], Components(path), PATH_MAX)
    && |Resolved(path)| >= 2 && Resolved(path)[0] == "tmp"
  }

  lemma TmpMeans(m: Mask, path: string)
    ensures TmpPasses(m, path) <==> InOwnTmp(m, path)
  {
    if Absolute(path) { InTmp(path); }
  }

  /** Neither creation nor the access mode asks for more than the mask has. */
  predicate MayOpen(m: Mask, flags: nat) {
    && ((flags / 64) % 2 == 1 ==> CPATH in m)
    && (flags % 4 == 0 || flags % 4 == 2 ==> RPATH in m)
    && (flags % 4 == 1 || flags % 4 == 2 ==> WPATH in m)
  }

  function Open(needed: Mask, call: IoCall, path: string, flags: nat): (c: Call) {
    Call(needed, FileIo(call, Text(path), flags))
  }

  lemma OpenAllowed(m: Mask, needed: Mask, call: IoCall, path: string, flags: nat)
    ensures Allowed(m, Open(needed, call, path, flags)) <==>
            Check(m, needed) && FileIoPasses(m, call, Text(path), flags)
  {
  }

  /** With the abilities its flags ask for, a process can open every path. */
  lemma OpensAnywhere(m: Mask, needed: Mask, call: IoCall, path: string, flags: nat)
    requires MayOpen(m, flags) && Check(m, needed)
    ensures Allowed(m, Open(needed, call, path, flags))
  {
  }

  lemma ReadsMeans(m: Mask, call: IoCall, path: string, flags: nat)
    requires RPATH !in m && flags % 4 == 0 && ((flags / 64) % 2 == 1 ==> CPATH in m)
    ensures FileIoPasses(m, call, Text(path), flags) <==>
      || InOwnTmp(m, path)
      || (Absolute(path) && Fits([], Components(path), PATH_MAX) && Reads(m, call, Resolved(path)))
  {
    TmpMeans(m, path);
    if Absolute(path) { ReadableMeans(m, call, path); }
  }

  /** Without rpath, a process can open to read exactly its files below /tmp, and the listed
      ones. */
  lemma ReadOnlyListed(m: Mask, needed: Mask, call: IoCall, path: string, flags: nat)
    requires RPATH !in m && flags % 4 == 0 && ((flags / 64) % 2 == 1 ==> CPATH in m)
    ensures Allowed(m, Open(needed, call, path, flags)) <==>
      && Check(m, needed)
      && (InOwnTmp(m, path)
          || (Absolute(path) && Fits([], Components(path), PATH_MAX) && Reads(m, call, Resolved(path))))
  {
    OpenAllowed(m, needed, call, path, flags);
    ReadsMeans(m, call, path, flags);
  }

  /** Without another ability its flags ask for, exactly its files below /tmp. */
  lemma OpensOnlyInTmp(m: Mask, needed: Mask, call: IoCall, path: string, flags: nat)
    requires ((flags / 64) % 2 == 1 && CPATH !in m) || (flags % 4 == 1 && WPATH !in m)
             || (flags % 4 == 2 && (RPATH !in m || WPATH !in m))
    ensures Allowed(m, Open(needed, call, path, flags)) <==> Check(m, needed) && InOwnTmp(m, path)
  {
    TmpMeans(m, path);
  }

  /** A path that cannot be read is left to the system call. */
  lemma FaultsPass(m: Mask, needed: Mask, call: IoCall, flags: nat)
    ensures Allowed(m, Call(needed, FileIo(call, Fault, flags))) <==> Check(m, needed)
    ensures Allowed(m, Call(needed, Create(Fault))) <==> Check(m, needed)
  {
  }

  /** With cpath, files can be created everywhere. */
  lemma CreatesAnywhere(m: Mask, needed: Mask, path: UserString)
    requires CPATH in m
    ensures Allowed(m, Call(needed, Create(path))) <==> Check(m, needed)
  {
  }

  /** A library can be loaded with prot_exec, from where files can be read. */
  lemma LoadsExactly(m: Mask, path: string)
    ensures Passes(m, UseLib(Text(path))) <==> PROT_EXEC in m && (RPATH in m || InOwnTmp(m, path))
  {
    if RPATH !in m { ReadsMeans(m, OtherCall, path, 0); }
  }

  lemma ResolvedRendered(s: seq<string>)
    requires AllProper(s) && s != []
    ensures Absolute(Render(s)) && Resolved(Render(s)) == s
  {
    RenderAbsolute(s);
    ComponentsRender(s, "");
    assert Render(s) + "" == Render(s) && s + Components("") == s;
    ResolveFixed([], s);
    assert [] + s == s;
  }

  lemma PasswdUnlisted(m: Mask)
    ensures AllProper(["etc", "passwd"]) && !Reads(m, OpenAt, ["etc", "passwd"])
  {
  }

  /** With wpath alone, /etc/passwd cannot be opened to read. */
  lemma PasswdRefused(path: string)
    requires path == Render(["etc", "passwd"])
    ensures !Allowed({WPATH}, Open({RPATH, WPATH, TMPPATH}, OpenAt, path, 0))
  {
    PasswdUnlisted({WPATH});
    ResolvedRendered(["etc", "passwd"]);
    ReadOnlyListed({WPATH}, {RPATH, WPATH, TMPPATH}, OpenAt, path, 0);
  }

  // ---- the other calls ----

  /** What the arguments of a call need. */
  function NeedOf(request: Request): (need: Need)
    requires !request.Create? && !request.RenameAt? && !request.Rename? && !request.FileIo? && !request.UseLib?
  {
    match request
    case Default => Free
    case ProtExec(prot) => if prot % 8 >= 4 then AllOf({PROT_EXEC}) else Free
    case Ioctl(r, isSocket) =>
      if r in {0x541b, 0x5421, 0x5450, 0x5451} then Free
      else if isSocket && r in {0x8913, 0x8915, 0x891d} then AllOf({ROUTE})
      else if isSocket && r in {0x8914, 0x8916, 0x891e, 0x8936} then AllOf({WROUTE})
      else Refused
    case Socket(domain) => DomainNeed(domain)
    case SockFd(sock) => if sock.Some? then DomainNeed(sock.value) else Free
    case SendTo(hasAddress) => if hasAddress then OneOf({INET, UNIX, DNS}) else Free
    case SendMsg(readable, hasName) => if readable && hasName then OneOf({INET, UNIX, DNS}) else Free
    case SendMmsg(readable, hasNames) => if readable && true in hasNames then OneOf({INET, UNIX}) else Free
    case SockOpt(isSet, level, option) => SockOptNeed(isSet, level, option)
  }

  /** A socket of another family is only for a process that has pledged nothing. */
  function DomainNeed(domain: int): (need: Need) {
    if domain == 1 then AllOf({UNIX}) else if domain == 2 || domain == 10 then AllOf({INET}) else AllOf(All())
  }

  /** A call passes exactly with the abilities its arguments need. */
  lemma NeedsExactly(m: Mask, request: Request)
    requires !request.Create? && !request.RenameAt? && !request.Rename? && !request.FileIo? && !request.UseLib?
    ensures Passes(m, request) <==> Suffices(m, NeedOf(request))
  {
    AllIsTop(m);
  }

  /** A call without a handler of its own needs one of the abilities registered for it, unless
      nothing has been pledged. */
  lemma DefaultNeeds(m: Mask, needed: Mask)
    ensures Allowed(m, Call(needed, Default)) <==> m == All() || exists a | a in needed :: a in m
  {
    AnyMeans(m, needed);
    assert Check(m, needed) <==> Any(m, needed);
  }

  /** Until something is pledged, every call is allowed that any ability is registered for. */
  lemma NothingPledged(c: Call)
    requires c.needed != {}
    ensures Allowed(All(), c)
  {
    var a :| a in c.needed;
    assert a in All() * c.needed;
    AllHasAll();
    AnyOf(All());
  }

  lemma AllHasAll()
    ensures {RPATH, WPATH, CPATH, INET, UNIX, DNS, PROT_EXEC} <= All()
  {
  }

  // ---- promises ----

  /** A promise's place in the table, told by its length and first letters. */
  function Place(name: string): (b: int) {
    match |name|
    case 2 => if name[0] == 'i' then 24 else if name[1] == 's' then 22 else 25
    case 3 => if name[0] == 'd' then 12 else if name[0] == 't' then 17 else 30
    case 4 =>
      if name[0] == 'i' then 6 else if name[0] == 'u' then 11 else if name[0] == 't' then 16
      else if name[0] == 'p' then 18 else 19
    case 5 =>
      if name[0] == 's' then 0 else if name[0] == 'w' then 2 else if name[0] == 'd' then 4
      else if name[0] == 'm' then 7 else if name[0] == 'g' then 13 else if name[0] == 'a' then 28
      else if name[0] == 'v' then 29 else if name[0] == 'e' then 32
      else if name[0] == 'r' then if name[1] == 'p' then 1 else 26
      else if name[0] == 'c' then if name[1] == 'p' then 3 else 9
      else if name[1] == 'a' then 8 else 10
    case 6 =>
      if name[0] == 's' then 14 else if name[0] == 'r' then 15 else if name[0] == 'v' then 23
      else if name[0] == 'w' then 27 else 31
    case 7 => if name[0] == 't' then 5 else 21
    case _ => 20
  }

  lemma LowPlaces(b: nat)
    requires b < 17
    ensures Place(PromiseNames()[b]) == b
  {
  }

  lemma HighPlaces(b: nat)
    requires 17 <= b < 33
    ensures Place(PromiseNames()[b]) == b
  {
  }

  lemma NamesDistinct(b: nat)
    requires b < 33
    ensures PromiseNames()[b] !in PromiseNames()[..b]
  {
    var names := PromiseNames();
    forall i: nat | i <= b ensures Place(names[i]) == i {
      if i < 17 { LowPlaces(i); } else { HighPlaces(i); }
    }
  }

  /** The abilities the handlers ask for are those of the promises with their names. */
  lemma NamesOfAbilities()
    ensures var names := PromiseNames();
      && names[RPATH] == "rpath" && names[WPATH] == "wpath" && names[CPATH] == "cpath" && names[TMPPATH] == "tmppath"
      && names[INET] == "inet" && names[MCAST] == "mcast" && names[UNIX] == "unix" && names[DNS] == "dns"
      && names[PROT_EXEC] == "prot_exec" && names[ROUTE] == "route" && names[WROUTE] == "wroute"
      && names[ERROR] == "error"
  {
  }

  /** A pledge that succeeds leaves exactly the abilities that are named. */
  lemma PledgeGrants(m: Mask, s: string, b: nat)
    requires PledgeOutcome(PromiseNames(), m, NotNull(Text(s))).rv == 0
    ensures b in PledgeOutcome(PromiseNames(), m, NotNull(Text(s))).mask <==>
            b < 33 && PromiseNames()[b] in Pieces(s)
  {
    if b < 33 { NamesDistinct(b); }
  }

  predicate Known(s: string) {
    forall p | p in Pieces(s) :: p in PromiseNames()
  }

  /** Every promise of the string has its ability in the mask. */
  predicate Held(m: Mask, s: string) {
    forall b: nat | b < 33 && PromiseNames()[b] in Pieces(s) :: b in m
  }

  /** What a pledge answers. */
  lemma PledgeAnswers(m: Mask, s: string)
    ensures PledgeOutcome(PromiseNames(), m, NotNull(Text(s))).rv ==
      if !Known(s) then -EINVAL else if !Held(m, s) then -EPERM else 0
  {
    var names := PromiseNames();
    forall b: nat | b < 33 ensures names[b] !in names[..b] { NamesDistinct(b); }
    if Known(s) { AsksHeld(m, s, Requested(names, Pieces(s)).value); }
  }

  lemma AsksHeld(m: Mask, s: string, n: Mask)
    requires Known(s) && Requested(PromiseNames(), Pieces(s)) == Some(n)
    requires forall b: nat | b < 33 :: PromiseNames()[b] !in PromiseNames()[..b]
    ensures n <= m <==> Held(m, s)
  {
    forall b: nat | b < 33 ensures b in n <==> PromiseNames()[b] in Pieces(s) {
    }
  }

  /** The pieces of a string have no spaces, and joined by spaces they give the string back,
      but for one space at its end. */
  function Join(pieces: seq<string>): (s: string) {
    if pieces == [] then "" else if |pieces| == 1 then pieces[0] else pieces[0] + " " + Join(pieces[1..])
  }

  lemma JoinFirst(piece: string, rest: seq<string>)
    ensures Join([piece] + rest) == if rest == [] then piece else piece + " " + Join(rest)
  {
    assert ([piece] + rest)[1..] == rest;
  }

  predicate UpToSpace(joined: string, s: string) {
    joined == s || joined + " " == s
  }

  predicate JoinsBack(s: string, start: nat)
    requires start <= |s|
  {
    UpToSpace(Join(PiecesFrom(s, start)), s[start..])
  }

  lemma {:induction false} PiecesJoin(s: string, start: nat)
    requires start <= |s|
    ensures JoinsBack(s, start)
    decreases |s| - start
  {
    if start == |s| {
    } else if Next(s, ' ', start) == |s| {
      LastJoin(s, start);
    } else {
      PiecesJoin(s, Next(s, ' ', start) + 1);
      MoreJoin(s, start);
    }
  }

  lemma LastJoin(s: string, start: nat)
    requires start < |s| && Next(s, ' ', start) == |s|
    ensures JoinsBack(s, start)
  {
    var rest := PiecesUnfold(s, start);
    JoinFirst(s[start..], rest);
    assert s[start..|s|] == s[start..];
  }

  lemma MoreJoin(s: string, start: nat)
    requires start < |s| && Next(s, ' ', start) < |s| && JoinsBack(s, Next(s, ' ', start) + 1)
    ensures JoinsBack(s, start)
  {
    var e := Next(s, ' ', start);
    var rest := PiecesUnfold(s, start);
    assert rest == PiecesFrom(s, e + 1);
    JoinStep(s, start, e, rest);
  }

  lemma PiecesUnfold(s: string, start: nat) returns (rest: seq<string>)
    requires start < |s|
    ensures var e := Next(s, ' ', start);
      && PiecesFrom(s, start) == [s[start..e]] + rest
      && rest == (if e == |s| then [] else PiecesFrom(s, e + 1)) && (rest == [] ==> e + 1 >= |s|)
  {
    var e := Next(s, ' ', start);
    rest := if e == |s| then [] else PiecesFrom(s, e + 1);
  }

  lemma JoinStep(s: string, start: nat, e: nat, rest: seq<string>)
    requires start <= e < |s| && s[e] == ' ' && UpToSpace(Join(rest), s[e + 1..]) && (rest == [] ==> e + 1 == |s|)
    ensures UpToSpace(Join([s[start..e]] + rest), s[start..])
  {
    JoinFirst(s[start..e], rest);
    SpaceAfter(s, start, e, Join(rest));
  }

  lemma SpaceAfter(s: string, start: nat, e: nat, rest: string)
    requires start <= e < |s| && s[e] == ' ' && UpToSpace(rest, s[e + 1..])
    ensures UpToSpace(s[start..e] + " " + rest, s[start..])
    ensures e + 1 == |s| ==> UpToSpace(s[start..e], s[start..])
  {
    assert s[start..] == s[start..e] + " " + s[e + 1..];
    Associative(s[start..e] + " ", rest, " ");
  }

  lemma {:induction false} PiecesPlain(s: string, start: nat)
    requires start <= |s|
    ensures forall i | 0 <= i < |PiecesFrom(s, start)| :: ' ' !in PiecesFrom(s, start)[i]
    decreases |s| - start
  {
    if start < |s| {
      var e := Next(s, ' ', start);
      if e < |s| { PiecesPlain(s, e + 1); }
    }
  }
}
