/** The pledge sandbox (klib/pledge.c) and the handler dispatch of klib/sandbox.c.
    A 64-bit ability mask is the set of its bit positions. */
module Pledge {
  import opened Common
  import opened PathCanon
  import opened Text

  type Mask = m: set<nat> | forall b | b in m :: b < 64

  const RPATH := 1
  const WPATH := 2
  const CPATH := 3
  const TMPPATH := 5
  const INET := 6
  const MCAST := 7
  const UNIX := 11
  const DNS := 12
  const PROT_EXEC := 20
  const ROUTE := 26
  const WROUTE := 27
  const ERROR := 32
  const NEVER := 63

  const EPERM := 1
  const EFAULT := 14
  const EINVAL := 22
  const ENOSYS := 38
  const SIGABRT := 6
  const PATH_MAX := 4096

  predicate IsBit(b: nat) {
    b < 64
  }

  function All(): (m: Mask) {
    set b: nat | b < 64 && IsBit(b)
  }

  /** The promise table; a name's position is the bit it stands for. The results below
      hold for any table of this size. */
  type Names = names: seq<string> | |names| == 33 witness PromiseNames()

  function PromiseNames(): (names: seq<string>)
    ensures |names| == 33
  {
    [ "stdio", "rpath", "wpath", "cpath", "dpath", "tmppath", "inet", "mcast", "fattr", "chown", "flock",
      "unix", "dns", "getpw", "sendfd", "recvfd", "tape", "tty", "proc", "exec", "prot_exec", "settime",
      "ps", "vminfo", "id", "pf", "route", "wroute", "audio", "video", "bpf", "unveil", "error" ]
  }

  /** A string argument in user memory. */
  datatype UserString = Fault | Text(s: string)

  datatype IoCall = OpenAt | FAccessAt | NewFStatAt | OtherCall

  /** The arguments a handler looks at, with the descriptors and user memory they refer to. */
  datatype Request =
    | Default
    | ProtExec(prot: nat)
    | Ioctl(request: nat, isSocket: bool)
    | Socket(domain: int)
    | SockFd(sock: Option<int>)
    | SendTo(hasAddress: bool)
    | SendMsg(readable: bool, hasName: bool)
    | SendMmsg(readable: bool, hasNames: seq<bool>)
    | SockOpt(isSet: bool, level: int, option: int)
    | Create(path: UserString)
    | RenameAt(path: UserString, target: UserString)
    | Rename(path: UserString, target: UserString, third: UserString)
    | FileIo(call: IoCall, path: UserString, flags: nat)
    | UseLib(path: UserString)

  /** A system call with the abilities registered for it. */
  datatype Call = Call(needed: Mask, request: Request)

  predicate Check(m: Mask, needed: Mask) {
    m * needed != {}
  }

  predicate Any(m: Mask, abilities: set<nat>) {
    m * abilities != {}
  }

  predicate IoctlPasses(m: Mask, request: nat, isSocket: bool) {
    || request in {0x541b, 0x5421, 0x5450, 0x5451}
    || (isSocket && ROUTE in m && request in {0x8915, 0x8913, 0x891d})
    || (isSocket && WROUTE in m && request in {0x8916, 0x8936, 0x8914, 0x891e})
  }

  const AF_UNIX := 1
  const AF_INET := 2
  const AF_INET6 := 10

  predicate DomainPasses(m: Mask, domain: int) {
    if domain == AF_INET || domain == AF_INET6 then INET in m
    else if domain == AF_UNIX then UNIX in m
    else m == All()
  }

  const IPPROTO_IP := 0
  const SOL_SOCKET := 1
  const SOL_TCP := 6
  const IPPROTO_IPV6 := 41

  /** The abilities a socket option takes: none, one of a set, all of a set, or no
      abilities are enough. */
  datatype Need = Free | OneOf(abilities: set<nat>) | AllOf(abilities: set<nat>) | Refused

  function SockOptNeed(isSet: bool, level: int, option: int): (need: Need) {
    if level == SOL_SOCKET then
      if option == 8 || option == 4 then Free
      else if option == 29 then OneOf({INET, UNIX, DNS}) else OneOf({INET, UNIX})
    else if level == SOL_TCP then
      if option == 1 then Free else if option in {14, 2, 11} then OneOf({INET}) else Refused
    else if level == IPPROTO_IP then
      if option in {1, 2, 21} || (option == 4 && !isSet) then OneOf({INET})
      else if 32 <= option <= 36 then AllOf({INET, MCAST}) else Refused
    else if level == IPPROTO_IPV6 then
      if option == 63 then OneOf({DNS}) else if option == 49 then OneOf({DNS, INET})
      else if option in {67, 16, 73, 51, 26} then OneOf({INET})
      else if 17 <= option <= 19 then AllOf({INET, MCAST}) else Refused
    else Refused
  }

  predicate Suffices(m: Mask, need: Need) {
    match need
    case Free => true
    case OneOf(s) => Any(m, s)
    case AllOf(s) => s <= m
    case Refused => false
  }

  /** What the path canonicaliser leaves in a buffer of PATH_MAX characters. */
  function Canon(path: string): (c: Option<string>) {
    if Absolute(path) && Fits([], Components(path), PATH_MAX) then Some(Canonical(path)) else None
  }

  predicate TmpPasses(m: Mask, path: string) {
    TMPPATH in m && Canon(path).Some? && InDir(Canon(path).value, "/tmp/")
  }

  predicate CreatePasses(m: Mask, path: UserString) {
    CPATH in m || path.Fault? || TmpPasses(m, path.s)
  }

  /** Files that may be read without the rpath ability. */
  predicate Readable(m: Mask, call: IoCall, c: string) {
    match call
    case OpenAt =>
      || InDir(c, "/usr/share/zoneinfo/") || c == "/etc/localtime"
      || (DNS in m && c in {"/etc/resolv.conf", "/etc/hosts", "/etc/services", "/etc/protocols"})
    case FAccessAt => c == "/etc/localtime"
    case NewFStatAt => DNS in m && c in {"/etc/resolv.conf", "/etc/hosts"}
    case OtherCall => false
  }

  predicate AccessPasses(m: Mask, call: IoCall, path: string, mode: nat) {
    match mode
    case 0 => RPATH in m || (Canon(path).Some? && Readable(m, call, Canon(path).value))
    case 1 => WPATH in m
    case 2 => RPATH in m && WPATH in m
    case _ => true
  }

  /** O_CREAT is bit 6 of the flags, the access mode their low two bits. */
  predicate FileIoPasses(m: Mask, call: IoCall, path: UserString, flags: nat) {
    || path.Fault?
    || TmpPasses(m, path.s)
    || ((CPATH in m || (flags / 64) % 2 == 0) && AccessPasses(m, call, path.s, flags % 4))
  }

  predicate Passes(m: Mask, request: Request) {
    match request
    case Default => true
    case ProtExec(prot) => PROT_EXEC in m || (prot / 4) % 2 == 0
    case Ioctl(r, isSocket) => IoctlPasses(m, r, isSocket)
    case Socket(domain) => DomainPasses(m, domain)
    case SockFd(sock) => sock.None? || DomainPasses(m, sock.value)
    case SendTo(hasAddress) => !hasAddress || Any(m, {INET, UNIX, DNS})
    case SendMsg(readable, hasName) => Any(m, {INET, UNIX, DNS}) || !readable || !hasName
    case SendMmsg(readable, hasNames) => Any(m, {INET, UNIX}) || !readable || true !in hasNames
    case SockOpt(isSet, level, option) => Suffices(m, SockOptNeed(isSet, level, option))
    case Create(path) => CreatePasses(m, path)
    case RenameAt(path, target) => CreatePasses(m, path) && CreatePasses(m, target)
    case Rename(path, _, third) => CreatePasses(m, path) && CreatePasses(m, third)
    case FileIo(call, path, flags) => FileIoPasses(m, call, path, flags)
    case UseLib(path) => FileIoPasses(m, OtherCall, path, 0) && PROT_EXEC in m
  }

  /** Handlers that let every call through while nothing has been pledged. */
  predicate SkipsAll(request: Request) {
    request.Default? || request.Ioctl? || request.SockOpt?
  }

  predicate Allowed(m: Mask, c: Call) {
    (SkipsAll(c.request) && m == All()) || (Check(m, c.needed) && Passes(m, c.request))
  }

  lemma AnyOf(m: Mask)
    ensures Any(m, {INET, UNIX, DNS}) <==> INET in m || UNIX in m || DNS in m
    ensures Any(m, {INET, UNIX}) <==> INET in m || UNIX in m
    ensures Any(m, {DNS, INET}) <==> DNS in m || INET in m
    ensures (Any(m, {INET}) <==> INET in m) && (Any(m, {DNS}) <==> DNS in m)
  {
    AnyMeans(m, {INET, UNIX, DNS});
    AnyMeans(m, {INET, UNIX});
    AnyMeans(m, {DNS, INET});
    AnyMeans(m, {INET});
    AnyMeans(m, {DNS});
  }

  lemma AnyMeans(m: Mask, s: set<nat>)
    ensures Any(m, s) <==> exists a | a in s :: a in m
  {
    if Any(m, s) {
      var a :| a in m * s;
    }
    forall a | a in s && a in m ensures Any(m, s) {
      assert a in m * s;
    }
  }

  lemma SockOptMonotone(m: Mask, n: Mask, need: Need)
    requires m <= n && Suffices(m, need)
    ensures Suffices(n, need)
  {
    if need.OneOf? { assert m * need.abilities <= n * need.abilities; }
  }

  lemma MessagesMonotone(m: Mask, n: Mask, request: Request)
    requires m <= n && Passes(m, request) && (request.SendTo? || request.SendMsg? || request.SendMmsg?)
    ensures Passes(n, request)
  {
    forall s | Any(m, s) ensures Any(n, s) {
      assert m * s <= n * s;
    }
  }

  lemma FilesMonotone(m: Mask, n: Mask, request: Request)
    requires m <= n && Passes(m, request)
    requires request.Create? || request.RenameAt? || request.Rename? || request.FileIo? || request.UseLib?
    ensures Passes(n, request)
  {
  }

  lemma AllIsTop(m: Mask)
    ensures m <= All() && (All() <= m ==> m == All())
  {
  }

  /** A larger mask allows no less. */
  lemma AllowedMonotone(m: Mask, n: Mask, c: Call)
    requires m <= n && Allowed(m, c)
    ensures Allowed(n, c)
  {
    AllIsTop(n);
    assert m * c.needed <= n * c.needed;
    if m != All() {
      match c.request
      case SockOpt(isSet, level, option) => SockOptMonotone(m, n, SockOptNeed(isSet, level, option));
      case SendTo(_) => MessagesMonotone(m, n, c.request);
      case SendMsg(_, _) => MessagesMonotone(m, n, c.request);
      case SendMmsg(_, _) => MessagesMonotone(m, n, c.request);
      case Create(_) => FilesMonotone(m, n, c.request);
      case RenameAt(_, _) => FilesMonotone(m, n, c.request);
      case Rename(_, _, _) => FilesMonotone(m, n, c.request);
      case FileIo(_, _, _) => FilesMonotone(m, n, c.request);
      case UseLib(_) => FilesMonotone(m, n, c.request);
      case _ =>
    }
  }

  /** The pieces between single spaces from a position on, without an empty piece at the end. */
  function PiecesFrom(s: string, start: nat): (pieces: seq<string>)
    requires start <= |s|
    decreases |s| - start
  {
    if start == |s| then [] else
      var e := Next(s, ' ', start);
      [s[start..e]] + if e == |s| then [] else PiecesFrom(s, e + 1)
  }

  function Pieces(s: string): (pieces: seq<string>) {
    PiecesFrom(s, 0)
  }

  function IndexOf(names: seq<string>, name: string): (i: nat)
    requires name in names
    ensures i < |names| && names[i] == name && name !in names[..i]
  {
    if names[0] == name then 0 else
      assert name in names[1..];
      var i := IndexOf(names[1..], name) + 1;
      assert names[..i] == [names[0]] + names[1..][..i - 1];
      i
  }

  /** The abilities a list of promises asks for; none if one of them is unknown. */
  function Requested(names: Names, pieces: seq<string>): (m: Option<Mask>) {
    if forall p | p in pieces :: p in names then Some(set b: nat | b < 33 && Asked(names, pieces, b)) else None
  }

  /** Bit b belongs to a promise of the list. */
  predicate Asked(names: Names, pieces: seq<string>, b: nat)
    requires b < 33
  {
    names[b] in pieces && names[b] !in names[..b]
  }

  datatype Promises = Null | NotNull(str: UserString)

  datatype Outcome = Outcome(mask: Mask, rv: int)

  /** What a pledge call does to the mask, and what it returns. */
  function PledgeOutcome(names: Names, m: Mask, promises: Promises): (o: Outcome) {
    if promises.Null? then Outcome(m, 0)
    else if promises.str.Fault? then Outcome(m, -EFAULT)
    else match Requested(names, Pieces(promises.str.s))
      case None => Outcome(m, -EINVAL)
      case Some(n) => if n <= m then Outcome(n, 0) else Outcome(m, -EPERM)
  }

  /** Anything that can happen in a pledged process. */
  datatype Event = PledgeCall(promises: Promises) | SystemCall(c: Call)

  function Step(names: Names, m: Mask, e: Event): (n: Mask) {
    match e
    case PledgeCall(promises) => PledgeOutcome(names, m, promises).mask
    case SystemCall(_) => m
  }

  function Run(names: Names, m: Mask, es: seq<Event>): (n: Mask) {
    if es == [] then m else Run(names, Step(names, m, es[0]), es[1..])
  }

  lemma {:induction false} RunShrinks(names: Names, m: Mask, es: seq<Event>)
    ensures Run(names, m, es) <= m
    decreases |es|
  {
    if es != [] { RunShrinks(names, Step(names, m, es[0]), es[1..]); }
  }

  lemma {:induction false} RunConcat(names: Names, m: Mask, es: seq<Event>, fs: seq<Event>)
    ensures Run(names, m, es + fs) == Run(names, Run(names, m, es), fs)
    decreases |es|
  {
    if es == [] {
      assert es + fs == fs;
    } else {
      assert (es + fs)[1..] == es[1..] + fs;
      RunConcat(names, Step(names, m, es[0]), es[1..], fs);
    }
  }

  /** A call that is refused stays refused, whatever happens after. */
  lemma RefusedForever(names: Names, m: Mask, es: seq<Event>, c: Call)
    requires !Allowed(m, c)
    ensures !Allowed(Run(names, m, es), c)
  {
    RunShrinks(names, m, es);
    if Allowed(Run(names, m, es), c) {
      AllowedMonotone(Run(names, m, es), m, c);
    }
  }

  /** Event k of the run is a pledge that succeeds with a non-null argument. */
  predicate PledgesAt(names: Names, m: Mask, es: seq<Event>, k: nat)
    requires k < |es|
  {
    && es[k].PledgeCall? && es[k].promises.NotNull?
    && PledgeOutcome(names, Run(names, m, es[..k]), es[k].promises).rv == 0
  }

  predicate HasPledged(names: Names, m: Mask, es: seq<Event>) {
    exists k | 0 <= k < |es| :: PledgesAt(names, m, es, k)
  }

  lemma {:induction false} NotPledgedUnchanged(names: Names, m: Mask, es: seq<Event>)
    requires !HasPledged(names, m, es)
    ensures Run(names, m, es) == m
    decreases |es|
  {
    if es != [] {
      var e := es[0];
      assert es[..0] == [];
      assert !PledgesAt(names, m, es, 0);
      assert Step(names, m, e) == m;
      forall k | 0 <= k < |es[1..]| ensures !PledgesAt(names, m, es[1..], k) {
        assert es[..k + 1] == [e] + es[1..][..k];
        assert es[..k + 1][1..] == es[1..][..k];
        assert !PledgesAt(names, m, es, k + 1);
      }
      NotPledgedUnchanged(names, m, es[1..]);
    }
  }

  /** Only named promises survive a successful pledge. */
  lemma PledgedIsNamed(names: Names, m: Mask, es: seq<Event>)
    requires HasPledged(names, m, es)
    ensures forall b | b in Run(names, m, es) :: b < 33
  {
    var k :| 0 <= k < |es| && PledgesAt(names, m, es, k);
    var n := Run(names, m, es[..k + 1]);
    assert es[..k + 1] == es[..k] + [es[k]];
    RunConcat(names, m, es[..k], [es[k]]);
    assert Run(names, Run(names, m, es[..k]), [es[k]]) == Step(names, Run(names, m, es[..k]), es[k]);
    assert forall b | b in n :: b < 33;
    assert es == es[..k + 1] + es[k + 1..];
    RunConcat(names, m, es[..k + 1], es[k + 1..]);
    RunShrinks(names, n, es[k + 1..]);
  }

  /** A call that no promise enables is refused from the first successful pledge
      on, and only then. */
  lemma NeverForever(names: Names, es: seq<Event>, c: Call)
    requires c.needed == {NEVER}
    ensures HasPledged(names, All(), es) ==> !Allowed(Run(names, All(), es), c)
    ensures !HasPledged(names, All(), es) ==>
      (Allowed(Run(names, All(), es), c) <==> SkipsAll(c.request) || Passes(All(), c.request))
  {
    var n := Run(names, All(), es);
    if HasPledged(names, All(), es) {
      PledgedIsNamed(names, All(), es);
      assert NEVER in All();
      assert NEVER !in n;
      assert n * c.needed == {};
    } else {
      NotPledgedUnchanged(names, All(), es);
      assert NEVER in n * c.needed;
    }
  }

  /** Without the cpath ability, a file can be created exactly at paths that resolve
      strictly below /tmp, and only with the tmppath ability. */
  lemma CreateOnlyInTmp(m: Mask, path: string)
    requires CPATH !in m
    ensures CreatePasses(m, Text(path)) <==>
      && TMPPATH in m && Absolute(path) && Fits([], Components(path), PATH_MAX)
      && |Resolved(path)| >= 2 && Resolved(path)[0] == "tmp"
  {
    if Absolute(path) { InTmp(path); }
  }

  /** rename(2) has its new name in the second argument and the handler looks at the third:
      it decides as renameat does exactly when the old name is refused or both of them pass
      or fail alike. */
  lemma RenameExactly(m: Mask, path: UserString, target: UserString, third: UserString)
    ensures (Passes(m, Rename(path, target, third)) <==> Passes(m, RenameAt(path, target))) <==>
            CreatePasses(m, path) ==> (CreatePasses(m, third) <==> CreatePasses(m, target))
  {
  }

  /** The creation test on a path given by its components. */
  lemma CreateRendered(m: Mask, s: seq<string>)
    requires CPATH !in m && AllProper(s) && s != []
    ensures CreatePasses(m, Text(Render(s))) <==>
      TMPPATH in m && |Render(s)| < PATH_MAX && |s| >= 2 && s[0] == "tmp"
  {
    RenderAbsolute(s);
    ComponentsRender(s, "");
    assert Render(s) + "" == Render(s) && s + Components("") == s;
    ResolveFixed([], s);
    assert [] + s == s;
    FitsFixed([], s, PATH_MAX);
    CreateOnlyInTmp(m, Render(s));
  }

  /** With tmppath alone, /tmp/a can be renamed to /b. */
  lemma RenameUnchecked(m: Mask, path: string, target: string)
    requires m == {TMPPATH} && path == Render(["tmp", "a"]) && target == Render(["b"])
    ensures Passes(m, Rename(Text(path), Text(target), Fault)) && !Passes(m, RenameAt(Text(path), Text(target)))
  {
    assert Render(["tmp", "a"]) == "/" + "tmp" + ("/" + "a" + Render([]));
    CreateRendered(m, ["tmp", "a"]);
    CreateRendered(m, ["b"]);
  }

  /** Without cpath and wpath, every path that can be opened for writing or creation
      resolves strictly below /tmp. */
  lemma WriteOnlyInTmp(m: Mask, call: IoCall, path: string, flags: nat)
    requires CPATH !in m && WPATH !in m
    requires flags % 4 == 1 || flags % 4 == 2 || (flags / 64) % 2 == 1
    ensures FileIoPasses(m, call, Text(path), flags) <==>
      && TMPPATH in m && Absolute(path) && Fits([], Components(path), PATH_MAX)
      && |Resolved(path)| >= 2 && Resolved(path)[0] == "tmp"
  {
    if Absolute(path) { InTmp(path); }
  }

  // ---- the code that changes state ----

  lemma {:induction false} FirstIndex(names: seq<string>, name: string, i: nat)
    requires i < |names| && names[i] == name && name !in names[..i]
    ensures IndexOf(names, name) == i
  {
    if i == 0 {
    } else {
      assert names[0] == names[..i][0];
      assert names[1..][..i - 1] == names[..i][1..];
      FirstIndex(names[1..], name, i - 1);
    }
  }

  /** Looks a promise up by name. */
  method GetAbility(names: Names, promise: string) returns (ability: Option<nat>)
    ensures ability == if promise in names then Some(IndexOf(names, promise)) else None
  {
    for i := 0 to |names|
      invariant promise !in names[..i]
    {
      if promise == names[i] {
        FirstIndex(names, promise, i);
        return Some(i);
      }
      assert names[..i + 1] == names[..i] + [names[i]];
    }
    assert names[..|names|] == names;
    return None;
  }

  /** After i characters: the finished pieces, and the one that began at `start`. */
  ghost predicate Splitting(s: string, start: nat, i: nat, pieces: seq<string>, each: string) {
    && start <= i <= |s| && each == s[start..i] && Without(s, ' ', start, i)
    && pieces + PiecesFrom(s, start) == Pieces(s)
  }

  lemma SplitSpace(s: string, start: nat, i: nat, pieces: seq<string>, each: string)
    requires i < |s| && s[i] == ' ' && Splitting(s, start, i, pieces, each)
    ensures Splitting(s, i + 1, i + 1, pieces + [each], "")
  {
    NextAt(s, ' ', start, i);
    Associative(pieces, [each], PiecesFrom(s, i + 1));
  }

  lemma SplitOther(s: string, start: nat, i: nat, pieces: seq<string>, each: string)
    requires i < |s| && s[i] != ' ' && Splitting(s, start, i, pieces, each)
    ensures Splitting(s, start, i + 1, pieces, each + [s[i]])
  {
  }

  lemma SplitEnd(s: string, start: nat, pieces: seq<string>, each: string)
    requires Splitting(s, start, |s|, pieces, each)
    ensures Pieces(s) == if |each| > 0 then pieces + [each] else pieces
  {
    NextAt(s, ' ', start, |s|);
  }

  /** Splits a string at its spaces. */
  method Split(s: string) returns (pieces: seq<string>)
    ensures pieces == Pieces(s)
  {
    pieces := [];
    var each := "";
    ghost var start: nat := 0;
    for i := 0 to |s|
      invariant Splitting(s, start, i, pieces, each)
    {
      if s[i] == ' ' {
        SplitSpace(s, start, i, pieces, each);
        pieces := pieces + [each];
        each := "";
        start := i + 1;
        assert Splitting(s, start, i + 1, pieces, each);
      } else {
        SplitOther(s, start, i, pieces, each);
        each := each + [s[i]];
        assert Splitting(s, start, i + 1, pieces, each);
      }
    }
    SplitEnd(s, start, pieces, each);
    if |each| > 0 {
      pieces := pieces + [each];
    }
  }

  lemma RequestedNext(names: Names, pieces: seq<string>, k: nat)
    requires k < |pieces| && pieces[k] in names && Requested(names, pieces[..k]).Some?
    ensures Requested(names, pieces[..k + 1]) == Some(Requested(names, pieces[..k]).value + {IndexOf(names, pieces[k])})
  {
    assert pieces[..k + 1] == pieces[..k] + [pieces[k]];
    forall b: nat | b < 33
      ensures Asked(names, pieces[..k + 1], b) <==> Asked(names, pieces[..k], b) || b == IndexOf(names, pieces[k])
    {
      if names[b] == pieces[k] && names[b] !in names[..b] { FirstIndex(names, pieces[k], b); }
    }
    assert forall p | p in pieces[..k + 1] :: p in names;
    assert Requested(names, pieces[..k + 1]).value
        == Requested(names, pieces[..k]).value + {IndexOf(names, pieces[k])};
  }

  lemma RequestedNone(names: Names)
    ensures Requested(names, []) == Some({})
  {
    assert Requested(names, []).value == {};
  }

  class Pldg {
    var abilities: Mask
    const names: Names

    constructor ()
      ensures abilities == All() && names == PromiseNames()
    {
      abilities := All();
      names := PromiseNames();
    }

    /** The pledge system call. */
    method Pledge(promises: Promises) returns (rv: int)
      modifies this
      ensures Outcome(abilities, rv) == PledgeOutcome(names, old(abilities), promises)
    {
      if promises.Null? { return 0; }
      if promises.str.Fault? { return -EFAULT; }
      var newAbilities: Mask := {};
      var pieces := Split(promises.str.s);
      assert pieces[..0] == [];
      RequestedNone(names);
      for k := 0 to |pieces|
        invariant Requested(names, pieces[..k]) == Some(newAbilities)
        invariant abilities == old(abilities)
      {
        var ability := GetAbility(names, pieces[k]);
        if ability.None? { return -EINVAL; }
        RequestedNext(names, pieces, k);
        newAbilities := newAbilities + {ability.value};
      }
      assert pieces[..|pieces|] == pieces;
      if newAbilities <= abilities {
        abilities := newAbilities;
        rv := 0;
      } else {
        rv := -EPERM;
      }
    }

    method IoctlCheck(request: nat, isSocket: bool) returns (stop: bool)
      ensures stop <==> !IoctlPasses(abilities, request, isSocket)
    {
      if request == 0x541b || request == 0x5421 || request == 0x5450 || request == 0x5451 { return false; }
      if isSocket {
        if ROUTE in abilities {
          if request == 0x8915 || request == 0x8913 || request == 0x891d { return false; }
        }
        if WROUTE in abilities {
          if request == 0x8916 || request == 0x8936 || request == 0x8914 || request == 0x891e { return false; }
        }
      }
      return true;
    }

    method CheckDomain(domain: int) returns (stop: bool)
      ensures stop <==> !DomainPasses(abilities, domain)
    {
      if domain == AF_INET || domain == AF_INET6 {
        return INET !in abilities;
      } else if domain == AF_UNIX {
        return UNIX !in abilities;
      } else {
        return abilities != All();
      }
    }

    method FilepathCreate(path: UserString) returns (stop: bool)
      ensures stop <==> !CreatePasses(abilities, path)
    {
      if CPATH in abilities { return false; }
      if path.Fault? { return false; }
      var buf := new char[PATH_MAX];
      var canon, len := Canonicalize(path.s, buf);
      if TMPPATH in abilities && canon && InDir(buf[..len], "/tmp/") { return false; }
      return true;
    }

    /** Whether a file may be read without the rpath ability. */
    method ReadableFile(call: IoCall, c: string) returns (yes: bool)
      ensures yes <==> Readable(abilities, call, c)
    {
      if call == OpenAt {
        if InDir(c, "/usr/share/zoneinfo/") || c == "/etc/localtime" { return true; }
        if DNS in abilities {
          return c == "/etc/resolv.conf" || c == "/etc/hosts" || c == "/etc/services" || c == "/etc/protocols";
        }
        return false;
      }
      if call == FAccessAt { return c == "/etc/localtime"; }
      if call == NewFStatAt { return DNS in abilities && (c == "/etc/resolv.conf" || c == "/etc/hosts"); }
      return false;
    }

    method FilepathIo(call: IoCall, path: UserString, flags: nat) returns (stop: bool)
      ensures stop <==> !FileIoPasses(abilities, call, path, flags)
    {
      if path.Fault? { return false; }
      var buf := new char[PATH_MAX];
      var canon, len := Canonicalize(path.s, buf);
      if TMPPATH in abilities && canon && InDir(buf[..len], "/tmp/") { return false; }
      if CPATH !in abilities && (flags / 64) % 2 == 1 { return true; }
      if flags % 4 == 0 && RPATH !in abilities {
        if !canon { return true; }
        var readable := ReadableFile(call, buf[..len]);
        return !readable;
      }
      if flags % 4 == 1 && WPATH !in abilities { return true; }
      if flags % 4 == 2 && (RPATH !in abilities || WPATH !in abilities) { return true; }
      return false;
    }

    /** The cascade of tests on socket options. */
    method SockOptCheck(isSet: bool, level: int, option: int) returns (stop: bool)
      ensures stop <==> !Suffices(abilities, SockOptNeed(isSet, level, option))
    {
      AnyOf(abilities);
      if level == SOL_SOCKET && (option == 8 || option == 4) { return false; }
      if level == SOL_TCP && option == 1 { return false; }
      if !Any(abilities, {INET, UNIX, DNS}) { return true; }
      if level == SOL_SOCKET && option == 29 { return false; }
      if DNS in abilities && level == IPPROTO_IPV6 && (option == 49 || option == 63) { return false; }
      if !Any(abilities, {INET, UNIX}) { return true; }
      if level == SOL_SOCKET { return false; }
      if INET !in abilities { return true; }
      stop := InetOptionCheck(isSet, level, option);
    }

    /** The last tests, for a mask with the inet ability. */
    method InetOptionCheck(isSet: bool, level: int, option: int) returns (stop: bool)
      requires INET in abilities && level != SOL_SOCKET && !(level == SOL_TCP && option == 1)
      requires DNS in abilities ==> !(level == IPPROTO_IPV6 && (option == 49 || option == 63))
      ensures stop <==> !Suffices(abilities, SockOptNeed(isSet, level, option))
    {
      AnyOf(abilities);
      if level == SOL_TCP { return !(option == 14 || option == 2 || option == 11); }
      if level == IPPROTO_IP {
        if option == 4 { return isSet; }
        if option == 1 || option == 2 || option == 21 { return false; }
        return !(32 <= option <= 36 && MCAST in abilities);
      }
      if level == IPPROTO_IPV6 {
        if option == 67 || option == 16 || option == 73 { return false; }
        if option == 51 || option == 49 || option == 26 { return false; }
        return !(17 <= option <= 19 && MCAST in abilities);
      }
      return true;
    }

    /** The loop of the sendmmsg handler over the message vector. */
    method SendMmsgCheck(readable: bool, hasNames: seq<bool>) returns (stop: bool)
      ensures stop <==> !Passes(abilities, SendMmsg(readable, hasNames))
    {
      if !Any(abilities, {INET, UNIX}) && readable {
        for i := 0 to |hasNames|
          invariant true !in hasNames[..i]
        {
          if hasNames[i] { return true; }
          assert hasNames[..i + 1] == hasNames[..i] + [hasNames[i]];
        }
        assert hasNames[..|hasNames|] == hasNames;
      }
      return false;
    }

    /** What a handler makes of its arguments once the registered abilities are there. */
    method CheckRequest(request: Request) returns (stop: bool)
      ensures stop <==> !Passes(abilities, request)
    {
      match request
      case Default => stop := false;
      case ProtExec(prot) => stop := PROT_EXEC !in abilities && (prot / 4) % 2 == 1;
      case Ioctl(r, isSocket) => stop := IoctlCheck(r, isSocket);
      case Socket(domain) => stop := CheckDomain(domain);
      case SockFd(sock) =>
        stop := false;
        if sock.Some? { stop := CheckDomain(sock.value); }
      case SendTo(hasAddress) => stop := hasAddress && !Any(abilities, {INET, UNIX, DNS});
      case SendMsg(readable, hasName) => stop := !Any(abilities, {INET, UNIX, DNS}) && readable && hasName;
      case SendMmsg(readable, hasNames) => stop := SendMmsgCheck(readable, hasNames);
      case SockOpt(isSet, level, option) => stop := SockOptCheck(isSet, level, option);
      case Create(path) => stop := FilepathCreate(path);
      case RenameAt(path, target) =>
        stop := FilepathCreate(path);
        if !stop { stop := FilepathCreate(target); }
      case Rename(path, _, third) =>
        stop := FilepathCreate(path);
        if !stop { stop := FilepathCreate(third); }
      case FileIo(call, path, flags) => stop := FilepathIo(call, path, flags);
      case UseLib(path) =>
        stop := FilepathIo(OtherCall, path, 0);
        if !stop { stop := PROT_EXEC !in abilities; }
    }

    /** A handler's answer: whether it stops the call, with what value, and whether
        the process is sent SIGABRT. */
    method Handle(c: Call) returns (stop: bool, rv: int, signal: Option<int>)
      ensures stop <==> !Allowed(abilities, c)
      ensures stop ==> (rv == -ENOSYS && signal == None) || (rv == 0 && signal == Some(SIGABRT))
      ensures stop ==> (signal == None <==> ERROR in abilities)
    {
      stop, rv, signal := false, 0, None;
      if SkipsAll(c.request) && abilities == All() { return; }
      if Check(abilities, c.needed) { stop := CheckRequest(c.request); } else { stop := true; }
      if stop {
        if ERROR in abilities { rv := -ENOSYS; } else { signal := Some(SIGABRT); }
      }
    }
  }

  /** One handler's answer to a system call. */
  datatype Answer = Pass | Stop(rv: int)

  /** The dispatch over the registered handlers: the default handler runs exactly when
      every handler passes, and otherwise the first one that stops decides. */
  method SbHandler(handlers: seq<Answer>, defaultHandler: Option<int>) returns (rv: int, ranDefault: bool)
    ensures ranDefault <==> defaultHandler.Some? && forall h | h in handlers :: h.Pass?
    ensures ranDefault ==> rv == defaultHandler.value
    ensures (forall h | h in handlers :: h.Pass?) && defaultHandler.None? ==> rv == -ENOSYS
    ensures forall k | 0 <= k < |handlers| && handlers[k].Stop? && (forall j | 0 <= j < k :: handlers[j].Pass?) ::
      rv == handlers[k].rv
  {
    for i := 0 to |handlers|
      invariant forall j | 0 <= j < i :: handlers[j].Pass?
    {
      if handlers[i].Stop? {
        assert handlers[i] in handlers;
        return handlers[i].rv, false;
      }
    }
    if defaultHandler.Some? { return defaultHandler.value, true; }
    return -ENOSYS, false;
  }
}
