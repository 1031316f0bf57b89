/** The unveil sandbox (klib/unveil.c): permissions attached to directories and to names
    in directories, and the lookup of the nearest ones. */
module Unveil {
  import opened Common

  const EPERM := 1
  const ENOENT := 2
  const EACCES := 13
  const EFAULT := 14
  const EINVAL := 22

  datatype Perm = Read | Write | Exec | Create

  /** A directory's own permissions and those of names in it; none is an invalid mask. */
  datatype Dir = Dir(perms: Option<set<Perm>>, entries: map<string, set<Perm>>)

  type Node = nat

  type Table = map<Node, Dir>

  /** A finite directory tree; the root is its own parent. */
  datatype Tree = Tree(root: Node, parent: map<Node, Node>, name: map<Node, string>, depth: map<Node, nat>)

  predicate ValidTree(t: Tree) {
    && t.parent.Keys == t.name.Keys == t.depth.Keys && t.root in t.parent && t.parent[t.root] == t.root
    && (forall n | n in t.parent && n != t.root ::
          t.parent[n] in t.parent && t.parent[n] != n && t.depth[t.parent[n]] < t.depth[n])
  }

  predicate Within(t: Tree, n: Node) {
    ValidTree(t) && n in t.parent
  }

  // ---- the nearest permissions ----

  function Own(dirs: Table, n: Node): (p: Option<set<Perm>>) {
    if n in dirs then dirs[n].perms else None
  }

  function EntryOf(dirs: Table, n: Node, name: string): (p: Option<set<Perm>>) {
    if n in dirs && name in dirs[n].entries then Some(dirs[n].entries[name]) else None
  }

  /** Everything that could decide about a node, nearest first: its own permissions, its
      name in its parent, its parent's own, and so on to the root. */
  function Candidates(t: Tree, dirs: Table, n: Node): (ps: seq<Option<set<Perm>>>)
    requires Within(t, n)
    decreases t.depth[n]
  {
    [Own(dirs, n)] +
    if n == t.root then [] else [EntryOf(dirs, t.parent[n], t.name[n])] + Candidates(t, dirs, t.parent[n])
  }

  function FirstValid(ps: seq<Option<set<Perm>>>): (p: Option<set<Perm>>) {
    if ps == [] then None else if ps[0].Some? then ps[0] else FirstValid(ps[1..])
  }

  /** p is the first valid one, at position k, or there is none. */
  predicate IsFirst(ps: seq<Option<set<Perm>>>, p: Option<set<Perm>>, k: nat) {
    && k <= |ps| && (forall i | 0 <= i < k :: ps[i].None?)
    && (if p.Some? then k < |ps| && ps[k] == p else k == |ps|)
  }

  lemma {:induction false} FirstValidMeans(ps: seq<Option<set<Perm>>>) returns (k: nat)
    ensures IsFirst(ps, FirstValid(ps), k)
  {
    if ps == [] || ps[0].Some? {
      k := 0;
    } else {
      var j := FirstValidMeans(ps[1..]);
      k := j + 1;
      forall i | 0 <= i < k ensures ps[i].None? {
        if i > 0 { assert ps[1..][i - 1].None?; }
      }
    }
  }

  lemma FirstCons(p: Option<set<Perm>>, ps: seq<Option<set<Perm>>>)
    ensures FirstValid([p] + ps) == if p.Some? then p else FirstValid(ps)
  {
    assert ([p] + ps)[1..] == ps;
  }

  function Nearest(t: Tree, dirs: Table, n: Node): (p: Option<set<Perm>>)
    requires Within(t, n)
  {
    FirstValid(Candidates(t, dirs, n))
  }

  /** One step up. */
  lemma NearestStep(t: Tree, dirs: Table, n: Node)
    requires Within(t, n)
    ensures Nearest(t, dirs, n) ==
      if Own(dirs, n).Some? then Own(dirs, n)
      else if n == t.root then None
      else if EntryOf(dirs, t.parent[n], t.name[n]).Some? then EntryOf(dirs, t.parent[n], t.name[n])
      else Nearest(t, dirs, t.parent[n])
  {
    if n != t.root {
      var rest := Candidates(t, dirs, t.parent[n]);
      var entry := EntryOf(dirs, t.parent[n], t.name[n]);
      FirstCons(entry, rest);
      FirstCons(Own(dirs, n), [entry] + rest);
    } else {
      FirstCons(Own(dirs, n), []);
    }
  }

  /** Walks up from a node to the first valid permissions. The parent is passed for a node
      that was reached through it. */
  method GetPerms(t: Tree, dirs: Table, node: Node, givenParent: Option<Node>) returns (perms: Option<set<Perm>>)
    requires Within(t, node) && (givenParent.Some? ==> givenParent.value == t.parent[node])
    ensures perms == Nearest(t, dirs, node)
  {
    var md, parent := node, givenParent;
    perms := Own(dirs, md);
    while perms.None?
      invariant Within(t, md) && (parent.Some? ==> parent.value == t.parent[md])
      invariant if perms.Some? then perms == Nearest(t, dirs, node)
        else Own(dirs, md).None? && Nearest(t, dirs, node) == Nearest(t, dirs, md)
      decreases t.depth[md], perms.None?
    {
      NearestStep(t, dirs, md);
      if parent.None? { parent := Some(t.parent[md]); }
      if parent.value == md { break; }
      if parent.value in dirs {
        perms := EntryOf(dirs, parent.value, t.name[md]);
        if perms.None? { perms := dirs[parent.value].perms; }
      }
      NearestStep(t, dirs, parent.value);
      md, parent := parent.value, None;
    }
    NearestStep(t, dirs, node);
  }

  /** The result is the nearest valid one of the candidates. */
  lemma NearestMeans(t: Tree, dirs: Table, n: Node) returns (k: nat)
    requires Within(t, n)
    ensures IsFirst(Candidates(t, dirs, n), Nearest(t, dirs, n), k)
  {
    k := FirstValidMeans(Candidates(t, dirs, n));
  }

  // ---- runs ----

  datatype Sandbox = Sandbox(active: bool, dirs: Table, locked: bool)

  datatype Result = Result(dirs: Table, rv: int)

  /** Permissions that are already valid can only be reduced. */
  function SetDirPerms(dirs: Table, n: Node, perms: set<Perm>): (r: Result) {
    var dir := if n in dirs then dirs[n] else Dir(None, map[]);
    if dir.perms.Some? && !(perms <= dir.perms.value) then Result(dirs, -EPERM)
    else Result(dirs[n := dir.(perms := Some(perms))], 0)
  }

  function SetEntryPerms(dirs: Table, n: Node, name: string, perms: set<Perm>): (r: Result) {
    var dir := if n in dirs then dirs[n] else Dir(None, map[]);
    if name in dir.entries && !(perms <= dir.entries[name]) then Result(dirs, -EPERM)
    else Result(dirs[n := dir.(entries := dir.entries[name := perms])], 0)
  }

  /** What the path of an unveil call leads to. */
  datatype Target = Directory(n: Node) | Entry(n: Node, name: string) | Missing

  datatype Arguments = BothNull | Fault | Strings(perms: string, target: Target)

  function Letter(c: char): (p: Option<Perm>) {
    match c
    case 'r' => Some(Read) case 'w' => Some(Write) case 'x' => Some(Exec) case 'c' => Some(Create) case _ => None
  }

  /** The permissions a string of letters asks for. */
  function Letters(s: string): (p: Option<set<Perm>>) {
    if forall c | c in s :: Letter(c).Some? then Some(set p: Perm | exists c | c in s :: Letter(c) == Some(p)) else None
  }

  function Apply(dirs: Table, target: Target, perms: set<Perm>): (r: Result) {
    match target
    case Directory(n) => SetDirPerms(dirs, n, perms)
    case Entry(n, name) => SetEntryPerms(dirs, n, name, perms)
    case Missing => Result(dirs, -ENOENT)
  }

  datatype Outcome = Outcome(s: Sandbox, rv: int)

  function UnveilCall(s: Sandbox, args: Arguments): (o: Outcome) {
    if args.BothNull? then Outcome(s.(locked := true), 0)
    else if s.locked then Outcome(s, -EPERM)
    else if args.Fault? then Outcome(s, -EFAULT)
    else match Letters(args.perms)
      case None => Outcome(s, -EINVAL)
      case Some(perms) =>
        var r := Apply(s.dirs, args.target, perms);
        Outcome(s.(active := true, dirs := r.dirs), r.rv)
  }

  /** An unveil call, or the removal of a directory that the sandbox lets through. */
  datatype Event = DoUnveil(args: Arguments) | DoRemove(n: Node)

  function Step(s: Sandbox, e: Event): (r: Sandbox) {
    match e
    case DoUnveil(args) => UnveilCall(s, args).s
    case DoRemove(n) => s.(dirs := s.dirs - {n})
  }

  function Run(s: Sandbox, es: seq<Event>): (r: Sandbox)
    decreases |es|
  {
    if es == [] then s else Run(Step(s, es[0]), es[1..])
  }

  predicate Narrower(after: Option<set<Perm>>, before: Option<set<Perm>>) {
    before.Some? ==> after.Some? && after.value <= before.value
  }

  lemma StepNarrows(s: Sandbox, e: Event, n: Node, name: string)
    requires e != DoRemove(n)
    ensures Narrower(Own(Step(s, e).dirs, n), Own(s.dirs, n))
    ensures Narrower(EntryOf(Step(s, e).dirs, n, name), EntryOf(s.dirs, n, name))
  {
  }

  /** In every run that does not remove the directory, its permissions and those of names
      in it, once valid, only lose bits. */
  lemma {:induction false} RunNarrows(s: Sandbox, es: seq<Event>, n: Node, name: string)
    requires DoRemove(n) !in es
    ensures Narrower(Own(Run(s, es).dirs, n), Own(s.dirs, n))
    ensures Narrower(EntryOf(Run(s, es).dirs, n, name), EntryOf(s.dirs, n, name))
    decreases |es|
  {
    if es != [] {
      StepNarrows(s, es[0], n, name);
      RunNarrows(Step(s, es[0]), es[1..], n, name);
    }
  }

  function Removed(es: seq<Event>): (ns: set<Node>) {
    if es == [] then {} else (if es[0].DoRemove? then {es[0].n} else {}) + Removed(es[1..])
  }

  /** Once locked, nothing changes any more except that removed directories disappear. */
  lemma {:induction false} LockedRun(s: Sandbox, es: seq<Event>)
    requires s.locked
    ensures Run(s, es).locked && Run(s, es).dirs == s.dirs - Removed(es) && Run(s, es).active == s.active
    decreases |es|
  {
    if es != [] {
      LockedRun(Step(s, es[0]), es[1..]);
    }
  }

  /** n is m or one of the directories above it. */
  predicate OnPath(t: Tree, n: Node, m: Node)
    requires Within(t, m)
    decreases t.depth[m]
  {
    n == m || (m != t.root && OnPath(t, n, t.parent[m]))
  }

  /** Removing a directory decides nothing about nodes that are not below it. */
  lemma {:induction false} RemovalElsewhere(t: Tree, dirs: Table, n: Node, m: Node)
    requires Within(t, m) && !OnPath(t, n, m)
    ensures Nearest(t, dirs - {n}, m) == Nearest(t, dirs, m)
    decreases t.depth[m]
  {
    NearestStep(t, dirs, m);
    NearestStep(t, dirs - {n}, m);
    if m != t.root { RemovalElsewhere(t, dirs, n, t.parent[m]); }
  }

  /** What is left for the directory itself is what its parent says about it. */
  lemma RemovalHere(t: Tree, dirs: Table, n: Node)
    requires Within(t, n) && n != t.root
    ensures Nearest(t, dirs - {n}, n) ==
      if EntryOf(dirs, t.parent[n], t.name[n]).Some? then EntryOf(dirs, t.parent[n], t.name[n])
      else Nearest(t, dirs, t.parent[n])
  {
    NearestStep(t, dirs - {n}, n);
    NotBelowItself(t, n, t.parent[n]);
    RemovalElsewhere(t, dirs, n, t.parent[n]);
  }

  lemma {:induction false} NotBelowItself(t: Tree, n: Node, m: Node)
    requires Within(t, n) && Within(t, m) && t.depth[m] < t.depth[n]
    ensures !OnPath(t, n, m)
    decreases t.depth[m]
  {
    if m != t.root { NotBelowItself(t, n, t.parent[m]); }
  }

  /** The directory whose table decides about a node. */
  function Decider(t: Tree, dirs: Table, n: Node): (d: Option<Node>)
    requires Within(t, n)
    decreases t.depth[n]
  {
    if Own(dirs, n).Some? then Some(n)
    else if n == t.root then None
    else if EntryOf(dirs, t.parent[n], t.name[n]).Some? then Some(t.parent[n])
    else Decider(t, dirs, t.parent[n])
  }

  lemma {:induction false} DeciderMeans(t: Tree, dirs: Table, n: Node)
    requires Within(t, n)
    ensures Decider(t, dirs, n).Some? <==> Nearest(t, dirs, n).Some?
    ensures Decider(t, dirs, n).Some? ==> Decider(t, dirs, n).value in dirs && OnPath(t, Decider(t, dirs, n).value, n)
    decreases t.depth[n]
  {
    NearestStep(t, dirs, n);
    if n != t.root { DeciderMeans(t, dirs, t.parent[n]); }
  }

  /** Removing directories other than the one that decides changes nothing. */
  lemma {:induction false} DeciderStays(t: Tree, dirs: Table, gone: set<Node>, n: Node)
    requires Within(t, n) && (Decider(t, dirs, n).Some? ==> Decider(t, dirs, n).value !in gone)
    ensures Decider(t, dirs - gone, n) == Decider(t, dirs, n) && Nearest(t, dirs - gone, n) == Nearest(t, dirs, n)
    decreases t.depth[n]
  {
    NearestStep(t, dirs, n);
    NearestStep(t, dirs - gone, n);
    if n != t.root && Own(dirs, n).None? && EntryOf(dirs, t.parent[n], t.name[n]).None? {
      DeciderStays(t, dirs, gone, t.parent[n]);
    }
  }

  /** Over a locked run, the same directory decides about a node, with the same permissions,
      exactly when the run does not remove it. */
  lemma LockedNearest(t: Tree, s: Sandbox, es: seq<Event>, n: Node)
    requires Within(t, n) && s.locked
    ensures var d, after := Decider(t, s.dirs, n), Run(s, es).dirs;
      && (Decider(t, after, n) == d <==> d.None? || d.value !in Removed(es))
      && (d.None? || d.value !in Removed(es) ==> Nearest(t, after, n) == Nearest(t, s.dirs, n))
  {
    LockedRun(s, es);
    DeciderMeans(t, s.dirs - Removed(es), n);
    var d := Decider(t, s.dirs, n);
    if d.None? || d.value !in Removed(es) { DeciderStays(t, s.dirs, Removed(es), n); }
  }

  // ---- checking a path ----

  /** Finds the node a path names, following a final link or not. */
  type Resolver = (string, bool) -> Option<Node>

  ghost predicate ResolvesWithin(t: Tree, fs: Resolver, cwd: Node) {
    Within(t, cwd) && forall path, nofollow :: fs(path, nofollow).Some? ==> fs(path, nofollow).value in t.parent
  }

  function LastSlash(path: string): (k: Option<nat>)
    ensures k.Some? ==> k.value < |path| && path[k.value] == '/' && '/' !in path[k.value + 1..]
    ensures k.None? ==> '/' !in path
  {
    if path == "" then None
    else if path[|path| - 1] == '/' then Some(|path| - 1)
    else
      var k := LastSlash(path[..|path| - 1]);
      assert path == path[..|path| - 1] + [path[|path| - 1]];
      assert k.Some? ==> path[k.value + 1..] == path[..|path| - 1][k.value + 1..] + [path[|path| - 1]];
      k
  }

  function ParentPath(path: string): (p: string) {
    match LastSlash(path)
    case None => "."
    case Some(k) => if k == 0 then "/" else path[..k]
  }

  function BaseName(path: string): (name: string) {
    match LastSlash(path)
    case None => path
    case Some(k) => path[k + 1..]
  }

  /** The permissions that apply to a path: those of the node it names, or for a missing
      one those of its name in the parent, and then those of the path without it. */
  ghost function PathPerms(t: Tree, dirs: Table, fs: Resolver, cwd: Node, path: string, nofollow: bool)
    : (p: Option<set<Perm>>)
    requires ResolvesWithin(t, fs, cwd)
    decreases |path|
  {
    if fs(path, nofollow).Some? then Nearest(t, dirs, fs(path, nofollow).value)
    else
      var parent := fs(ParentPath(path), false);
      var entry := if parent.Some? then EntryOf(dirs, parent.value, BaseName(path)) else None;
      if entry.Some? then entry
      else match LastSlash(path)
        case Some(k) => PathPerms(t, dirs, fs, cwd, path[..k], false)
        case None => Nearest(t, dirs, cwd)
  }

  /** A file that does not exist yet in a directory that does is governed by its name in
      that directory, and then like the directory. */
  lemma NewFile(t: Tree, dirs: Table, fs: Resolver, cwd: Node, dir: string, name: string, nofollow: bool)
    requires ResolvesWithin(t, fs, cwd) && dir != "" && '/' !in name
    requires fs(dir + "/" + name, nofollow).None? && fs(dir, false).Some?
    ensures var n := fs(dir, false).value;
      PathPerms(t, dirs, fs, cwd, dir + "/" + name, nofollow) ==
        if EntryOf(dirs, n, name).Some? then EntryOf(dirs, n, name) else Nearest(t, dirs, n)
  {
    var path := dir + "/" + name;
    LastSlashAt(dir, name);
    assert path[..|dir|] == dir && path[|dir| + 1..] == name;
  }

  lemma {:induction false} LastSlashAt(dir: string, name: string)
    requires '/' !in name
    ensures LastSlash(dir + "/" + name) == Some(|dir|)
    decreases |name|
  {
    var path := dir + "/" + name;
    if name != "" {
      LastSlashAt(dir, name[..|name| - 1]);
      assert path[..|path| - 1] == dir + "/" + name[..|name| - 1];
      assert path[|path| - 1] == name[|name| - 1];
    }
  }

  /** Looks for permissions at an existing node, going up one directory at a time. */
  method ExistingPerms(t: Tree, dirs: Table, node: Node, givenParent: Option<Node>) returns (perms: Option<set<Perm>>)
    requires Within(t, node) && (givenParent.Some? ==> givenParent.value == t.parent[node])
    ensures perms == Nearest(t, dirs, node)
  {
    var n, parent := node, givenParent;
    perms := GetPerms(t, dirs, n, parent);
    while perms.None? && n != t.root
      invariant Within(t, n) && (parent.Some? ==> parent.value == t.parent[n])
      invariant perms == Nearest(t, dirs, n) == Nearest(t, dirs, node)
      decreases t.depth[n], perms.None?
    {
      NearestStep(t, dirs, n);
      n := t.parent[n];
      parent := if parent.Some? then None else Some(t.parent[n]);
      perms := GetPerms(t, dirs, n, parent);
    }
  }

  /** The answer to a check, given the permissions that apply. */
  function Answer(perms: Option<set<Perm>>, wanted: set<Perm>): (rv: int) {
    if perms.None? then -ENOENT else if wanted <= perms.value then 0 else -EACCES
  }

  /** Checks a path for the wanted permissions. */
  method CheckPath(t: Tree, dirs: Table, fs: Resolver, cwd: Node, path: string, nofollow: bool, wanted: set<Perm>)
    returns (rv: int)
    requires ResolvesWithin(t, fs, cwd)
    ensures rv == Answer(PathPerms(t, dirs, fs, cwd, path, nofollow), wanted)
    decreases |path|
  {
    var perms := None;
    var node := fs(path, nofollow);
    if node.Some? {
      perms := ExistingPerms(t, dirs, node.value, Some(t.parent[node.value]));
    } else {
      var parent := fs(ParentPath(path), false);
      if parent.Some? { perms := EntryOf(dirs, parent.value, BaseName(path)); }
      if perms.None? {
        var k := LastSlash(path);
        if k.Some? {
          rv := CheckPath(t, dirs, fs, cwd, path[..k.value], false, wanted);
          return;
        }
        perms := GetPerms(t, dirs, cwd, None);
      }
    }
    if perms.None? { return -ENOENT; }
    return if wanted <= perms.value then 0 else -EACCES;
  }

  // ---- the state the klib keeps ----

  class State {
    var active: bool
    var dirs: Table
    var locked: bool

    function View(): (s: Sandbox)
      reads this
    {
      Sandbox(active, dirs, locked)
    }

    constructor ()
      ensures View() == Sandbox(false, map[], false)
    {
      active, dirs, locked := false, map[], false;
    }

    method SetDir(n: Node, perms: set<Perm>) returns (rv: int)
      modifies this
      ensures Result(dirs, rv) == SetDirPerms(old(dirs), n, perms)
      ensures active == old(active) && locked == old(locked)
    {
      var dir := if n in dirs then dirs[n] else Dir(None, map[]);
      if dir.perms.Some? && !(perms <= dir.perms.value) { return -EPERM; }
      dirs := dirs[n := dir.(perms := Some(perms))];
      return 0;
    }

    method SetEntry(n: Node, name: string, perms: set<Perm>) returns (rv: int)
      modifies this
      ensures Result(dirs, rv) == SetEntryPerms(old(dirs), n, name, perms)
      ensures active == old(active) && locked == old(locked)
    {
      var dir := if n in dirs then dirs[n] else Dir(None, map[]);
      if name in dir.entries && !(perms <= dir.entries[name]) { return -EPERM; }
      dirs := dirs[n := dir.(entries := dir.entries[name := perms])];
      return 0;
    }

    /** The unveil system call. */
    method Unveil(args: Arguments) returns (rv: int)
      modifies this
      ensures Outcome(View(), rv) == UnveilCall(old(View()), args)
    {
      if args.BothNull? {
        locked := true;
        return 0;
      }
      if locked { return -EPERM; }
      if args.Fault? { return -EFAULT; }
      var perms := ParseLetters(args.perms);
      if perms.None? { return -EINVAL; }
      active := true;
      match args.target {
        case Directory(n) => rv := SetDir(n, perms.value);
        case Entry(n, name) => rv := SetEntry(n, name, perms.value);
        case Missing => rv := -ENOENT;
      }
    }

    /** The removal of a directory takes its permissions away. */
    method Remove(n: Node)
      modifies this
      ensures View() == Step(old(View()), DoRemove(n))
    {
      dirs := dirs - {n};
    }
  }

  lemma LettersNext(s: string, i: nat)
    requires i < |s| && Letters(s[..i]).Some?
    ensures Letters(s[..i + 1]) ==
            if Letter(s[i]).None? then None else Some(Letters(s[..i]).value + {Letter(s[i]).value})
  {
    assert s[..i + 1] == s[..i] + [s[i]];
    if Letter(s[i]).Some? {
      assert Letters(s[..i + 1]).value == Letters(s[..i]).value + {Letter(s[i]).value};
    } else {
      assert s[i] in s[..i + 1];
    }
  }

  lemma LettersBad(s: string, i: nat)
    requires i < |s| && Letter(s[i]).None?
    ensures Letters(s).None?
  {
    assert s[i] in s;
  }

  method ParseLetters(s: string) returns (perms: Option<set<Perm>>)
    ensures perms == Letters(s)
  {
    var acc: set<Perm> := {};
    assert s[..0] == "";
    assert Letters("").value == {};
    for i := 0 to |s|
      invariant Letters(s[..i]) == Some(acc)
    {
      LettersNext(s, i);
      var p := Letter(s[i]);
      if p.None? {
        LettersBad(s, i);
        return None;
      }
      acc := acc + {p.value};
    }
    assert s[..|s|] == s;
    return Some(acc);
  }
}
