/** What a call of the unveil sandbox grants, and what a check answers after it. */
module UnveilLaws {
  import opened Common
  import opened Unveil

  /** The permissions are those whose letters are in the string. */
  predicate Spells(s: string, p: set<Perm>) {
    && (Read in p <==> 'r' in s) && (Write in p <==> 'w' in s)
    && (Exec in p <==> 'x' in s) && (Create in p <==> 'c' in s)
  }

  predicate OnlyLetters(s: string) {
    forall c | c in s :: c in {'r', 'w', 'x', 'c'}
  }

  lemma LettersSpell(s: string)
    ensures Letters(s).Some? <==> OnlyLetters(s)
    ensures Letters(s).Some? ==> Spells(s, Letters(s).value)
  {
    if OnlyLetters(s) {
      assert forall c | c in s :: Letter(c).Some?;
    }
    if Letters(s).Some? {
      forall c | c in s ensures c in {'r', 'w', 'x', 'c'} { assert Letter(c).Some?; }
      var p := Letters(s).value;
      assert Letter('r') == Some(Read) && Letter('w') == Some(Write);
      assert Letter('x') == Some(Exec) && Letter('c') == Some(Create);
    }
  }

  /** The permissions in force at what a call names. */
  function At(dirs: Table, target: Target): (p: Option<set<Perm>>)
    requires !target.Missing?
  {
    if target.Directory? then Own(dirs, target.n) else EntryOf(dirs, target.n, target.name)
  }

  ghost predicate SameElsewhere(before: Table, after: Table, target: Target) {
    && (forall n: Node :: target != Directory(n) ==> Own(after, n) == Own(before, n))
    && (forall n: Node, name: string ::
          target != Entry(n, name) ==> EntryOf(after, n, name) == EntryOf(before, n, name))
  }

  lemma SetsOnly(dirs: Table, target: Target, perms: set<Perm>)
    requires !target.Missing?
    ensures var r := Apply(dirs, target, perms);
      && (r.rv == 0 <==> At(dirs, target).None? || perms <= At(dirs, target).value)
      && (r.rv == 0 ==> At(r.dirs, target) == Some(perms) && SameElsewhere(dirs, r.dirs, target))
      && (r.rv != 0 ==> r.rv == -EPERM && r.dirs == dirs)
  {
  }

  /** A call that succeeds leaves exactly the spelled permissions at what it names and changes
      nothing elsewhere; one that fails changes no permissions. */
  lemma CallGrants(s: Sandbox, letters: string, target: Target) returns (o: Outcome, p: set<Perm>)
    requires !target.Missing?
    ensures o == UnveilCall(s, Strings(letters, target)) && (OnlyLetters(letters) ==> Spells(letters, p))
    ensures o.rv == 0 <==>
      && !s.locked && OnlyLetters(letters)
      && (At(s.dirs, target).None? || p <= At(s.dirs, target).value)
    ensures o.rv == 0 ==>
      At(o.s.dirs, target) == Some(p) && o.s.active && SameElsewhere(s.dirs, o.s.dirs, target)
    ensures o.rv != 0 ==> o.s.dirs == s.dirs
  {
    o := UnveilCall(s, Strings(letters, target));
    LettersSpell(letters);
    p := if Letters(letters).Some? then Letters(letters).value else {};
    SetsOnly(s.dirs, target, p);
  }

  /** What a call returns otherwise, in this order: locked, an unknown letter, nothing there,
      more than before. */
  lemma CallFails(s: Sandbox, letters: string, target: Target)
    ensures var rv := UnveilCall(s, Strings(letters, target)).rv;
      && (s.locked ==> rv == -EPERM)
      && (!s.locked && !OnlyLetters(letters) ==> rv == -EINVAL)
      && (!s.locked && OnlyLetters(letters) && target.Missing? ==> rv == -ENOENT)
      && (!s.locked && OnlyLetters(letters) && !target.Missing? ==> rv == 0 || rv == -EPERM)
  {
    LettersSpell(letters);
  }

  /** After a call on a directory, a check of any path to it succeeds exactly when all that is
      wanted was spelled. */
  lemma CheckedDirectory(t: Tree, s: Sandbox, letters: string, n: Node, fs: Resolver, cwd: Node, path: string,
                         nofollow: bool, wanted: set<Perm>) returns (o: Outcome, p: set<Perm>)
    requires ResolvesWithin(t, fs, cwd) && fs(path, nofollow) == Some(n)
    ensures o == UnveilCall(s, Strings(letters, Directory(n)))
    ensures o.rv == 0 ==>
      && Spells(letters, p)
      && Answer(PathPerms(t, o.s.dirs, fs, cwd, path, nofollow), wanted) == if wanted <= p then 0 else -EACCES
  {
    o, p := CallGrants(s, letters, Directory(n));
    NearestStep(t, o.s.dirs, n);
  }

  /** After a call on a file, a check of any path to it likewise. */
  lemma CheckedFile(t: Tree, s: Sandbox, letters: string, m: Node, fs: Resolver, cwd: Node, path: string,
                    nofollow: bool, wanted: set<Perm>) returns (o: Outcome, p: set<Perm>)
    requires ResolvesWithin(t, fs, cwd) && fs(path, nofollow) == Some(m) && m != t.root && Own(s.dirs, m).None?
    ensures o == UnveilCall(s, Strings(letters, Entry(t.parent[m], t.name[m])))
    ensures o.rv == 0 ==>
      && Spells(letters, p)
      && Answer(PathPerms(t, o.s.dirs, fs, cwd, path, nofollow), wanted) == if wanted <= p then 0 else -EACCES
  {
    o, p := CallGrants(s, letters, Entry(t.parent[m], t.name[m]));
    NearestStep(t, o.s.dirs, m);
  }

  /** And of the path of a file yet to be created in an existing directory. */
  lemma CheckedNew(t: Tree, s: Sandbox, letters: string, dir: string, name: string, fs: Resolver, cwd: Node,
                   nofollow: bool, wanted: set<Perm>) returns (o: Outcome, p: set<Perm>)
    requires ResolvesWithin(t, fs, cwd) && dir != "" && '/' !in name
    requires fs(dir + "/" + name, nofollow).None? && fs(dir, false).Some?
    ensures o == UnveilCall(s, Strings(letters, Entry(fs(dir, false).value, name)))
    ensures o.rv == 0 ==>
      && Spells(letters, p)
      && Answer(PathPerms(t, o.s.dirs, fs, cwd, dir + "/" + name, nofollow), wanted) ==
         if wanted <= p then 0 else -EACCES
  {
    o, p := CallGrants(s, letters, Entry(fs(dir, false).value, name));
    NewFile(t, o.s.dirs, fs, cwd, dir, name, nofollow);
  }

  /** A directory unveiled with "r" in an empty sandbox cannot be written. */
  lemma ReadOnlyDirectory(t: Tree, fs: Resolver, cwd: Node, path: string)
    requires ResolvesWithin(t, fs, cwd) && fs(path, false) == Some(7)
    ensures var o := UnveilCall(Sandbox(false, map[], false), Strings("r", Directory(7)));
      && o.rv == 0
      && Answer(PathPerms(t, o.s.dirs, fs, cwd, path, false), {Read}) == 0
      && Answer(PathPerms(t, o.s.dirs, fs, cwd, path, false), {Write}) == -EACCES
  {
    var s := Sandbox(false, map[], false);
    var o, p := CallGrants(s, "r", Directory(7));
    var o1, p1 := CheckedDirectory(t, s, "r", 7, fs, cwd, path, false, {Read});
    var o2, p2 := CheckedDirectory(t, s, "r", 7, fs, cwd, path, false, {Write});
  }

  lemma {:induction false} NoneNear(t: Tree, n: Node)
    requires Within(t, n)
    ensures Nearest(t, map[], n).None?
    decreases t.depth[n]
  {
    NearestStep(t, map[], n);
    if n != t.root { NoneNear(t, t.parent[n]); }
  }

  /** Where nothing has been unveiled, every path is missing. */
  lemma {:induction false} NothingUnveiled(t: Tree, fs: Resolver, cwd: Node, path: string, nofollow: bool,
                                           wanted: set<Perm>)
    requires ResolvesWithin(t, fs, cwd)
    ensures Answer(PathPerms(t, map[], fs, cwd, path, nofollow), wanted) == -ENOENT
    decreases |path|
  {
    NoneNear(t, cwd);
    if fs(path, nofollow).Some? {
      NoneNear(t, fs(path, nofollow).value);
    } else if LastSlash(path).Some? {
      NothingUnveiled(t, fs, cwd, path[..LastSlash(path).value], false, wanted);
    }
  }
}
