/** Canonicalising a path does not change where it leads. */
module PathWalk {
  import opened PathCanon
  import opened Text

  /** The components, each behind a slash, are the path. */
  lemma {:induction false} ComponentsJoin(p: string)
    requires p == "" || Absolute(p)
    ensures Render(Components(p)) == p
    decreases |p|
  {
    if p != "" {
      var e := Next(p, '/', 1);
      ComponentsJoin(p[e..]);
      assert p == "/" + p[1..e] + p[e..];
      assert Components(p)[1..] == Components(p[e..]);
    }
  }

  /** Directories are told apart by numbers. */
  type Node = nat

  /** A tree of directories in which every name leads somewhere: names of proper components
      lead down, and the parent of the root is the root. */
  datatype Directories = Directories(root: Node, down: (Node, string) -> Node, up: Node -> Node)

  ghost predicate IsTree(t: Directories) {
    && t.up(t.root) == t.root
    && forall n, c | Proper(c) :: t.up(t.down(n, c)) == n
  }

  /** Where one component leads. */
  function Go(t: Directories, n: Node, c: string): (m: Node) {
    if c == "" || c == "." then n else if c == ".." then t.up(n) else t.down(n, c)
  }

  function Walk(t: Directories, n: Node, cs: seq<string>): (m: Node)
    decreases |cs|
  {
    if cs == [] then n else Walk(t, Go(t, n, cs[0]), cs[1..])
  }

  lemma {:induction false} WalkConcat(t: Directories, n: Node, cs: seq<string>, ds: seq<string>)
    ensures Walk(t, n, cs + ds) == Walk(t, Walk(t, n, cs), ds)
    decreases |cs|
  {
    if cs == [] {
      assert cs + ds == ds;
    } else {
      assert (cs + ds)[1..] == cs[1..] + ds;
      WalkConcat(t, Go(t, n, cs[0]), cs[1..], ds);
    }
  }

  lemma WalkLast(t: Directories, n: Node, cs: seq<string>, c: string)
    ensures Walk(t, n, cs + [c]) == Go(t, Walk(t, n, cs), c)
  {
    WalkConcat(t, n, cs, [c]);
    assert [c][1..] == [];
  }

  lemma DotOrDots(c: string)
    ensures IsEmptyOrDot(c) <==> c == "" || c == "."
    ensures IsDotDot(c) <==> c == ".."
  {
  }

  /** One component after the resolved ones leads where it leads after resolving it. */
  lemma PushWalks(t: Directories, stack: seq<string>, c: string)
    requires IsTree(t) && AllProper(stack) && '/' !in c
    ensures Walk(t, t.root, Push(stack, c)) == Go(t, Walk(t, t.root, stack), c)
  {
    DotOrDots(c);
    if IsDotDot(c) {
      PopWalks(t, stack);
    } else if !IsEmptyOrDot(c) {
      WalkLast(t, t.root, stack, c);
    }
  }

  lemma PopWalks(t: Directories, stack: seq<string>)
    requires IsTree(t) && AllProper(stack)
    ensures Walk(t, t.root, Pop(stack)) == t.up(Walk(t, t.root, stack))
  {
    if stack != [] {
      var k := |stack| - 1;
      assert stack == stack[..k] + [stack[k]] && Proper(stack[k]);
      DotOrDots(stack[k]);
      WalkLast(t, t.root, stack[..k], stack[k]);
    }
  }

  lemma {:induction false} ResolveWalks(t: Directories, stack: seq<string>, cs: seq<string>)
    requires IsTree(t) && AllProper(stack) && forall i | 0 <= i < |cs| :: '/' !in cs[i]
    ensures Walk(t, t.root, Resolve(stack, cs)) == Walk(t, Walk(t, t.root, stack), cs)
    decreases |cs|
  {
    if cs != [] {
      PushWalks(t, stack, cs[0]);
      ResolveWalks(t, Push(stack, cs[0]), cs[1..]);
    }
  }

  /** In every tree of directories, the canonical form of an absolute path leads where the
      path leads: "." and empty components stay, ".." goes up, and at the root stays. */
  lemma CanonicalLeads(t: Directories, p: string)
    requires IsTree(t) && Absolute(p)
    ensures Absolute(Canonical(p))
    ensures Walk(t, t.root, Components(Canonical(p))) == Walk(t, t.root, Components(p))
  {
    Idempotent(p);
    ResolvedLeads(t, p);
    ResolvedLeads(t, Canonical(p));
  }

  lemma ResolvedLeads(t: Directories, p: string)
    requires IsTree(t) && Absolute(p)
    ensures Walk(t, t.root, Resolved(p)) == Walk(t, t.root, Components(p))
  {
    ComponentsNoSlash(p);
    ResolveWalks(t, [], Components(p));
  }
}
