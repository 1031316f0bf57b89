/** The in-place path canonicaliser of the pledge sandbox (klib/pledge.c), against
    a stack machine over the components of the path. */
module PathCanon {
  import opened Common
  import opened Text

  predicate Absolute(p: string) {
    p != "" && p[0] == '/'
  }

  /** The pieces of an absolute path between slashes, empty ones included. */
  function Components(p: string): (cs: seq<string>)
    requires p == "" || Absolute(p)
    decreases |p|
  {
    if p == "" then [] else
      var e := Next(p, '/', 1);
      [p[1..e]] + Components(p[e..])
  }

  predicate IsEmptyOrDot(c: string) {
    |c| == 0 || (|c| == 1 && c[0] == '.')
  }

  predicate IsDotDot(c: string) {
    |c| == 2 && c[0] == '.' && c[1] == '.'
  }

  function Pop(stack: seq<string>): (r: seq<string>) {
    if stack == [] then [] else stack[..|stack| - 1]
  }

  /** What one component does to the components resolved so far. */
  function Push(stack: seq<string>, c: string): (r: seq<string>) {
    if IsEmptyOrDot(c) then stack else if IsDotDot(c) then Pop(stack) else stack + [c]
  }

  function Resolve(stack: seq<string>, cs: seq<string>): (r: seq<string>)
    decreases |cs|
  {
    if cs == [] then stack else Resolve(Push(stack, cs[0]), cs[1..])
  }

  function Render(stack: seq<string>): (p: string) {
    if stack == [] then "" else "/" + stack[0] + Render(stack[1..])
  }

  /** The resolved components of an absolute path. */
  function Resolved(p: string): (stack: seq<string>)
    requires Absolute(p)
  {
    Resolve([], Components(p))
  }

  function Canonical(p: string): (r: string)
    requires Absolute(p)
  {
    var r := Render(Resolved(p));
    if r == "" then "/" else r
  }

  /** Every intermediate result is shorter than the buffer. */
  predicate Fits(stack: seq<string>, cs: seq<string>, size: nat)
    decreases |cs|
  {
    |Render(stack)| < size && (cs != [] ==> Fits(Push(stack, cs[0]), cs[1..], size))
  }

  predicate Proper(c: string) {
    !IsEmptyOrDot(c) && !IsDotDot(c) && '/' !in c
  }

  predicate AllProper(stack: seq<string>) {
    forall i | 0 <= i < |stack| :: Proper(stack[i])
  }

  lemma {:induction false} RenderConcat(s: seq<string>, t: seq<string>)
    ensures Render(s + t) == Render(s) + Render(t)
  {
    if s == [] {
      assert s + t == t;
    } else {
      assert (s + t)[1..] == s[1..] + t;
      RenderConcat(s[1..], t);
    }
  }

  lemma RenderLast(s: seq<string>, c: string)
    ensures Render(s + [c]) == Render(s) + "/" + c
  {
    RenderConcat(s, [c]);
    assert Render([c]) == "/" + c + Render([]);
  }

  /** Only proper components survive. */
  lemma {:induction false} ResolveProper(stack: seq<string>, cs: seq<string>)
    requires AllProper(stack) && forall i | 0 <= i < |cs| :: '/' !in cs[i]
    ensures AllProper(Resolve(stack, cs))
    decreases |cs|
  {
    if cs != [] { ResolveProper(Push(stack, cs[0]), cs[1..]); }
  }

  lemma {:induction false} ComponentsNoSlash(p: string)
    requires p == "" || Absolute(p)
    ensures forall i | 0 <= i < |Components(p)| :: '/' !in Components(p)[i]
    decreases |p|
  {
    if p != "" { ComponentsNoSlash(p[Next(p, '/', 1)..]); }
  }

  lemma ComponentsFirst(c: string, q: string)
    requires '/' !in c && (q == "" || Absolute(q))
    ensures Components("/" + c + q) == [c] + Components(q)
  {
    var p, e := "/" + c + q, 1 + |c|;
    assert p[1..e] == c && p[e..] == q;
    assert forall k | 1 <= k < e :: p[k] == c[k - 1];
    assert e < |p| ==> p[e] == q[0];
    NextAt(p, '/', 1, e);
  }

  lemma RenderAbsolute(s: seq<string>)
    ensures s != [] ==> Absolute(Render(s))
    ensures s == [] ==> Render(s) == ""
  {
  }

  /** Splitting undoes rendering, with anything that starts with a slash after it. */
  lemma {:induction false} ComponentsRender(s: seq<string>, q: string)
    requires AllProper(s) && (q == "" || Absolute(q))
    ensures Render(s) + q == "" || Absolute(Render(s) + q)
    ensures Components(Render(s) + q) == s + Components(q)
  {
    if s == [] {
      assert Render(s) + q == q && s + Components(q) == Components(q);
    } else {
      ComponentsRender(s[1..], q);
      var r := Render(s[1..]) + q;
      ComponentsFirst(s[0], r);
      Associative("/" + s[0], Render(s[1..]), q);
      assert s == [s[0]] + s[1..];
      Associative([s[0]], s[1..], Components(q));
    }
  }

  /** A proper list resolves to itself. */
  lemma {:induction false} ResolveFixed(s: seq<string>, t: seq<string>)
    requires AllProper(t)
    ensures Resolve(s, t) == s + t
    decreases |t|
  {
    if t != [] {
      ResolveFixed(s + [t[0]], t[1..]);
      assert s + [t[0]] + t[1..] == s + t;
    } else {
      assert s + t == s;
    }
  }

  /** A buffer that holds the whole rendering holds every step towards it. */
  lemma {:induction false} FitsFixed(s: seq<string>, t: seq<string>, size: nat)
    requires AllProper(t)
    ensures Fits(s, t, size) <==> |Render(s + t)| < size
    decreases |t|
  {
    RenderConcat(s, t);
    if t != [] {
      FitsFixed(s + [t[0]], t[1..], size);
      assert s + [t[0]] + t[1..] == s + t;
    }
  }

  lemma ResolvedProper(p: string)
    requires Absolute(p)
    ensures AllProper(Resolved(p))
  {
    ComponentsNoSlash(p);
    ResolveProper([], Components(p));
  }

  /** Canonicalising twice is canonicalising once, and it needs no larger buffer. */
  lemma Idempotent(p: string)
    requires Absolute(p)
    ensures var c := Canonical(p);
      && Absolute(c)
      && Canonical(c) == c && Resolved(c) == Resolved(p)
      && forall size: nat :: Fits([], Components(c), size) <==> |Render(Resolved(p))| < size
  {
    var s := Resolved(p);
    ResolvedProper(p);
    if s == [] {
      RootOnly();
    } else {
      RenderAbsolute(s);
      ComponentsRender(s, "");
      assert Render(s) + "" == Render(s) && s + Components("") == s;
      ResolveFixed([], s);
      assert [] + s == s;
      forall size: nat ensures Fits([], s, size) <==> |Render(s)| < size { FitsFixed([], s, size); }
    }
  }

  lemma RootOnly()
    ensures Components("/") == [""] && Resolve([], [""]) == []
    ensures forall size: nat :: Fits([], [""], size) <==> 0 < size
  {
    ComponentsFirst("", "");
    assert "/" + "" + "" == "/" && [""] + Components("") == [""];
    assert [""][1..] == [];
  }

  /** The directory test of the sandbox: a byte prefix comparison. */
  predicate InDir(path: string, dir: string) {
    if |path| < |dir| then false else path[..|dir|] == dir
  }

  /** d is a prefix of p that ends just before a slash. */
  predicate Under(p: string, d: string) {
    |d| < |p| && p[..|d|] == d && p[|d|] == '/'
  }

  /** A rendered path starts with a rendered directory and a slash exactly when
      the directory is a proper prefix of its components. */
  lemma UnderRendered(s: seq<string>, d: seq<string>)
    requires AllProper(s) && AllProper(d)
    ensures Under(Render(s), Render(d)) <==> |d| < |s| && s[..|d|] == d
  {
    if Under(Render(s), Render(d)) {
      BelowDir(s, d, SplitUnder(Render(s), Render(d)));
    }
    if |d| < |s| && s[..|d|] == d {
      AboveDir(s, d);
    }
  }

  function SplitUnder(p: string, d: string): (tail: string)
    requires Under(p, d)
    ensures p == d + tail && Absolute(tail)
  {
    p[|d|..]
  }

  lemma AboveDir(s: seq<string>, d: seq<string>)
    requires |d| < |s| && s[..|d|] == d
    ensures Under(Render(s), Render(d))
  {
    var t := s[|d|..];
    assert s == d + t;
    RenderConcat(d, t);
    RenderAbsolute(t);
  }

  lemma InDirMeans(p: string, d: string)
    ensures InDir(p, d + "/") <==> Under(p, d)
  {
    if |d| < |p| {
      assert p[..|d| + 1] == p[..|d|] + [p[|d|]];
    }
  }

  lemma BelowDir(s: seq<string>, d: seq<string>, tail: string)
    requires AllProper(s) && AllProper(d) && Absolute(tail) && Render(s) == Render(d) + tail
    ensures |d| < |s| && s[..|d|] == d
  {
    ComponentsRender(d, tail);
    ComponentsRender(s, "");
    assert Render(s) + "" == Render(s) && s + Components("") == s;
    assert |Components(tail)| >= 1;
  }

  /** The test against a directory, for the canonical form of any absolute path. */
  lemma InDirCanonical(p: string, d: seq<string>)
    requires Absolute(p) && AllProper(d) && d != []
    ensures InDir(Canonical(p), Render(d) + "/") <==> |d| < |Resolved(p)| && Resolved(p)[..|d|] == d
  {
    ResolvedProper(p);
    UnderRendered(Resolved(p), d);
    InDirMeans(Canonical(p), Render(d));
    assert |Render(d)| >= 2;
  }

  /** The test against "/tmp/" passes exactly for a resolved path strictly below /tmp. */
  lemma InTmp(p: string)
    requires Absolute(p)
    ensures InDir(Canonical(p), "/tmp/") <==> |Resolved(p)| >= 2 && Resolved(p)[0] == "tmp"
  {
    assert Render(["tmp"]) == "/tmp" + Render([]);
    assert Render(["tmp"]) + "/" == "/tmp/";
    InDirCanonical(p, ["tmp"]);
  }

  ghost function ComponentEnd(path: string, start: nat): (e: nat)
    requires start < |path|
    ensures start < e <= |path|
  {
    Next(path, '/', start + 1)
  }

  ghost function Component(path: string, start: nat): (c: string)
    requires start < |path|
  {
    path[start + 1..ComponentEnd(path, start)]
  }

  /** The components from `start` on, one step at a time. */
  lemma ComponentsFrom(path: string, start: nat)
    requires start < |path| && path[start] == '/'
    ensures var e := ComponentEnd(path, start);
      && (e < |path| ==> path[e] == '/')
      && Components(path[start..]) == [Component(path, start)] + Components(path[e..])
  {
    var e := ComponentEnd(path, start);
    var p := path[start..];
    assert forall k | 1 <= k < e - start :: p[k] == path[start + k];
    assert e < |path| ==> p[e - start] == path[e];
    NextAt(p, '/', 1, e - start);
    assert p[1..e - start] == Component(path, start) && p[e - start..] == path[e..];
  }

  /** Resolution read off the path itself, from position `start` on. */
  ghost function ResolveFrom(path: string, start: nat, stack: seq<string>): (r: seq<string>)
    requires start <= |path|
    decreases |path| - start
  {
    if start == |path| then stack
    else ResolveFrom(path, ComponentEnd(path, start), Push(stack, Component(path, start)))
  }

  ghost predicate FitsFrom(path: string, start: nat, stack: seq<string>, size: nat)
    requires start <= |path|
    decreases |path| - start
  {
    && |Render(stack)| < size
    && (start < |path| ==> FitsFrom(path, ComponentEnd(path, start), Push(stack, Component(path, start)), size))
  }

  lemma FitsNow(path: string, start: nat, stack: seq<string>, size: nat)
    requires start <= |path|
    ensures FitsFrom(path, start, stack, size) ==> |Render(stack)| < size
  {
  }

  lemma {:induction false} FromAgrees(path: string, start: nat, stack: seq<string>, size: nat)
    requires start <= |path| && (start == |path| || path[start] == '/')
    ensures ResolveFrom(path, start, stack) == Resolve(stack, Components(path[start..]))
    ensures FitsFrom(path, start, stack, size) <==> Fits(stack, Components(path[start..]), size)
    decreases |path| - start
  {
    if start == |path| {
      assert path[start..] == "";
    } else {
      ComponentsFrom(path, start);
      var e, s := ComponentEnd(path, start), Push(stack, Component(path, start));
      var cs := Components(path[start..]);
      assert cs[0] == Component(path, start) && cs[1..] == Components(path[e..]);
      FromAgrees(path, e, s, size);
    }
  }

  /** A proper component copied to its end. */
  lemma CopyDone(path: string, start: nat, stack: seq<string>)
    requires start < |path| && path[start] == '/' && Proper(Component(path, start))
    ensures var e := ComponentEnd(path, start);
      Render(stack) + path[start..e] == Render(stack + [Component(path, start)])
  {
    var c := Component(path, start);
    RenderLast(stack, c);
    assert path[start..ComponentEnd(path, start)] == "/" + c;
    Associative(Render(stack), "/", c);
  }

  /** The component at a slash that no special case of the loop recognises. */
  lemma ProperHere(path: string, start: nat)
    requires start + 1 < |path| && path[start + 1] != '/'
    requires path[start + 1] == '.' ==> start + 2 < |path| && path[start + 2] != '/'
    requires path[start + 1] == '.' && path[start + 2] == '.' ==> start + 3 < |path| && path[start + 3] != '/'
    ensures Proper(Component(path, start))
  {
    var e, c := ComponentEnd(path, start), Component(path, start);
    assert c[0] == path[start + 1];
    assert |c| >= 2 ==> c[1] == path[start + 2];
    assert e == start + 2 ==> c[0] != '.';
    assert e == start + 3 ==> c[0] != '.' || c[1] != '.';
    assert '/' !in c;
  }

  /** Where the copying loop stands: the components before `start` are resolved in
      `stack`, path[start..offset] is the part of a proper component copied so far,
      and the rest of the path decides the outcome. */
  ghost predicate Copying(path: string, start: nat, offset: nat, stack: seq<string>, out: string, size: nat) {
    && Absolute(path) && start <= offset <= |path| && AllProper(stack)
    && (start == |path| || path[start] == '/')
    && (start < offset ==> Proper(Component(path, start)) && offset <= ComponentEnd(path, start))
    && out == Render(stack) + path[start..offset]
    && ResolveFrom(path, start, stack) == ResolveFrom(path, 0, [])
    && (FitsFrom(path, start, stack, size) <==> FitsFrom(path, 0, [], size))
  }

  lemma CopyStart(path: string, size: nat)
    requires Absolute(path)
    ensures Copying(path, 0, 0, [], "", size)
    ensures FitsFrom(path, 0, [], size) <==> Fits([], Components(path), size)
    ensures ResolveFrom(path, 0, []) == Resolved(path)
  {
    assert path[0..] == path && path[0..0] == "";
    FromAgrees(path, 0, [], size);
  }

  /** A proper component that has been copied to its end is resolved. */
  lemma CopyFinish(path: string, start: nat, offset: nat, stack: seq<string>, out: string, size: nat)
    returns (s: seq<string>)
    requires Copying(path, start, offset, stack, out, size) && start < offset && |out| < size
    requires offset == |path| || path[offset] == '/'
    ensures Copying(path, offset, offset, s, out, size)
  {
    s := stack + [Component(path, start)];
    assert offset == ComponentEnd(path, start);
    CopyDone(path, start, stack);
    assert out + path[offset..offset] == out;
  }

  lemma ComponentIs(path: string, start: nat, c: string)
    requires start + 1 + |c| <= |path| && path[start + 1..start + 1 + |c|] == c && '/' !in c
    requires start + 1 + |c| == |path| || path[start + 1 + |c|] == '/'
    ensures ComponentEnd(path, start) == start + 1 + |c| && Component(path, start) == c
  {
    assert forall k | start + 1 <= k < start + 1 + |c| :: path[k] == c[k - start - 1];
    NextAt(path, '/', start + 1, start + 1 + |c|);
  }

  /** A component that is not copied takes effect on the resolved ones. */
  lemma CopySkip(path: string, start: nat, c: string, stack: seq<string>, out: string, size: nat)
    requires Copying(path, start, start, stack, out, size) && |out| < size
    requires start < |path| && Component(path, start) == c && (IsEmptyOrDot(c) || IsDotDot(c))
    ensures var e, s := start + 1 + |c|, Push(stack, c); Copying(path, e, e, s, Render(s), size)
    ensures out == Render(stack)
  {
    var e, s := start + 1 + |c|, Push(stack, c);
    assert out == Render(stack);
    assert Render(s) + path[e..e] == Render(s);
  }

  lemma CopyChar(path: string, start: nat, offset: nat, stack: seq<string>, out: string, size: nat)
    requires Copying(path, start, offset, stack, out, size) && offset < |path|
    requires if start == offset then Proper(Component(path, start)) else path[offset] != '/'
    ensures Copying(path, start, offset + 1, stack, out + [path[offset]], size)
  {
    assert path[start..offset + 1] == path[start..offset] + [path[offset]];
    Associative(Render(stack), path[start..offset], [path[offset]]);
  }

  /** A full buffer, even in the middle of a component, is overflow of the whole. */
  lemma CopyOverflows(path: string, start: nat, offset: nat, stack: seq<string>, out: string, size: nat)
    requires Copying(path, start, offset, stack, out, size) && |out| >= size
    ensures !FitsFrom(path, 0, [], size)
  {
    if start < offset {
      CopyDone(path, start, stack);
      FitsNow(path, ComponentEnd(path, start), stack + [Component(path, start)], size);
      assert |path[start..ComponentEnd(path, start)]| == ComponentEnd(path, start) - start;
    }
  }

  lemma CopyEnd(path: string, stack: seq<string>, out: string, size: nat)
    requires Copying(path, |path|, |path|, stack, out, size) && |out| < size
    ensures FitsFrom(path, 0, [], size) && out == Render(ResolveFrom(path, 0, []))
  {
    assert path[|path|..|path|] == "";
  }

  /** Removing the last rendered component: back to its slash. */
  lemma LastSlash(stack: seq<string>)
    requires AllProper(stack) && stack != []
    ensures var r, n := Render(stack), |Render(stack[..|stack| - 1])|;
      && n < |r| && r[n] == '/' && r[..n] == Render(stack[..|stack| - 1])
      && forall k | n < k < |r| :: r[k] != '/'
  {
    var s, c := stack[..|stack| - 1], stack[|stack| - 1];
    assert stack == s + [c];
    RenderLast(s, c);
    var n := |Render(s)|;
    assert forall k | n < k < |Render(stack)| :: Render(stack)[k] == c[k - n - 1];
  }

  /** Rewinds the write position to the start of the last component. */
  method Rewind(buf: array<char>, q: nat, ghost stack: seq<string>) returns (r: nat)
    requires q <= buf.Length && AllProper(stack) && buf[..q] == Render(stack)
    ensures r <= q && buf[..r] == Render(Pop(stack))
  {
    r := q;
    if r != 0 {
      LastSlash(stack);
      ghost var n := |Render(stack[..|stack| - 1])|;
      r := r - 1;
      while buf[r] != '/'
        invariant n <= r < q
        decreases r
      {
        assert buf[..q][r] == Render(stack)[r];
        assert buf[..q][n] == Render(stack)[n];
        r := r - 1;
      }
      assert buf[..q][r] == Render(stack)[r];
      assert buf[..r] == buf[..q][..r];
    } else {
      RenderAbsolute(stack);
    }
  }

  /** How far the special case at a slash reaches, or 0 for a component to be copied. */
  method Special(path: string, offset: nat) returns (n: nat)
    requires offset < |path| && path[offset] == '/'
    ensures n == 0 ==> Proper(Component(path, offset))
    ensures n > 0 ==> |Component(path, offset)| == n - 1
    ensures n == 1 || n == 2 ==> IsEmptyOrDot(Component(path, offset))
    ensures n == 0 || n == 1 || n == 2 || (n == 3 && IsDotDot(Component(path, offset)))
  {
    if offset + 1 == |path| || path[offset + 1] == '/' {
      ComponentIs(path, offset, "");
      return 1;
    }
    if path[offset + 1] == '.' {
      if offset + 2 == |path| || path[offset + 2] == '/' {
        ComponentIs(path, offset, ".");
        return 2;
      }
      if path[offset + 2] == '.' && (offset + 3 == |path| || path[offset + 3] == '/') {
        ComponentIs(path, offset, "..");
        return 3;
      }
    }
    ProperHere(path, offset);
    return 0;
  }

  /** One round of the copying loop at a slash: skips the component that follows, or
      leaves it to be copied. */
  method Slash(path: string, buf: array<char>, offset: nat, q: nat, ghost stack: seq<string>)
    returns (next: nat, r: nat, ghost s: seq<string>)
    requires q < buf.Length && offset < |path| && path[offset] == '/'
    requires Copying(path, offset, offset, stack, buf[..q], buf.Length)
    ensures offset <= next && r <= q && Copying(path, next, next, s, buf[..r], buf.Length)
    ensures next == offset ==> r == q && s == stack && Proper(Component(path, offset))
  {
    var n := Special(path, offset);
    next, r, s := offset + n, q, stack;
    if n > 0 {
      CopySkip(path, offset, Component(path, offset), stack, buf[..q], buf.Length);
      if n == 3 {
        r := Rewind(buf, q, stack);
        s := Pop(stack);
      }
    }
  }

  /** One character of a proper component. */
  method CopyOne(path: string, buf: array<char>, offset: nat, q: nat, ghost start: nat, ghost stack: seq<string>)
    requires q < buf.Length && offset < |path|
    requires Copying(path, start, offset, stack, buf[..q], buf.Length)
    requires if start == offset then Proper(Component(path, start)) else path[offset] != '/'
    modifies buf
    ensures Copying(path, start, offset + 1, stack, buf[..q + 1], buf.Length)
  {
    CopyChar(path, start, offset, stack, buf[..q], buf.Length);
    buf[q] := path[offset];
    assert buf[..q + 1] == old(buf[..q]) + [path[offset]];
  }

  /** One round of the loop: skips a component, or copies one character. */
  method CopyRound(path: string, buf: array<char>, offset: nat, q: nat, ghost start: nat, ghost stack: seq<string>)
    returns (next: nat, r: nat, ghost from: nat, ghost s: seq<string>)
    requires q < buf.Length && offset < |path|
    requires Copying(path, start, offset, stack, buf[..q], buf.Length)
    modifies buf
    ensures offset < next && r <= buf.Length && Copying(path, from, next, s, buf[..r], buf.Length)
  {
    next, r, from, s := offset, q, start, stack;
    if path[offset] == '/' {
      if start < offset {
        s := CopyFinish(path, start, offset, stack, buf[..q], buf.Length);
        from := offset;
      }
      next, r, s := Slash(path, buf, offset, q, s);
    }
    if next != offset {
      from := next;
    } else {
      CopyOne(path, buf, offset, q, from, s);
      r, next := q + 1, offset + 1;
    }
  }

  /** Copies until the path ends or the buffer is full. */
  method CopyAll(path: string, buf: array<char>)
    returns (offset: nat, q: nat, ghost start: nat, ghost stack: seq<string>)
    requires Absolute(path)
    modifies buf
    ensures q <= buf.Length && Copying(path, start, offset, stack, buf[..q], buf.Length)
    ensures offset == |path| || q == buf.Length
  {
    offset, q, start, stack := 0, 0, 0, [];
    CopyStart(path, buf.Length);
    assert buf[..0] == "";
    while offset < |path| && q < buf.Length
      invariant q <= buf.Length && Copying(path, start, offset, stack, buf[..q], buf.Length)
      decreases |path| - offset
    {
      offset, q, start, stack := CopyRound(path, buf, offset, q, start, stack);
    }
  }

  /** Writes the canonical form of an absolute path into the buffer. It succeeds
      exactly when every intermediate result is shorter than the buffer. */
  method Canonicalize(path: string, buf: array<char>) returns (ok: bool, len: nat)
    modifies buf
    ensures ok <==> Absolute(path) && Fits([], Components(path), buf.Length)
    ensures ok ==> len <= buf.Length && buf[..len] == Canonical(path)
  {
    ok, len := false, 0;
    if path == "" || path[0] != '/' { return; }
    var offset, q;
    ghost var start, stack;
    offset, q, start, stack := CopyAll(path, buf);
    CopyStart(path, buf.Length);
    if offset == |path| && q < buf.Length {
      if start < offset {
        stack := CopyFinish(path, start, offset, stack, buf[..q], buf.Length);
      }
      CopyEnd(path, stack, buf[..q], buf.Length);
      if q == 0 {
        buf[q] := '/';
        q := q + 1;
      }
      return true, q;
    }
    CopyOverflows(path, start, offset, stack, buf[..q], buf.Length);
  }
}
