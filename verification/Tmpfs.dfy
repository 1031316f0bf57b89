/** The dirty pages of a tmpfs file (klib/tmpfs.c). */
module Tmpfs {
  import opened RangeMap

  /** How a search for gaps ends: aborted by its handler, or with or without gaps found. */
  datatype Search = Abort | Match | NoMatch

  function Intersection(a: Range, b: Range): (r: Range)
    ensures forall p :: In(r, p) <==> In(a, p) && In(b, p)
  {
    var start, end := if a.start > b.start then a.start else b.start, if a.end < b.end then a.end else b.end;
    if end <= start then Range(0, 0) else Range(start, end)
  }

  predicate Empty(r: Range) {
    r.end <= r.start
  }

  /** The pages that a range of bytes touches: a right shift that rounds the end up. */
  function ToPages(q: Range, size: nat): (r: Range)
    requires size > 0
  {
    Range(q.start / size, (q.end + (size - 1)) / size)
  }

  /** Exactly the pages that hold a byte of the range, when there is one. */
  lemma ToPagesExact(q: Range, size: nat, p: nat)
    requires size > 0 && q.start < q.end
    ensures In(ToPages(q, size), p) <==> p * size < q.end && q.start < (p + 1) * size
  {
    DivideBelow(q.start, size, p);
    DivideBelow(q.end + (size - 1), size, p);
  }

  lemma DivideBelow(a: nat, size: nat, p: nat)
    requires size > 0
    ensures a / size <= p <==> a < (p + 1) * size
  {
    var d := a / size;
    assert a == d * size + a % size;
    if d <= p {
      Multiply(d + 1, p + 1, size);
      assert (d + 1) * size == d * size + size;
    } else {
      Multiply(p + 1, d, size);
    }
  }

  lemma Multiply(a: nat, b: nat, size: nat)
    requires a <= b
    ensures a * size <= b * size
  {
  }

  lemma NotCovered(rs: seq<Range>, i: nat, p: nat)
    requires i <= |rs|
    requires forall k | 0 <= k < i :: rs[k].end <= p
    requires forall k | i <= k < |rs| :: rs[k].start > p
    ensures p !in Pages(rs)
  {
    var _ := InPages(rs, p);
  }

  lemma PinsAdd(a: set<nat>, b: set<nat>)
    requires a !! b
    ensures multiset(a) + multiset(b) == multiset(a + b)
  {
  }

  class File {
    var dirty: seq<Range>
    /** How often each page is pinned. */
    var pins: multiset<nat>

    /** Each page is pinned once if it is dirty and never otherwise. */
    ghost predicate Valid()
      reads this
    {
      Separated(dirty) && pins == multiset(Pages(dirty))
    }

    constructor ()
      ensures Valid() && dirty == []
    {
      dirty, pins := [], multiset{};
    }

    /** The gap handler: makes a gap dirty and pins its pages, if it can. */
    method FillGap(gap: Range) returns (filled: bool)
      requires Valid() && gap.start < gap.end && PageSet(gap) !! Pages(dirty)
      modifies this
      ensures Valid()
      ensures filled ==> Pages(dirty) == old(Pages(dirty)) + PageSet(gap)
      ensures !filled ==> dirty == old(dirty)
    {
      var out;
      filled, out := InsertRange(dirty, gap);
      if filled {
        PinsAdd(Pages(dirty), PageSet(gap));
        dirty := out;
        pins := pins + multiset(PageSet(gap));
      }
    }

    /** The first range that ends after a point. */
    method LookupAtOrNext(point: nat) returns (i: nat)
      requires Valid()
      ensures i <= |dirty| && forall k | 0 <= k < |dirty| :: dirty[k].end <= point <==> k < i
    {
      i := 0;
      while i < |dirty| && dirty[i].end <= point
        invariant i <= |dirty| && forall k | 0 <= k < i :: dirty[k].end <= point
      {
        i := i + 1;
      }
    }

    /** Offers the part of q between two edges to the gap handler, if there is any. Nothing
        before range i reaches past the first edge, nothing from it on starts before the second. */
    method OfferGap(q: Range, lastEdge: nat, edge: nat, ghost i: nat) returns (found: bool, filled: bool)
      requires Valid() && i <= |dirty|
      requires forall k | 0 <= k < i :: dirty[k].end <= lastEdge
      requires forall k | i <= k < |dirty| :: dirty[k].start >= edge || Empty(q)
      modifies this
      ensures Valid() && (filled ==> found)
      ensures found <==> !Empty(Intersection(Range(lastEdge, edge), q))
      ensures filled ==> old(Pages(dirty)) < Pages(dirty) <= old(Pages(dirty)) + PageSet(q)
      ensures !filled ==> dirty == old(dirty)
      ensures found && !filled ==> !(PageSet(q) <= Pages(dirty))
    {
      var gap := Intersection(Range(lastEdge, edge), q);
      found, filled := !Empty(gap), false;
      if found {
        forall p | In(gap, p) ensures p !in Pages(dirty) {
          assert In(Range(lastEdge, edge), p) && In(q, p);
          NotCovered(dirty, i, p);
        }
        assert In(gap, gap.start);
        filled := FillGap(gap);
        assert gap.start in PageSet(q) && gap.start in PageSet(gap);
      }
    }

    /** Searches q for gaps until one has been filled. */
    method FindGaps(q: Range) returns (res: Search)
      requires Valid()
      modifies this
      ensures Valid()
      ensures res.Abort? ==> old(Pages(dirty)) < Pages(dirty) <= old(Pages(dirty)) + PageSet(q)
      ensures !res.Abort? ==> dirty == old(dirty) && (res.NoMatch? <==> PageSet(q) <= Pages(dirty))
    {
      var found, filled, matched, lastEdge := false, false, false, q.start;
      var i := LookupAtOrNext(q.start);
      while i < |dirty| && !Empty(Intersection(q, dirty[i]))
        invariant Valid() && dirty == old(dirty) && Searching(dirty, q, lastEdge, i, matched)
      {
        SearchStart(dirty, q, lastEdge, i, matched);
        found, filled := OfferGap(q, lastEdge, dirty[i].start, i);
        if filled { return Abort; }
        SearchNext(dirty, q, lastEdge, i, matched, found);
        matched := matched || found;
        lastEdge := dirty[i].end;
        i := i + 1;
      }
      PastEnd(dirty, q, i);
      found, filled := OfferGap(q, lastEdge, q.end, i);
      if filled { return Abort; }
      matched := matched || found;
      if !matched { CoverEnd(dirty, q, lastEdge); }
      return if matched then Match else NoMatch;
    }

    /** Makes the pages of a range of bytes dirty. Success means that all of them are; on
        failure, for want of memory, some are not, but no others have become dirty. */
    method Write(q: Range, pageSize: nat) returns (ok: bool)
      requires Valid() && pageSize > 0
      modifies this
      ensures Valid()
      ensures ok ==> Pages(dirty) == old(Pages(dirty)) + PageSet(ToPages(q, pageSize))
      ensures !ok ==> old(Pages(dirty)) <= Pages(dirty) < old(Pages(dirty)) + PageSet(ToPages(q, pageSize))
    {
      var pages := ToPages(q, pageSize);
      var res := Abort;
      while res.Abort?
        invariant Valid()
        invariant old(Pages(dirty)) <= Pages(dirty) <= old(Pages(dirty)) + PageSet(pages)
        invariant !res.Abort? ==> (res.NoMatch? <==> PageSet(pages) <= Pages(dirty))
        decreases PageSet(pages) - Pages(dirty), res.Abort?
      {
        ghost var before := Pages(dirty);
        res := FindGaps(pages);
        if res.Abort? { Fewer(PageSet(pages), before, Pages(dirty)); }
      }
      return res.NoMatch?;
    }

    /** Frees the file: every page is unpinned as often as it was pinned. */
    method Free()
      requires Valid()
      modifies this
      ensures Valid() && dirty == [] && pins == multiset{}
    {
      assert dirty[0..] == dirty;
      for i := 0 to |dirty|
        invariant dirty == old(dirty) && pins == multiset(Pages(dirty[i..]))
      {
        UnpinFirst(dirty, i);
        pins := pins - multiset(PageSet(dirty[i]));
      }
      assert dirty[|dirty|..] == [];
      dirty := [];
    }

    /** The space of the file in sectors of 512 bytes: that of its dirty pages. */
    method GetBlocks(pageSize: nat) returns (blocks: nat)
      requires Valid()
      ensures blocks == |Pages(dirty)| * pageSize / 512
    {
      var pages := 0;
      assert dirty[..0] == [];
      for i := 0 to |dirty|
        invariant pages == |Pages(dirty[..i])|
      {
        CountNext(dirty, i);
        pages := pages + (dirty[i].end - dirty[i].start);
      }
      assert dirty[..|dirty|] == dirty;
      return pages * pageSize / 512;
    }
  }

  /** Where the search for gaps stands: at range i, with everything before the last edge
      seen; either a gap was found or there was none so far. */
  predicate Searching(rs: seq<Range>, q: Range, lastEdge: nat, i: nat, matched: bool) {
    && i <= |rs|
    && (forall k | 0 <= k < i :: rs[k].end <= lastEdge)
    && (forall k | i <= k < |rs| :: rs[k].end > q.start)
    && if matched then !(PageSet(q) <= Pages(rs)) else CoveredBelow(rs, q, lastEdge)
  }

  lemma SearchStart(rs: seq<Range>, q: Range, lastEdge: nat, i: nat, matched: bool)
    requires Separated(rs) && i < |rs| && Searching(rs, q, lastEdge, i, matched)
    ensures forall k | i <= k < |rs| :: rs[k].start >= rs[i].start
    ensures forall k | 0 <= k < i :: rs[k].end <= lastEdge
  {
  }

  lemma SearchNext(rs: seq<Range>, q: Range, lastEdge: nat, i: nat, matched: bool, found: bool)
    requires Separated(rs) && i < |rs| && Searching(rs, q, lastEdge, i, matched)
    requires found <==> !Empty(Intersection(Range(lastEdge, rs[i].start), q))
    requires found ==> !(PageSet(q) <= Pages(rs))
    ensures Searching(rs, q, rs[i].end, i + 1, matched || found)
  {
    if !matched && !found { CoverNode(rs, q, lastEdge, i); }
  }

  /** Every page of q below an edge is dirty. */
  predicate CoveredBelow(rs: seq<Range>, q: Range, edge: nat) {
    forall p | q.start <= p < edge :: p < q.end ==> p in Pages(rs)
  }

  lemma CoverNode(rs: seq<Range>, q: Range, lastEdge: nat, i: nat)
    requires i < |rs| && CoveredBelow(rs, q, lastEdge) && Empty(Intersection(Range(lastEdge, rs[i].start), q))
    ensures CoveredBelow(rs, q, rs[i].end)
  {
    forall p | q.start <= p < rs[i].end ensures p < q.end ==> p in Pages(rs) {
      assert !In(Intersection(Range(lastEdge, rs[i].start), q), p);
      if p >= rs[i].start { PagesHas(rs, i, p); }
    }
  }

  lemma CoverEnd(rs: seq<Range>, q: Range, lastEdge: nat)
    requires CoveredBelow(rs, q, lastEdge) && Empty(Intersection(Range(lastEdge, q.end), q))
    ensures PageSet(q) <= Pages(rs)
  {
    forall p | p in PageSet(q) ensures p in Pages(rs) {
      assert !In(Intersection(Range(lastEdge, q.end), q), p);
    }
  }

  /** Where the search stops, all further ranges start at the end of q or after it. */
  lemma PastEnd(rs: seq<Range>, q: Range, i: nat)
    requires Separated(rs) && i <= |rs| && (i < |rs| ==> Empty(Intersection(q, rs[i])) && rs[i].end > q.start)
    ensures forall k | i <= k < |rs| :: rs[k].start >= q.end || Empty(q)
  {
  }

  lemma Fewer(all: set<nat>, before: set<nat>, after: set<nat>)
    requires before < after && after <= before + all
    ensures all - after < all - before
  {
    var p :| p in after && p !in before;
    assert p in all - before && p !in all - after;
  }

  lemma DisjointRest(rs: seq<Range>, i: nat)
    requires Separated(rs) && i < |rs|
    ensures PageSet(rs[i]) !! Pages(rs[i + 1..])
  {
    forall p | p in PageSet(rs[i]) ensures p !in Pages(rs[i + 1..]) {
      var k := InPages(rs[i + 1..], p);
      assert k < |rs[i + 1..]| ==> rs[i + 1..][k] == rs[i + 1 + k];
    }
  }

  lemma UnpinFirst(rs: seq<Range>, i: nat)
    requires Separated(rs) && i < |rs|
    ensures multiset(Pages(rs[i..])) - multiset(PageSet(rs[i])) == multiset(Pages(rs[i + 1..]))
  {
    DisjointRest(rs, i);
    assert rs[i..][1..] == rs[i + 1..];
    PinsAdd(PageSet(rs[i]), Pages(rs[i + 1..]));
  }

  lemma {:induction false} Span(r: Range)
    requires r.start <= r.end
    ensures |PageSet(r)| == r.end - r.start
    decreases r.end
  {
    if r.start == r.end {
      assert PageSet(r) == {};
    } else {
      var s := Range(r.start, r.end - 1);
      Span(s);
      assert PageSet(r) == PageSet(s) + {r.end - 1};
    }
  }

  lemma CountNext(rs: seq<Range>, i: nat)
    requires Separated(rs) && i < |rs|
    ensures |Pages(rs[..i + 1])| == |Pages(rs[..i])| + (rs[i].end - rs[i].start)
  {
    assert rs[..i + 1] == rs[..i] + [rs[i]];
    PagesConcat(rs[..i], [rs[i]]);
    PagesOne(rs[i]);
    Span(rs[i]);
    forall p | p in PageSet(rs[i]) ensures p !in Pages(rs[..i]) {
      var k := InPages(rs[..i], p);
      assert k < i ==> rs[..i][k] == rs[k];
    }
  }
}
