/** Range maps (src/runtime/range.c): a sorted list of ranges with gaps between them. The
    balanced tree that holds them is a sequence here. */
module RangeMap {

  datatype Range = Range(start: nat, end: nat)

  predicate In(r: Range, p: nat) {
    r.start <= p < r.end
  }

  function PageSet(r: Range): (s: set<nat>)
    ensures forall p :: p in s <==> In(r, p)
  {
    set p: nat | r.start <= p < r.end && In(r, p)
  }

  /** Ranges are nonempty, in order, and do not even touch. */
  predicate Separated(rs: seq<Range>) {
    && (forall i | 0 <= i < |rs| :: rs[i].start < rs[i].end)
    && (forall i, j | 0 <= i < j < |rs| :: rs[i].end < rs[j].start)
  }

  /** All pages of a range map. */
  function Pages(rs: seq<Range>): (s: set<nat>) {
    if rs == [] then {} else PageSet(rs[0]) + Pages(rs[1..])
  }

  lemma {:induction false} InPages(rs: seq<Range>, p: nat) returns (i: nat)
    ensures p in Pages(rs) ==> i < |rs| && In(rs[i], p)
  {
    i := 0;
    if rs != [] && !In(rs[0], p) {
      var j := InPages(rs[1..], p);
      i := j + 1;
    }
  }

  lemma {:induction false} PagesHas(rs: seq<Range>, i: nat, p: nat)
    requires i < |rs| && In(rs[i], p)
    ensures p in Pages(rs)
  {
    if i > 0 { PagesHas(rs[1..], i - 1, p); }
  }

  lemma {:induction false} PagesConcat(a: seq<Range>, b: seq<Range>)
    ensures Pages(a + b) == Pages(a) + Pages(b)
  {
    if a == [] {
      assert a + b == b;
    } else {
      assert (a + b)[1..] == a[1..] + b;
      PagesConcat(a[1..], b);
    }
  }

  lemma PagesOne(r: Range)
    ensures Pages([r]) == PageSet(r)
  {
    assert Pages([r]) == PageSet(r) + Pages([]);
  }

  /** The position of the last range that starts at or before a point, if any. */
  method LookupMaxLte(rs: seq<Range>, point: nat) returns (k: int)
    requires Separated(rs)
    ensures -1 <= k < |rs|
    ensures forall i | 0 <= i < |rs| :: rs[i].start <= point <==> i <= k
  {
    k := -1;
    for i := 0 to |rs|
      invariant -1 <= k < i || k == -1
      invariant forall j | 0 <= j < i :: rs[j].start <= point <==> j <= k
    {
      if rs[i].start > point { return; }
      k := i;
    }
  }

  /** rs[k..j] are the ranges that overlap or touch r, and m is their union with r. */
  predicate Merges(rs: seq<Range>, r: Range, k: nat, j: nat, m: Range) {
    && k < j <= |rs|
    && (forall i | 0 <= i < k :: rs[i].end < r.start)
    && (forall i | k <= i < j :: rs[i].end >= r.start && rs[i].start <= r.end)
    && m.start == (if rs[k].start < r.start then rs[k].start else r.start)
    && m.end == (if rs[j - 1].end > r.end then rs[j - 1].end else r.end)
  }

  lemma MergedPages(rs: seq<Range>, r: Range, k: nat, j: nat, m: Range)
    requires Separated(rs) && r.start < r.end && Merges(rs, r, k, j, m)
    ensures PageSet(m) == PageSet(r) + Pages(rs[k..j])
  {
    var mid := rs[k..j];
    forall p | p in PageSet(m) ensures p in PageSet(r) + Pages(mid) {
      if p < r.start { PagesHas(mid, 0, p); }
      else if p >= r.end { PagesHas(mid, |mid| - 1, p); }
    }
    forall p | p in Pages(mid) ensures p in PageSet(m) {
      var i := InPages(mid, p);
      assert mid[i] == rs[k + i];
    }
  }

  /** rs with its ranges from k up to j replaced by m. */
  function Splice(rs: seq<Range>, k: nat, j: nat, m: Range): (out: seq<Range>)
    requires k <= j <= |rs|
  {
    rs[..k] + [m] + rs[j..]
  }

  lemma SplicePages(rs: seq<Range>, k: nat, j: nat, m: Range)
    requires k <= j <= |rs|
    ensures Pages(Splice(rs, k, j, m)) == Pages(rs[..k]) + PageSet(m) + Pages(rs[j..])
  {
    PagesOne(m);
    PagesConcat(rs[..k] + [m], rs[j..]);
    PagesConcat(rs[..k], [m]);
  }

  lemma SplitAt(rs: seq<Range>, k: nat)
    requires k <= |rs|
    ensures Pages(rs) == Pages(rs[..k]) + Pages(rs[k..])
  {
    assert rs == rs[..k] + rs[k..];
    PagesConcat(rs[..k], rs[k..]);
  }

  lemma SplitPages(rs: seq<Range>, k: nat, j: nat)
    requires k <= j <= |rs|
    ensures Pages(rs) == Pages(rs[..k]) + Pages(rs[k..j]) + Pages(rs[j..])
  {
    SplitAt(rs, k);
    SplitAt(rs[k..], j - k);
    SliceTwice(rs, k, j);
  }

  lemma SliceTwice<T>(s: seq<T>, k: nat, j: nat)
    requires k <= j <= |s|
    ensures s[k..][..j - k] == s[k..j] && s[k..][j - k..] == s[j..]
  {
  }

  lemma SpliceSeparated(rs: seq<Range>, k: nat, j: nat, m: Range)
    requires Separated(rs) && k <= j <= |rs| && m.start < m.end
    requires forall i | 0 <= i < k :: rs[i].end < m.start
    requires forall i | j <= i < |rs| :: m.end < rs[i].start
    ensures Separated(Splice(rs, k, j, m))
  {
    var out := Splice(rs, k, j, m);
    forall i | 0 <= i < |out|
      ensures out[i] == if i < k then rs[i] else if i == k then m else rs[i - k - 1 + j]
    {
    }
  }

  lemma MergeDone(rs: seq<Range>, r: Range, k: nat, j: nat, m: Range)
    requires Separated(rs) && r.start < r.end && Merges(rs, r, k, j, m)
    requires j < |rs| ==> rs[j].start > r.end
    ensures Separated(Splice(rs, k, j, m)) && Pages(Splice(rs, k, j, m)) == Pages(rs) + PageSet(r)
  {
    MergedPages(rs, r, k, j, m);
    SplicePages(rs, k, j, m);
    SplitPages(rs, k, j);
    SpliceSeparated(rs, k, j, m);
  }

  lemma InsertDone(rs: seq<Range>, r: Range, k: nat)
    requires Separated(rs) && r.start < r.end && k <= |rs|
    requires forall i | 0 <= i < k :: rs[i].end < r.start
    requires k < |rs| ==> rs[k].start > r.end
    ensures Separated(Splice(rs, k, k, r)) && Pages(Splice(rs, k, k, r)) == Pages(rs) + PageSet(r)
  {
    SplicePages(rs, k, k, r);
    SplitPages(rs, k, k);
    assert rs[k..k] == [];
    SpliceSeparated(rs, k, k, r);
  }

  /** Merges r with the ranges from k on that it overlaps or touches. */
  method MergeFrom(rs: seq<Range>, r: Range, k: nat) returns (j: nat, m: Range)
    requires Separated(rs) && k <= |rs|
    requires forall i | 0 <= i < k :: rs[i].end < r.start
    requires k < |rs| ==> rs[k].end >= r.start
    ensures k <= j <= |rs| && (j < |rs| ==> rs[j].start > r.end)
    ensures j > k ==> Merges(rs, r, k, j, m)
  {
    j, m := k, r;
    while j < |rs| && rs[j].start <= r.end
      invariant k <= j <= |rs|
      invariant if j == k then m == r else Merges(rs, r, k, j, m)
    {
      if j == k {
        m := Range(if rs[j].start < r.start then rs[j].start else r.start,
                   if rs[j].end > r.end then rs[j].end else r.end);
      } else if m.end < rs[j].end {
        m := m.(end := rs[j].end);
      }
      j := j + 1;
    }
  }

  /** Inserts a range, merging it with any ranges it overlaps or touches. A range that
      touches none needs a new node, whose allocation may fail. */
  method InsertRange(rs: seq<Range>, r: Range) returns (ok: bool, out: seq<Range>)
    requires Separated(rs) && r.start < r.end
    ensures ok ==> Separated(out) && Pages(out) == Pages(rs) + PageSet(r)
    ensures !ok ==> out == rs && forall i | 0 <= i < |rs| :: rs[i].end < r.start || rs[i].start > r.end
  {
    var k := LookupMaxLte(rs, r.start);
    if k < 0 { k := 0; }
    if k < |rs| && rs[k].end < r.start { k := k + 1; }
    var j, m := MergeFrom(rs, r, k);
    if j > k {
      MergeDone(rs, r, k, j, m);
      return true, Splice(rs, k, j, m);
    }
    ok := *;
    if !ok { return false, rs; }
    InsertDone(rs, r, k);
    return true, Splice(rs, k, k, r);
  }
}
