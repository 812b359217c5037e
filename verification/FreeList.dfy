// The in-place reordering of the free list in check_page_free_list, kern/pmap.c: pages of low
// memory first, by redirecting links through two tail pointers.
module FreeLists {
  import opened Mmu
  import opened FlatMemory
  import opened Represents

  predicate High(f: nat, limit: nat) { f / NPTENTRIES >= limit }

  // The high or the low members of q, in their order.
  function Part(q: seq<nat>, limit: nat, high: bool): (r: seq<nat>)
    ensures forall x :: x in r ==> x in q && High(x, limit) == high
  {
    if q == [] then []
    else
      var last := q[|q| - 1];
      Part(q[..|q| - 1], limit, high) + if High(last, limit) == high then [last] else []
  }

  lemma {:induction false} PartNoDup(q: seq<nat>, limit: nat, high: bool)
    requires NoDup(q)
    ensures NoDup(Part(q, limit, high))
  {
    if q != [] { PartNoDup(q[..|q| - 1], limit, high); }
  }

  // Each part keeps the order of the list.
  lemma {:induction false} PartOrder(q: seq<nat>, limit: nat, high: bool, i: nat, j: nat) returns (a: nat, b: nat)
    requires i < j < |Part(q, limit, high)|
    ensures a < b < |q| && q[a] == Part(q, limit, high)[i] && q[b] == Part(q, limit, high)[j]
  {
    var front := Part(q[..|q| - 1], limit, high);
    if j < |front| {
      a, b := PartOrder(q[..|q| - 1], limit, high, i, j);
    } else {
      assert front[i] in front;
      a :| 0 <= a < |q| - 1 && q[..|q| - 1][a] == front[i];
      b := |q| - 1;
    }
  }

  // No page whose directory entry is at the limit or above comes before one below it.
  lemma LowBeforeHigh(q: seq<nat>, limit: nat, i: nat, j: nat)
    requires i < j < |Part(q, limit, false) + Part(q, limit, true)|
    ensures var r := Part(q, limit, false) + Part(q, limit, true);
            r[i] * PGSIZE / 0x40_0000 >= limit ==> r[j] * PGSIZE / 0x40_0000 >= limit
  {
    var low, high := Part(q, limit, false), Part(q, limit, true);
    var r := low + high;
    EntryOf(r[i]);
    EntryOf(r[j]);
    if i < |low| {
      assert low[i] in low;
    } else {
      assert high[j - |low|] in high;
    }
  }

  // PDX(page2pa(pp))
  lemma EntryOf(f: nat)
    ensures f * PGSIZE / 0x40_0000 == f / NPTENTRIES
  {}

  // Nothing is lost: every member of q is in one of the two parts.
  lemma {:induction false} PartAll(q: seq<nat>, limit: nat, x: nat)
    requires x in q
    ensures x in Part(q, limit, High(x, limit))
  {
    if x != q[|q| - 1] { PartAll(q[..|q| - 1], limit, x); }
  }

  // The two parts together are the old list in another order.
  lemma SamePages(q: seq<nat>, limit: nat)
    requires NoDup(q)
    ensures var r := Part(q, limit, false) + Part(q, limit, true); NoDup(r) && forall x :: x in r <==> x in q
  {
    PartNoDup(q, limit, false);
    PartNoDup(q, limit, true);
    var low, high := Part(q, limit, false), Part(q, limit, true);
    var r := low + high;
    forall x | x in q ensures x in r { PartAll(q, limit, x); }
    forall i, j | 0 <= i < j < |r| ensures r[i] != r[j] {
      if i < |low| <= j { assert r[i] in low && r[j] in high; }
    }
  }

  // A list under construction: its links are right up to the last member, where `tail` is the cell
  // to write next (NULL: the head variable itself).
  ghost predicate Open(pages: seq<PageInfo>, head: int, tail: int, q: seq<nat>) {
    && (forall i :: 0 <= i < |q| ==> q[i] < |pages|)
    && (q == [] ==> tail == NULL)
    && (q != [] ==> head == q[0] && tail == q[|q| - 1])
    && (forall i :: 0 <= i < |q| - 1 ==> pages[q[i]].link == q[i + 1])
  }

  // The tail cell set to f, which becomes the last member.
  lemma OpenPush(pages: seq<PageInfo>, head: int, tail: int, q: seq<nat>, f: nat)
    requires Open(pages, head, tail, q) && NoDup(q) && f !in q && f < |pages|
    ensures tail != NULL ==> 0 <= tail < |pages|
    ensures var pages' := if tail == NULL then pages else SetLink(pages, tail, f);
            Open(pages', if tail == NULL then f else head, f, q + [f])
  {
    var pages', q' := if tail == NULL then pages else SetLink(pages, tail, f), q + [f];
    forall i | 0 <= i < |q'| - 1 ensures pages'[q'[i]].link == q'[i + 1] {
      if i < |q| - 1 { assert q[i] != q[|q| - 1]; }
    }
  }

  // A write to a cell of another list, or to no member at all.
  lemma OpenKeep(pages: seq<PageInfo>, head: int, tail: int, q: seq<nat>, t: nat, link: int)
    requires Open(pages, head, tail, q) && t < |pages| && t !in q
    ensures Open(SetLink(pages, t, link), head, tail, q)
  {}

  // The part of the list not yet visited.
  ghost predicate Ahead(pages: seq<PageInfo>, free: seq<nat>, k: nat) {
    forall i :: k <= i < |free| ==> Linked(pages, free, i)
  }

  lemma AheadKeep(pages: seq<PageInfo>, free: seq<nat>, k: nat, t: nat, link: int)
    requires Ahead(pages, free, k) && NoDup(free) && t < |pages| && k <= |free| && t in free[..k]
    ensures Ahead(SetLink(pages, t, link), free, k)
  {
    var pages' := SetLink(pages, t, link);
    forall i | k <= i < |free| ensures Linked(pages', free, i) { assert Linked(pages, free, i); }
  }

  // Both lists closed and joined.
  lemma Join(pages: seq<PageInfo>, h: int, q: seq<nat>, rest: seq<nat>)
    requires (forall i :: 0 <= i < |q| ==> q[i] < |pages|) && (q != [] ==> h == q[0])
    requires forall i :: 0 <= i < |q| - 1 ==> pages[q[i]].link == q[i + 1]
    requires q != [] ==> pages[q[|q| - 1]].link == if rest == [] then NULL else rest[0]
    requires q == [] ==> h == if rest == [] then NULL else rest[0]
    requires forall i :: 0 <= i < |rest| ==> Linked(pages, rest, i)
    ensures Chain(pages, h, q + rest)
  {
    var all := q + rest;
    forall i | 0 <= i < |all| ensures Linked(pages, all, i) {
      if i >= |q| { assert Linked(pages, rest, i - |q|); }
    }
  }

  // The loop after k pages; b names the part that h and t belong to.
  ghost predicate Visited(pages: seq<PageInfo>, free: seq<nat>, limit: nat, k: nat, b: bool, h: int, t: int, h': int,
                          t': int) {
    && k <= |free| && Ahead(pages, free, k)
    && Open(pages, h, t, Part(free[..k], limit, b))
    && Open(pages, h', t', Part(free[..k], limit, !b))
  }

  lemma PartNext(free: seq<nat>, limit: nat, k: nat, b: bool)
    requires k < |free| && NoDup(free)
    ensures Part(free[..k + 1], limit, b) ==
            Part(free[..k], limit, b) + if High(free[k], limit) == b then [free[k]] else []
    ensures NoDup(Part(free[..k], limit, b)) && free[k] !in Part(free[..k], limit, b)
  {
    assert free[..k + 1][..k] == free[..k];
    PartNoDup(free[..k], limit, b);
  }

  // *tp[pagetype] = pp; tp[pagetype] = &pp->pp_link
  lemma Visit(pages: seq<PageInfo>, free: seq<nat>, limit: nat, k: nat, b: bool, h: int, t: int, h': int, t': int)
    requires Visited(pages, free, limit, k, b, h, t, h', t') && NoDup(free) && k < |free| && b == High(free[k], limit)
    ensures free[k] < |pages| && (t != NULL ==> 0 <= t < |pages| && t != free[k])
    ensures Visited(if t == NULL then pages else SetLink(pages, t, free[k]), free, limit, k + 1, b,
                    if t == NULL then free[k] else h, free[k], h', t')
  {
    assert Linked(pages, free, k);
    PartNext(free, limit, k, b);
    PartNext(free, limit, k, !b);
    var mine, other := Part(free[..k], limit, b), Part(free[..k], limit, !b);
    OpenPush(pages, h, t, mine, free[k]);
    assert other + [] == other;
    hide Part;
    if t != NULL {
      assert t in mine;
      OpenKeep(pages, h', t', other, t, free[k]);
      AheadKeep(pages, free, k, t, free[k]);
    }
  }

  // The two closing writes.
  lemma Close(pages: seq<PageInfo>, low: seq<nat>, high: seq<nat>, h0: int, t0: int, h1: int, t1: int)
    requires Open(pages, h0, t0, low) && Open(pages, h1, t1, high) && NoDup(low) && NoDup(high)
    requires forall x :: x in low ==> x !in high
    ensures (t0 != NULL ==> 0 <= t0 < |pages|) && (t1 != NULL ==> 0 <= t1 < |pages|)
    ensures var p1 := if t1 == NULL then pages else SetLink(pages, t1, NULL);
            var h1' := if t1 == NULL then NULL else h1;
            var p2 := if t0 == NULL then p1 else SetLink(p1, t0, h1');
            Chain(p2, if t0 == NULL then h1' else h0, low + high)
  {
    var p1, h1' := if t1 == NULL then pages else SetLink(pages, t1, NULL), if t1 == NULL then NULL else h1;
    var p2 := if t0 == NULL then p1 else SetLink(p1, t0, h1');
    forall i | 0 <= i < |high| ensures Linked(p2, high, i) {
      if i < |high| - 1 { assert high[i] != high[|high| - 1]; }
      assert high[i] in high;
    }
    forall i | 0 <= i < |low| - 1 ensures p2[low[i]].link == low[i + 1] {
      assert low[i] != low[|low| - 1] && low[i] in low;
      assert t1 != NULL ==> t1 in high;
    }
    Join(p2, if t0 == NULL then h1' else h0, low, high);
  }

  lemma StartVisit(pages: seq<PageInfo>, head: int, free: seq<nat>, limit: nat)
    requires Chain(pages, head, free)
    ensures Visited(pages, free, limit, 0, false, NULL, NULL, NULL, NULL)
    ensures head == if free == [] then NULL else free[0]
  {}

  // The page at position k and the one its link leads to.
  lemma NextPage(pages: seq<PageInfo>, free: seq<nat>, k: nat)
    requires Ahead(pages, free, k) && k < |free|
    ensures free[k] < |pages| && pages[free[k]].link == if k + 1 == |free| then NULL else free[k + 1]
  {
    assert Linked(pages, free, k);
  }

  lemma FinishVisit(pages: seq<PageInfo>, free: seq<nat>, limit: nat, h0: int, t0: int, h1: int, t1: int)
    requires Visited(pages, free, limit, |free|, false, h0, t0, h1, t1) && NoDup(free)
    ensures (t0 != NULL ==> 0 <= t0 < |pages|) && (t1 != NULL ==> 0 <= t1 < |pages|)
    ensures var p1 := if t1 == NULL then pages else SetLink(pages, t1, NULL);
            var h1' := if t1 == NULL then NULL else h1;
            var p2 := if t0 == NULL then p1 else SetLink(p1, t0, h1');
            Chain(p2, if t0 == NULL then h1' else h0, Part(free, limit, false) + Part(free, limit, true))
  {
    assert free[..|free|] == free;
    PartNoDup(free, limit, false);
    PartNoDup(free, limit, true);
    Close(pages, Part(free, limit, false), Part(free, limit, true), h0, t0, h1, t1);
  }

  // A write through a tail pointer that points at a link.
  method WriteLink(pages: array<PageInfo>, t: int, link: int)
    requires t != NULL ==> 0 <= t < pages.Length
    modifies pages
    ensures pages[..] == if t == NULL then old(pages[..]) else SetLink(old(pages[..]), t, link)
    ensures forall f :: 0 <= f < pages.Length ==> pages[f].refs == old(pages[f].refs)
  {
    if t != NULL { pages[t] := pages[t].(link := link); }
  }

  method LowFirst(pages: array<PageInfo>, head: int, limit: nat, ghost free: seq<nat>) returns (h: int)
    requires Chain(pages[..], head, free) && NoDup(free)
    modifies pages
    ensures Chain(pages[..], h, Part(free, limit, false) + Part(free, limit, true))
    ensures forall f :: 0 <= f < pages.Length ==> pages[f].refs == old(pages[f].refs)
  {
    hide Part, Open, Ahead;
    var pp, pp1, pp2, tp0, tp1 := head, NULL, NULL, NULL, NULL;
    ghost var k := 0;
    StartVisit(pages[..], head, free, limit);
    while pp != NULL
      invariant k <= |free| && pp == (if k == |free| then NULL else free[k])
      invariant Visited(pages[..], free, limit, k, false, pp1, tp0, pp2, tp1)
      invariant forall f :: 0 <= f < pages.Length ==> pages[f].refs == old(pages[f].refs)
      decreases |free| - k
    {
      NextPage(pages[..], free, k);
      if pp / NPTENTRIES >= limit {
        Visit(pages[..], free, limit, k, true, pp2, tp1, pp1, tp0);
        WriteLink(pages, tp1, pp);
        if tp1 == NULL { pp2 := pp; }
        tp1 := pp;
      } else {
        Visit(pages[..], free, limit, k, false, pp1, tp0, pp2, tp1);
        WriteLink(pages, tp0, pp);
        if tp0 == NULL { pp1 := pp; }
        tp0 := pp;
      }
      k := k + 1;
      pp := pages[pp].link;
    }
    FinishVisit(pages[..], free, limit, pp1, tp0, pp2, tp1);
    WriteLink(pages, tp1, NULL);
    if tp1 == NULL { pp2 := NULL; }
    WriteLink(pages, tp0, pp2);
    if tp0 == NULL { pp1 := pp2; }
    h := pp1;
  }
}
