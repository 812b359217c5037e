// kern/pmap.c: the physical page allocator and the two-level page tables, updated in place.
// `pages` is the array of struct PageInfo, `mem` the words of physical memory, a frame at a
// time; `S` is the flat state the two stand for.
module Pmap {
  import opened Mmu
  import opened FlatMemory
  import opened Represents

  const E_NO_MEM := 4

  // A pte_t*: the word `index` of page table `frame`.
  datatype PtePtr = NullPtr | At(frame: nat, index: nat)

  class Machine {
    const pages: array<PageInfo>
    const mem: array<seq<Word>>
    const kern: nat  // the frame of kern_pgdir
    ghost const managed: set<nat>
    var freeList: int
    ghost var S: Flat

    ghost predicate Valid()
      reads this, pages, mem
    {
      Rep(pages[..], mem[..], freeList, S, managed, kern)
    }

    // Between page_init's steps: the frames of `done` and no others are on the list.
    ghost predicate Listed(done: set<nat>)
      reads this, pages
    {
      && Chain(pages[..], freeList, S.free) && Descends(S.free)
      && (forall f :: f in S.free <==> f in done)
      && (forall f :: f in done ==> f < pages.Length)
      && (forall f :: 0 <= f < pages.Length ==> pages[f].refs == 0 && (f !in done ==> pages[f].link == NULL))
      && S == Flat(S.free, {}, {}, map[], map[])
    }

    method ListPage(i: nat, ghost done: set<nat>)
      requires Listed(done) && (forall f :: f in done ==> f < i) && i < pages.Length
      modifies this, pages
      ensures Listed(done + {i})
    {
      ChainPush(pages[..], freeList, S.free, i);
      DescendsPush(S.free, i);
      pages[i] := pages[i].(refs := 0);
      pages[i] := pages[i].(link := freeList);
      assert pages[..] == SetLink(old(pages[..]), i, freeList);
      freeList := i;
      S := S.(free := [i] + S.free);
    }

    // page_init: pages 1 .. base-1, but not MPENTRY's, and low .. npages-1 go on the free list.
    constructor (npages: nat, kern: nat, base: nat, low: nat, memory: seq<seq<Word>>)
      requires 0 < base <= kern < low <= npages <= MAX_FRAMES && MPENTRY_PAGE < low
      requires |memory| == npages && Sized(memory)
      requires forall i :: 0 <= i < UPDES ==> memory[kern][i] == 0
      ensures Valid() && fresh(pages) && fresh(mem) && this.kern == kern
      ensures S.held == {} && S.dirs == {} && S.tables == map[] && S.maps == map[]
      ensures managed == UsableFrames(npages, base, low)
      ensures forall f :: f in S.free <==> (0 < f < base && f != MPENTRY_PAGE) || low <= f < npages
      ensures Descends(S.free) && (forall f :: f in managed <==> f in S.free)
      ensures mem[..] == memory
    {
      this.kern := kern;
      managed := UsableFrames(npages, base, low);
      pages := new PageInfo[npages](i => PageInfo(NULL, 0));
      mem := new seq<Word>[npages](i requires 0 <= i < |memory| => memory[i]);
      freeList := NULL;
      S := Flat([], {}, {}, map[], map[]);
      new;
      assert mem[..] == memory;
      for i := 1 to base
        invariant mem[..] == memory
        invariant Listed(UsableFrames(i, base, low))
      {
        UsableNext(i, base, low);
        if i == MPENTRY_PAGE { continue; }
        ListPage(i, UsableFrames(i, base, low));
      }
      assert UsableFrames(base, base, low) == UsableFrames(low, base, low);
      for i := low to npages
        invariant mem[..] == memory
        invariant Listed(UsableFrames(i, base, low))
      {
        UsableNext(i, base, low);
        ListPage(i, UsableFrames(i, base, low));
      }
      RepEmpty(pages[..], mem[..], freeList, S, managed, kern);
    }

    // page_alloc
    method PageAlloc(zero: bool) returns (f: int)
      requires Valid()
      modifies this, pages, mem
      ensures Valid()
      ensures old(S).free == [] ==> f == NULL && S == old(S) && mem[..] == old(mem[..])
      ensures old(S).free != [] ==> f == old(S).free[0] && f < mem.Length && S == Take(old(S)) &&
                                    mem[..] == if zero then old(mem[..])[f := ZERO_PAGE] else old(mem[..])
    {
      f := freeList;
      if f == NULL {
        assert S.free == [];
        return;
      }
      ghost var pages0, mem0 := pages[..], mem[..];
      assert Linked(pages[..], S.free, 0);
      freeList := pages[f].link;
      pages[f] := pages[f].(link := NULL);
      if zero { mem[f] := ZERO_PAGE; }
      RepTake(pages0, mem0, mem[..], f, S, managed, kern);
      assert pages[..] == SetLink(pages0, f, NULL);
      S := Take(S);
    }

    // page_free; the source panics unless the frame is off the list with no reference.
    method PageFree(f: nat)
      requires Chain(pages[..], freeList, S.free) && f !in S.free
      requires f < pages.Length && pages[f] == PageInfo(NULL, 0)
      modifies this, pages
      ensures S == GiveBack(old(S), f) && freeList == f
      ensures pages[..] == SetLink(old(pages[..]), f, old(freeList)) && Chain(pages[..], freeList, S.free)
    {
      ChainPush(pages[..], freeList, S.free, f);
      pages[f] := pages[f].(link := freeList);
      freeList := f;
      S := GiveBack(S, f);
    }

    // page_decref
    method PageDecref(f: nat)
      requires Chain(pages[..], freeList, S.free) && f !in S.free
      requires f < pages.Length && pages[f].link == NULL && pages[f].refs > 0
      modifies this, pages
      ensures pages[..] == Decref(old(pages[..]), old(freeList), f)
      ensures freeList == if old(pages[f].refs) == 1 then f else old(freeList)
      ensures S == if old(pages[f].refs) == 1 then GiveBack(old(S), f) else old(S)
      ensures Chain(pages[..], freeList, S.free)
    {
      ghost var pages0 := pages[..];
      pages[f] := pages[f].(refs := pages[f].refs - 1);
      assert pages[..] == SetRefs(pages0, f, pages0[f].refs - 1);
      ChainKeep(pages0, pages[..], freeList, S.free);
      if pages[f].refs == 0 { PageFree(f); }
    }

    // A word of memory written and a reference counted; s' is what the machine then stands for.
    method WriteEntry(t: nat, j: nat, w: Word, pp: nat, ghost refs: nat, ghost s': Flat)
      requires t < mem.Length && j < |mem[t]| && pp < pages.Length && pages[pp].refs + 1 == refs < REF_MOD
      requires Rep(SetRefs(pages[..], pp, refs), SetWord(mem[..], t, j, w), freeList, s', managed, kern)
      modifies this`S, pages, mem
      ensures Valid() && S == s'
      ensures mem[..] == SetWord(old(mem[..]), t, j, w)
    {
      ghost var pages', mem' := SetRefs(pages[..], pp, refs), SetWord(mem[..], t, j, w);
      mem[t] := mem[t][j := w];
      pages[pp] := pages[pp].(refs := (pages[pp].refs + 1) % REF_MOD);
      S := s';
      assert pages[..] == pages' && mem[..] == mem';
    }

    // The freshly taken, zeroed frame pp becomes the page table of directory entry i.
    method HangTable(d: nat, i: nat, pp: nat)
      requires Valid() && d in S.dirs && i < UPDES && (d, i) !in S.tables
      requires pp in S.held && pp < mem.Length && mem[pp] == ZERO_PAGE
      modifies this, pages, mem
      ensures Valid() && S == AddTable(old(S), (d, i), pp)
      ensures SameOff(old(mem[..]), mem[..], S.dirs, S.tables)
    {
      hide Rep, Ok;
      RepParts(pages[..], mem[..], freeList, S, managed, kern);
      var w: Word := pp * PGSIZE + TABLE_PERM;
      RepAddTable(pages[..], mem[..], freeList, S, managed, kern, (d, i), pp, w);
      SetWordSameOff(mem[..], S.dirs, S.tables[(d, i) := pp], d, i, w);
      WriteEntry(d, i, w, pp, 1, AddTable(S, (d, i), pp));
    }

    // pgdir_walk
    method PgdirWalk(d: nat, v: nat, create: bool) returns (p: PtePtr)
      requires Valid() && d in S.dirs && v < UPAGES_TOTAL
      modifies this, pages, mem
      ensures Valid()
      ensures TableOf((d, v)) in old(S).tables || !create || old(S).free == [] ==>
                S == old(S) && mem[..] == old(mem[..])
      ensures create && Walk(old(S), (d, v)).Done? ==> S == Walk(old(S), (d, v)).s
      ensures if TableOf((d, v)) in S.tables then p == At(S.tables[TableOf((d, v))], v % NPTENTRIES) else p == NullPtr
      ensures SameOff(old(mem[..]), mem[..], S.dirs, S.tables)
    {
      hide Rep, Ok;
      var i := v / NPTENTRIES;
      ReadPde(pages[..], mem[..], freeList, S, managed, kern, d, i);
      if mem[d][i] % 2 == 0 {
        if !create { return NullPtr; }
        var pp := PageAlloc(true);
        if pp == NULL { return NullPtr; }
        HangTable(d, i, pp);
        ReadPde(pages[..], mem[..], freeList, S, managed, kern, d, i);
      }
      p := At(mem[d][i] / PGSIZE, v % NPTENTRIES);
    }

    // page_lookup: the frame mapped at v, and a pointer to the entry where there is a table.
    method PageLookup(d: nat, v: nat) returns (pp: int, pte: PtePtr)
      requires Valid() && d in S.dirs && v < UPAGES_TOTAL
      modifies this, pages, mem
      ensures Valid() && S == old(S) && mem[..] == old(mem[..])
      ensures pp == if (d, v) in S.maps then S.maps[(d, v)].frame else NULL
      ensures if TableOf((d, v)) in S.tables then pte == At(S.tables[TableOf((d, v))], v % NPTENTRIES)
              else pte == NullPtr
    {
      hide Rep, Ok;
      pte := PgdirWalk(d, v, false);
      if pte == NullPtr {
        RepParts(pages[..], mem[..], freeList, S, managed, kern);
        MappedHasTable(S, managed, (d, v));
        return NULL, pte;
      }
      ReadPte(pages[..], mem[..], freeList, S, managed, kern, (d, v));
      if mem[pte.frame][pte.index] % 2 == 0 { return NULL, pte; }
      pp := mem[pte.frame][pte.index] / PGSIZE;
    }

    // The two writes of page_remove: the reference is dropped, the entry erased.
    method DropEntry(ghost k: Slot, pp: nat, t: nat, j: nat)
      requires Chain(pages[..], freeList, S.free) && pp !in S.free && k in S.maps
      requires pp < pages.Length && pages[pp].link == NULL && pages[pp].refs > 0
      requires t < mem.Length && j < |mem[t]|
      modifies this, pages, mem
      ensures pages[..] == Decref(old(pages[..]), old(freeList), pp)
      ensures freeList == if old(pages[pp].refs) == 1 then pp else old(freeList)
      ensures S == (if old(pages[pp].refs) == 1 then GiveBack(old(S), pp) else old(S)).(maps := old(S).maps - {k})
      ensures mem[..] == SetWord(old(mem[..]), t, j, 0)
    {
      PageDecref(pp);
      mem[t] := mem[t][j := 0];
      S := S.(maps := S.maps - {k});
    }

    // page_remove
    method PageRemove(d: nat, v: nat)
      requires Valid() && d in S.dirs && v < UPAGES_TOTAL
      modifies this, pages, mem
      ensures Valid() && S == Remove(old(S), (d, v))
      ensures SameOff(old(mem[..]), mem[..], S.dirs, S.tables)
    {
      hide Rep, Ok;
      var pp, pte := PageLookup(d, v);
      if pp == NULL { return; }
      RepParts(pages[..], mem[..], freeList, S, managed, kern);
      MappedHasTable(S, managed, (d, v));
      RemoveIsDecref(pages[..], S, managed, (d, v));
      RepRemove(pages[..], mem[..], freeList, S, managed, kern, (d, v));
      SetWordSameOff(mem[..], S.dirs, S.tables, pte.frame, pte.index, 0);
      DropEntry((d, v), pp, pte.frame, pte.index);
    }

    // page_insert; on failure nothing has changed.
    method PageInsert(d: nat, pp: nat, v: nat, perm: nat) returns (r: int)
      requires Valid() && d in S.dirs && v < UPAGES_TOTAL && perm < PGSIZE
      requires Mappable(S, pp) && RefCount(S, pp) + 1 < REF_MOD
      modifies this, pages, mem
      ensures Valid()
      ensures match Insert(old(S), (d, v), pp, perm)
              case NoMem => r == -E_NO_MEM && S == old(S) && mem[..] == old(mem[..])
              case Done(s) => r == 0 && S == s && SameOff(old(mem[..]), mem[..], S.dirs, S.tables)
    {
      hide Rep, Ok;
      ghost var s, mem0, k := S, mem[..], (d, v);
      RepParts(pages[..], mem[..], freeList, S, managed, kern);
      var pte := PgdirWalk(d, v, true);
      if pte == NullPtr { return -E_NO_MEM; }
      ghost var mem1, w := mem[..], S;
      InsertSteps(s, managed, k, pp, perm);
      assert pp < mem.Length by { MappableApart(s, managed, pp); }
      PageRemove(d, v);
      ghost var mem2 := mem[..];
      RepParts(pages[..], mem2, freeList, S, managed, kern);
      if freeList == pp { var _ := PageAlloc(false); }
      assert S == Retake(Remove(w, k), pp);
      FillEntry(k, pte, pp, perm);
      SameOffTrans(mem0, mem1, mem2, w.dirs, w.tables);
      SameOffTrans(mem0, mem2, mem[..], w.dirs, w.tables);
      return 0;
    }

    // The last two writes of page_insert.
    method FillEntry(ghost k: Slot, pte: PtePtr, pp: nat, perm: nat)
      requires Valid() && Mappable(S, pp) && k !in S.maps && perm < PGSIZE && RefCount(S, pp) + 1 < REF_MOD
      requires TableOf(k) in S.tables && pte == At(S.tables[TableOf(k)], k.1 % NPTENTRIES) && pp < MAX_FRAMES
      modifies this, pages, mem
      ensures Valid() && S == AddMap(old(S), k, Pte(pp, Present(perm)))
      ensures SameOff(old(mem[..]), mem[..], S.dirs, S.tables)
    {
      hide Rep, Ok;
      var word := EntryFor(pp, perm);
      ghost var refs := RefCount(S, pp) + 1;
      RepAddMap(pages[..], mem[..], freeList, S, managed, kern, k, pp, refs, Present(perm), pte.frame, pte.index, word);
      SetWordSameOff(mem[..], S.dirs, S.tables, pte.frame, pte.index, word);
      WriteEntry(pte.frame, pte.index, word, pp, refs, AddMap(S, k, Pte(pp, Present(perm))));
    }

    // page2pa(pp) | perm | PTE_P
    function EntryFor(pp: nat, perm: nat): (w: Word)
      requires pp < MAX_FRAMES && perm < PGSIZE
      ensures w == pp * PGSIZE + Present(perm)
    {
      pp * PGSIZE + Present(perm)
    }
  }

  // Each page is in front of those of lower number.
  ghost predicate Descends(free: seq<nat>) {
    forall i, j :: 0 <= i < j < |free| ==> free[i] > free[j]
  }

  lemma DescendsPush(free: seq<nat>, f: nat)
    requires Descends(free) && forall g :: g in free ==> g < f
    ensures Descends([f] + free)
  {
    var more := [f] + free;
    forall i, j | 0 <= i < j < |more| ensures more[i] > more[j] {
      assert more[j] == free[j - 1] && more[j] in free;
      if i > 0 { assert more[i] == free[i - 1]; }
    }
  }

  predicate Usable(f: nat, base: nat, low: nat) {
    f > 0 && f != MPENTRY_PAGE && (f < base || low <= f)
  }

  function UsableFrames(n: nat, base: nat, low: nat): set<nat> {
    set f | 0 <= f < n && Usable(f, base, low)
  }

  lemma UsableNext(n: nat, base: nat, low: nat)
    ensures UsableFrames(n + 1, base, low) == UsableFrames(n, base, low) + if Usable(n, base, low) then {n} else {}
    ensures forall f :: f in UsableFrames(n, base, low) ==> f < n
  {}

  lemma RepEmpty(pages: seq<PageInfo>, mem: seq<seq<Word>>, head: int, s: Flat, managed: set<nat>, kern: nat)
    requires Bounds(pages, mem, managed, kern) && s == Flat(s.free, {}, {}, map[], map[])
    requires Chain(pages, head, s.free) && NoDup(s.free) && forall f :: f in s.free <==> f in managed
    requires forall f :: 0 <= f < |pages| ==> pages[f].refs == 0 && (f !in managed ==> pages[f].link == NULL)
    requires forall i :: 0 <= i < UPDES ==> mem[kern][i] == 0
    ensures Rep(pages, mem, head, s, managed, kern)
  {
    forall f ensures RefCount(s, f) == 0 { Named(s, f); }
  }
}
