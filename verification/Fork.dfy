// lib/fork.c over the kernel: the handler of copy-on-write faults and fork itself are sequences
// of system calls, loads and stores, and implement the transitions of module Cow.
module Forks {
  import opened Basics
  import opened Mmu
  import opened FlatMemory
  import opened Represents
  import opened Hardware
  import opened EnvIds
  import opened EnvTable
  import EnvSpace
  import Syscalls
  import Pmap
  import Cow
  import Upcall
  import Calls
  import opened Kernels

  // ----------------------------------------------------------------- frames left alone

  // Tables and directories of s' were tables, directories or free frames of s.
  ghost predicate GrownFrom(s: Flat, s': Flat) {
    && (forall d :: d in s'.dirs ==> d in s.dirs || d in s.free)
    && (forall k :: k in s'.tables ==> s'.tables[k] in s.tables.Values || s'.tables[k] in s.free)
  }

  // Then writes to them leave the data of every mapped page alone.
  lemma DataKept(s: Flat, s': Flat, managed: set<nat>, mem: seq<Cow.Page>, mem': seq<Cow.Page>)
    requires Ok(s, managed) && GrownFrom(s, s') && SameOff(mem, mem', s'.dirs, s'.tables)
    ensures Cow.SameData(Cow.Vm(s.maps, mem), mem')
  {
    forall k | k in s.maps ensures s.maps[k].frame !in s'.dirs && s.maps[k].frame !in s'.tables.Values {
      var f := s.maps[k].frame;
      Named(s, f);
      assert f !in s.free && f !in s.dirs && f !in s.tables.Values;
    }
  }

  ghost predicate FramesKept(maps: map<Slot, Pte>, maps': map<Slot, Pte>) {
    forall k :: k in maps ==> Cow.Mapped(maps', maps[k].frame)
  }

  lemma DataKeptOn(vm: Cow.Vm, vm': Cow.Vm, mem: seq<Cow.Page>)
    requires Cow.SameData(vm, vm'.mem) && FramesKept(vm.maps, vm'.maps) && Cow.SameData(vm', mem)
    ensures Cow.SameData(vm, mem)
  {}

  // ------------------------------------------------------------ counts from mappings

  // Every frame is mapped fewer than n times.
  ghost predicate Sparse(maps: map<Slot, Pte>, n: nat) {
    forall f :: |PteRefs(maps, f)| < n
  }

  lemma CountOfMapped(s: Flat, managed: set<nat>, f: nat)
    requires Ok(s, managed)
    ensures RefCount(s, f) <= 1 || RefCount(s, f) == |PteRefs(s.maps, f)|
  {
    if PteRefs(s.maps, f) != {} {
      var k :| k in PteRefs(s.maps, f);
      assert forall j :: j in s.tables ==> s.tables[j] != s.maps[k].frame;
      assert PdeRefs(s.tables, f) == {};
    } else if PdeRefs(s.tables, f) != {} {
      var j :| j in PdeRefs(s.tables, f);
      assert PdeRefs(s.tables, f) == {j};
    }
  }

  lemma SparseUncrowded(s: Flat, managed: set<nat>, n: nat)
    requires Ok(s, managed) && Sparse(s.maps, n) && n < REF_MOD
    ensures forall f :: RefCount(s, f) + 1 < REF_MOD
  {
    hide Ok;
    forall f ensures RefCount(s, f) + 1 < REF_MOD { CountOfMapped(s, managed, f); }
  }

  lemma SparseUpdate(maps: map<Slot, Pte>, n: nat, k: Slot, p: Pte)
    requires Sparse(maps, n)
    ensures Sparse(maps[k := p], n + 1)
    ensures !Cow.Mapped(maps, p.frame) && n > 1 ==> Sparse(maps[k := p], n)
  {
    var maps' := maps[k := p];
    forall f ensures |PteRefs(maps', f)| < n + 1
      ensures !Cow.Mapped(maps, p.frame) && n > 1 ==> |PteRefs(maps', f)| < n {
      var refs := PteRefs(maps, f);
      if f == p.frame {
        assert PteRefs(maps', f) <= refs + {k};
        SubsetSize(PteRefs(maps', f), refs + {k});
        if !Cow.Mapped(maps, f) { assert refs == {}; }
      } else {
        assert PteRefs(maps', f) <= refs;
        SubsetSize(PteRefs(maps', f), refs);
      }
    }
  }

  // -------------------------------------------------------- sys_page_alloc and sys_page_map

  lemma InsertGrown(s: Flat, managed: set<nat>, k: Slot, f: nat, perm: nat)
    requires Ok(s, managed) && Mappable(s, f) && k.0 in s.dirs && k.1 < UPAGES_TOTAL && Insert(s, k, f, perm).Done?
    ensures var s' := Insert(s, k, f, perm).s;
            && Ok(s', managed) && s'.maps == s.maps[k := Pte(f, Present(perm))] && s'.dirs == s.dirs
            && GrownFrom(s, s') && TableOf(k) in s'.tables && (forall j :: j in s.tables ==> j in s'.tables)
            && |s'.free| >= |s.free| - (if TableOf(k) in s.tables then 0 else 1)
  {
    EnvSpace.InsertOk(s, managed, k, f, perm);
  }

  // The frame page_alloc takes is mapped nowhere and can be inserted.
  lemma FreeFrame(s: Flat, managed: set<nat>)
    requires Ok(s, managed) && s.free != []
    ensures s.free[0] in s.free && !Cow.Mapped(s.maps, s.free[0])
    ensures Ok(Take(s), managed) && Mappable(Take(s), s.free[0]) && forall g :: g in Take(s).free ==> g in s.free
  {
    assert s.free[0] in s.free;
    TakenFrame(s, managed);
    Named(s, s.free[0]);
    assert RefCount(s, s.free[0]) == 0;
  }

  // The memory of a successful sys_page_alloc of page k; it fails only for want of memory.
  lemma AllocEffect(s: Flat, managed: set<nat>, k: Slot, perm: nat)
    requires Ok(s, managed) && k.0 in s.dirs && k.1 < UPAGES_TOTAL && s.free != []
    ensures s.free[0] in s.free && !Cow.Mapped(s.maps, s.free[0])
    ensures Insert(Take(s), k, s.free[0], perm).NoMem? ==> |s.free| == 1
    ensures Insert(Take(s), k, s.free[0], perm).Done? ==>
            var s' := Insert(Take(s), k, s.free[0], perm).s;
            && Ok(s', managed) && s'.maps == s.maps[k := Pte(s.free[0], Present(perm))] && s'.dirs == s.dirs
            && GrownFrom(s, s') && TableOf(k) in s'.tables && (forall j :: j in s.tables ==> j in s'.tables)
            && |s'.free| >= |s.free| - 2
  {
    FreeFrame(s, managed);
    InsertFails(Take(s), k, s.free[0], perm);
    hide Ok, Mappable, Cow.Mapped, Insert, GrownFrom;
    if Insert(Take(s), k, s.free[0], perm).Done? {
      InsertGrown(Take(s), managed, k, s.free[0], perm);
      GrownTake(s, Insert(Take(s), k, s.free[0], perm).s);
    }
  }

  lemma InsertFails(s: Flat, k: Slot, f: nat, perm: nat)
    ensures Insert(s, k, f, perm).NoMem? ==> s.free == []
  {}

  lemma GrownTake(s: Flat, s': Flat)
    requires s.free != [] && GrownFrom(Take(s), s')
    ensures GrownFrom(s, s')
  {
    assert forall f :: f in Take(s).free ==> f in s.free;
  }

  // ------------------------------------------------------------ user loads and stores

  lemma RepData(pages: seq<PageInfo>, mem: seq<seq<Word>>, head: int, s: Flat, managed: set<nat>, kern: nat, k: Slot,
                page: seq<Word>)
    requires Rep(pages, mem, head, s, managed, kern) && k in s.maps && |page| == NPTENTRIES
    ensures s.maps[k].frame < |mem| && |mem[s.maps[k].frame]| == NPTENTRIES
    ensures Rep(pages, mem[s.maps[k].frame := page], head, s, managed, kern)
  {
    assert s.maps[k].frame in managed;
    hide Counts, Chain;
    WordsOffTables(mem, s, kern, s.maps[k].frame, page);
  }

  // A store instruction; r tells whether it took effect or faulted.
  method StoreUser(m: Pmap.Machine, d: nat, va: nat, w: Word) returns (done: bool)
    requires m.Valid() && d in m.S.dirs && va < UTOP
    modifies m.mem
    ensures m.Valid()
    ensures done <==> (d, va / PGSIZE) in m.S.maps && Cow.Writable(m.S.maps[(d, va / PGSIZE)])
    ensures !done ==> m.mem[..] == old(m.mem[..])
    ensures done ==> Cow.StoreStep(Cow.Vm(m.S.maps, old(m.mem[..])), Cow.Vm(m.S.maps, m.mem[..]),
                                   (d, va / PGSIZE), va % PGSIZE / 4, w)
  {
    hide Rep, Ok;
    ghost var k := (d, va / PGSIZE);
    RepParts(m.pages[..], m.mem[..], m.freeList, m.S, m.managed, m.kern);
    UserWalk(m.pages[..], m.mem[..], m.freeList, m.S, m.managed, m.kern, d, va);
    match Walk32(m.mem[..], d, va)
    case Fault => return false;
    case Leaf(f, perm) =>
      if !Has(perm, PTE_W) { return false; }
      var i := va % PGSIZE / 4;
      MappedFrame(m.pages[..], m.mem[..], m.freeList, m.S, m.managed, m.kern, k);
      var page: Cow.Page := m.mem[f][i := w];
      RepData(m.pages[..], m.mem[..], m.freeList, m.S, m.managed, m.kern, k, page);
      m.mem[f] := page;
      assert m.mem[..] == old(m.mem[..])[f := page];
      return true;
  }

  // A load of a mapped page.
  lemma LoadUser(pages: seq<PageInfo>, mem: seq<seq<Word>>, head: int, s: Flat, managed: set<nat>, kern: nat, d: nat,
                 va: nat)
    requires Rep(pages, mem, head, s, managed, kern) && d in s.dirs && va < UTOP && (d, va / PGSIZE) in s.maps
    ensures var f := s.maps[(d, va / PGSIZE)].frame;
            f < |mem| && |mem[f]| == NPTENTRIES && Load32(mem, d, va) == mem[f][va % PGSIZE / 4]
  {
    hide Ok, Chain, Counts;
    UserWalk(pages, mem, head, s, managed, kern, d, va);
    MappedFrame(pages, mem, head, s, managed, kern, (d, va / PGSIZE));
  }

  lemma MappedFrame(pages: seq<PageInfo>, mem: seq<seq<Word>>, head: int, s: Flat, managed: set<nat>, kern: nat,
                    k: Slot)
    requires Rep(pages, mem, head, s, managed, kern) && k in s.maps
    ensures s.maps[k].frame < |mem| && |mem[s.maps[k].frame]| == NPTENTRIES
  {}

  lemma PageAddress(v: nat, i: nat)
    requires v < UPAGES_TOTAL && i < NPTENTRIES
    ensures var va := v * PGSIZE + 4 * i; va < UTOP && va / PGSIZE == v && va % PGSIZE / 4 == i
  {}

  // ------------------------------------------------------------------ the system calls

  // What a call that maps a page leaves alone.
  ghost predicate Grew(k: KState, k': KState) {
    && k'.envs == k.envs && k'.free == k.free && k'.mem.dirs == k.mem.dirs && GrownFrom(k.mem, k'.mem)
    && (forall j :: j in k.mem.tables ==> j in k'.mem.tables)
  }

  lemma GrewSelf(k: KState)
    ensures Grew(k, k)
  {}

  lemma PageVa(v: nat)
    requires v < UPAGES_TOTAL
    ensures !Syscalls.VaBad(v * PGSIZE) && Syscalls.PageOf(v * PGSIZE) == v
  {}

  // For the environment in slot cur, envid names one with page directory d.
  ghost predicate Names(envs: seq<Env>, cur: nat, envid: int, d: nat) {
    |envs| == NENV && cur < NENV &&
    var e := Resolve(envs, cur, envid, true); 0 <= e < NENV && envs[e].status != ENV_FREE && envs[e].pgdir == d
  }

  lemma NamesDir(k: KState, cur: nat, envid: int, d: nat)
    requires TableOk(k) && Names(k.envs, cur, envid, d)
    ensures d in k.mem.dirs
  {}

  lemma AllocCall(k: KState, managed: set<nat>, cur: nat, envid: int, at: Slot, perm: nat)
    requires Syscalls.Good(k, managed) && Names(k.envs, cur, envid, at.0) && at.1 < UPAGES_TOTAL
    requires Syscalls.PermOk(perm) && perm % 2 == 1
    ensures var o := Syscalls.PageAlloc(k, cur, envid, at.1 * PGSIZE, perm);
            && (o.r < 0 ==> o.k == k && |k.mem.free| <= 1)
            && (o.r >= 0 ==>
                  && o.r == 0 && k.mem.free != [] && Grew(k, o.k) && !Cow.Mapped(k.mem.maps, k.mem.free[0])
                  && |o.k.mem.free| >= |k.mem.free| - 2
                  && o.k.mem.maps == k.mem.maps[at := Pte(k.mem.free[0], perm)])
  {
    NamesDir(k, cur, envid, at.0);
    PageVa(at.1);
    hide Syscalls.VaBad, Syscalls.PageOf, Ok, TableOk, GrownFrom, Cow.Mapped, Resolve;
    if k.mem.free != [] { AllocEffect(k.mem, managed, at, perm); }
  }

  lemma MapCall(k: KState, managed: set<nat>, cur: nat, srcid: int, from: Slot, dstid: int, to: Slot, perm: nat)
    requires Syscalls.Good(k, managed) && from.1 < UPAGES_TOTAL && to.1 < UPAGES_TOTAL
    requires Names(k.envs, cur, srcid, from.0) && Names(k.envs, cur, dstid, to.0)
    requires Syscalls.PermOk(perm) && perm % 2 == 1 && Syscalls.Shareable(k.mem, from, perm)
    ensures var o := Syscalls.PageMap(k, cur, srcid, from.1 * PGSIZE, dstid, to.1 * PGSIZE, perm);
            && (o.r < 0 ==> o.k == k && k.mem.free == [] && TableOf(to) !in k.mem.tables)
            && (o.r >= 0 ==>
                 o.r == 0 && Grew(k, o.k) && o.k.mem.maps == k.mem.maps[to := Pte(k.mem.maps[from].frame, perm)])
            && (o.r >= 0 && TableOf(to) in k.mem.tables ==> |o.k.mem.free| >= |k.mem.free|)
  {
    NamesDir(k, cur, dstid, to.0);
    PageVa(from.1);
    PageVa(to.1);
    Syscalls.MappedMappable(k.mem, from);
    FinishMap(k, managed, to, k.mem.maps[from].frame, perm);
    hide Syscalls.VaBad, Syscalls.PageOf, Syscalls.PermOk, Ok, TableOk, Grew, Insert, Resolve;
  }

  lemma FinishMap(k: KState, managed: set<nat>, to: Slot, f: nat, perm: nat)
    requires Ok(k.mem, managed) && Mappable(k.mem, f) && to.0 in k.mem.dirs && to.1 < UPAGES_TOTAL && perm % 2 == 1
    ensures var o := Syscalls.Finish(k, Insert(k.mem, to, f, perm));
            && (o.r < 0 ==> o.k == k && k.mem.free == [] && TableOf(to) !in k.mem.tables)
            && (o.r >= 0 ==> o.r == 0 && Grew(k, o.k) && o.k.mem.maps == k.mem.maps[to := Pte(f, perm)])
            && (o.r >= 0 && TableOf(to) in k.mem.tables ==> |o.k.mem.free| >= |k.mem.free|)
  {
    hide Ok, GrownFrom;
    if Insert(k.mem, to, f, perm).Done? { InsertGrown(k.mem, managed, to, f, perm); }
  }

  ghost function VmOf(k: Kernel): Cow.Vm
    reads k, k.m, k.m.mem
  {
    Cow.Vm(k.m.S.maps, k.m.mem[..])
  }

  ghost function StOf(k: Kernel, faults: map<nat, Cow.Phase>): Cow.State
    reads k, k.m, k.m.mem
  {
    Cow.State(VmOf(k), faults)
  }

  // The call changes mappings and page tables; data of mapped pages, environments and ids stay.
  twostate predicate Quiet(k: Kernel)
    reads k, k.envs, k.m, k.m.mem
  {
    Grew(old(k.K()), k.K()) && Cow.SameData(old(VmOf(k)), k.m.mem[..])
  }

  lemma ValidGood(k: Kernel)
    requires k.Valid()
    ensures Syscalls.Good(k.K(), k.m.managed)
  {
    RepParts(k.m.pages[..], k.m.mem[..], k.m.freeList, k.m.S, k.m.managed, k.m.kern);
  }

  // sys_page_alloc for a page the caller may map.  A private writable page is the Alloc step of Cow
  // if no handler is at work in that environment, and a failure changes page tables at most.
  method AllocPage(k: Kernel, cur: nat, envid: int, ghost d: nat, v: nat, perm: nat, ghost faults: map<nat, Cow.Phase>)
      returns (r: int)
    requires k.Valid() && Live(k.K(), cur) && v < UPAGES_TOTAL && Names(k.envs[..], cur, envid, d)
    requires perm < PGSIZE && Syscalls.PermOk(perm) && perm % 2 == 1
    modifies k.m, k.m.pages, k.m.mem
    ensures k.Valid() && Quiet(k)
    ensures r < 0 ==> k.m.S == old(k.m.S) && |k.m.S.free| <= 1
    ensures r >= 0 ==> r == 0 && old(k.m.S.free) != [] && !Cow.Mapped(old(k.m.S.maps), old(k.m.S.free)[0])
    ensures r >= 0 ==>
              k.m.S.maps == old(k.m.S.maps)[(d, v) := Pte(old(k.m.S.free)[0], perm)]
              && |k.m.S.free| >= |old(k.m.S.free)| - 2
    ensures r < 0 ==> Cow.CStep(old(StOf(k, faults)), Cow.Elsewhere, StOf(k, faults), Cow.Silent)
    ensures r >= 0 ==> old(k.m.S.free)[0] < k.m.mem.Length && |k.m.mem[old(k.m.S.free)[0]]| == NPTENTRIES
    ensures r >= 0 ==> k.m.mem[old(k.m.S.free)[0]] == old(k.m.mem[..])[old(k.m.S.free)[0]]
    ensures r >= 0 && perm == Cow.RW && v != PFTEMP_PAGE && d !in faults ==>
              Cow.CStep(old(StOf(k, faults)), Cow.Alloc((d, v), k.m.mem[old(k.m.S.free)[0]]), StOf(k, faults), Cow.Fine)
  {
    hide Rep, Ok, TableOk, Resolve, GrownFrom, SameOff, Names, Syscalls.PageAlloc, Cow.CStep, Cow.Mapped, Cow.SameData;
    ghost var st0 := StOf(k, faults);
    ghost var k0, mem0 := k.K(), k.m.mem[..];
    ValidGood(k);
    AllocCall(k0, k.m.managed, cur, envid, (d, v), perm);
    r := k.SysPageAlloc(cur, envid, v * PGSIZE, perm);
    GrewSelf(k0);
    assert Grew(k0, k.K());
    DataKept(k0.mem, k.m.S, k.m.managed, mem0, k.m.mem[..]);
    if r < 0 {
      Cow.ElsewhereIsStep(st0, StOf(k, faults));
    } else {
      MappedFrame(k.m.pages[..], k.m.mem[..], k.m.freeList, k.m.S, k.m.managed, k.m.kern, (d, v));
      ValidGood(k);
      MappedApart(k.m.S, k.m.managed, mem0, k.m.mem[..], (d, v));
      if perm == Cow.RW && v != PFTEMP_PAGE && d !in faults { AllocIsStep(st0, StOf(k, faults), (d, v)); }
    }
  }

  // A call leaves the words of a mapped frame alone.
  lemma MappedApart(s: Flat, managed: set<nat>, mem: seq<Cow.Page>, mem': seq<Cow.Page>, k: Slot)
    requires Ok(s, managed) && k in s.maps && SameOff(mem, mem', s.dirs, s.tables) && s.maps[k].frame < |mem|
    ensures |mem'| == |mem| && mem'[s.maps[k].frame] == mem[s.maps[k].frame]
  {}

  lemma AllocIsStep(st: Cow.State, st': Cow.State, k: Slot)
    requires k in st'.vm.maps && k.0 !in st.faults && k.1 != PFTEMP_PAGE && st'.faults == st.faults
    requires !Cow.Mapped(st.vm.maps, st'.vm.maps[k].frame)
    requires st'.vm.maps == st.vm.maps[k := Pte(st'.vm.maps[k].frame, Cow.RW)]
    requires Cow.SameData(st.vm, st'.vm.mem) && st'.vm.maps[k].frame < |st'.vm.mem|
    requires |st'.vm.mem[st'.vm.maps[k].frame]| == NPTENTRIES
    ensures Cow.CStep(st, Cow.Alloc(k, st'.vm.mem[st'.vm.maps[k].frame]), st', Cow.Fine)
  {
    Cow.FewerData(st.vm, st.vm.maps - {k}, st'.vm.mem);
    hide Cow.Mapped, Cow.SameData;
  }

  method MapPage(k: Kernel, cur: nat, srcid: int, ghost sd: nat, sv: nat, dstid: int, ghost dd: nat, dv: nat, perm: nat)
      returns (r: int)
    requires k.Valid() && Live(k.K(), cur) && k.Uncrowded() && sv < UPAGES_TOTAL && dv < UPAGES_TOTAL
    requires Names(k.envs[..], cur, srcid, sd) && Names(k.envs[..], cur, dstid, dd)
    requires perm < PGSIZE && Syscalls.PermOk(perm) && perm % 2 == 1 && Syscalls.Shareable(k.m.S, (sd, sv), perm)
    modifies k.m, k.m.pages, k.m.mem
    ensures k.Valid() && Quiet(k)
    ensures r < 0 ==> k.m.S == old(k.m.S) && k.m.S.free == [] && TableOf((dd, dv)) !in k.m.S.tables
    ensures r >= 0 ==> r == 0 && k.m.S.maps == old(k.m.S.maps)[(dd, dv) := Pte(old(k.m.S.maps)[(sd, sv)].frame, perm)]
    ensures r >= 0 && TableOf((dd, dv)) in old(k.m.S.tables) ==> |k.m.S.free| >= |old(k.m.S.free)|
  {
    hide Rep, Ok, TableOk, Resolve, GrownFrom, SameOff, Names, Syscalls.PageMap, Syscalls.Shareable;
    ghost var k0, mem0 := k.K(), k.m.mem[..];
    ValidGood(k);
    MapCall(k0, k.m.managed, cur, srcid, (sd, sv), dstid, (dd, dv), perm);
    ShareMapped(k.m.S, (sd, sv), perm);
    r := k.SysPageMap(cur, srcid, sv * PGSIZE, dstid, dv * PGSIZE, perm);
    GrewSelf(k0);
    assert Grew(k0, k.K());
    DataKept(k0.mem, k.m.S, k.m.managed, mem0, k.m.mem[..]);
  }

  lemma ShareMapped(s: Flat, from: Slot, perm: nat)
    requires Syscalls.Shareable(s, from, perm)
    ensures from in s.maps
  {}

  // sys_page_unmap of a page of an environment the caller may name.
  method UnmapPage(k: Kernel, cur: nat, envid: int, ghost d: nat, v: nat, ghost faults: map<nat, Cow.Phase>)
    requires k.Valid() && Live(k.K(), cur) && v < UPAGES_TOTAL && Names(k.envs[..], cur, envid, d)
    modifies k.m, k.m.pages, k.m.mem
    ensures k.Valid() && k.K().envs == old(k.K().envs) && k.K().free == old(k.K().free)
    ensures Cow.SameData(old(VmOf(k)), k.m.mem[..]) && k.m.S.maps == old(k.m.S.maps) - {(d, v)}
    ensures |k.m.S.free| >= |old(k.m.S.free)| && k.m.S == Remove(old(k.m.S), (d, v))
    ensures d !in faults && v != PFTEMP_PAGE ==>
              Cow.CStep(old(StOf(k, faults)), Cow.Unmap((d, v)), StOf(k, faults), Cow.Fine)
  {
    hide Rep, Ok, TableOk, SameOff, Cow.SameData, Resolve;
    ghost var k0, mem0 := k.K(), k.m.mem[..];
    ValidGood(k);
    PageVa(v);
    EnvSpace.RemoveMaps(k0.mem, (d, v));
    var _ := k.SysPageUnmap(cur, envid, v * PGSIZE);
    DataKept(k0.mem, k.m.S, k.m.managed, mem0, k.m.mem[..]);
  }

  // sys_page_alloc after sys_page_unmap: a page that only v named is the new page at u, with the words it had.
  method Reuse(k: Kernel, cur: nat, envid: int, ghost d: nat, v: nat, u: nat) returns (r: int)
    requires k.Valid() && Live(k.K(), cur) && v < UPAGES_TOTAL && u < UPAGES_TOTAL && Names(k.envs[..], cur, envid, d)
    requires (d, v) in k.m.S.maps && LastMap(k.m.S, (d, v))
    modifies k.m, k.m.pages, k.m.mem
    ensures k.Valid()
    ensures var f := old(k.m.S.maps)[(d, v)].frame;
            r == 0 ==> k.m.S.maps == (old(k.m.S.maps) - {(d, v)})[(d, u) := Pte(f, Cow.RW)]
                       && f < k.m.mem.Length && k.m.mem[f] == old(k.m.mem[..])[f]
  {
    hide Rep, Ok, TableOk, Resolve, Cow.CStep, Cow.Mapped, Names, Grew;
    ghost var s, mem := k.m.S, k.m.mem[..];
    ghost var f := s.maps[(d, v)].frame;
    ValidGood(k);
    MappedFrame(k.m.pages[..], k.m.mem[..], k.m.freeList, s, k.m.managed, k.m.kern, (d, v));
    RemoveFrees(s, k.m.managed, (d, v));
    UnmapPage(k, cur, envid, d, v, map[]);
    hide Remove;
    assert k.m.S.free[0] == f && k.m.mem[..][f] == mem[f];
    RwOk();
    r := AllocPage(k, cur, envid, d, u, Cow.RW, map[]);
  }

  // env_free of any environment, one inside pgfault too.
  method Release(k: Kernel, e: nat, ghost faults: map<nat, Cow.Phase>)
    requires k.Valid() && Live(k.K(), e)
    modifies k, k.envs, k.m, k.m.pages, k.m.mem
    ensures k.Valid() && k.K() == EnvTable.ReleaseEnv(old(k.K()), e)
    ensures var d := old(k.envs[e].pgdir);
            Cow.CStep(old(StOf(k, faults)), Cow.Exit(d), StOf(k, faults - {d}), Cow.Fine)
  {
    hide Rep, Ok, FreeSlots, SlotIds, OwnDirs, EnvChain, SameOff, Cow.SameData;
    ghost var k0, mem0, d := k.K(), k.m.mem[..], k.envs[e].pgdir;
    ValidGood(k);
    LiveHasDir(k0, e);
    EnvSpace.FreeEnvEffect(k0.mem, k.m.managed, d);
    k.ReleaseEnv(e);
    DataKept(k0.mem, k0.mem, k.m.managed, mem0, k.m.mem[..]);
  }

  // sys_env_destroy is that Exit, or leaves memory alone.
  method Destroy(k: Kernel, cur: nat, envid: int, ghost faults: map<nat, Cow.Phase>)
      returns (r: int, ghost act: Cow.Act, ghost out: Cow.Out)
    requires k.Valid() && Live(k.K(), cur)
    modifies k, k.envs, k.m, k.m.pages, k.m.mem
    ensures k.Valid() && Outcome(k.K(), r) == Syscalls.Destroy(old(k.K()), cur, envid)
    ensures Cow.CStep(old(StOf(k, faults)), act, StOf(k, if act.Exit? then faults - {act.e} else faults), out)
    ensures var e := Resolve(old(k.envs[..]), cur, envid, true);
            && (act.Exit? || act.Elsewhere?)
            && (act.Exit? <==> 0 <= e < NENV && !(old(k.envs[..])[e].status == ENV_RUNNING && e != cur))
            && (act.Exit? ==> act.e == old(k.envs[..])[e].pgdir)
  {
    hide Rep, Ok, FreeSlots, SlotIds, OwnDirs, EnvChain, SameOff, Cow.SameData, Cow.CStep;
    ghost var k0, mem0, st0 := k.K(), k.m.mem[..], StOf(k, faults);
    ghost var e := Resolve(k.envs[..], cur, envid, true);
    ValidGood(k);
    Syscalls.ResolveLive(k0, cur, envid, true);
    hide Resolve;
    if e >= 0 {
      LiveHasDir(k0, e);
      EnvSpace.FreeEnvEffect(k0.mem, k.m.managed, k0.envs[e].pgdir);
    }
    r := k.SysEnvDestroy(cur, envid);
    DataKept(k0.mem, k0.mem, k.m.managed, mem0, k.m.mem[..]);
    if e >= 0 && !(k0.envs[e].status == ENV_RUNNING && e != cur) {
      act, out := Cow.Exit(k0.envs[e].pgdir), Cow.Fine;
      ExitIsStep(st0, StOf(k, faults - {act.e}), act.e);
    } else {
      act, out := Cow.Elsewhere, Cow.Silent;
      Cow.ElsewhereIsStep(st0, StOf(k, faults));
    }
  }

  lemma ExitIsStep(st: Cow.State, st': Cow.State, d: nat)
    requires st'.vm.maps == Cow.WithoutEnv(st.vm.maps, d) && Cow.SameData(st.vm, st'.vm.mem)
    requires st'.faults == st.faults - {d}
    ensures Cow.CStep(st, Cow.Exit(d), st', Cow.Fine)
  {}

  // sys_exofork fills a directory, which nobody maps.
  method Exofork(k: Kernel, cur: nat, ghost faults: map<nat, Cow.Phase>) returns (r: int)
    requires k.Valid() && Live(k.K(), cur)
    modifies k, k.envs, k.m, k.m.pages, k.m.mem
    ensures k.Valid() && (old(k.free) != [] ==> old(k.free)[0] < NENV)
    ensures Outcome(k.K(), r) == Syscalls.Exofork(old(k.K()), cur)
    ensures Cow.SameData(old(VmOf(k)), k.m.mem[..])
    ensures Cow.CStep(old(StOf(k, faults)), Cow.Elsewhere, StOf(k, faults), Cow.Silent)
  {
    hide Rep, Ok, FreeSlots, SlotIds, OwnDirs, EnvChain, SameOff, Resolve, Syscalls.Exofork, Cow.SameData, Cow.CStep;
    hide GrownFrom;
    ghost var k0, mem0, st0 := k.K(), k.m.mem[..], StOf(k, faults);
    ValidGood(k);
    r := k.SysExofork(cur);
    ExoforkEffect(k0, k.m.managed, cur);
    GrewSelf(k0);
    DataKept(k0.mem, k.m.S, k.m.managed, mem0, k.m.mem[..]);
    Cow.ElsewhereIsStep(st0, StOf(k, faults));
  }

  // --------------------------------------------------------------------------- pgfault

  const FEC_WR := 2

  // Done, a panic, or a fault of the handler itself when it reads a page table that is not there.
  datatype Handled = Remapped | Panicked | Nested

  lemma MappedPerm(pages: seq<PageInfo>, mem: seq<seq<Word>>, head: int, s: Flat, managed: set<nat>, kern: nat, k: Slot)
    requires Rep(pages, mem, head, s, managed, kern)
    ensures k in s.maps ==> s.maps[k].perm < PGSIZE && TableOf(k) in s.tables
  {}

  // ---- the calls of pgfault, each a step of module Cow whatever ran before it

  // sys_page_alloc(0, PFTEMP, ...)
  method BeginFault(k: Kernel, cur: nat)
    requires k.Valid() && Live(k.K(), cur) && |k.m.S.free| >= 2 && Cow.Tmp(k.envs[cur].pgdir) !in k.m.S.maps
    modifies k.m, k.m.pages, k.m.mem
    ensures k.Valid() && k.K().envs == old(k.K().envs) && k.K().free == old(k.K().free)
    ensures Cow.FreshTemp(old(VmOf(k)), VmOf(k), k.envs[cur].pgdir)
    ensures (forall j :: j in old(k.m.S.tables) ==> j in k.m.S.tables) && |k.m.S.free| >= |old(k.m.S.free)| - 2
  {
    hide Rep, Ok, TableOk, EnvChain, GrownFrom, Names, Cow.SameData, Cow.Mapped, Resolve, Syscalls.PermOk;
    ghost var d, vm0 := k.envs[cur].pgdir, VmOf(k);
    SelfNames(k.K(), cur);
    RwOk();
    var r := AllocPage(k, cur, 0, d, PFTEMP_PAGE, Cow.RW, map[]);
    MappedFrame(k.m.pages[..], k.m.mem[..], k.m.freeList, k.m.S, k.m.managed, k.m.kern, Cow.Tmp(d));
    Cow.FewerData(vm0, vm0.maps - {Cow.Tmp(d)}, k.m.mem[..]);
  }

  // One word of memmove(PFTEMP, pg_addr, PGSIZE)
  method CopyOneWord(m: Pmap.Machine, d: nat, v: nat, n: nat)
    requires m.Valid() && d in m.S.dirs && v < UPAGES_TOTAL && n < NPTENTRIES
    requires Cow.Tmp(d) in m.S.maps && (d, v) in m.S.maps && Cow.Writable(m.S.maps[Cow.Tmp(d)])
    modifies m.mem
    ensures m.Valid() && Cow.CopyStep(Cow.Vm(m.S.maps, old(m.mem[..])), Cow.Vm(m.S.maps, m.mem[..]), d, v, n)
  {
    hide Rep, Ok;
    PageAddress(v, n);
    PageAddress(PFTEMP_PAGE, n);
    MappedFrame(m.pages[..], m.mem[..], m.freeList, m.S, m.managed, m.kern, Cow.Tmp(d));
    RepParts(m.pages[..], m.mem[..], m.freeList, m.S, m.managed, m.kern);
    LoadUser(m.pages[..], m.mem[..], m.freeList, m.S, m.managed, m.kern, d, v * PGSIZE + 4 * n);
    var w := Load32(m.mem[..], d, v * PGSIZE + 4 * n);
    var done := StoreUser(m, d, PFTEMP_PAGE * PGSIZE + 4 * n, w);
  }

  // sys_page_map(0, PFTEMP, 0, pg_addr, ...)
  method RemapFault(k: Kernel, cur: nat, v: nat)
    requires k.Valid() && Live(k.K(), cur) && v < UPAGES_TOTAL && k.Uncrowded()
    requires Cow.Tmp(k.envs[cur].pgdir) in k.m.S.maps && Cow.Writable(k.m.S.maps[Cow.Tmp(k.envs[cur].pgdir)])
    requires (k.envs[cur].pgdir, v) in k.m.S.maps
    modifies k.m, k.m.pages, k.m.mem
    ensures k.Valid() && k.K().envs == old(k.K().envs) && k.K().free == old(k.K().free)
    ensures Cow.RemapStep(old(VmOf(k)), VmOf(k), k.envs[cur].pgdir, v) && |k.m.S.free| >= |old(k.m.S.free)|
  {
    hide Rep, Ok, TableOk, EnvChain, GrownFrom, Names, Cow.SameData, Resolve, Syscalls.PermOk;
    ghost var d, vm0 := k.envs[cur].pgdir, VmOf(k);
    SelfNames(k.K(), cur);
    RwOk();
    MappedPerm(k.m.pages[..], k.m.mem[..], k.m.freeList, k.m.S, k.m.managed, k.m.kern, (d, v));
    var r := MapPage(k, cur, 0, d, PFTEMP_PAGE, 0, d, v, Cow.RW);
    Cow.FewerData(vm0, vm0.maps - {(d, v)}, k.m.mem[..]);
  }

  // sys_page_unmap(0, PFTEMP)
  method DropFault(k: Kernel, cur: nat)
    requires k.Valid() && Live(k.K(), cur)
    modifies k.m, k.m.pages, k.m.mem
    ensures k.Valid() && k.K().envs == old(k.K().envs) && k.K().free == old(k.K().free)
    ensures Cow.DropStep(old(VmOf(k)), VmOf(k), k.envs[cur].pgdir) && |k.m.S.free| >= |old(k.m.S.free)|
  {
    hide Cow.SameData, TableOk, EnvChain;
    ghost var d, vm0 := k.envs[cur].pgdir, VmOf(k);
    SelfNames(k.K(), cur);
    UnmapPage(k, cur, 0, d, PFTEMP_PAGE, map[]);
    Cow.FewerData(vm0, vm0.maps - {Cow.Tmp(d)}, k.m.mem[..]);
  }

  lemma RwOk()
    ensures Syscalls.PermOk(Cow.RW)
  {}

  lemma Unmapped(maps: map<Slot, Pte>, f: nat)
    requires !Cow.Mapped(maps, f)
    ensures forall k :: k in maps ==> maps[k].frame != f
  {}

  lemma SelfNames(k: KState, cur: nat)
    requires TableOk(k) && Live(k, cur)
    ensures Names(k.envs, cur, 0, k.envs[cur].pgdir)
  {}

  // memmove(PFTEMP, pg_addr, PGSIZE), a run of CopyWord steps.
  method Memmove(m: Pmap.Machine, d: nat, v: nat, ghost st0: Cow.State, ghost acts0: seq<Cow.Act>,
                 ghost faults: map<nat, Cow.Phase>)
    requires m.Valid() && d in m.S.dirs && v < UPAGES_TOTAL
    requires Cow.Tmp(d) in m.S.maps && (d, v) in m.S.maps && Cow.Writable(m.S.maps[Cow.Tmp(d)])
    requires m.S.maps[Cow.Tmp(d)].frame != m.S.maps[(d, v)].frame
    requires Cow.Run(st0, acts0, Cow.AllSilent(|acts0|),
                     Cow.State(Cow.Vm(m.S.maps, m.mem[..]), faults[d := Cow.Copying(v, 0)]))
    modifies m.mem
    ensures m.Valid() && m.S.maps[Cow.Tmp(d)].frame < m.mem.Length && m.S.maps[(d, v)].frame < m.mem.Length
    ensures m.mem[..] == old(m.mem[..])[m.S.maps[Cow.Tmp(d)].frame := old(m.mem[..])[m.S.maps[(d, v)].frame]]
    ensures var acts := acts0 + Cow.Copies(d, NPTENTRIES);
            Cow.Run(st0, acts, Cow.AllSilent(|acts|),
                    Cow.State(Cow.Vm(m.S.maps, m.mem[..]), faults[d := Cow.Copying(v, NPTENTRIES)]))
  {
    hide Rep, Ok, Cow.Run, Cow.CStep, Cow.AllSilent;
    ghost var mem0, t, f := m.mem[..], m.S.maps[Cow.Tmp(d)].frame, m.S.maps[(d, v)].frame;
    MappedFrame(m.pages[..], m.mem[..], m.freeList, m.S, m.managed, m.kern, Cow.Tmp(d));
    MappedFrame(m.pages[..], m.mem[..], m.freeList, m.S, m.managed, m.kern, (d, v));
    CopiedSoFar(mem0, t, f, 0);
    assert acts0 + Cow.Copies(d, 0) == acts0;
    for n := 0 to NPTENTRIES
      invariant m.Valid() && m.mem[..] == CopiedMem(mem0, t, f, n)
      invariant var acts := acts0 + Cow.Copies(d, n);
                Cow.Run(st0, acts, Cow.AllSilent(|acts|),
                        Cow.State(Cow.Vm(m.S.maps, m.mem[..]), faults[d := Cow.Copying(v, n)]))
    {
      ghost var st := Cow.State(Cow.Vm(m.S.maps, m.mem[..]), faults[d := Cow.Copying(v, n)]);
      CopyOneWord(m, d, v, n);
      ghost var st' := Cow.State(Cow.Vm(m.S.maps, m.mem[..]), faults[d := Cow.Copying(v, n + 1)]);
      CopiedSoFar(mem0, t, f, n);
      hide CopiedMem;
      CopyIsStep(st, st', d, v, n);
      Cow.SilentStep(st0, acts0 + Cow.Copies(d, n), st, Cow.CopyWord(d), st');
      assert acts0 + Cow.Copies(d, n) + [Cow.CopyWord(d)] == acts0 + Cow.Copies(d, n + 1);
    }
    CopiedSoFar(mem0, t, f, NPTENTRIES);
  }

  // Memory when n words of frame f have been copied to frame t.
  ghost function CopiedMem(mem: seq<Cow.Page>, t: nat, f: nat, n: nat): seq<Cow.Page>
    requires t < |mem| && f < |mem| && |mem[t]| == |mem[f]| && n <= |mem[f]|
  {
    mem[t := mem[f][..n] + mem[t][n..]]
  }

  lemma CopiedSoFar(mem: seq<Cow.Page>, t: nat, f: nat, n: nat)
    requires t < |mem| && f < |mem| && |mem[t]| == |mem[f]| && n <= |mem[f]| && t != f
    ensures CopiedMem(mem, t, f, 0) == mem && CopiedMem(mem, t, f, |mem[f]|) == mem[t := mem[f]]
    ensures n < |mem[f]| ==>
              var was := CopiedMem(mem, t, f, n); var page: Cow.Page := was[t][n := was[f][n]];
              CopiedMem(mem, t, f, n + 1) == was[t := page]
  {
    assert mem[f][..0] + mem[t][0..] == mem[t];
    assert mem[f][..|mem[f]|] + mem[t][|mem[f]|..] == mem[f];
    if n < |mem[f]| { assert (mem[f][..n] + mem[t][n..])[n := mem[f][n]] == mem[f][..n + 1] + mem[t][n + 1..]; }
  }

  lemma CopyIsStep(st: Cow.State, st': Cow.State, d: nat, v: nat, n: nat)
    requires d in st.faults && st.faults[d] == Cow.Copying(v, n) && n < NPTENTRIES
    requires Cow.CopyStep(st.vm, st'.vm, d, v, n) && st'.faults == st.faults[d := Cow.Copying(v, n + 1)]
    ensures Cow.CStep(st, Cow.CopyWord(d), st', Cow.Silent)
  {}

  // The page v of the environment gets its copy, by way of PFTEMP.
  method CopyFault(k: Kernel, cur: nat, v: nat, ghost faults: map<nat, Cow.Phase>)
    requires k.Valid() && Live(k.K(), cur) && v < UPAGES_TOTAL && k.envs[cur].pgdir !in faults
    requires |k.m.S.free| >= 2 && Sparse(k.m.S.maps, REF_MOD - 1) && Cow.Tmp(k.envs[cur].pgdir) !in k.m.S.maps
    requires (k.envs[cur].pgdir, v) in k.m.S.maps && Cow.CopyOnWrite(k.m.S.maps[(k.envs[cur].pgdir, v)])
    requires Cow.Seen((k.envs[cur].pgdir, v))
    modifies k.m, k.m.pages, k.m.mem
    ensures k.Valid() && k.K().envs == old(k.K().envs) && k.K().free == old(k.K().free)
    ensures |k.m.S.free| >= |old(k.m.S.free)| - 2
    ensures Cow.FaultStep(old(VmOf(k)), VmOf(k), (k.envs[cur].pgdir, v))
    ensures var acts := Cow.FaultActs((k.envs[cur].pgdir, v));
            Cow.Run(Cow.State(old(VmOf(k)), faults), acts, Cow.AllSilent(|acts|), Cow.State(VmOf(k), faults))
  {
    hide Rep, Ok, TableOk, EnvChain, Sparse, Names, Cow.SameData, Cow.Mapped, Resolve, Cow.Run, Cow.CStep;
    hide Cow.AllSilent, Cow.Copies;
    var d := k.envs[cur].pgdir;
    ghost var at: Slot, tmp: Slot, st0 := (d, v), Cow.Tmp(d), Cow.State(VmOf(k), faults);
    ValidGood(k);
    MappedFrame(k.m.pages[..], k.m.mem[..], k.m.freeList, k.m.S, k.m.managed, k.m.kern, at);
    BeginFault(k, cur);
    ghost var st1 := Cow.State(VmOf(k), faults[d := Cow.Copying(v, 0)]);
    BeginIsStep(st0, st1, at);
    Cow.NoActs(st0);
    Cow.SilentStep(st0, [], st0, Cow.Begin(at), st1);
    assert [] + [Cow.Begin(at)] == [Cow.Begin(at)];
    ghost var f := st1.vm.maps[tmp].frame;
    Unmapped(st0.vm.maps, f);
    ValidGood(k);
    SelfNames(k.K(), cur);
    NamesDir(k.K(), cur, 0, d);
    Memmove(k.m, d, v, st0, [Cow.Begin(at)], faults);
    ghost var st2 := Cow.State(VmOf(k), faults[d := Cow.Copying(v, NPTENTRIES)]);
    ghost var acts2 := [Cow.Begin(at)] + Cow.Copies(d, NPTENTRIES);
    ValidGood(k);
    SparseUpdate(st0.vm.maps, REF_MOD - 1, tmp, Pte(f, Cow.RW));
    SparseUncrowded(k.m.S, k.m.managed, REF_MOD - 1);
    RemapFault(k, cur, v);
    ghost var st3 := Cow.State(VmOf(k), faults[d := Cow.Moved(v)]);
    EndIsSteps(st2, st3, d, v);
    Cow.SilentStep(st0, acts2, st2, Cow.Remap(d), st3);
    DropFault(k, cur);
    ghost var st4 := Cow.State(VmOf(k), faults);
    assert faults[d := Cow.Moved(v)] - {d} == faults;
    DropIsStep(st3, st4, d);
    Cow.SilentStep(st0, acts2 + [Cow.Remap(d)], st3, Cow.Drop(d), st4);
    FaultDone(st0.vm, st1.vm, st2.vm, st3.vm, st4.vm, d, v);
  }

  lemma BeginIsStep(st: Cow.State, st': Cow.State, k: Slot)
    requires Cow.Enabled(st, Cow.Begin(k)) && Cow.FreshTemp(st.vm, st'.vm, k.0)
    requires st'.faults == st.faults[k.0 := Cow.Copying(k.1, 0)]
    ensures Cow.CStep(st, Cow.Begin(k), st', Cow.Silent)
  {}

  lemma EndIsSteps(st: Cow.State, st': Cow.State, d: nat, v: nat)
    requires d in st.faults && st.faults[d] == Cow.Copying(v, NPTENTRIES) && Cow.RemapStep(st.vm, st'.vm, d, v)
    requires st'.faults == st.faults[d := Cow.Moved(v)]
    ensures Cow.CStep(st, Cow.Remap(d), st', Cow.Silent)
  {}

  lemma DropIsStep(st: Cow.State, st': Cow.State, d: nat)
    requires d in st.faults && st.faults[d].Moved? && Cow.DropStep(st.vm, st'.vm, d) && st'.faults == st.faults - {d}
    ensures Cow.CStep(st, Cow.Drop(d), st', Cow.Silent)
  {}

  // The four calls in a row.
  lemma FaultDone(vm0: Cow.Vm, vm1: Cow.Vm, vm2: Cow.Vm, vm3: Cow.Vm, vm4: Cow.Vm, d: nat, v: nat)
    requires (d, v) in vm0.maps && Cow.CopyOnWrite(vm0.maps[(d, v)]) && Cow.Tmp(d) !in vm0.maps && v != PFTEMP_PAGE
    requires Cow.FreshTemp(vm0, vm1, d) && vm0.maps[(d, v)].frame < |vm0.mem|
    requires vm2 == vm1.(mem := vm1.mem[vm1.maps[Cow.Tmp(d)].frame := vm1.mem[vm0.maps[(d, v)].frame]])
    requires Cow.RemapStep(vm2, vm3, d, v) && Cow.DropStep(vm3, vm4, d)
    ensures Cow.FaultStep(vm0, vm4, (d, v))
  {
    var at: Slot, tmp: Slot, f := (d, v), Cow.Tmp(d), vm1.maps[Cow.Tmp(d)].frame;
    assert vm4.maps == vm0.maps[at := Pte(f, Cow.RW)];
    Unmapped(vm0.maps, f);
    hide Cow.Mapped;
    forall k | k in vm0.maps && vm0.maps[k].frame < |vm0.mem|
      ensures vm1.mem[vm0.maps[k].frame] == vm0.mem[vm0.maps[k].frame]
    {
      DataOf(Cow.Vm(vm0.maps - {tmp}, vm0.mem), vm1.mem, k);
    }
    forall k | k in vm0.maps && k != at && vm0.maps[k].frame < |vm0.mem|
      ensures vm4.mem[vm0.maps[k].frame] == vm0.mem[vm0.maps[k].frame]
    {
      DataOf(Cow.Vm(vm2.maps - {at}, vm2.mem), vm3.mem, k);
      DataOf(Cow.Vm(vm3.maps - {tmp}, vm3.mem), vm4.mem, k);
    }
    DataOf(Cow.Vm(vm2.maps - {at}, vm2.mem), vm3.mem, tmp);
    DataOf(Cow.Vm(vm3.maps - {tmp}, vm3.mem), vm4.mem, at);
  }

  lemma DataOf(vm: Cow.Vm, mem: seq<Cow.Page>, k: Slot)
    requires Cow.SameData(vm, mem) && k in vm.maps && vm.maps[k].frame < |vm.mem|
    ensures mem[vm.maps[k].frame] == vm.mem[vm.maps[k].frame]
  {}

  // pgfault, given two free frames and PFTEMP not in use: bit 1 of the error code says that the
  // access was a write.  A fault it handles is the run FaultActs
  // of module Cow.
  method Pgfault(k: Kernel, cur: nat, addr: nat, err: nat, ghost faults: map<nat, Cow.Phase>) returns (r: Handled)
    requires k.Valid() && Live(k.K(), cur) && addr < UTOP && k.envs[cur].pgdir !in faults
    requires addr / PGSIZE != UXSTACK_PAGE
    requires |k.m.S.free| >= 2 && Sparse(k.m.S.maps, REF_MOD - 1) && Cow.Tmp(k.envs[cur].pgdir) !in k.m.S.maps
    modifies k.m, k.m.pages, k.m.mem
    ensures k.Valid() && k.K().envs == old(k.K().envs) && k.K().free == old(k.K().free)
    ensures var at := (k.envs[cur].pgdir, addr / PGSIZE);
            r == if err / 2 % 2 == 0 then Panicked
                 else if TableOf(at) !in old(k.m.S.tables) then Nested
                 else if at in old(k.m.S.maps) && Cow.CopyOnWrite(old(k.m.S.maps)[at]) then Remapped
                 else Panicked
    ensures r.Remapped? ==>
              var at := (k.envs[cur].pgdir, addr / PGSIZE); var acts := Cow.FaultActs(at);
              && Cow.FaultStep(old(VmOf(k)), VmOf(k), at) && |k.m.S.free| >= |old(k.m.S.free)| - 2
              && Cow.Run(Cow.State(old(VmOf(k)), faults), acts, Cow.AllSilent(|acts|), Cow.State(VmOf(k), faults))
    ensures !r.Remapped? ==> k.K() == old(k.K()) && k.m.mem[..] == old(k.m.mem[..])
  {
    hide Rep, Ok, FreeSlots, SlotIds, OwnDirs, EnvChain, Cow.Run, Cow.FaultStep;
    var d, v := k.envs[cur].pgdir, addr / PGSIZE;
    LiveHasDir(k.K(), cur);
    RepParts(k.m.pages[..], k.m.mem[..], k.m.freeList, k.m.S, k.m.managed, k.m.kern);
    ForkReads(k.m.pages[..], k.m.mem[..], k.m.freeList, k.m.S, k.m.managed, k.m.kern, d, v);
    if !Has(err, FEC_WR) { return Panicked; }
    var word := Load32(k.m.mem[..], d, UVPT + 4 * v);
    if word < 0 { return Nested; }
    MappedPerm(k.m.pages[..], k.m.mem[..], k.m.freeList, k.m.S, k.m.managed, k.m.kern, (d, v));
    WordCow(k.m.S, (d, v), word);
    if !Has(word, PTE_COW) { return Panicked; }
    CopyFault(k, cur, v, faults);
    r := Remapped;
  }

  lemma WordCow(s: Flat, k: Slot, word: nat)
    requires word == EntryWord(s.maps, k) && (k in s.maps ==> s.maps[k].perm < PGSIZE)
    ensures Has(word, PTE_COW) <==> k in s.maps && Cow.CopyOnWrite(s.maps[k])
  {
    if k in s.maps { LowBits(word, s.maps[k].perm); }
  }

  // ------------------------------------------------------------ a store, with its faults

  // The page with words written from position i on.
  function PutWords(page: Cow.Page, i: nat, words: seq<Word>): (r: Cow.Page)
    requires i + |words| <= |page|
    ensures |r| == |page|
  {
    page[..i] + words + page[i + |words|..]
  }

  lemma PutNext(page: Cow.Page, i: nat, words: seq<Word>, n: nat)
    requires i + |words| <= |page| && n < |words|
    ensures PutWords(page, i, words[..n + 1]) == PutWords(page, i, words[..n])[i + n := words[n]]
  {}

  lemma PutHolds(page: Cow.Page, i: nat, words: seq<Word>)
    requires i + |words| <= |page|
    ensures Holds(PutWords(page, i, words), i, words)
  {}

  // The page has the words at position i.
  predicate Holds(page: Cow.Page, i: nat, words: seq<Word>) {
    i + |words| <= |page| && page[i..i + |words|] == words
  }

  const UXSTACK := Upcall.UXSTACK

  lemma StackAddress(i: nat)
    requires i < NPTENTRIES
    ensures var va := UXSTACK + 4 * i; va < UTOP && va / PGSIZE == UXSTACK_PAGE && va % PGSIZE / 4 == i
  {}

  // What page_fault_handler writes, the words of a UTrapframe, or what runs on the exception stack.
  method PushWords(m: Pmap.Machine, d: nat, i: nat, words: seq<Word>)
    requires m.Valid() && d in m.S.dirs && i + |words| <= NPTENTRIES
    requires (d, UXSTACK_PAGE) in m.S.maps && Cow.Writable(m.S.maps[(d, UXSTACK_PAGE)])
    modifies m.mem
    ensures m.Valid()
    ensures var f := m.S.maps[(d, UXSTACK_PAGE)].frame;
            && f < m.mem.Length && |old(m.mem[..])[f]| == NPTENTRIES
            && m.mem[..] == old(m.mem[..])[f := PutWords(old(m.mem[..])[f], i, words)]
  {
    hide Rep, Ok;
    ghost var mem0, f := m.mem[..], m.S.maps[(d, UXSTACK_PAGE)].frame;
    MappedFrame(m.pages[..], m.mem[..], m.freeList, m.S, m.managed, m.kern, (d, UXSTACK_PAGE));
    assert PutWords(mem0[f], i, words[..0]) == mem0[f];
    for n := 0 to |words|
      invariant m.Valid() && m.mem[..] == mem0[f := PutWords(mem0[f], i, words[..n])]
    {
      StackAddress(i + n);
      PutNext(mem0[f], i, words, n);
      hide PutWords;
      var done := StoreUser(m, d, UXSTACK + 4 * (i + n), words[n]);
    }
    assert words[..|words|] == words;
  }

  const FRAME_WORDS := Upcall.FRAME / 4
  const FIRST_FRAME := NPTENTRIES - FRAME_WORDS        // below UXSTACKTOP
  const NESTED_FRAME := FIRST_FRAME - 1 - FRAME_WORDS  // below it and the reserved word

  predicate Regs32(c: Upcall.Cpu) {
    && c.edi < Upcall.M32 && c.esi < Upcall.M32 && c.ebp < Upcall.M32 && c.ebx < Upcall.M32 && c.edx < Upcall.M32
    && c.ecx < Upcall.M32 && c.eax < Upcall.M32 && c.esp < Upcall.M32 && c.eip < Upcall.M32 && c.eflags < Upcall.M32
  }

  // The frame of a fault at va in the trap-time state c.
  function FrameOf(c: Upcall.Cpu, va: Word, err: Word, oesp: Word): (r: seq<Word>)
    requires Regs32(c)
    ensures |r| == FRAME_WORDS && r[0] == va && r[1] == err
    ensures r[6] == c.ebx && r[9] == c.eax && r[10] == c.eip && r[12] == c.esp
  {
    Upcall.FrameWords(c, va, err, oesp)
  }

  // A fault that leaves the first frame, and one in the upcall, with its stack pointer at that frame.
  lemma FramePlaces(c: Upcall.Cpu)
    ensures !Upcall.OnExceptionStack(c.esp) ==> Upcall.FrameAt(c.esp) == UXSTACK + 4 * FIRST_FRAME
    ensures c.esp == UXSTACK + 4 * FIRST_FRAME ==> Upcall.FrameAt(c.esp) == UXSTACK + 4 * NESTED_FRAME
  {}

  // The page of the exception stack as the environment reads it.
  lemma StackWord(k: Kernel, d: nat, i: nat)
    requires k.Valid() && d in k.m.S.dirs && (d, UXSTACK_PAGE) in k.m.S.maps && i < NPTENTRIES
    ensures Sized(k.m.mem[..])
    ensures var at := (d, UXSTACK_PAGE);
            HasPage(VmOf(k), at) && |PageAt(VmOf(k), at)| == NPTENTRIES
            && Load32(k.m.mem[..], d, UXSTACK + 4 * i) == PageAt(VmOf(k), at)[i]
  {
    hide Rep, Ok, TableOk, EnvChain;
    RepParts(k.m.pages[..], k.m.mem[..], k.m.freeList, k.m.S, k.m.managed, k.m.kern);
    StackAddress(i);
    LoadUser(k.m.pages[..], k.m.mem[..], k.m.freeList, k.m.S, k.m.managed, k.m.kern, d, UXSTACK + 4 * i);
  }

  // page_fault_handler writes the words of a frame.
  method PushStack(k: Kernel, d: nat, i: nat, words: seq<Word>, ghost faults: map<nat, Cow.Phase>)
      returns (ghost act: Cow.Act)
    requires k.Valid() && d in k.m.S.dirs && i + |words| <= NPTENTRIES
    requires (d, UXSTACK_PAGE) in k.m.S.maps && Cow.Writable(k.m.S.maps[(d, UXSTACK_PAGE)])
    modifies k.m.mem
    ensures k.Valid() && HasPage(VmOf(k), (d, UXSTACK_PAGE)) && Holds(PageAt(VmOf(k), (d, UXSTACK_PAGE)), i, words)
    ensures act.Frame? && Cow.CStep(old(StOf(k, faults)), act, StOf(k, faults), Cow.Silent)
  {
    hide Rep, Ok, TableOk, EnvChain, PutWords, Holds, Cow.CStep;
    ghost var st0, f := StOf(k, faults), k.m.S.maps[(d, UXSTACK_PAGE)].frame;
    PushWords(k.m, d, i, words);
    PutHolds(st0.vm.mem[f], i, words);
    act := Cow.Frame(d, k.m.mem[f]);
    FrameIsStep(st0, StOf(k, faults), d, k.m.mem[f]);
  }

  // A store at va faults in the state c: the kernel pushes a frame at word i of the exception
  // stack, and pgfault, which reads the address and the error code from it, gives the page a
  // private copy, or panics.
  method FaultAt(k: Kernel, cur: nat, va: Word, i: nat, c: Upcall.Cpu, err: Word, oesp: Word,
                 ghost faults: map<nat, Cow.Phase>)
      returns (ok: bool, ghost acts: seq<Cow.Act>)
    requires k.Valid() && Live(k.K(), cur) && va < UTOP && k.envs[cur].pgdir !in faults && Regs32(c) && Has(err, FEC_WR)
    requires Upcall.FrameAt(c.esp) == UXSTACK + 4 * i && i + FRAME_WORDS <= NPTENTRIES
    requires |k.m.S.free| >= 2 && Ready(k.m.S.maps, k.envs[cur].pgdir) && Cow.Seen((k.envs[cur].pgdir, va / PGSIZE))
    modifies k.m, k.m.pages, k.m.mem
    ensures k.Valid() && k.K().envs == old(k.K().envs) && k.K().free == old(k.K().free)
    ensures |k.m.S.free| >= |old(k.m.S.free)| - 2
    ensures var at: Slot := (k.envs[cur].pgdir, va / PGSIZE);
            && (ok <==> at in old(k.m.S.maps) && Cow.CopyOnWrite(old(k.m.S.maps)[at]))
            && (ok ==> Repaired(old(k.m.S.maps), k.m.S.maps, at)) && (!ok ==> k.m.S == old(k.m.S))
    ensures var at := (k.envs[cur].pgdir, UXSTACK_PAGE);
            ok ==> HasPage(VmOf(k), at) && Holds(PageAt(VmOf(k), at), i, FrameOf(c, va, err, oesp))
    ensures Cow.Run(old(StOf(k, faults)), acts, Cow.AllSilent(|acts|), StOf(k, faults))
  {
    hide Rep, Ok, FreeSlots, SlotIds, OwnDirs, EnvChain, Sparse, Cow.Run, Cow.CStep, Cow.SameData, Cow.Mapped;
    hide Cow.AllSilent, Cow.FaultActs;
    hide Holds, FrameOf;
    var d := k.envs[cur].pgdir;
    ghost var at: Slot, st0 := (d, va / PGSIZE), StOf(k, faults);
    LiveHasDir(k.K(), cur);
    ghost var push := PushStack(k, d, i, FrameOf(c, va, err, oesp), faults);
    ghost var st1 := StOf(k, faults);
    Cow.NoActs(st0);
    Cow.SilentStep(st0, [], st0, push, st1);
    acts := [] + [push];
    MappedPerm(k.m.pages[..], k.m.mem[..], k.m.freeList, k.m.S, k.m.managed, k.m.kern, at);
    FaultWords(k, d, i, FrameOf(c, va, err, oesp));
    var addr := Load32(k.m.mem[..], d, UXSTACK + 4 * i);
    var code := Load32(k.m.mem[..], d, UXSTACK + 4 * (i + 1));
    var r := Pgfault(k, cur, addr, code, faults);
    ok := r.Remapped?;
    if ok {
      StackStays(st1.vm, VmOf(k), d, at);
      Cow.RunJoin(st0, acts, Cow.AllSilent(1), st1, Cow.FaultActs(at), Cow.AllSilent(|Cow.FaultActs(at)|),
                  StOf(k, faults));
      SilentJoin(1, |Cow.FaultActs(at)|);
      acts := acts + Cow.FaultActs(at);
    }
  }

  // What the handler finds through its argument: the address and the error code.
  lemma FaultWords(k: Kernel, d: nat, i: nat, frame: seq<Word>)
    requires k.Valid() && d in k.m.S.dirs && (d, UXSTACK_PAGE) in k.m.S.maps
    requires i + FRAME_WORDS <= NPTENTRIES && |frame| == FRAME_WORDS
    requires HasPage(VmOf(k), (d, UXSTACK_PAGE)) && Holds(PageAt(VmOf(k), (d, UXSTACK_PAGE)), i, frame)
    ensures Sized(k.m.mem[..]) && Load32(k.m.mem[..], d, UXSTACK + 4 * i) == frame[0]
    ensures Load32(k.m.mem[..], d, UXSTACK + 4 * (i + 1)) == frame[1]
  {
    hide Load32, Rep, Ok, TableOk, EnvChain, Holds;
    FrameWord(k, d, i, frame, 0);
    FrameWord(k, d, i, frame, 1);
  }

  lemma StackStays(vm: Cow.Vm, vm': Cow.Vm, d: nat, at: Slot)
    requires Cow.FaultStep(vm, vm', at) && Cow.Seen(at) && HasPage(vm, (d, UXSTACK_PAGE))
    ensures HasPage(vm', (d, UXSTACK_PAGE)) && PageAt(vm', (d, UXSTACK_PAGE)) == PageAt(vm, (d, UXSTACK_PAGE))
    ensures vm'.maps[at] == Pte(vm'.maps[at].frame, Cow.RW) && Repaired(vm.maps, vm'.maps, at)
  {
    DataOf(Cow.Vm(vm.maps - {at}, vm.mem), vm'.mem, (d, UXSTACK_PAGE));
  }

  // Page k has a private frame now, all other mappings are the same.
  ghost predicate Repaired(maps: map<Slot, Pte>, maps': map<Slot, Pte>, k: Slot) {
    k in maps && k in maps' && maps' == maps[k := Pte(maps'[k].frame, Cow.RW)] && !Cow.Mapped(maps, maps'[k].frame)
  }

  lemma FrameIsStep(st: Cow.State, st': Cow.State, d: nat, page: Cow.Page)
    requires var k: Slot := (d, UXSTACK_PAGE);
             && k in st.vm.maps && Cow.Writable(st.vm.maps[k]) && |page| == NPTENTRIES
             && st.vm.maps[k].frame < |st.vm.mem|
             && st' == st.(vm := st.vm.(mem := st.vm.mem[st.vm.maps[k].frame := page]))
    ensures Cow.CStep(st, Cow.Frame(d, page), st', Cow.Silent)
  {}

  lemma {:induction false} SilentJoin(a: nat, b: nat)
    ensures Cow.AllSilent(a) + Cow.AllSilent(b) == Cow.AllSilent(a + b)
  {
    if b > 0 {
      SilentJoin(a, b - 1);
      assert Cow.AllSilent(a) + Cow.AllSilent(b) == (Cow.AllSilent(a) + Cow.AllSilent(b - 1)) + [Cow.Silent];
    }
  }

  // What a store and its faults need: PFTEMP free, an exception stack, room for the counts.
  ghost predicate Ready(maps: map<Slot, Pte>, d: nat) {
    && Cow.Tmp(d) !in maps && (d, UXSTACK_PAGE) in maps && Cow.Writable(maps[(d, UXSTACK_PAGE)])
    && Sparse(maps, REF_MOD - 1)
  }

  // The page is mapped to a frame there is.
  ghost predicate HasPage(vm: Cow.Vm, at: Slot) {
    at in vm.maps && vm.maps[at].frame < |vm.mem|
  }

  ghost function PageAt(vm: Cow.Vm, at: Slot): Cow.Page
    requires HasPage(vm, at)
  {
    vm.mem[vm.maps[at].frame]
  }

  // A page that can be stored to, at once or after a fault.
  ghost predicate Storable(maps: map<Slot, Pte>, k: Slot) {
    k in maps && Cow.Seen(k) && (Cow.Writable(maps[k]) || Cow.CopyOnWrite(maps[k]))
  }

  lemma RepairedReady(maps: map<Slot, Pte>, maps': map<Slot, Pte>, d: nat, k: Slot, j: Slot)
    requires Ready(maps, d) && Repaired(maps, maps', k) && k.0 == d && Storable(maps, k)
    ensures Ready(maps', d) && (Storable(maps', j) <==> Storable(maps, j)) && Cow.Writable(maps'[k])
    ensures j in maps && Cow.Writable(maps[j]) ==> Cow.Writable(maps'[j])
  {
    SparseUpdate(maps, REF_MOD - 1, k, maps'[k]);
  }

  // The upcall after the handler of a fault in state c: it reads the trap-time eip and stack pointer from
  // the frame and stores the eip below that pointer.  If that page is copy-on-write the store faults
  // itself; late has the other registers then, and eax and ebx come back from the second frame.
  // The environment is lost if the page cannot be stored to at all.
  method StoreScratch(k: Kernel, cur: nat, c: Upcall.Cpu, ghost frame: seq<Word>, late: Upcall.Cpu, err: Word,
                      oesp: Word, ghost faults: map<nat, Cow.Phase>)
      returns (ok: bool, ghost acts: seq<Cow.Act>)
    requires k.Valid() && Live(k.K(), cur) && k.envs[cur].pgdir !in faults && Regs32(c) && Regs32(late)
    requires Has(err, FEC_WR)
    requires 4 <= c.esp && c.esp - 4 < UTOP && Cow.Seen((k.envs[cur].pgdir, (c.esp - 4) / PGSIZE))
    requires |k.m.S.free| >= 2 && Ready(k.m.S.maps, k.envs[cur].pgdir)
    requires |frame| == FRAME_WORDS && frame[10] == c.eip && frame[12] == c.esp
    requires HasPage(VmOf(k), (k.envs[cur].pgdir, UXSTACK_PAGE))
    requires Holds(PageAt(VmOf(k), (k.envs[cur].pgdir, UXSTACK_PAGE)), FIRST_FRAME, frame)
    modifies k.m, k.m.pages, k.m.mem
    ensures k.Valid() && k.K().envs == old(k.K().envs) && k.K().free == old(k.K().free)
    ensures Ready(k.m.S.maps, k.envs[cur].pgdir)
    ensures var at: Slot := (k.envs[cur].pgdir, (c.esp - 4) / PGSIZE);
            && (ok <==> Storable(old(k.m.S.maps), at))
            && (k.m.S.maps == old(k.m.S.maps) || Repaired(old(k.m.S.maps), k.m.S.maps, at))
    ensures ok ==> Sized(k.m.mem[..]) && Load32(k.m.mem[..], k.envs[cur].pgdir, c.esp - 4) == c.eip
    ensures Cow.Run(old(StOf(k, faults)), acts, Cow.AllSilent(|acts|), StOf(k, faults))
  {
    hide Rep, Ok, FreeSlots, SlotIds, OwnDirs, EnvChain, Sparse, Cow.Run, Cow.CStep, Cow.StoreStep, Cow.SameData;
    hide Cow.Mapped, Cow.AllSilent, PutWords;
    hide Load32, FrameOf;
    var d := k.envs[cur].pgdir;
    ghost var at: Slot, st0 := (d, (c.esp - 4) / PGSIZE), StOf(k, faults);
    LiveHasDir(k.K(), cur);
    StackWords(k, d, FIRST_FRAME, frame);
    var va: Word := Load32(k.m.mem[..], d, UXSTACK + 4 * (FIRST_FRAME + 12)) - 4;
    var eip: Word := Load32(k.m.mem[..], d, UXSTACK + 4 * (FIRST_FRAME + 10));
    assert va == c.esp - 4 && eip == c.eip;
    acts := [];
    Cow.NoActs(st0);
    ok := StoreUser(k.m, d, va, eip);
    if ok {
      ScratchDone(k, d, va, eip, st0, st0, acts, faults);
      acts := acts + [Cow.Scratch(at, va % PGSIZE / 4, eip)];
    } else {
      ok, acts := StoreLate(k, cur, va, eip, late, err, oesp, faults);
    }
  }

  // The fault at that store and the store again.
  method StoreLate(k: Kernel, cur: nat, va: Word, eip: Word, late: Upcall.Cpu, err: Word, oesp: Word,
                   ghost faults: map<nat, Cow.Phase>)
      returns (ok: bool, ghost acts: seq<Cow.Act>)
    requires k.Valid() && Live(k.K(), cur) && k.envs[cur].pgdir !in faults && Regs32(late) && Has(err, FEC_WR)
    requires va < UTOP && Cow.Seen((k.envs[cur].pgdir, va / PGSIZE)) && |k.m.S.free| >= 2
    requires Ready(k.m.S.maps, k.envs[cur].pgdir)
    modifies k.m, k.m.pages, k.m.mem
    ensures k.Valid() && k.K().envs == old(k.K().envs) && k.K().free == old(k.K().free)
    ensures Ready(k.m.S.maps, k.envs[cur].pgdir)
    ensures var at: Slot := (k.envs[cur].pgdir, va / PGSIZE);
            && (ok <==> at in old(k.m.S.maps) && Cow.CopyOnWrite(old(k.m.S.maps)[at]))
            && (k.m.S.maps == old(k.m.S.maps) || Repaired(old(k.m.S.maps), k.m.S.maps, at))
    ensures ok ==> Sized(k.m.mem[..]) && Load32(k.m.mem[..], k.envs[cur].pgdir, va) == eip
    ensures Cow.Run(old(StOf(k, faults)), acts, Cow.AllSilent(|acts|), StOf(k, faults))
  {
    hide Rep, Ok, FreeSlots, SlotIds, OwnDirs, EnvChain, Sparse, Cow.Run, Cow.CStep, Cow.StoreStep, Cow.SameData;
    hide Cow.Mapped, Cow.AllSilent, PutWords;
    hide Load32;
    var d := k.envs[cur].pgdir;
    ghost var at: Slot, st0 := (d, va / PGSIZE), StOf(k, faults);
    var c := late.(esp := UXSTACK + 4 * FIRST_FRAME, eax := va, ebx := eip);
    FramePlaces(c);
    ok, acts := FaultAt(k, cur, va, NESTED_FRAME, c, err, oesp, faults);
    if !ok { return; }
    RepairedReady(st0.vm.maps, k.m.S.maps, d, at, at);
    ghost var st1 := StOf(k, faults);
    LiveHasDir(k.K(), cur);
    ghost var frame := FrameOf(c, va, err, oesp);
    hide FrameOf;
    StackWords(k, d, NESTED_FRAME, frame);
    var back := Load32(k.m.mem[..], d, UXSTACK + 4 * (NESTED_FRAME + 10));
    var esp := Load32(k.m.mem[..], d, UXSTACK + 4 * (NESTED_FRAME + 12));
    var eax := Load32(k.m.mem[..], d, UXSTACK + 4 * (NESTED_FRAME + 9));
    var ebx := Load32(k.m.mem[..], d, UXSTACK + 4 * (NESTED_FRAME + 6));
    ghost var push := PushStack(k, d, (esp - 4 - UXSTACK) / 4, [back], faults);
    ghost var st2 := StOf(k, faults);
    Cow.SilentStep(st0, acts, st1, push, st2);
    acts := acts + [push];
    LiveHasDir(k.K(), cur);
    ok := StoreUser(k.m, d, eax, ebx);
    ScratchDone(k, d, va, eip, st0, st2, acts, faults);
    acts := acts + [Cow.Scratch(at, va % PGSIZE / 4, eip)];
  }

  // The registers that come back from a frame.
  lemma StackWords(k: Kernel, d: nat, i: nat, frame: seq<Word>)
    requires k.Valid() && d in k.m.S.dirs && (d, UXSTACK_PAGE) in k.m.S.maps && i + FRAME_WORDS <= NPTENTRIES
    requires |frame| == FRAME_WORDS
    requires HasPage(VmOf(k), (d, UXSTACK_PAGE)) && Holds(PageAt(VmOf(k), (d, UXSTACK_PAGE)), i, frame)
    ensures Sized(k.m.mem[..])
    ensures Load32(k.m.mem[..], d, UXSTACK + 4 * (i + 6)) == frame[6]
    ensures Load32(k.m.mem[..], d, UXSTACK + 4 * (i + 9)) == frame[9]
    ensures Load32(k.m.mem[..], d, UXSTACK + 4 * (i + 10)) == frame[10]
    ensures Load32(k.m.mem[..], d, UXSTACK + 4 * (i + 12)) == frame[12]
  {
    hide Load32, Rep, Ok, TableOk, EnvChain, Holds;
    FrameWord(k, d, i, frame, 6);
    FrameWord(k, d, i, frame, 9);
    FrameWord(k, d, i, frame, 10);
    FrameWord(k, d, i, frame, 12);
  }

  lemma FrameWord(k: Kernel, d: nat, i: nat, frame: seq<Word>, j: nat)
    requires k.Valid() && d in k.m.S.dirs && (d, UXSTACK_PAGE) in k.m.S.maps && j < |frame| && i + |frame| <= NPTENTRIES
    requires HasPage(VmOf(k), (d, UXSTACK_PAGE)) && Holds(PageAt(VmOf(k), (d, UXSTACK_PAGE)), i, frame)
    ensures Sized(k.m.mem[..]) && Load32(k.m.mem[..], d, UXSTACK + 4 * (i + j)) == frame[j]
  {
    hide Load32, Rep, Ok, TableOk, EnvChain;
    StackWord(k, d, i + j);
    var page := PageAt(VmOf(k), (d, UXSTACK_PAGE));
    assert page[i..i + |frame|][j] == page[i + j];
  }

  // A store below a stack pointer is one more act, and the word is there.
  lemma ScratchDone(k: Kernel, d: nat, va: nat, w: Word, st0: Cow.State, st: Cow.State, acts: seq<Cow.Act>,
                    faults: map<nat, Cow.Phase>)
    requires k.Valid() && d in k.m.S.dirs && va < UTOP && Cow.Seen((d, va / PGSIZE)) && d !in faults
    requires st.faults == faults
    requires Cow.StoreStep(st.vm, VmOf(k), (d, va / PGSIZE), va % PGSIZE / 4, w)
    requires Cow.Run(st0, acts, Cow.AllSilent(|acts|), st)
    ensures Sized(k.m.mem[..]) && Load32(k.m.mem[..], d, va) == w
    ensures var acts' := acts + [Cow.Scratch((d, va / PGSIZE), va % PGSIZE / 4, w)];
            Cow.Run(st0, acts', Cow.AllSilent(|acts'|), StOf(k, faults))
  {
    hide Rep, Ok, TableOk, EnvChain, Load32, Cow.Run, Cow.CStep, Cow.AllSilent;
    RepParts(k.m.pages[..], k.m.mem[..], k.m.freeList, k.m.S, k.m.managed, k.m.kern);
    LoadUser(k.m.pages[..], k.m.mem[..], k.m.freeList, k.m.S, k.m.managed, k.m.kern, d, va);
    ScratchIsStep(st, StOf(k, faults), (d, va / PGSIZE), va % PGSIZE / 4, w);
    Cow.SilentStep(st0, acts, st, Cow.Scratch((d, va / PGSIZE), va % PGSIZE / 4, w), StOf(k, faults));
  }
  lemma ScratchIsStep(st: Cow.State, st': Cow.State, k: Slot, i: nat, w: Word)
    requires Cow.StoreStep(st.vm, st'.vm, k, i, w) && st'.faults == st.faults && k.0 !in st.faults && Cow.Seen(k)
    requires i < NPTENTRIES
    ensures Cow.CStep(st, Cow.Scratch(k, i, w), st', Cow.Silent) && Cow.CStep(st, Cow.Store(k, i, w), st', Cow.Fine)
  {}

  lemma TrapIsStep(st: Cow.State, k: Slot, i: nat, w: Word)
    requires k.0 !in st.faults && Cow.Seen(k) && i < NPTENTRIES
    requires k in st.vm.maps ==> !Cow.Writable(st.vm.maps[k]) && !Cow.CopyOnWrite(st.vm.maps[k])
    ensures Cow.CStep(st, Cow.Store(k, i, w), st, Cow.Trap)
  {}

  // What becomes of a store: an output, or the loss of the environment.
  datatype Stored = Did(out: Cow.Out) | Lost

  // A program's store at va with pgfault for the fault handler.  If the page is copy-on-write, the frame
  // of the trap-time state c is pushed, the handler runs, the upcall stores the eip below the stack
  // pointer (which may fault too), and the store is tried again.  All of it is a run of module Cow
  // that ends with that Store, unless the upcall's own store ends in a panic.
  method UserStore(k: Kernel, cur: nat, va: Word, w: Word, c: Upcall.Cpu, late: Upcall.Cpu, err: Word, oesp: Word,
                   ghost faults: map<nat, Cow.Phase>)
      returns (r: Stored, ghost acts: seq<Cow.Act>)
    requires k.Valid() && Live(k.K(), cur) && va < UTOP && Cow.Seen((k.envs[cur].pgdir, va / PGSIZE))
    requires k.envs[cur].pgdir !in faults
    requires Regs32(c) && Regs32(late) && Has(err, FEC_WR) && !Upcall.OnExceptionStack(c.esp)
    requires 4 <= c.esp && c.esp - 4 < UTOP && Cow.Seen((k.envs[cur].pgdir, (c.esp - 4) / PGSIZE))
    requires |k.m.S.free| >= 4 && Ready(k.m.S.maps, k.envs[cur].pgdir)
    modifies k.m, k.m.pages, k.m.mem
    ensures k.Valid() && k.K().envs == old(k.K().envs) && k.K().free == old(k.K().free)
    ensures Ready(k.m.S.maps, k.envs[cur].pgdir)
    ensures var at: Slot, low: Slot := (k.envs[cur].pgdir, va / PGSIZE), (k.envs[cur].pgdir, (c.esp - 4) / PGSIZE);
            r == if !Storable(old(k.m.S.maps), at) then Did(Cow.Trap)
                 else if Cow.Writable(old(k.m.S.maps)[at]) || Storable(old(k.m.S.maps), low) then Did(Cow.Fine)
                 else Lost
    ensures var store := Cow.Store((k.envs[cur].pgdir, va / PGSIZE), va % PGSIZE / 4, w);
            r.Did? ==> Cow.Run(old(StOf(k, faults)), acts + [store], Cow.AllSilent(|acts|) + [r.out], StOf(k, faults))
    ensures r.Lost? ==> Cow.Run(old(StOf(k, faults)), acts, Cow.AllSilent(|acts|), StOf(k, faults))
  {
    hide Rep, Ok, FreeSlots, SlotIds, OwnDirs, EnvChain, Sparse, Cow.Run, Cow.CStep, Cow.StoreStep, Cow.SameData;
    hide Cow.Mapped, Cow.AllSilent;
    hide Load32;
    var d := k.envs[cur].pgdir;
    ghost var at: Slot, st0, i := (d, va / PGSIZE), StOf(k, faults), va % PGSIZE / 4;
    LiveHasDir(k.K(), cur);
    acts := [];
    Cow.NoActs(st0);
    var done := StoreUser(k.m, d, va, w);
    if done {
      StoreDone(st0, st0, StOf(k, faults), acts, at, i, w);
      return Did(Cow.Fine), acts;
    }
    var isCow := IsCopyOnWrite(k, cur, va / PGSIZE);
    if !isCow {
      TrapIsStep(st0, at, i, w);
      Cow.RunOneMore(st0, [], Cow.AllSilent(0), st0, Cow.Store(at, i, w), Cow.Trap, st0);
      return Did(Cow.Trap), acts;
    }
    var back;
    back, acts := HandleStore(k, cur, va, c, late, err, oesp, faults);
    if !back { return Lost, acts; }
    ghost var st2 := StOf(k, faults);
    LiveHasDir(k.K(), cur);
    done := StoreUser(k.m, d, va, w);
    StoreDone(st0, st2, StOf(k, faults), acts, at, i, w);
    r := Did(Cow.Fine);
  }

  lemma StoreDone(st0: Cow.State, st: Cow.State, st': Cow.State, acts: seq<Cow.Act>, at: Slot, i: nat, w: Word)
    requires Cow.Run(st0, acts, Cow.AllSilent(|acts|), st) && Cow.StoreStep(st.vm, st'.vm, at, i, w)
    requires st'.faults == st.faults && at.0 !in st.faults && Cow.Seen(at) && i < NPTENTRIES
    ensures Cow.Run(st0, acts + [Cow.Store(at, i, w)], Cow.AllSilent(|acts|) + [Cow.Fine], st')
  {
    hide Cow.Run, Cow.CStep, Cow.AllSilent;
    ScratchIsStep(st, st', at, i, w);
    Cow.RunOneMore(st0, acts, Cow.AllSilent(|acts|), st, Cow.Store(at, i, w), Cow.Fine, st');
  }

  // From the fault at the store to the upcall's return.
  method HandleStore(k: Kernel, cur: nat, va: Word, c: Upcall.Cpu, late: Upcall.Cpu, err: Word, oesp: Word,
                     ghost faults: map<nat, Cow.Phase>)
      returns (back: bool, ghost acts: seq<Cow.Act>)
    requires k.Valid() && Live(k.K(), cur) && va < UTOP && k.envs[cur].pgdir !in faults
    requires var at: Slot := (k.envs[cur].pgdir, va / PGSIZE);
            at in k.m.S.maps && Cow.CopyOnWrite(k.m.S.maps[at]) && Cow.Seen(at)
    requires Regs32(c) && Regs32(late) && Has(err, FEC_WR) && !Upcall.OnExceptionStack(c.esp)
    requires 4 <= c.esp && c.esp - 4 < UTOP && Cow.Seen((k.envs[cur].pgdir, (c.esp - 4) / PGSIZE))
    requires |k.m.S.free| >= 4 && Ready(k.m.S.maps, k.envs[cur].pgdir)
    modifies k.m, k.m.pages, k.m.mem
    ensures k.Valid() && k.K().envs == old(k.K().envs) && k.K().free == old(k.K().free)
    ensures Ready(k.m.S.maps, k.envs[cur].pgdir)
    ensures var at: Slot := (k.envs[cur].pgdir, va / PGSIZE); at in k.m.S.maps && Cow.Writable(k.m.S.maps[at])
    ensures back <==> Storable(old(k.m.S.maps), (k.envs[cur].pgdir, (c.esp - 4) / PGSIZE))
    ensures back ==> Sized(k.m.mem[..]) && Load32(k.m.mem[..], k.envs[cur].pgdir, c.esp - 4) == c.eip
    ensures Cow.Run(old(StOf(k, faults)), acts, Cow.AllSilent(|acts|), StOf(k, faults))
  {
    hide Rep, Ok, FreeSlots, SlotIds, OwnDirs, EnvChain, Sparse, Cow.Run, Cow.SameData, Cow.Mapped, Cow.AllSilent;
    hide Load32, Holds;
    var d := k.envs[cur].pgdir;
    ghost var at: Slot, low: Slot, st0 := (d, va / PGSIZE), (d, (c.esp - 4) / PGSIZE), StOf(k, faults);
    FramePlaces(c);
    back, acts := FaultAt(k, cur, va, FIRST_FRAME, c, err, oesp, faults);
    RepairedReady(st0.vm.maps, k.m.S.maps, d, at, low);
    ghost var st1, frame := StOf(k, faults), FrameOf(c, va, err, oesp);
    hide FrameOf;
    ghost var more;
    back, more := StoreScratch(k, cur, c, frame, late, err, oesp, faults);
    Cow.RunJoin(st0, acts, Cow.AllSilent(|acts|), st1, more, Cow.AllSilent(|more|), StOf(k, faults));
    SilentJoin(|acts|, |more|);
    acts := acts + more;
  }

  // Whether page v is copy-on-write, as its page-table entry says.
  method IsCopyOnWrite(k: Kernel, cur: nat, v: nat) returns (b: bool)
    requires k.Valid() && Live(k.K(), cur) && v < UPAGES_TOTAL
    ensures b <==> (k.envs[cur].pgdir, v) in k.m.S.maps && Cow.CopyOnWrite(k.m.S.maps[(k.envs[cur].pgdir, v)])
  {
    hide Rep, Ok, FreeSlots, SlotIds, OwnDirs, EnvChain, Has;
    var d := k.envs[cur].pgdir;
    LiveHasDir(k.K(), cur);
    RepParts(k.m.pages[..], k.m.mem[..], k.m.freeList, k.m.S, k.m.managed, k.m.kern);
    ForkReads(k.m.pages[..], k.m.mem[..], k.m.freeList, k.m.S, k.m.managed, k.m.kern, d, v);
    MappedPerm(k.m.pages[..], k.m.mem[..], k.m.freeList, k.m.S, k.m.managed, k.m.kern, (d, v));
    var word := Load32(k.m.mem[..], d, UVPT + 4 * v);
    if word < 0 { return false; }
    WordCow(k.m.S, (d, v), word);
    b := Has(word, PTE_COW);
  }

  // ------------------------------------------------------------------- duppage and fork

  // duppage; false is a panic.
  method Duppage(k: Kernel, cur: nat, pid: int, ghost d: nat, ghost c: nat, pn: nat, ghost faults: map<nat, Cow.Phase>)
      returns (done: bool)
    requires k.Valid() && Live(k.K(), cur) && d == k.envs[cur].pgdir && pn < UPAGES_TOTAL
    requires Names(k.envs[..], cur, 0, d) && Names(k.envs[..], cur, pid, c) && c != d
    requires (d, pn) in k.m.S.maps && (c, pn) !in k.m.S.maps && Sparse(k.m.S.maps, REF_MOD - 2)
    modifies k.m, k.m.pages, k.m.mem
    ensures k.Valid() && k.K().envs == old(k.K().envs) && k.K().free == old(k.K().free)
    ensures !done ==> k.m.S.free == [] && k.m.S == old(k.m.S)
    ensures !done ==> Cow.CStep(old(StOf(k, faults)), Cow.Elsewhere, StOf(k, faults), Cow.Silent)
    ensures forall j :: j in old(k.m.S.tables) ==> j in k.m.S.tables
    ensures done ==> k.m.S.maps == Cow.DupMaps(old(k.m.S.maps), d, c, pn) && Cow.SameData(old(VmOf(k)), k.m.mem[..])
    ensures done && d !in faults && c !in faults && Cow.Seen((d, pn)) ==>
              Cow.CStep(old(StOf(k, faults)), Cow.Dup(d, c, pn), StOf(k, faults), Cow.Fine)
  {
    hide Rep, Ok, TableOk, EnvChain, GrownFrom, Sparse, Names, Cow.SameData, Cow.DupPerm, Resolve, Cow.CStep;
    ghost var st0 := StOf(k, faults);
    MappedPerm(k.m.pages[..], k.m.mem[..], k.m.freeList, k.m.S, k.m.managed, k.m.kern, (d, pn));
    ghost var at: Slot, there: Slot, vm0 := (d, pn), (c, pn), VmOf(k);
    var perm := DupWord(k, cur, pn);
    DupPermOk(vm0.maps[at].perm);
    ghost var p := Pte(vm0.maps[at].frame, perm);
    ValidGood(k);
    SparseUncrowded(k.m.S, k.m.managed, REF_MOD - 2);
    var r := MapPage(k, cur, 0, d, pn, pid, c, pn, perm);
    if r < 0 {
      Cow.ElsewhereIsStep(st0, StOf(k, faults));
      return false;
    }
    ghost var vm1 := VmOf(k);
    ValidGood(k);
    SparseUpdate(vm0.maps, REF_MOD - 2, there, p);
    SparseUncrowded(k.m.S, k.m.managed, REF_MOD - 1);
    r := MapPage(k, cur, pid, c, pn, 0, d, pn, perm);
    assert r == 0;
    DupFrames(vm0.maps, there, p, at);
    DataKeptOn(vm0, vm1, k.m.mem[..]);
    if d !in faults && c !in faults && Cow.Seen(at) { Cow.DupIsStep(st0, StOf(k, faults), d, c, pn); }
    done := true;
  }

  lemma DupFrames(maps: map<Slot, Pte>, there: Slot, p: Pte, at: Slot)
    requires at in maps && p.frame == maps[at].frame && there !in maps
    ensures FramesKept(maps, maps[there := p])
  {
    forall k | k in maps ensures Cow.Mapped(maps[there := p], maps[k].frame) { assert maps[there := p][k] == maps[k]; }
  }

  lemma DupPermOk(perm: nat)
    ensures Cow.DupPerm(perm) < PGSIZE && Syscalls.PermOk(Cow.DupPerm(perm)) && Cow.DupPerm(perm) % 2 == 1
    ensures !Has(Cow.DupPerm(perm), PTE_W)
  {}

  // The permission of the copy, from the page-table entry read at uvpt.
  method DupWord(k: Kernel, cur: nat, pn: nat) returns (perm: nat)
    requires k.Valid() && Live(k.K(), cur) && pn < UPAGES_TOTAL && (k.envs[cur].pgdir, pn) in k.m.S.maps
    ensures perm == Cow.DupPerm(k.m.S.maps[(k.envs[cur].pgdir, pn)].perm)
  {
    hide Rep, Ok, FreeSlots, SlotIds, OwnDirs, EnvChain, Has, Load32, EntryWord;
    var d := k.envs[cur].pgdir;
    LiveHasDir(k.K(), cur);
    RepParts(k.m.pages[..], k.m.mem[..], k.m.freeList, k.m.S, k.m.managed, k.m.kern);
    ForkReads(k.m.pages[..], k.m.mem[..], k.m.freeList, k.m.S, k.m.managed, k.m.kern, d, pn);
    MappedPerm(k.m.pages[..], k.m.mem[..], k.m.freeList, k.m.S, k.m.managed, k.m.kern, (d, pn));
    var word := Load32(k.m.mem[..], d, UVPT + 4 * pn);
    WordBits(k.m.S, (d, pn), word);
    perm := Cow.RO;
    if Has(word, PTE_W) || Has(word, PTE_COW) { perm := perm + PTE_COW; }
  }

  lemma WordBits(s: Flat, k: Slot, word: int)
    requires k in s.maps && s.maps[k].perm < PGSIZE && word == EntryWord(s.maps, k)
    ensures word >= 0 && Has(word, PTE_W) == Has(s.maps[k].perm, PTE_W)
    ensures Has(word, PTE_COW) == Has(s.maps[k].perm, PTE_COW)
  {
    LowBits(word, s.maps[k].perm);
  }

  // The child's pages are the parent's, and the parent keeps its own.
  lemma {:induction false} ForkMapsAt(maps: map<Slot, Pte>, e: nat, c: nat, n: nat, k: Slot)
    requires e != c && forall j :: j in maps ==> j.0 != c
    ensures var maps' := Cow.ForkMaps(maps, e, c, n);
            && (k in maps ==> k in maps' && maps'[k].frame == maps[k].frame)
            && (k in maps' && k !in maps ==>
                 k.0 == c && k.1 < n && (e, k.1) in maps && maps'[k].frame == maps[(e, k.1)].frame)
  {
    if n > 0 {
      ForkMapsAt(maps, e, c, n - 1, k);
      ForkMapsAt(maps, e, c, n - 1, (e, n - 1));
    }
  }

  lemma ForkFramesKept(maps: map<Slot, Pte>, e: nat, c: nat, n: nat)
    requires e != c && forall j :: j in maps ==> j.0 != c
    ensures FramesKept(maps, Cow.ForkMaps(maps, e, c, n))
  {
    forall k | k in maps
      ensures Cow.Mapped(Cow.ForkMaps(maps, e, c, n), maps[k].frame)
    {
      ForkMapsAt(maps, e, c, n, k);
    }
  }

  // Each frame is mapped at most twice as often as before.
  lemma ForkSparse(maps: map<Slot, Pte>, e: nat, c: nat, n: nat, bound: nat)
    requires e != c && (forall j :: j in maps ==> j.0 != c) && Sparse(maps, bound)
    ensures Sparse(Cow.ForkMaps(maps, e, c, n), 2 * bound)
  {
    var maps' := Cow.ForkMaps(maps, e, c, n);
    forall f ensures |PteRefs(maps', f)| < 2 * bound {
      var refs := PteRefs(maps, f);
      forall k | k in PteRefs(maps', f) ensures k in refs || k in Moved(refs, c) {
        ForkMapsAt(maps, e, c, n, k);
        if k !in maps { assert (e, k.1) in refs; }
      }
      SubsetSize(PteRefs(maps', f), refs + Moved(refs, c));
      MovedSize(refs, c);
    }
  }

  function Moved(refs: set<Slot>, c: nat): set<Slot> {
    set k | k in refs :: (c, k.1)
  }

  lemma {:induction false} MovedSize(refs: set<Slot>, c: nat)
    ensures |Moved(refs, c)| <= |refs|
  {
    if refs != {} {
      var k :| k in refs;
      MovedSize(refs - {k}, c);
      assert Moved(refs, c) == Moved(refs - {k}, c) + {(c, k.1)};
    }
  }

  // Pages without a table are copied by doing nothing.
  lemma {:induction false} ForkSkip(maps: map<Slot, Pte>, e: nat, c: nat, n: nat, m: nat)
    requires n <= m && forall v: nat :: n <= v < m ==> (e, v) !in Cow.ForkMaps(maps, e, c, n)
    ensures Cow.ForkMaps(maps, e, c, m) == Cow.ForkMaps(maps, e, c, n)
  {
    if n < m { ForkSkip(maps, e, c, n, m - 1); }
  }

  // What sys_exofork gives fork: an empty space of its own, and the child's id to name it by.
  lemma ExoforkEffect(k: KState, managed: set<nat>, cur: nat)
    requires Syscalls.Good(k, managed) && Live(k, cur) && (k.free != [] ==> k.free[0] < NENV)
    ensures var o := Syscalls.Exofork(k, cur); var d := k.envs[cur].pgdir;
            && (o.r <= 0 <==> k.free == [] || k.mem.free == [])
            && (o.r <= 0 ==> o.k == k)
            && (o.r > 0 ==>
                  && k.free != [] && k.mem.free != [] && k.free[0] != cur && Live(o.k, cur)
                  && o.k.envs[cur] == k.envs[cur]
                  && o.k.mem.maps == k.mem.maps && o.k.mem.tables == k.mem.tables && GrownFrom(k.mem, o.k.mem)
                  && Names(o.k.envs, cur, 0, d) && Names(o.k.envs, cur, o.r, k.mem.free[0]) && d != k.mem.free[0]
                  && Resolve(o.k.envs, cur, o.r, true) == k.free[0]
                  && (forall j :: j in k.mem.maps ==> j.0 != k.mem.free[0]))
  {
    hide Ok;
    Syscalls.ExoforkGood(k, managed, cur);
    EnvAllocOk(k, managed, k.envs[cur].id);
    var o := Syscalls.Exofork(k, cur);
    if o.r > 0 {
      FreshDir(k.mem, managed);
      NewChild(k, cur);
    }
  }

  lemma FreshDir(s: Flat, managed: set<nat>)
    requires Ok(s, managed) && s.free != []
    ensures s.free[0] !in s.dirs && GrownFrom(s, AddDir(Take(s), s.free[0]))
    ensures forall j :: j in s.maps ==> j.0 != s.free[0]
  {
    assert s.free[0] in s.free;
    Named(s, s.free[0]);
  }

  lemma NewChild(k: KState, cur: nat)
    requires TableOk(k) && Live(k, cur) && k.free != [] && k.free[0] < NENV && k.mem.free != []
    ensures var o := Syscalls.Exofork(k, cur); var d := k.envs[cur].pgdir; var e := k.free[0];
            && e != cur && o.r > 0 && Live(o.k, cur) && o.k.envs[cur] == k.envs[cur]
            && Names(o.k.envs, cur, 0, d) && Names(o.k.envs, cur, o.r, k.mem.free[0])
            && Resolve(o.k.envs, cur, o.r, true) == e
  {
    var e := k.free[0];
    assert e in k.free;
    NextIdKeeps(k.envs[e].id, e);
  }

  // No handler is at work where d forks into c.
  ghost predicate Calm(st: Cow.State, d: nat, c: nat) {
    d != c && d !in st.faults && c !in st.faults && Cow.Tmp(d) !in st.vm.maps
  }

  // The calls of fork's loop for the pages below n are acts of module Cow.
  ghost predicate Looped(st: Cow.State, st': Cow.State, d: nat, c: nat, n: nat) {
    var acts := Cow.ForkActs(d, c, n); Calm(st, d, c) ==> Cow.Run(st, acts, Cow.AllFine(|acts|), st')
  }

  lemma LoopStart(st: Cow.State, d: nat, c: nat)
    ensures Looped(st, st, d, c, 0)
  {
    Cow.RunNothing(st);
  }

  lemma LoopNext(st: Cow.State, mid: Cow.State, st': Cow.State, d: nat, c: nat, v: nat)
    requires Looped(st, mid, d, c, v)
    requires Calm(st, d, c) && !Cow.Skipped(v) ==> Cow.CStep(mid, Cow.Dup(d, c, v), st', Cow.Fine)
    requires Calm(st, d, c) && Cow.Skipped(v) ==> st' == mid
    ensures Looped(st, st', d, c, v + 1)
  {
    hide Cow.Run, Cow.CStep, Cow.AllFine;
    if Calm(st, d, c) && !Cow.Skipped(v) {
      Cow.FineNext(|Cow.ForkActs(d, c, v)|);
      Cow.RunOneMore(st, Cow.ForkActs(d, c, v), Cow.AllFine(|Cow.ForkActs(d, c, v)|), mid, Cow.Dup(d, c, v), Cow.Fine,
                     st');
    }
  }

  // Pages that are not there are shared by doing nothing.
  lemma {:induction false} LoopSkip(st: Cow.State, mid: Cow.State, d: nat, c: nat, n: nat, m: nat)
    requires Looped(st, mid, d, c, n) && mid.faults == st.faults && n <= m
    requires forall v: nat :: n <= v < m ==> (d, v) !in mid.vm.maps
    ensures Looped(st, mid, d, c, m)
  {
    hide Looped, Cow.CStep;
    if n < m {
      LoopSkip(st, mid, d, c, n, m - 1);
      if Calm(st, d, c) && !Cow.Skipped(m - 1) { Cow.DupIsStep(mid, mid, d, c, m - 1); }
      LoopNext(st, mid, mid, d, c, m - 1);
    }
  }

  // What fork's loop has done when it has passed the pages below n.
  ghost predicate Copied(k: Kernel, cur: nat, pid: int, d: nat, c: nat, st0: Cow.State, n: nat)
    reads k, k.envs, k.m, k.m.pages, k.m.mem
  {
    && k.Valid() && Live(k.K(), cur) && d == k.envs[cur].pgdir
    && Names(k.envs[..], cur, 0, d) && Names(k.envs[..], cur, pid, c)
    && k.m.S.maps == Cow.ForkMaps(st0.vm.maps, d, c, n) && Cow.SameData(st0.vm, k.m.mem[..])
    && Looped(st0, StOf(k, st0.faults), d, c, n)
  }

  ghost predicate ForkRoom(maps: map<Slot, Pte>, d: nat, c: nat) {
    c != d && (forall j :: j in maps ==> j.0 != c) && Sparse(maps, REF_MOD / 2 - 1)
  }

  // The body of the inner loop.
  method CopyOne(k: Kernel, cur: nat, pid: int, ghost d: nat, ghost c: nat, ghost st0: Cow.State, pn: nat)
      returns (done: bool)
    requires Copied(k, cur, pid, d, c, st0, pn) && ForkRoom(st0.vm.maps, d, c) && pn < UPAGES_TOTAL
    requires TableOf((d, pn)) in k.m.S.tables
    modifies k.m, k.m.pages, k.m.mem
    ensures k.Valid() && k.K().envs == old(k.K().envs) && k.K().free == old(k.K().free)
    ensures forall j :: j in old(k.m.S.tables) ==> j in k.m.S.tables
    ensures !done ==>
              k.m.S.free == [] && Cow.CStep(old(StOf(k, st0.faults)), Cow.Elsewhere, StOf(k, st0.faults), Cow.Silent)
    ensures done ==> Copied(k, cur, pid, d, c, st0, pn + 1)
  {
    hide Rep, Ok, TableOk, EnvChain, Sparse, Names, Cow.SameData, Cow.DupMaps, Cow.ForkMaps, EntryWord, Load32;
    hide FramesKept;
    hide Looped, Cow.CStep;
    ghost var vm, vm0, mid := VmOf(k), st0.vm, StOf(k, st0.faults);
    Cow.ForkNext(vm0.maps, d, c, pn);
    if pn == UXSTACK_PAGE {
      LoopNext(st0, mid, mid, d, c, pn);
      return true;
    }
    ReadPage(k, cur, pn);
    var pte := Load32(k.m.mem[..], k.envs[cur].pgdir, UVPT + 4 * pn);
    if pte % 2 == 0 {
      NothingToCopy(k.m.S.maps, d, c, pn);
      LoopSkip(st0, mid, d, c, pn, pn + 1);
      return true;
    }
    ForkSparse(vm0.maps, d, c, pn, REF_MOD / 2 - 1);
    ForkMapsAt(vm0.maps, d, c, pn, (c, pn));
    ForkMapsAt(vm0.maps, d, c, pn, Cow.Tmp(d));
    ForkFramesKept(vm0.maps, d, c, pn);
    done := Duppage(k, cur, pid, d, c, pn, st0.faults);
    if done {
      DataKeptOn(vm0, vm, k.m.mem[..]);
      LoopNext(st0, mid, StOf(k, st0.faults), d, c, pn);
    }
  }

  lemma NothingToCopy(maps: map<Slot, Pte>, d: nat, c: nat, v: nat)
    requires (d, v) !in maps
    ensures Cow.DupMaps(maps, d, c, v) == maps
  {}

  lemma ReadPage(k: Kernel, cur: nat, v: nat)
    requires k.Valid() && Live(k.K(), cur) && v < UPAGES_TOTAL
    ensures var d := k.envs[cur].pgdir;
            && Sized(k.m.mem[..])
            && (Load32(k.m.mem[..], d, UVPD + 4 * (v / NPTENTRIES)) % 2 == 1 <==> TableOf((d, v)) in k.m.S.tables)
            && (TableOf((d, v)) in k.m.S.tables ==>
                 (Load32(k.m.mem[..], d, UVPT + 4 * v) % 2 == 1 <==> (d, v) in k.m.S.maps))
            && ((d, v) in k.m.S.maps ==> TableOf((d, v)) in k.m.S.tables)
  {
    hide Rep, Ok, FreeSlots, SlotIds, OwnDirs, EnvChain;
    LiveHasDir(k.K(), cur);
    RepParts(k.m.pages[..], k.m.mem[..], k.m.freeList, k.m.S, k.m.managed, k.m.kern);
    ForkReads(k.m.pages[..], k.m.mem[..], k.m.freeList, k.m.S, k.m.managed, k.m.kern, k.envs[cur].pgdir, v);
  }

  // fork's loops over directory and table entries.
  method CopySpace(k: Kernel, cur: nat, pid: int, ghost d: nat, ghost c: nat, ghost st0: Cow.State)
      returns (done: bool, ghost acts: seq<Cow.Act>, ghost outs: seq<Cow.Out>)
    requires Copied(k, cur, pid, d, c, st0, 0) && ForkRoom(st0.vm.maps, d, c)
    modifies k.m, k.m.pages, k.m.mem
    ensures k.Valid() && k.K().envs == old(k.K().envs) && k.K().free == old(k.K().free)
    ensures Calm(st0, d, c) ==> Cow.Run(st0, acts, outs, StOf(k, st0.faults))
    ensures !done ==> k.m.S.free == []
    ensures done ==>
              Copied(k, cur, pid, d, c, st0, UPAGES_TOTAL) && acts == Cow.ForkActs(d, c, UPAGES_TOTAL)
              && outs == Cow.AllFine(|acts|)
  {
    hide Rep, Ok, TableOk, EnvChain, Sparse, Names, Cow.SameData, Cow.ForkMaps, Load32, ForkRoom;
    hide Looped, Cow.CStep, Cow.Run, Cow.AllFine, Cow.ForkActs;
    for i := 0 to UPDES
      invariant Copied(k, cur, pid, d, c, st0, i * NPTENTRIES)
      invariant k.K().envs == old(k.K().envs) && k.K().free == old(k.K().free)
    {
      ReadPage(k, cur, i * NPTENTRIES);
      var pde := Load32(k.m.mem[..], k.envs[cur].pgdir, UVPD + 4 * i);
      if pde % 2 == 0 {
        SkipTable(k, cur, st0, d, c, i);
        continue;
      }
      for j := 0 to NPTENTRIES
        invariant Copied(k, cur, pid, d, c, st0, i * NPTENTRIES + j) && (d, i) in k.m.S.tables
        invariant k.K().envs == old(k.K().envs) && k.K().free == old(k.K().free)
      {
        ghost var mid := StOf(k, st0.faults);
        var one := CopyOne(k, cur, pid, d, c, st0, i * NPTENTRIES + j);
        if !one {
          acts, outs := LoopFails(st0, mid, StOf(k, st0.faults), d, c, i * NPTENTRIES + j);
          return false, acts, outs;
        }
      }
    }
    done, acts := true, Cow.ForkActs(d, c, UPAGES_TOTAL);
    outs := Cow.AllFine(|acts|);
    LoopEnd(st0, StOf(k, st0.faults), d, c);
  }

  lemma LoopEnd(st: Cow.State, st': Cow.State, d: nat, c: nat)
    requires Looped(st, st', d, c, UPAGES_TOTAL)
    ensures var acts := Cow.ForkActs(d, c, UPAGES_TOTAL); Calm(st, d, c) ==> Cow.Run(st, acts, Cow.AllFine(|acts|), st')
  {
    hide Cow.Run, Cow.ForkActs, Cow.AllFine;
  }

  // A duppage that finds no memory ends the run.
  lemma LoopFails(st: Cow.State, mid: Cow.State, st': Cow.State, d: nat, c: nat, v: nat)
      returns (acts: seq<Cow.Act>, outs: seq<Cow.Out>)
    requires Looped(st, mid, d, c, v) && Cow.CStep(mid, Cow.Elsewhere, st', Cow.Silent)
    ensures Calm(st, d, c) ==> Cow.Run(st, acts, outs, st')
  {
    hide Cow.Run, Cow.CStep, Cow.ForkActs, Cow.AllFine;
    var loop := Cow.ForkActs(d, c, v);
    acts, outs := loop + [Cow.Elsewhere], Cow.AllFine(|loop|) + [Cow.Silent];
    if Calm(st, d, c) { Cow.RunOneMore(st, loop, Cow.AllFine(|loop|), mid, Cow.Elsewhere, Cow.Silent, st'); }
  }

  lemma SkipTable(k: Kernel, cur: nat, st0: Cow.State, d: nat, c: nat, i: nat)
    requires k.Valid() && Live(k.K(), cur) && d == k.envs[cur].pgdir && i < UPDES && (d, i) !in k.m.S.tables
    requires k.m.S.maps == Cow.ForkMaps(st0.vm.maps, d, c, i * NPTENTRIES)
    requires Looped(st0, StOf(k, st0.faults), d, c, i * NPTENTRIES)
    ensures Cow.ForkMaps(st0.vm.maps, d, c, (i + 1) * NPTENTRIES) == k.m.S.maps
    ensures Looped(st0, StOf(k, st0.faults), d, c, (i + 1) * NPTENTRIES)
  {
    hide Rep, Ok, TableOk, EnvChain, Load32, Cow.ForkMaps, Looped;
    forall v: nat | i * NPTENTRIES <= v < (i + 1) * NPTENTRIES ensures (d, v) !in k.m.S.maps {
      ReadPage(k, cur, v);
      assert v / NPTENTRIES == i;
    }
    ForkSkip(st0.vm.maps, d, c, i * NPTENTRIES, (i + 1) * NPTENTRIES);
    LoopSkip(st0, StOf(k, st0.faults), d, c, i * NPTENTRIES, (i + 1) * NPTENTRIES);
  }

  datatype Forked = Returned(pid: int) | Panic

  // What fork makes of slot e: a child of the parent's that can run, sees 0 and has the parent's upcall.
  predicate Child(envs: seq<Env>, envs': seq<Env>, cur: nat, e: nat, pid: int, d: nat)
    requires cur < |envs|
  {
    && Calls.OthersKept(envs, envs', e) && e < |envs'|
    && var child := envs'[e];
       && child.id == pid && child.parent == envs[cur].id && child.eax == 0 && child.status == ENV_RUNNABLE
       && child.upcall == envs[cur].upcall && !child.recving && child.pgdir == d
  }

  // The calls of a fork that copies its space: the duppages and the child's exception stack.
  ghost function FillActs(d: nat, c: nat, page: Cow.Page): seq<Cow.Act> {
    Cow.ForkActs(d, c, UPAGES_TOTAL) + [Cow.Alloc((c, UXSTACK_PAGE), page)]
  }

  // fork between sys_exofork and the child's start; false is a panic.
  method FillChild(k: Kernel, cur: nat, pid: int, ghost d: nat, ghost c: nat, ghost st0: Cow.State)
      returns (done: bool, ghost acts: seq<Cow.Act>, ghost outs: seq<Cow.Out>)
    requires Copied(k, cur, pid, d, c, st0, 0) && ForkRoom(st0.vm.maps, d, c)
    modifies k.m, k.m.pages, k.m.mem
    ensures k.Valid() && k.K().envs == old(k.K().envs) && k.K().free == old(k.K().free)
    ensures Calm(st0, d, c) ==> Cow.Run(st0, acts, outs, StOf(k, st0.faults))
    ensures !done ==> |k.m.S.free| <= 1
    ensures done ==>
              var at := (c, UXSTACK_PAGE);
              && HasPage(VmOf(k), at) && Cow.ForkStep(st0.vm, VmOf(k), d, c, PageAt(VmOf(k), at))
              && acts == FillActs(d, c, PageAt(VmOf(k), at)) && outs == Cow.AllFine(|acts|)
  {
    hide Rep, Ok, TableOk, EnvChain, Sparse, Cow.SameData, Cow.ForkMaps, Cow.Mapped;
    hide Looped, Cow.CStep, Cow.Run, Cow.AllFine, Cow.ForkActs;
    done, acts, outs := CopySpace(k, cur, pid, d, c, st0);
    if !done { return; }
    ghost var st1 := StOf(k, st0.faults);
    RwOk();
    var r := AllocPage(k, cur, pid, c, UXSTACK_PAGE, Cow.RW, st0.faults);
    done := r >= 0;
    ghost var act, out := Cow.Elsewhere, Cow.Silent;
    if done {
      FrameThere(k, (c, UXSTACK_PAGE));
      act, out := Cow.Alloc((c, UXSTACK_PAGE), PageAt(VmOf(k), (c, UXSTACK_PAGE))), Cow.Fine;
      ForkDone(st0.vm, st1.vm, VmOf(k), d, c);
      Cow.FineNext(|acts|);
    }
    if Calm(st0, d, c) { Cow.RunOneMore(st0, acts, outs, st1, act, out, StOf(k, st0.faults)); }
    acts, outs := acts + [act], outs + [out];
  }

  // What a successful fork has done to the memory, and its calls after sys_exofork.
  ghost predicate ForkedSpace(vm: Cow.Vm, vm': Cow.Vm, d: nat, c: nat, acts: seq<Cow.Act>, outs: seq<Cow.Out>) {
    var at := (c, UXSTACK_PAGE);
    && c != d && (forall j :: j in vm.maps ==> j.0 != c)
    && HasPage(vm', at) && Cow.ForkStep(vm, vm', d, c, PageAt(vm', at))
    && acts == FillActs(d, c, PageAt(vm', at)) && outs == Cow.AllFine(|acts|)
  }

  // fork.  An error of sys_exofork also takes the branch meant for the child, and 0 is returned.
  // The run of module Cow begins with the page of sys_exofork.
  method Fork(k: Kernel, cur: nat, ghost faults: map<nat, Cow.Phase>)
      returns (r: Forked, ghost acts: seq<Cow.Act>, ghost outs: seq<Cow.Out>)
    requires k.Valid() && Live(k.K(), cur) && Sparse(k.m.S.maps, REF_MOD / 2 - 1)
    modifies k, k.envs, k.m, k.m.pages, k.m.mem
    ensures k.Valid() && (old(k.free) != [] ==> old(k.free)[0] < NENV)
    ensures r.Panic? ==> |k.m.S.free| <= 1
    ensures r == Returned(0) <==> old(k.free) == [] || old(k.m.S.free) == []
    ensures r == Returned(0) ==> k.K() == old(k.K())
    ensures r.Returned? && r.pid != 0 ==>
              && r.pid > 0 && k.free == old(k.free)[1..]
              && IsId(r.pid, old(k.free)[0]) && r.pid != old(k.envs[k.free[0]].id)
              && Child(old(k.envs[..]), k.envs[..], cur, old(k.free)[0], r.pid, old(k.m.S.free)[0])
    ensures r.Returned? && r.pid != 0 ==>
              ForkedSpace(old(VmOf(k)), VmOf(k), old(k.envs[cur].pgdir), old(k.m.S.free)[0], acts, outs)
    ensures var d := old(k.envs[cur].pgdir);
            (forall e :: e in faults ==> e in old(k.m.S.dirs)) && d !in faults && Cow.Tmp(d) !in old(k.m.S.maps) ==>
              Cow.Run(old(StOf(k, faults)), [Cow.Elsewhere] + acts, [Cow.Silent] + outs, StOf(k, faults))
  {
    hide Rep, Ok, FreeSlots, SlotIds, OwnDirs, EnvChain, Sparse, Names, Resolve, Syscalls.Exofork, Cow.SameData;
    hide Cow.ForkMaps, Cow.ForkStep, GrownFrom;
    hide Looped, Cow.CStep, Cow.Run, Cow.AllFine, FillActs;
    ghost var k0, st0, d := k.K(), StOf(k, faults), k.envs[cur].pgdir;
    ValidGood(k);
    var pid := Exofork(k, cur, faults);
    ExoforkEffect(k0, k.m.managed, cur);
    Calls.ExoforkEffect(k0, k.m.managed, cur);
    ghost var st1 := StOf(k, faults);
    OneAct(st0, Cow.Elsewhere, Cow.Silent, st1);
    acts, outs := [], [];
    assert [Cow.Elsewhere] + acts == [Cow.Elsewhere] && [Cow.Silent] + outs == [Cow.Silent];
    if pid <= 0 { return Returned(0), acts, outs; }
    ghost var c := k0.mem.free[0];
    ForkStart(st1, d, c);
    NewDirectory(k0.mem, k.m.managed);
    var done;
    done, acts, outs := FillChild(k, cur, pid, d, c, st1);
    if Calm(st1, d, c) { Cow.RunJoin(st0, [Cow.Elsewhere], [Cow.Silent], st1, acts, outs, StOf(k, faults)); }
    if !done { return Panic, acts, outs; }
    ForkFrom(st0.vm, st1.vm, VmOf(k), d, c);
    StartChild(k, cur, pid, k0.free[0]);
    r := Returned(pid);
  }

  lemma ForkStart(st: Cow.State, d: nat, c: nat)
    ensures Cow.ForkMaps(st.vm.maps, d, c, 0) == st.vm.maps && Cow.SameData(st.vm, st.vm.mem) && Looped(st, st, d, c, 0)
  {
    LoopStart(st, d, c);
  }

  lemma NewDirectory(s: Flat, managed: set<nat>)
    requires Ok(s, managed) && s.free != []
    ensures s.free[0] !in s.dirs
  {
    FreshDir(s, managed);
  }

  // sys_exofork before it makes no difference to the step of the whole fork.
  lemma ForkFrom(vm0: Cow.Vm, vm1: Cow.Vm, vm: Cow.Vm, d: nat, c: nat)
    requires (forall j :: j in vm0.maps ==> j.0 != c) && c != d && vm1.maps == vm0.maps && Cow.SameData(vm0, vm1.mem)
    requires HasPage(vm, (c, UXSTACK_PAGE)) && Cow.ForkStep(vm1, vm, d, c, PageAt(vm, (c, UXSTACK_PAGE)))
    ensures Cow.ForkStep(vm0, vm, d, c, PageAt(vm, (c, UXSTACK_PAGE)))
  {
    var maps, at := Cow.ForkMaps(vm0.maps, d, c, UPAGES_TOTAL), (c, UXSTACK_PAGE);
    hide Cow.Mapped, Cow.ForkMaps;
    forall k | k in maps - {at} && maps[k].frame < |vm.mem| ensures vm.mem[maps[k].frame] == vm0.mem[maps[k].frame] {
      ForkMapsAt(vm0.maps, d, c, UPAGES_TOTAL, k);
      DataOf(Cow.Vm(maps - {at}, vm1.mem), vm.mem, k);
      DataOf(vm0, vm1.mem, if k in vm0.maps then k else (d, k.1));
    }
  }

  lemma OneAct(st: Cow.State, act: Cow.Act, out: Cow.Out, st': Cow.State)
    requires Cow.CStep(st, act, st', out)
    ensures Cow.Run(st, [act], [out], st')
  {
    hide Cow.CStep;
    Cow.RunOneMore(st, [], [], st, act, out, st');
    assert [] + [act] == [act] && [] + [out] == [out];
  }

  lemma FrameThere(k: Kernel, at: Slot)
    requires k.Valid() && at in k.m.S.maps
    ensures k.m.S.maps[at].frame < k.m.mem.Length
  {
    MappedFrame(k.m.pages[..], k.m.mem[..], k.m.freeList, k.m.S, k.m.managed, k.m.kern, at);
  }

  lemma ForkDone(vm0: Cow.Vm, vm1: Cow.Vm, vm: Cow.Vm, d: nat, c: nat)
    requires (forall j :: j in vm0.maps ==> j.0 != c) && vm1.maps == Cow.ForkMaps(vm0.maps, d, c, UPAGES_TOTAL)
    requires (c, UXSTACK_PAGE) in vm.maps && vm.maps[(c, UXSTACK_PAGE)].frame < |vm.mem|
    requires var p := vm.maps[(c, UXSTACK_PAGE)];
            !Cow.Mapped(vm1.maps, p.frame) && vm.maps == vm1.maps[(c, UXSTACK_PAGE) := p] && p.perm == Cow.RW
    requires Cow.SameData(vm0, vm1.mem) && Cow.SameData(vm1, vm.mem) && c != d
    ensures Cow.ForkStep(vm0, vm, d, c, vm.mem[vm.maps[(c, UXSTACK_PAGE)].frame])
  {
    hide Cow.Mapped, Cow.ForkMaps;
    forall k | k in vm1.maps && vm1.maps[k].frame < |vm.mem|
      ensures vm.mem[vm1.maps[k].frame] == vm0.mem[vm1.maps[k].frame]
    {
      ForkMapsAt(vm0.maps, d, c, UPAGES_TOTAL, k);
      var from := if k in vm0.maps then k else (d, k.1);
      assert from in vm0.maps && vm0.maps[from].frame == vm1.maps[k].frame;
    }
  }

  // The last two system calls of fork; neither can fail.
  method StartChild(k: Kernel, cur: nat, pid: int, ghost e: nat)
    requires k.Valid() && Live(k.K(), cur) && e < NENV && e != cur && Resolve(k.envs[..], cur, pid, true) == e
    modifies k.envs
    ensures k.Valid()
    ensures k.envs[..] == old(k.envs[..])[e := old(k.envs[e]).(upcall := old(k.envs[cur].upcall),
                                                               status := ENV_RUNNABLE)]
  {
    hide Rep, Ok, FreeSlots, SlotIds, OwnDirs, EnvChain;
    ghost var envs0 := k.envs[..];
    var r := k.SysEnvSetPgfaultUpcall(cur, pid, k.envs[cur].upcall);
    assert r == 0 && k.envs[..] == envs0[e := envs0[e].(upcall := envs0[cur].upcall)];
    ghost var envs1 := k.envs[..];
    var r' := k.SysEnvSetStatus(cur, pid, ENV_RUNNABLE);
    assert r' == 0 && k.envs[..] == envs1[e := envs1[e].(status := ENV_RUNNABLE)];
  }
}
