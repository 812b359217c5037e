// What the page system calls of kern/syscall.c do to the map and to the reference counts, told
// without reference to how they do it.
module Effects {
  import opened Mmu
  import opened FlatMemory
  import opened EnvTable
  import EnvSpace
  import opened Syscalls

  // page_insert counts one name more for the frame inserted and one less for the frame replaced
  // (the two cancel when they are the same), and one for a page table it had to make.
  lemma InsertCounts(s: Flat, managed: set<nat>, k: Slot, f: nat, perm: nat, g: nat)
    requires Ok(s, managed) && Mappable(s, f) && k.0 in s.dirs && k.1 < UPAGES_TOTAL && Insert(s, k, f, perm).Done?
    ensures s.free == [] ==> (k.0, k.1 / NPTENTRIES) in s.tables
    ensures var tabled := (k.0, k.1 / NPTENTRIES) in s.tables;
            var gained := (if g == f then 1 else 0) + (if !tabled && g == s.free[0] then 1 else 0);
            var lost := if k in s.maps && s.maps[k].frame == g then 1 else 0;
            RefCount(Insert(s, k, f, perm).s, g) == RefCount(s, g) + gained - lost
  {
    EnvSpace.InsertOk(s, managed, k, f, perm);
    var t := (k.0, k.1 / NPTENTRIES);
    if t in s.tables { TableThere(s, k, f, perm); } else { TableMade(s, k, f, perm); }
    hide Ok, Insert, PteRefs, PdeRefs, Mappable;
    MapCounts(s.maps, k, Pte(f, Present(perm)), g);
    if t !in s.tables { TableCounts(s.tables, t, s.free[0], g); }
  }

  lemma MapCounts(maps: map<Slot, Pte>, k: Slot, p: Pte, g: nat)
    ensures |PteRefs(maps[k := p], g)| ==
            |PteRefs(maps, g)| + (if p.frame == g then 1 else 0) - (if k in maps && maps[k].frame == g then 1 else 0)
  {
    RefsSet(maps, k, p, g);
    RefsErased(maps, k, g);
  }

  lemma RefsSet(maps: map<Slot, Pte>, k: Slot, p: Pte, g: nat)
    ensures |PteRefs(maps[k := p], g)| == |PteRefs(maps - {k}, g)| + if p.frame == g then 1 else 0
  {
    var rest := PteRefs(maps - {k}, g);
    if p.frame == g {
      assert PteRefs(maps[k := p], g) == rest + {k};
    } else {
      assert PteRefs(maps[k := p], g) == rest;
    }
  }

  lemma RefsErased(maps: map<Slot, Pte>, k: Slot, g: nat)
    ensures |PteRefs(maps, g)| == |PteRefs(maps - {k}, g)| + if k in maps && maps[k].frame == g then 1 else 0
  {
    var rest := PteRefs(maps - {k}, g);
    if k in maps && maps[k].frame == g {
      assert PteRefs(maps, g) == rest + {k};
    } else {
      assert PteRefs(maps, g) == rest;
    }
  }

  lemma TableCounts(tables: map<Slot, nat>, t: Slot, x: nat, g: nat)
    requires t !in tables
    ensures |PdeRefs(tables[t := x], g)| == |PdeRefs(tables, g)| + if x == g then 1 else 0
  {
    assert PdeRefs(tables[t := x], g) == PdeRefs(tables, g) + if x == g then {t} else {};
  }

  lemma SameCounts(s: Flat, s': Flat, g: nat)
    requires s.dirs == s'.dirs && s.tables == s'.tables && s.maps == s'.maps
    ensures RefCount(s, g) == RefCount(s', g)
  {}

  lemma TableMade(s: Flat, k: Slot, f: nat, perm: nat)
    requires Insert(s, k, f, perm).Done? && (k.0, k.1 / NPTENTRIES) !in s.tables
    ensures s.free != [] && Insert(s, k, f, perm).s.tables == s.tables[(k.0, k.1 / NPTENTRIES) := s.free[0]]
  {}

  lemma TableThere(s: Flat, k: Slot, f: nat, perm: nat)
    requires Insert(s, k, f, perm).Done? && (k.0, k.1 / NPTENTRIES) in s.tables
    ensures Insert(s, k, f, perm).s.tables == s.tables
  {}

  // There is a page table for the page of va in the space of the environment in slot e.
  predicate Tabled(k: KState, e: int, va: nat) {
    0 <= e < |k.envs| && (k.envs[e].pgdir, va / PGSIZE / NPTENTRIES) in k.mem.tables
  }

  // An address the page calls refuse: above user memory, or misaligned and below 2^31.
  predicate Refused(va: nat) {
    va >= UTOP || (va < 0x8000_0000 && va / PGSIZE * PGSIZE != va)
  }

  // Present and open to the user.
  predicate ForUser(perm: nat) {
    perm % 2 == 1 && perm / PTE_U % 2 == 1
  }

  // The page is there, and write access to it is not more than there is.
  predicate Shared(s: Flat, src: Slot, perm: nat) {
    src in s.maps && !(Has(perm, PTE_W) && !Has(s.maps[src].perm, PTE_W))
  }

  lemma AddressTest(va: nat)
    ensures VaBad(va) <==> Refused(va)
    ensures !Refused(va) ==> va < UTOP && va / PGSIZE < UPAGES_TOTAL
  {}

  lemma PermTest(perm: nat)
    ensures PermOk(perm) <==> ForUser(perm)
    ensures ForUser(perm) ==> Present(perm) == perm
  {}

  // sys_page_alloc: on success one page of one space is backed by a frame that nothing named
  // before and only this page names now; any failure changes nothing.
  lemma PageAllocEffect(k: KState, managed: set<nat>, cur: nat, envid: int, va: nat, perm: nat)
    requires Good(k, managed) && Live(k, cur)
    ensures var o := PageAlloc(k, cur, envid, va, perm); var e := Resolve(k.envs, cur, envid, true);
            && (o.r != 0 ==> o.k == k)
            && (o.r == -E_BAD_ENV <==> e < 0)
            && (o.r == -E_INVAL <==> e >= 0 && (Refused(va) || !ForUser(perm)))
            && (o.r == -E_NO_MEM <==> e >= 0 && !Refused(va) && ForUser(perm) &&
                                      |k.mem.free| < (if Tabled(k, e, va) then 1 else 2))
            && o.r in {0, -E_BAD_ENV, -E_INVAL, -E_NO_MEM}
            && (o.r == 0 ==>
                  && k.mem.free != [] && o.k.envs == k.envs && o.k.free == k.free
                  && var f, at := k.mem.free[0], (k.envs[e].pgdir, va / PGSIZE);
                     o.k.mem.maps == k.mem.maps[at := Pte(f, perm)] && RefCount(k.mem, f) == 0
                     && RefCount(o.k.mem, f) == 1)
  {
    AddressTest(va);
    PermTest(perm);
    hide Ok, FreeSlots, SlotIds, OwnDirs, VaBad, PermOk, Refused, ForUser;
    ResolveLive(k, cur, envid, true);
    var o, e := PageAlloc(k, cur, envid, va, perm), Resolve(k.envs, cur, envid, true);
    if e >= 0 && !Refused(va) && ForUser(perm) && k.mem.free != [] {
      var f, at := k.mem.free[0], (k.envs[e].pgdir, va / PGSIZE);
      FreshInsert(k.mem, managed, at, perm);
    }
  }

  lemma FreshInsert(s: Flat, managed: set<nat>, at: Slot, perm: nat)
    requires Ok(s, managed) && s.free != [] && s.held == {} && at.0 in s.dirs && at.1 < UPAGES_TOTAL
    ensures var r := Insert(Take(s), at, s.free[0], perm);
            && (r.NoMem? <==> |s.free| == 1 && (at.0, at.1 / NPTENTRIES) !in s.tables) && RefCount(s, s.free[0]) == 0
            && (r.Done? ==> r.s.maps == s.maps[at := Pte(s.free[0], Present(perm))] && RefCount(r.s, s.free[0]) == 1)
  {
    TakeOk(s, managed);
    var f, t := s.free[0], Take(s);
    SameCounts(s, t, f);
    Named(s, f);
    if Insert(t, at, f, perm).Done? {
      EnvSpace.InsertOk(t, managed, at, f, perm);
      InsertCounts(t, managed, at, f, perm, f);
      if t.free != [] { assert t.free[0] in t.free; }
    }
  }

  // sys_page_map: on success the destination page names the source's frame with the permission
  // asked for, and write permission is never created; any failure changes nothing.
  lemma PageMapEffect(k: KState, managed: set<nat>, cur: nat, srcid: int, srcva: nat, dstid: int, dstva: nat, perm: nat)
    requires Good(k, managed) && Live(k, cur)
    ensures var o := PageMap(k, cur, srcid, srcva, dstid, dstva, perm);
            var s, d := Resolve(k.envs, cur, srcid, true), Resolve(k.envs, cur, dstid, true);
            && (o.r != 0 ==> o.k == k)
            && (o.r == -E_BAD_ENV <==> s < 0 || d < 0)
            && (o.r == -E_INVAL <==>
                  (s >= 0 && d >= 0 &&
                   (|| Refused(srcva) || Refused(dstva) || !ForUser(perm)
                    || !Shared(k.mem, (k.envs[s].pgdir, srcva / PGSIZE), perm))))
            && (o.r == -E_NO_MEM <==>
                  (s >= 0 && d >= 0 && !Refused(srcva) && !Refused(dstva) && ForUser(perm)
                   && Shared(k.mem, (k.envs[s].pgdir, srcva / PGSIZE), perm)
                   && k.mem.free == [] && !Tabled(k, d, dstva)))
            && o.r in {0, -E_BAD_ENV, -E_INVAL, -E_NO_MEM}
            && (o.r == 0 ==>
                  && s >= 0 && d >= 0 && o.k.envs == k.envs && o.k.free == k.free
                  && var from, to := (k.envs[s].pgdir, srcva / PGSIZE), (k.envs[d].pgdir, dstva / PGSIZE);
                     && from in k.mem.maps
                     && var f := k.mem.maps[from].frame;
                        && o.k.mem.maps == k.mem.maps[to := Pte(f, perm)]
                        && (Has(perm, PTE_W) ==> Has(k.mem.maps[from].perm, PTE_W))
                        && RefCount(o.k.mem, f) ==
                           RefCount(k.mem, f) + (if to in k.mem.maps && k.mem.maps[to].frame == f then 0 else 1))
  {
    AddressTest(srcva);
    AddressTest(dstva);
    PermTest(perm);
    hide Ok, FreeSlots, SlotIds, OwnDirs, Insert, VaBad, PermOk, Refused, ForUser;
    ResolveLive(k, cur, srcid, true);
    ResolveLive(k, cur, dstid, true);
    var s, d := Resolve(k.envs, cur, srcid, true), Resolve(k.envs, cur, dstid, true);
    if s >= 0 && d >= 0 && !Refused(dstva) {
      var from, to := (k.envs[s].pgdir, PageOf(srcva)), (k.envs[d].pgdir, PageOf(dstva));
      if from in k.mem.maps { SharedInsert(k.mem, managed, from, to, perm); }
    }
  }

  lemma SharedInsert(s: Flat, managed: set<nat>, from: Slot, to: Slot, perm: nat)
    requires Ok(s, managed) && from in s.maps && to.0 in s.dirs && to.1 < UPAGES_TOTAL
    ensures var f := s.maps[from].frame; var r := Insert(s, to, f, perm);
            && (r.NoMem? <==> s.free == [] && (to.0, to.1 / NPTENTRIES) !in s.tables)
            && (r.Done? ==> r.s.maps == s.maps[to := Pte(f, Present(perm))]
                            && RefCount(r.s, f) ==
                               RefCount(s, f) + (if to in s.maps && s.maps[to].frame == f then 0 else 1))
  {
    var f := s.maps[from].frame;
    MappedMappable(s, from);
    MappableApart(s, managed, f);
    if Insert(s, to, f, perm).Done? {
      EnvSpace.InsertOk(s, managed, to, f, perm);
      InsertCounts(s, managed, to, f, perm, f);
      if s.free != [] { assert s.free[0] in s.free; }
    }
  }

  // sys_page_unmap: the page is gone, its frame has one name less and is free if that was the last.
  lemma PageUnmapEffect(k: KState, managed: set<nat>, cur: nat, envid: int, va: nat)
    requires Good(k, managed) && Live(k, cur)
    ensures var o := PageUnmap(k, cur, envid, va); var e := Resolve(k.envs, cur, envid, true);
            && (o.r != 0 ==> o.k == k) && (o.r == 0 <==> e >= 0 && !Refused(va))
            && (o.r == -E_BAD_ENV <==> e < 0) && (o.r == -E_INVAL <==> e >= 0 && Refused(va))
            && (o.r == 0 ==>
                  && o.k.envs == k.envs && o.k.free == k.free
                  && var at := (k.envs[e].pgdir, va / PGSIZE);
                     && o.k.mem.maps == k.mem.maps - {at}
                     && (at in k.mem.maps ==>
                           var f := k.mem.maps[at].frame;
                           RefCount(o.k.mem, f) == RefCount(k.mem, f) - 1
                           && (f in o.k.mem.free <==> RefCount(k.mem, f) == 1)))
  {
    AddressTest(va);
    hide Ok, FreeSlots, SlotIds, OwnDirs;
    ResolveLive(k, cur, envid, true);
    var e := Resolve(k.envs, cur, envid, true);
    if e >= 0 && !VaBad(va) { RemoveEffect(k.mem, managed, (k.envs[e].pgdir, va / PGSIZE)); }
  }

  lemma RemoveEffect(s: Flat, managed: set<nat>, at: Slot)
    requires Ok(s, managed)
    ensures Remove(s, at).maps == s.maps - {at}
    ensures at in s.maps ==>
              var f := s.maps[at].frame;
              && RefCount(Remove(s, at), f) == RefCount(s, f) - 1
              && (f in Remove(s, at).free <==> RefCount(s, f) == 1)
  {
    EnvSpace.RemoveMaps(s, at);
    if at in s.maps {
      var f := s.maps[at].frame;
      RemoveFrees(s, managed, at);
      CountDropMap(s, at, f);
      SameCounts(Remove(s, at), s.(maps := s.maps - {at}), f);
      Named(s, f);
    }
  }
}
