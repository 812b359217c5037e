// kern/env.c, the memory side: env_setup_vm builds an address space, env_free takes it apart.
module EnvSpace {
  import opened Mmu
  import opened FlatMemory
  import opened Represents
  import opened Pmap

  // ------------------------------------------------------------ specification

  // page_remove on the pages lo .. hi-1 of d.
  function RemoveRange(s: Flat, d: nat, lo: nat, hi: nat): Flat
    decreases hi
  {
    if hi <= lo then s else Remove(RemoveRange(s, d, lo, hi - 1), (d, hi - 1))
  }

  // The first n directory entries of d, emptied.
  function FreeTables(s: Flat, d: nat, n: nat): Flat {
    if n == 0 then s else FreeEntry(FreeTables(s, d, n - 1), d, n - 1)
  }

  function FreeEntry(s: Flat, d: nat, i: nat): Flat {
    if (d, i) in s.tables then FreeTable(s, d, i) else s
  }

  function FreeTable(s: Flat, d: nat, i: nat): Flat {
    var r := RemoveRange(s, d, i * NPTENTRIES, (i + 1) * NPTENTRIES);
    if (d, i) in r.tables then DropTable(r, (d, i)) else r
  }

  function FreeEnv(s: Flat, d: nat): Flat {
    DropDir(FreeTables(s, d, UPDES), d)
  }

  // ------------------------------------------------------------ what it does to the maps

  // The entries of a map that are not (d, lo) .. (d, hi-1).
  function Without<T>(m: map<Slot, T>, d: nat, lo: nat, hi: nat): map<Slot, T> {
    map k | k in m && !(k.0 == d && lo <= k.1 < hi) :: m[k]
  }

  lemma WithoutStep<T>(m: map<Slot, T>, d: nat, lo: nat, hi: nat)
    requires lo <= hi
    ensures Without(m, d, lo, lo) == m
    ensures Without(m, d, lo, hi) - {(d, hi)} == Without(m, d, lo, hi + 1)
  {}

  lemma WithoutJoin<T>(m: map<Slot, T>, d: nat, lo: nat, mid: nat, hi: nat)
    requires lo <= mid <= hi
    ensures Without(Without(m, d, lo, mid), d, mid, hi) == Without(m, d, lo, hi)
  {}

  lemma RemoveMaps(s: Flat, k: Slot)
    ensures Remove(s, k).maps == s.maps - {k}
    ensures Remove(s, k).tables == s.tables && Remove(s, k).dirs == s.dirs && Remove(s, k).held == s.held
  {
    if k !in s.maps { assert s.maps == s.maps - {k}; }
  }

  lemma {:induction false} RemoveRangeMaps(s: Flat, d: nat, lo: nat, hi: nat)
    requires lo <= hi
    ensures var r := RemoveRange(s, d, lo, hi);
            r.maps == Without(s.maps, d, lo, hi) && r.tables == s.tables && r.dirs == s.dirs && r.held == s.held
    decreases hi
  {
    if hi == lo {
      WithoutStep(s.maps, d, lo, lo);
    } else {
      RemoveRangeMaps(s, d, lo, hi - 1);
      RemoveMaps(RemoveRange(s, d, lo, hi - 1), (d, hi - 1));
      WithoutStep(s.maps, d, lo, hi - 1);
    }
  }

  lemma {:induction false} RemoveRangeOk(s: Flat, managed: set<nat>, d: nat, lo: nat, hi: nat)
    requires Ok(s, managed)
    ensures Ok(RemoveRange(s, d, lo, hi), managed)
    decreases hi
  {
    if lo < hi {
      RemoveRangeOk(s, managed, d, lo, hi - 1);
      RemoveOk(RemoveRange(s, d, lo, hi - 1), managed, (d, hi - 1));
    }
  }

  ghost predicate Freed(s: Flat, r: Flat, d: nat, n: nat) {
    && r.dirs == s.dirs && r.held == s.held
    && r.maps == Without(s.maps, d, 0, n * NPTENTRIES) && r.tables == Without(s.tables, d, 0, n)
  }

  lemma NoTableNoMaps(s: Flat, d: nat, n: nat)
    requires Rooted(s) && (d, n) !in s.tables
    ensures Without(s.maps, d, n * NPTENTRIES, (n + 1) * NPTENTRIES) == s.maps
  {
    forall k: Slot | k in s.maps && k.0 == d ensures !(n * NPTENTRIES <= k.1 < (n + 1) * NPTENTRIES) {
      assert (k.0, k.1 / NPTENTRIES) in s.tables;
    }
  }

  lemma RangeBarren(r: Flat, maps: map<Slot, Pte>, d: nat, n: nat)
    requires r.maps == Without(maps, d, n * NPTENTRIES, (n + 1) * NPTENTRIES)
    ensures Barren(r, (d, n))
  {}

  // One more directory entry: all its mappings go, then the table itself.
  lemma FreeTableEffect(s: Flat, r: Flat, d: nat, n: nat)
    requires Freed(s, r, d, n) && Rooted(r)
    ensures Freed(s, FreeEntry(r, d, n), d, n + 1)
    ensures Barren(RemoveRange(r, d, n * NPTENTRIES, (n + 1) * NPTENTRIES), (d, n))
  {
    RemoveRangeMaps(r, d, n * NPTENTRIES, (n + 1) * NPTENTRIES);
    RangeBarren(RemoveRange(r, d, n * NPTENTRIES, (n + 1) * NPTENTRIES), r.maps, d, n);
    WithoutJoin(s.maps, d, 0, n * NPTENTRIES, (n + 1) * NPTENTRIES);
    WithoutStep(s.tables, d, 0, n);
    if (d, n) !in r.tables {
      NoTableNoMaps(r, d, n);
      assert r.tables == r.tables - {(d, n)};
    }
  }

  lemma FreeTableOk(r: Flat, managed: set<nat>, d: nat, n: nat)
    requires Ok(r, managed)
    requires Barren(RemoveRange(r, d, n * NPTENTRIES, (n + 1) * NPTENTRIES), (d, n))
    ensures Ok(FreeEntry(r, d, n), managed)
  {
    var r' := RemoveRange(r, d, n * NPTENTRIES, (n + 1) * NPTENTRIES);
    RemoveRangeOk(r, managed, d, n * NPTENTRIES, (n + 1) * NPTENTRIES);
    if (d, n) in r'.tables { DropTableOk(r', managed, (d, n)); }
  }

  lemma {:induction false} FreeTablesEffect(s: Flat, managed: set<nat>, d: nat, n: nat)
    requires Ok(s, managed)
    ensures Ok(FreeTables(s, d, n), managed) && Freed(s, FreeTables(s, d, n), d, n)
  {
    hide Ok;
    if n == 0 {
      WithoutStep(s.maps, d, 0, 0);
      WithoutStep(s.tables, d, 0, 0);
    } else {
      FreeTablesEffect(s, managed, d, n - 1);
      var r := FreeTables(s, d, n - 1);
      OkRooted(r, managed);
      FreeTableEffect(s, r, d, n - 1);
      FreeTableOk(r, managed, d, n - 1);
    }
  }

  // The entries of every directory but d.
  function Others<T>(m: map<Slot, T>, d: nat): map<Slot, T> {
    map k | k in m && k.0 != d :: m[k]
  }

  lemma AllFreed(s: Flat, d: nat)
    requires Rooted(s)
    ensures Without(s.maps, d, 0, UPDES * NPTENTRIES) == Others(s.maps, d)
    ensures Without(s.tables, d, 0, UPDES) == Others(s.tables, d)
  {
    forall k: Slot | k in s.maps ensures k.1 < UPDES * NPTENTRIES {
      assert (k.0, k.1 / NPTENTRIES) in s.tables;
    }
  }

  // What env_free leaves: every other directory with its tables and mappings, untouched.
  lemma FreeEnvEffect(s: Flat, managed: set<nat>, d: nat)
    requires Ok(s, managed) && d in s.dirs
    ensures var r := FreeEnv(s, d);
            && Ok(r, managed) && r.dirs == s.dirs - {d} && r.held == s.held
            && r.maps == Others(s.maps, d) && r.tables == Others(s.tables, d)
  {
    FreeTablesEffect(s, managed, d, UPDES);
    AllFreed(s, d);
    DropDirOk(FreeTables(s, d, UPDES), managed, d);
  }

  // ------------------------------------------------------------ conservation

  // The names of f that belong to directory d.
  function OwnRefs(s: Flat, d: nat, f: nat): nat {
    (if f == d && d in s.dirs then 1 else 0)
    + |set k | k in s.tables && k.0 == d && s.tables[k] == f|
    + |set k | k in s.maps && k.0 == d && s.maps[k].frame == f|
  }

  lemma SplitPteRefs(maps: map<Slot, Pte>, d: nat, f: nat)
    ensures |PteRefs(maps, f)| == |set k | k in maps && k.0 == d && maps[k].frame == f| + |PteRefs(Others(maps, d), f)|
  {
    var own := set k | k in maps && k.0 == d && maps[k].frame == f;
    assert PteRefs(maps, f) == own + PteRefs(Others(maps, d), f);
  }

  lemma SplitPdeRefs(tables: map<Slot, nat>, d: nat, f: nat)
    ensures |PdeRefs(tables, f)| ==
            |set k | k in tables && k.0 == d && tables[k] == f| + |PdeRefs(Others(tables, d), f)|
  {
    var own := set k | k in tables && k.0 == d && tables[k] == f;
    assert PdeRefs(tables, f) == own + PdeRefs(Others(tables, d), f);
  }

  // Each count drops by exactly the names the environment held.
  lemma FreeEnvCounts(s: Flat, managed: set<nat>, d: nat, f: nat)
    requires Ok(s, managed) && d in s.dirs
    ensures RefCount(FreeEnv(s, d), f) + OwnRefs(s, d, f) == RefCount(s, f)
  {
    FreeEnvEffect(s, managed, d);
    SplitPteRefs(s.maps, d, f);
    SplitPdeRefs(s.tables, d, f);
  }

  // A frame comes back exactly when nobody but the dying environment named it.
  lemma FreeEnvReturns(s: Flat, managed: set<nat>, d: nat, f: nat)
    requires Ok(s, managed) && d in s.dirs && f in managed
    ensures f in FreeEnv(s, d).free <==> f in s.free || (f !in s.held && RefCount(s, f) == OwnRefs(s, d, f))
  {
    FreeEnvEffect(s, managed, d);
    FreeEnvCounts(s, managed, d, f);
  }

  // One's own directory and page tables always come back.
  lemma FreeEnvReturnsTables(s: Flat, managed: set<nat>, d: nat)
    requires Ok(s, managed) && d in s.dirs
    ensures d in FreeEnv(s, d).free
    ensures forall k :: k in s.tables && k.0 == d ==> s.tables[k] in FreeEnv(s, d).free
  {
    FreeEnvEffect(s, managed, d);
    var r := FreeEnv(s, d);
    Named(r, d);
    assert d in managed && d !in r.held by { Named(s, d); }
    forall k | k in s.tables && k.0 == d ensures s.tables[k] in r.free {
      Named(r, s.tables[k]);
      Named(s, s.tables[k]);
    }
  }

  // ------------------------------------------------------- a whole life restores the free set

  // What an environment can do to its own pages: sys_page_alloc, sys_page_map of a page mapped
  // somewhere at src, sys_page_unmap.
  datatype Op = Alloc(v: nat, perm: nat) | Share(v: nat, src: Slot, perm: nat) | Unmap(v: nat)

  ghost function Step(s: Flat, d: nat, op: Op): Flat {
    match op
    case Alloc(v, perm) =>
      if v >= UPAGES_TOTAL || s.free == [] then s
      else
        var r := Insert(Take(s), (d, v), s.free[0], perm);
        if r.Done? then r.s else s
    case Share(v, src, perm) =>
      if v >= UPAGES_TOTAL || src !in s.maps then s
      else
        var r := Insert(s, (d, v), s.maps[src].frame, perm);
        if r.Done? then r.s else s
    case Unmap(v) => Remove(s, (d, v))
  }

  ghost function Run(s: Flat, d: nat, ops: seq<Op>): Flat {
    if ops == [] then s else Step(Run(s, d, ops[..|ops| - 1]), d, ops[|ops| - 1])
  }

  // s differs from s0 only below directory d.
  ghost predicate Confined(s0: Flat, s: Flat, managed: set<nat>, d: nat) {
    && Ok(s, managed) && s.held == {} && s.dirs == s0.dirs + {d}
    && Others(s.maps, d) == s0.maps && Others(s.tables, d) == s0.tables
  }

  lemma InsertOk(s: Flat, managed: set<nat>, k: Slot, f: nat, perm: nat)
    requires Ok(s, managed) && Mappable(s, f) && k.0 in s.dirs && k.1 < UPAGES_TOTAL && Insert(s, k, f, perm).Done?
    ensures var r := Insert(s, k, f, perm).s;
            && Ok(r, managed) && r.maps == s.maps[k := Pte(f, Present(perm))] && r.dirs == s.dirs
            && r.held == s.held - {f}
            && (r.tables == s.tables || (s.free != [] && r.tables == s.tables[TableOf(k) := s.free[0]]))
  {
    var w := Walk(s, k).s;
    WalkOk(s, managed, k);
    WalkMappable(s, managed, k, f);
    WalkShape(s, managed, k);
    hide Ok, Mappable, LastMap;
    InsertPathIsInsert(w, managed, k, f, perm);
    InsertFields(s, k, f, perm);
    hide Insert;
    assert Insert(s, k, f, perm) == Insert(w, k, f, perm) by { InsertAfterWalk(s, k, f, perm); }
  }

  lemma WalkShape(s: Flat, managed: set<nat>, k: Slot)
    requires Ok(s, managed) && Walk(s, k).Done?
    ensures var w := Walk(s, k).s;
            && w.held == s.held && w.dirs == s.dirs && w.maps == s.maps && TableOf(k) in w.tables
            && (w.tables == s.tables || (s.free != [] && w.tables == s.tables[TableOf(k) := s.free[0]]))
  {
    if TableOf(k) !in s.tables {
      TakeOk(s, managed);
      assert Walk(s, k).s.held == (s.held + {s.free[0]}) - {s.free[0]};
    }
  }

  // The fields page_insert leaves as its walk did.
  lemma InsertFields(s: Flat, k: Slot, f: nat, perm: nat)
    requires Insert(s, k, f, perm).Done?
    ensures Walk(s, k).Done?
    ensures var r, w := Insert(s, k, f, perm).s, Walk(s, k).s;
            r.held == w.held - {f} && r.dirs == w.dirs && r.tables == w.tables
            && r.maps == w.maps[k := Pte(f, Present(perm))]
  {}

  lemma InsertAfterWalk(s: Flat, k: Slot, f: nat, perm: nat)
    requires Walk(s, k).Done? && TableOf(k) in Walk(s, k).s.tables
    ensures Insert(s, k, f, perm) == Insert(Walk(s, k).s, k, f, perm)
  {}

  lemma OthersUpdate<T>(m: map<Slot, T>, d: nat, i: nat, x: T)
    ensures Others(m[(d, i) := x], d) == Others(m, d) && Others(m - {(d, i)}, d) == Others(m, d)
  {}

  lemma InsertOthers(s: Flat, managed: set<nat>, d: nat, v: nat, f: nat, perm: nat)
    requires Ok(s, managed) && Mappable(s, f) && d in s.dirs && v < UPAGES_TOTAL && Insert(s, (d, v), f, perm).Done?
    ensures var r := Insert(s, (d, v), f, perm).s;
            Ok(r, managed) && r.dirs == s.dirs && r.held == s.held - {f} &&
            Others(r.maps, d) == Others(s.maps, d) && Others(r.tables, d) == Others(s.tables, d)
  {
    hide Ok;
    InsertOk(s, managed, (d, v), f, perm);
    OthersUpdate(s.maps, d, v, Pte(f, Present(perm)));
    if s.free != [] { OthersUpdate(s.tables, d, v / NPTENTRIES, s.free[0]); }
  }

  lemma AllocConfined(s0: Flat, s: Flat, managed: set<nat>, d: nat, v: nat, perm: nat)
    requires Confined(s0, s, managed, d) && v < UPAGES_TOTAL && s.free != []
    requires Insert(Take(s), (d, v), s.free[0], perm).Done?
    ensures Confined(s0, Insert(Take(s), (d, v), s.free[0], perm).s, managed, d)
  {
    TakeOk(s, managed);
    InsertOthers(Take(s), managed, d, v, s.free[0], perm);
  }

  lemma ShareConfined(s0: Flat, s: Flat, managed: set<nat>, d: nat, v: nat, src: Slot, perm: nat)
    requires Confined(s0, s, managed, d) && v < UPAGES_TOTAL && src in s.maps
    requires Insert(s, (d, v), s.maps[src].frame, perm).Done?
    ensures Confined(s0, Insert(s, (d, v), s.maps[src].frame, perm).s, managed, d)
  {
    assert src in PteRefs(s.maps, s.maps[src].frame);
    InsertOthers(s, managed, d, v, s.maps[src].frame, perm);
  }

  lemma StepConfined(s0: Flat, s: Flat, managed: set<nat>, d: nat, op: Op)
    requires Confined(s0, s, managed, d)
    ensures Confined(s0, Step(s, d, op), managed, d)
  {
    match op
    case Alloc(v, perm) =>
      if v < UPAGES_TOTAL && s.free != [] && Insert(Take(s), (d, v), s.free[0], perm).Done? {
        AllocConfined(s0, s, managed, d, v, perm);
      }
    case Share(v, src, perm) =>
      if v < UPAGES_TOTAL && src in s.maps && Insert(s, (d, v), s.maps[src].frame, perm).Done? {
        ShareConfined(s0, s, managed, d, v, src, perm);
      }
    case Unmap(v) =>
      RemoveOk(s, managed, (d, v));
      RemoveMaps(s, (d, v));
      OthersUpdate(s.maps, d, v, Pte(0, 0));
  }

  lemma {:induction false} RunConfined(s0: Flat, s: Flat, managed: set<nat>, d: nat, ops: seq<Op>)
    requires Confined(s0, s, managed, d)
    ensures Confined(s0, Run(s, d, ops), managed, d)
  {
    if ops != [] {
      RunConfined(s0, s, managed, d, ops[..|ops| - 1]);
      StepConfined(s0, Run(s, d, ops[..|ops| - 1]), managed, d, ops[|ops| - 1]);
    }
  }

  lemma NewDirConfined(s0: Flat, managed: set<nat>)
    requires Ok(s0, managed) && s0.held == {} && s0.free != []
    ensures s0.free[0] !in s0.dirs && Confined(s0, AddDir(Take(s0), s0.free[0]), managed, s0.free[0])
  {
    var d := s0.free[0];
    TakeOk(s0, managed);
    AddDirOk(Take(s0), managed, d);
    Named(s0, d);
    assert forall k :: k in s0.tables ==> k.0 != d;
    assert forall k :: k in s0.maps ==> (k.0, k.1 / NPTENTRIES) in s0.tables;
    assert Others(s0.maps, d) == s0.maps && Others(s0.tables, d) == s0.tables;
  }

  // Create an environment, let it map whatever it likes, free it: the same frames are free.
  lemma LifeRestoresFree(s0: Flat, managed: set<nat>, ops: seq<Op>, f: nat)
    requires Ok(s0, managed) && s0.held == {} && s0.free != []
    ensures var d := s0.free[0]; var s := FreeEnv(Run(AddDir(Take(s0), d), d, ops), d);
            s.maps == s0.maps && s.tables == s0.tables && s.dirs == s0.dirs && (f in s.free <==> f in s0.free)
  {
    var d := s0.free[0];
    NewDirConfined(s0, managed);
    RunConfined(s0, AddDir(Take(s0), d), managed, d, ops);
    var s1 := Run(AddDir(Take(s0), d), d, ops);
    FreeEnvEffect(s1, managed, d);
    var s := FreeEnv(s1, d);
    assert s.dirs == s0.dirs;
    assert RefCount(s, f) == RefCount(s0, f);
  }

  // ------------------------------------------------------------------- kern/env.c

  // env_setup_vm: d is the frame of the new page directory.
  method EnvSetupVm(m: Machine) returns (r: int, d: int)
    requires m.Valid()
    modifies m, m.pages, m.mem
    ensures m.Valid()
    ensures old(m.S).free == [] ==> r == -E_NO_MEM && m.S == old(m.S) && m.mem[..] == old(m.mem[..])
    ensures old(m.S).free != [] ==> r == 0 && d == old(m.S).free[0] && m.S == AddDir(Take(old(m.S)), d)
    ensures SameOff(old(m.mem[..]), m.mem[..], m.S.dirs, m.S.tables)
  {
    hide Rep, Ok;
    d := m.PageAlloc(true);
    if d == NULL { return -E_NO_MEM, NULL; }
    RepParts(m.pages[..], m.mem[..], m.freeList, m.S, m.managed, m.kern);
    ghost var pages0, mem0 := m.pages[..], m.mem[..];
    var self: Word := d * PGSIZE + SELF_PERM;
    var page: seq<Word> := m.mem[m.kern][UVPT_PDX := self];
    RepAddDir(pages0, mem0, m.freeList, m.S, m.managed, m.kern, d, page);
    m.pages[d] := m.pages[d].(refs := m.pages[d].refs + 1);
    m.mem[d] := page;
    assert m.pages[..] == SetRefs(pages0, d, 1) && m.mem[..] == mem0[d := page];
    m.S := AddDir(m.S, d);
    r := 0;
  }

  // page_remove on entry j of the page table pt, if it is present.
  method ClearEntry(m: Machine, d: nat, i: nat, j: nat, pt: nat)
    requires m.Valid() && d in m.S.dirs && i < UPDES && j < NPTENTRIES && (d, i) in m.S.tables
    requires pt == m.S.tables[(d, i)]
    modifies m, m.pages, m.mem
    ensures m.Valid() && m.S == Remove(old(m.S), (d, i * NPTENTRIES + j))
    ensures m.S.tables == old(m.S).tables && m.S.dirs == old(m.S).dirs
    ensures SameOff(old(m.mem[..]), m.mem[..], m.S.dirs, m.S.tables)
  {
    hide Rep, Ok;
    var v := i * NPTENTRIES + j;
    ReadPte(m.pages[..], m.mem[..], m.freeList, m.S, m.managed, m.kern, (d, v));
    RemoveMaps(m.S, (d, v));
    if m.mem[pt][j] % 2 == 1 { m.PageRemove(d, v); }
  }

  method ClearTable(m: Machine, d: nat, i: nat, pt: nat)
    requires m.Valid() && d in m.S.dirs && i < UPDES && (d, i) in m.S.tables && pt == m.S.tables[(d, i)]
    modifies m, m.pages, m.mem
    ensures m.Valid() && m.S == RemoveRange(old(m.S), d, i * NPTENTRIES, (i + 1) * NPTENTRIES)
    ensures m.S.tables == old(m.S).tables && m.S.dirs == old(m.S).dirs
    ensures SameOff(old(m.mem[..]), m.mem[..], m.S.dirs, m.S.tables)
  {
    hide Rep, Ok;
    ghost var s := m.S;
    for j := 0 to NPTENTRIES
      invariant m.Valid() && m.S == RemoveRange(s, d, i * NPTENTRIES, i * NPTENTRIES + j)
      invariant m.S.tables == s.tables && m.S.dirs == s.dirs
      invariant SameOff(old(m.mem[..]), m.mem[..], s.dirs, s.tables)
    {
      ghost var mem1 := m.mem[..];
      ClearEntry(m, d, i, j, pt);
      SameOffTrans(old(m.mem[..]), mem1, m.mem[..], s.dirs, s.tables);
    }
  }

  // The directory entry cleared and the page table given up with page_decref.
  method GiveUpTable(m: Machine, d: nat, i: nat, pt: nat)
    requires m.Valid() && (d, i) in m.S.tables && pt == m.S.tables[(d, i)] && Barren(m.S, (d, i))
    modifies m, m.pages, m.mem
    ensures m.Valid() && m.S == DropTable(old(m.S), (d, i))
    ensures SameOff(old(m.mem[..]), m.mem[..], old(m.S).dirs, old(m.S).tables)
  {
    hide Rep, Ok;
    RepDropTable(m.pages[..], m.mem[..], m.freeList, m.S, m.managed, m.kern, (d, i));
    RepParts(m.pages[..], m.mem[..], m.freeList, m.S, m.managed, m.kern);
    SetWordSameOff(m.mem[..], m.S.dirs, m.S.tables, d, i, 0);
    DropWord(m, d, i, pt);
  }

  method DropWord(m: Machine, d: nat, i: nat, pt: nat)
    requires Chain(m.pages[..], m.freeList, m.S.free) && pt !in m.S.free && pt !in m.S.held
    requires pt < m.pages.Length && m.pages[pt] == PageInfo(NULL, 1) && (d, i) in m.S.tables && pt == m.S.tables[(d, i)]
    requires d < m.mem.Length && i < |m.mem[d]|
    modifies m, m.pages, m.mem
    ensures m.pages[..] == Decref(old(m.pages[..]), old(m.freeList), pt) && m.freeList == pt
    ensures m.mem[..] == SetWord(old(m.mem[..]), d, i, 0)
    ensures m.S == DropTable(old(m.S), (d, i))
  {
    m.mem[d] := m.mem[d][i := 0];
    m.PageDecref(pt);
    m.S := m.S.(tables := m.S.tables - {(d, i)});
    assert m.S.held == old(m.S).held;
  }

  // One turn of env_free's outer loop, for an entry that is present.
  method EmptyTable(m: Machine, d: nat, i: nat)
    requires m.Valid() && d in m.S.dirs && i < UPDES && (d, i) in m.S.tables
    modifies m, m.pages, m.mem
    ensures m.Valid() && m.S == FreeTable(old(m.S), d, i)
    ensures SameOff(old(m.mem[..]), m.mem[..], old(m.S).dirs, old(m.S).tables)
  {
    hide Rep, Ok;
    ghost var s := m.S;
    ReadPde(m.pages[..], m.mem[..], m.freeList, m.S, m.managed, m.kern, d, i);
    var pt := m.mem[d][i] / PGSIZE;
    ClearTable(m, d, i, pt);
    ghost var mem1 := m.mem[..];
    RemoveRangeMaps(s, d, i * NPTENTRIES, (i + 1) * NPTENTRIES);
    RangeBarren(m.S, s.maps, d, i);
    GiveUpTable(m, d, i, pt);
    SameOffTrans(old(m.mem[..]), mem1, m.mem[..], s.dirs, s.tables);
  }

  // env_free, from the address space down to the page directory.
  method EnvFree(m: Machine, d: nat)
    requires m.Valid() && d in m.S.dirs
    modifies m, m.pages, m.mem
    ensures m.Valid() && m.S == FreeEnv(old(m.S), d)
    ensures SameOff(old(m.mem[..]), m.mem[..], old(m.S).dirs, old(m.S).tables)
  {
    hide Rep, Ok;
    ghost var s := m.S;
    RepParts(m.pages[..], m.mem[..], m.freeList, m.S, m.managed, m.kern);
    OkRooted(s, m.managed);
    assert Freed(s, s, d, 0) by {
      WithoutStep(s.maps, d, 0, 0);
      WithoutStep(s.tables, d, 0, 0);
    }
    for i := 0 to UPDES
      invariant m.Valid() && m.S == FreeTables(s, d, i) && Freed(s, m.S, d, i)
      invariant SameOff(old(m.mem[..]), m.mem[..], s.dirs, s.tables)
    {
      ghost var mem1 := m.mem[..];
      RepParts(m.pages[..], m.mem[..], m.freeList, m.S, m.managed, m.kern);
      OkRooted(m.S, m.managed);
      FreeTableEffect(s, m.S, d, i);
      SameOffWider(m.S, s, d, i);
      ReadPde(m.pages[..], m.mem[..], m.freeList, m.S, m.managed, m.kern, d, i);
      if m.mem[d][i] % 2 == 0 { continue; }
      EmptyTable(m, d, i);
      SameOffTrans(old(m.mem[..]), mem1, m.mem[..], s.dirs, s.tables);
    }
    AllFreed(s, d);
    GiveUpDir(m, d);
  }

  method GiveUpDir(m: Machine, d: nat)
    requires m.Valid() && d in m.S.dirs && forall k :: k in m.S.tables ==> k.0 != d
    modifies m, m.pages
    ensures m.Valid() && m.S == DropDir(old(m.S), d)
  {
    hide Rep, Ok;
    RepDropDir(m.pages[..], m.mem[..], m.freeList, m.S, m.managed, m.kern, d);
    RepParts(m.pages[..], m.mem[..], m.freeList, m.S, m.managed, m.kern);
    DropRoot(m, d);
  }

  method DropRoot(m: Machine, d: nat)
    requires Chain(m.pages[..], m.freeList, m.S.free) && d !in m.S.free && d !in m.S.held
    requires d < m.pages.Length && m.pages[d] == PageInfo(NULL, 1)
    modifies m, m.pages
    ensures m.pages[..] == Decref(old(m.pages[..]), old(m.freeList), d) && m.freeList == d
    ensures m.S == DropDir(old(m.S), d)
  {
    m.PageDecref(d);
    m.S := m.S.(dirs := m.S.dirs - {d});
    assert m.S.held == old(m.S).held;
  }

  lemma SameOffWider(r: Flat, s: Flat, d: nat, n: nat)
    requires Freed(s, r, d, n)
    ensures forall a, b :: SameOff(a, b, r.dirs, r.tables) ==> SameOff(a, b, s.dirs, s.tables)
  {
    forall f | f in r.tables.Values ensures f in s.tables.Values {
      var k :| k in r.tables && r.tables[k] == f;
      assert s.tables[k] == f;
    }
  }
}
