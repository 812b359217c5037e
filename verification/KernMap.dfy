// mem_init, mem_init_mp and boot_map_region of kern/pmap.c: the kernel's part of the address
// space, built in a fresh page directory, and what the MMU finds there.
module KernMap {
  import opened Basics
  import opened Mmu
  import opened Represents
  import opened Hardware

  // Page numbers and sizes of inc/memlayout.h, in pages.
  const UENVS_PAGE := 0xeec00
  const UPAGES_PAGE := 0xef000
  const KSTACK_END := 0xf0000   // PGNUM(KSTACKTOP) == PGNUM(KERNBASE)
  const KSTK := 8               // KSTKSIZE and KSTKGAP
  const NCPU := 8
  const PHYS_PAGES := 0x10000   // 2^32 - KERNBASE
  const ALL_PAGES := 0x100000

  const USER_READ := 5          // PTE_U | PTE_P
  const KERN_WRITE := 3         // PTE_W | PTE_P

  // The numbers from lo up to hi - 1.
  function Span(lo: nat, hi: nat): set<nat> {
    if lo >= hi then {} else Span(lo, hi - 1) + {hi - 1}
  }

  lemma {:induction false} SpanIs(lo: nat, hi: nat, i: nat)
    ensures i in Span(lo, hi) <==> lo <= i < hi
  {
    if lo < hi { SpanIs(lo, hi - 1, i); }
  }

  lemma {:induction false} SpanSize(lo: nat, hi: nat)
    requires lo <= hi
    ensures |Span(lo, hi)| == hi - lo
  {
    if lo < hi {
      SpanSize(lo, hi - 1);
      SpanIs(lo, hi - 1, hi - 1);
    }
  }

  // Directory entries the regions lie in.
  predicate Regional(i: nat) { i == 955 || i == 956 || 959 <= i < 1024 }

  const REGIONAL: set<nat> := Span(955, 957) + Span(959, 1024)

  lemma RegionalIs(i: nat)
    ensures i in REGIONAL <==> Regional(i)
  {
    SpanIs(955, 957, i);
    SpanIs(959, 1024, i);
  }

  lemma RegionalSize()
    ensures |REGIONAL| == 67
  {
    SpanSize(955, 957);
    SpanSize(959, 1024);
    forall i | i in Span(955, 957) ensures i !in Span(959, 1024) {
      SpanIs(955, 957, i);
      SpanIs(959, 1024, i);
    }
  }

  // -------------------------------------------------------- what the words stand for

  function DirWord(tables: map<nat, nat>, kern: nat, i: nat): nat {
    if i in tables then tables[i] * PGSIZE + TABLE_PERM else if i == UVPT_PDX then kern * PGSIZE + SELF_PERM else 0
  }

  function PageWord(maps: map<nat, nat>, v: nat): nat { if v in maps then maps[v] else 0 }

  ghost predicate DirIs(mem: seq<seq<Word>>, kern: nat, tables: map<nat, nat>, i: nat)
    requires Sized(mem) && kern < |mem| && i < NPTENTRIES
  {
    mem[kern][i] == DirWord(tables, kern, i)
  }

  ghost predicate EntryIs(mem: seq<seq<Word>>, tables: map<nat, nat>, maps: map<nat, nat>, i: nat, j: nat)
    requires Sized(mem) && i in tables && j < NPTENTRIES
  {
    tables[i] < |mem| && mem[tables[i]][j] == PageWord(maps, i * NPTENTRIES + j)
  }

  ghost predicate Tables(n: nat, kern: nat, tables: map<nat, nat>, maps: map<nat, nat>) {
    && (forall i :: i in tables ==> tables[i] < n && tables[i] != kern && i != UVPT_PDX && i < NPTENTRIES)
    && (forall i, j :: i in tables && j in tables && tables[i] == tables[j] ==> i == j)
    && (forall v :: v in maps ==> v / NPTENTRIES in tables)
  }

  // tables: directory entry to page table.  maps: page number to page-table word.
  ghost predicate Stands(mem: seq<seq<Word>>, kern: nat, tables: map<nat, nat>, maps: map<nat, nat>) {
    && Sized(mem) && kern < |mem| <= MAX_FRAMES && Tables(|mem|, kern, tables, maps)
    && (forall i :: 0 <= i < NPTENTRIES ==> DirIs(mem, kern, tables, i))
    && (forall i, j :: i in tables && 0 <= j < NPTENTRIES ==> EntryIs(mem, tables, maps, i, j))
  }

  lemma TableHung(mem: seq<seq<Word>>, kern: nat, tables: map<nat, nat>, maps: map<nat, nat>, i: nat, t: nat, w: Word)
    requires Stands(mem, kern, tables, maps) && i < NPTENTRIES && i !in tables && i != UVPT_PDX
    requires t < |mem| && t != kern && t !in tables.Values && w == t * PGSIZE + TABLE_PERM
    ensures Sized(mem[t := ZERO_PAGE]) && Stands(SetWord(mem[t := ZERO_PAGE], kern, i, w), kern, tables[i := t], maps)
  {
    var mem', tables' := SetWord(mem[t := ZERO_PAGE], kern, i, w), tables[i := t];
    forall k, j | k in tables' && 0 <= j < NPTENTRIES ensures EntryIs(mem', tables', maps, k, j) {
      if k == i {
        assert (i * NPTENTRIES + j) / NPTENTRIES == i;
      } else {
        assert EntryIs(mem, tables, maps, k, j);
      }
    }
    forall k | 0 <= k < NPTENTRIES ensures DirIs(mem', kern, tables', k) { assert DirIs(mem, kern, tables, k); }
  }

  lemma EntrySet(mem: seq<seq<Word>>, kern: nat, tables: map<nat, nat>, maps: map<nat, nat>, v: nat, w: Word)
    requires Stands(mem, kern, tables, maps) && v / NPTENTRIES in tables
    ensures tables[v / NPTENTRIES] < |mem| && |mem[tables[v / NPTENTRIES]]| == NPTENTRIES
    ensures Stands(SetWord(mem, tables[v / NPTENTRIES], v % NPTENTRIES, w), kern, tables, maps[v := w])
  {
    var mem', maps' := SetWord(mem, tables[v / NPTENTRIES], v % NPTENTRIES, w), maps[v := w];
    forall k, j | k in tables && 0 <= j < NPTENTRIES ensures EntryIs(mem', tables, maps', k, j) {
      assert EntryIs(mem, tables, maps, k, j);
      var u := k * NPTENTRIES + j;
      assert u / NPTENTRIES == k && u % NPTENTRIES == j;
    }
    forall k | 0 <= k < NPTENTRIES ensures DirIs(mem', kern, tables, k) { assert DirIs(mem, kern, tables, k); }
  }

  lemma ReadDir(mem: seq<seq<Word>>, kern: nat, tables: map<nat, nat>, maps: map<nat, nat>, i: nat)
    requires Stands(mem, kern, tables, maps) && Regional(i)
    ensures kern < |mem| <= MAX_FRAMES && Sized(mem)
    ensures mem[kern][i] % 2 == 1 <==> i in tables
    ensures i in tables ==> mem[kern][i] / PGSIZE == tables[i]
  {
    assert DirIs(mem, kern, tables, i);
  }

  // The MMU finds what the map says.
  lemma KernWalk(mem: seq<seq<Word>>, kern: nat, tables: map<nat, nat>, maps: map<nat, nat>, v: nat)
    requires Stands(mem, kern, tables, maps) && v < ALL_PAGES && v / NPTENTRIES != UVPT_PDX
    ensures Walk32(mem, kern, v * PGSIZE) ==
            if v in maps && maps[v] % 2 == 1 then Leaf(maps[v] / PGSIZE, maps[v] % PGSIZE) else Fault
  {
    var i, j := v / NPTENTRIES, v % NPTENTRIES;
    assert v == i * NPTENTRIES + j && v * PGSIZE / PGSIZE == v;
    assert DirIs(mem, kern, tables, i);
    if i in tables { assert EntryIs(mem, tables, maps, i, j); }
  }

  // ------------------------------------------------------------------- boot_map_region

  // n pages from v on mapped to the frames from f on.
  function MapRegion(maps: map<nat, nat>, v: nat, n: nat, f: nat, perm: nat): map<nat, nat> {
    if n == 0 then maps else MapRegion(maps, v, n - 1, f, perm)[v + n - 1 := (f + n - 1) * PGSIZE + perm]
  }

  lemma {:induction false} MapRegionAt(maps: map<nat, nat>, v: nat, n: nat, f: nat, perm: nat, u: nat)
    ensures var maps' := MapRegion(maps, v, n, f, perm);
            if v <= u < v + n then u in maps' && maps'[u] == (f + u - v) * PGSIZE + perm
            else (u in maps' <==> u in maps) && (u in maps ==> maps'[u] == maps[u])
  {
    if n > 0 { MapRegionAt(maps, v, n - 1, f, perm, u); }
  }

  ghost predicate FreeOk(free: seq<nat>, n: nat, kern: nat, tables: map<nat, nat>) {
    && (forall i, j :: 0 <= i < j < |free| ==> free[i] != free[j])
    && (forall i :: 0 <= i < |free| ==> free[i] < n && free[i] != kern && free[i] !in tables.Values)
  }

  lemma FreePop(free: seq<nat>, n: nat, kern: nat, tables: map<nat, nat>, i: nat)
    requires FreeOk(free, n, kern, tables) && free != []
    ensures free[0] < n && free[0] != kern && free[0] !in tables.Values
    ensures FreeOk(free[1..], n, kern, tables[i := free[0]])
  {}

  lemma MapRegionNext(maps: map<nat, nat>, v: nat, n: nat, f: nat, perm: nat)
    ensures MapRegion(maps, v, 0, f, perm) == maps
    ensures MapRegion(maps, v, n + 1, f, perm) == MapRegion(maps, v, n, f, perm)[v + n := (f + n) * PGSIZE + perm]
  {}

  class Boot {
    const mem: array<seq<Word>>
    const kern: nat
    var free: seq<nat>
    ghost var tables: map<nat, nat>
    ghost var maps: map<nat, nat>

    ghost predicate Valid()
      reads this, mem
    {
      && Stands(mem[..], kern, tables, maps)
      && FreeOk(free, mem.Length, kern, tables)
      && tables.Keys <= REGIONAL && |free| + |tables| >= 67
    }

    // A fresh directory with nothing but the entry for the virtual page table.
    constructor (memory: seq<seq<Word>>, kern: nat, free: seq<nat>)
      requires Sized(memory) && kern < |memory| <= MAX_FRAMES && |free| >= 67
      requires forall i, j :: 0 <= i < j < |free| ==> free[i] != free[j]
      requires forall i :: 0 <= i < |free| ==> free[i] < |memory| && free[i] != kern
      ensures Valid() && this.kern == kern && maps == map[] && fresh(mem)
    {
      this.kern, this.free, tables, maps := kern, free, map[], map[];
      mem := new seq<Word>[|memory|](i requires 0 <= i < |memory| => memory[i]);
      new;
      assert mem[..] == memory;
      mem[kern] := ZERO_PAGE;
      var w: Word := kern * PGSIZE + SELF_PERM;
      mem[kern] := mem[kern][UVPT_PDX := w];
      assert mem[..] == memory[kern := ZERO_PAGE[UVPT_PDX := w]];
    }

    // pgdir_walk with create
    method Walk(v: nat) returns (t: nat)
      requires Valid() && Regional(v / NPTENTRIES)
      modifies this, mem
      ensures Valid() && maps == old(maps) && v / NPTENTRIES in tables && t == tables[v / NPTENTRIES]
    {
      var i := v / NPTENTRIES;
      ReadDir(mem[..], kern, tables, maps, i);
      hide Stands;
      if mem[kern][i] % 2 == 0 {
        HangTable(i);
        ReadDir(mem[..], kern, tables, maps, i);
      }
      t := mem[kern][i] / PGSIZE;
    }

    // A zeroed page taken from the free list becomes the page table of directory entry i.
    method HangTable(i: nat)
      requires Valid() && Regional(i) && i !in tables
      modifies this, mem
      ensures Valid() && maps == old(maps) && i in tables
    {
      RegionalIs(i);
      hide REGIONAL;
      RoomLeft(tables, i);
      ReadDir(mem[..], kern, tables, maps, i);
      FreePop(free, mem.Length, kern, tables, i);
      var t := free[0];
      var w: Word := t * PGSIZE + TABLE_PERM;
      TableHung(mem[..], kern, tables, maps, i, t, w);
      hide Stands, FreeOk;
      ghost var mem0 := mem[..];
      free := free[1..];
      mem[t] := ZERO_PAGE;
      mem[kern] := mem[kern][i := w];
      assert mem[..] == SetWord(mem0[t := ZERO_PAGE], kern, i, w);
      GrowTables(tables, i, t);
      tables := tables[i := t];
    }

    // boot_map_region, sizes and addresses in pages
    method MapRegionAtBoot(v: nat, size: nat, f: nat, perm: nat)
      requires Valid() && v + size <= ALL_PAGES && f + size <= MAX_FRAMES && perm < PGSIZE
      requires forall u: nat :: v <= u < v + size ==> Regional(u / NPTENTRIES)
      modifies this, mem
      ensures Valid() && maps == MapRegion(old(maps), v, size, f, perm)
    {
      hide Stands, MapRegion, FreeOk, REGIONAL, Regional;
      MapRegionNext(maps, v, 0, f, perm);
      var offset := 0;
      while offset < size
        invariant offset <= size && Valid() && maps == MapRegion(old(maps), v, offset, f, perm)
      {
        var u := v + offset;
        var t := Walk(u);
        var w: Word := (f + offset) * PGSIZE + perm;
        MapRegionNext(old(maps), v, offset, f, perm);
        SetEntry(u, t, w);
        offset := offset + 1;
      }
    }

    method SetEntry(u: nat, t: nat, w: Word)
      requires Valid() && u / NPTENTRIES in tables && t == tables[u / NPTENTRIES]
      modifies this`maps, mem
      ensures Valid() && maps == old(maps)[u := w]
    {
      EntrySet(mem[..], kern, tables, maps, u, w);
      ghost var mem0 := mem[..];
      mem[t] := mem[t][u % NPTENTRIES := w];
      maps := maps[u := w];
      assert mem[..] == SetWord(mem0, t, u % NPTENTRIES, w);
    }
  }

  lemma GrowTables(tables: map<nat, nat>, i: nat, t: nat)
    requires tables.Keys <= REGIONAL && i in REGIONAL && i !in tables
    ensures tables[i := t].Keys <= REGIONAL && |tables[i := t]| == |tables| + 1
  {
    hide REGIONAL;
    var more := tables[i := t];
    assert more.Keys == tables.Keys + {i};
    assert |more.Keys| == |more| && |tables.Keys| == |tables|;
  }

  lemma RoomLeft(tables: map<nat, nat>, i: nat)
    requires tables.Keys <= REGIONAL && i in REGIONAL && i !in tables
    ensures |tables| < 67
  {
    RegionalSize();
    hide REGIONAL;
    assert tables.Keys + {i} <= REGIONAL;
    SubsetSize(tables.Keys + {i}, REGIONAL);
    assert |tables.Keys| == |tables|;
  }

  // ---------------------------------------------------------- mem_init and mem_init_mp

  // What mem_init is given: the pages of the arrays `pages` and `envs`, and the frames where they,
  // the boot stack and the per-CPU stacks lie.
  datatype Layout = Layout(pagesLen: nat, pagesAt: nat, envsLen: nat, envsAt: nat, bootstack: nat, kstacks: nat)

  // The two arrays fit the 4 MB windows made for them.
  predicate Fits(l: Layout) {
    && l.pagesLen <= NPTENTRIES && l.envsLen <= NPTENTRIES
    && l.pagesAt + l.pagesLen <= PHYS_PAGES && l.envsAt + l.envsLen <= PHYS_PAGES
    && l.bootstack + KSTK <= PHYS_PAGES && l.kstacks + NCPU * KSTK <= PHYS_PAGES
  }

  function StackPage(n: nat): nat
    requires n < NCPU
  {
    KSTACK_END - KSTK - n * (KSTK + KSTK)
  }

  // The loop of mem_init_mp after n CPUs.
  function Stacks(maps: map<nat, nat>, l: Layout, n: nat): map<nat, nat>
    requires n <= NCPU
  {
    if n == 0 then maps
    else MapRegion(Stacks(maps, l, n - 1), StackPage(n - 1), KSTK, l.kstacks + (n - 1) * KSTK, KERN_WRITE)
  }

  function BootMaps(l: Layout): map<nat, nat> {
    var m1 := MapRegion(map[], UPAGES_PAGE, l.pagesLen, l.pagesAt, USER_READ);
    var m2 := MapRegion(m1, UENVS_PAGE, l.envsLen, l.envsAt, USER_READ);
    var m3 := MapRegion(m2, KSTACK_END - KSTK, KSTK, l.bootstack, KERN_WRITE);
    MapRegion(m3, KSTACK_END, PHYS_PAGES, 0, KERN_WRITE)
  }

  // The layout of inc/memlayout.h: what page u above UTOP translates to.
  function Expected(l: Layout, u: nat): Entry {
    if UPAGES_PAGE <= u < UPAGES_PAGE + l.pagesLen then Leaf(l.pagesAt + u - UPAGES_PAGE, USER_READ)
    else if UENVS_PAGE <= u < UENVS_PAGE + l.envsLen then Leaf(l.envsAt + u - UENVS_PAGE, USER_READ)
    else if KSTACK_END <= u then Leaf(u - KSTACK_END, KERN_WRITE)
    else if KSTACK_END - NCPU * 2 * KSTK <= u then
      var n, i := (KSTACK_END - 1 - u) / (2 * KSTK), (u - KSTACK_END) % (2 * KSTK);
      if i >= KSTK then Leaf(l.kstacks + n * KSTK + i - KSTK, KERN_WRITE) else Fault
    else Fault
  }

  lemma BootMapsAt(l: Layout, u: nat)
    requires Fits(l)
    ensures var maps := BootMaps(l);
            (u in maps ==> maps[u] < 0x1_0000_0000) &&
            if UPAGES_PAGE <= u < UPAGES_PAGE + l.pagesLen then
              u in maps && maps[u] == (l.pagesAt + u - UPAGES_PAGE) * PGSIZE + USER_READ
            else if UENVS_PAGE <= u < UENVS_PAGE + l.envsLen then
              u in maps && maps[u] == (l.envsAt + u - UENVS_PAGE) * PGSIZE + USER_READ
            else if KSTACK_END <= u < ALL_PAGES then u in maps && maps[u] == (u - KSTACK_END) * PGSIZE + KERN_WRITE
            else u in maps ==> KSTACK_END - KSTK <= u < KSTACK_END
  {
    var m1 := MapRegion(map[], UPAGES_PAGE, l.pagesLen, l.pagesAt, USER_READ);
    var m2 := MapRegion(m1, UENVS_PAGE, l.envsLen, l.envsAt, USER_READ);
    var m3 := MapRegion(m2, KSTACK_END - KSTK, KSTK, l.bootstack, KERN_WRITE);
    MapRegionAt(map[], UPAGES_PAGE, l.pagesLen, l.pagesAt, USER_READ, u);
    MapRegionAt(m1, UENVS_PAGE, l.envsLen, l.envsAt, USER_READ, u);
    MapRegionAt(m2, KSTACK_END - KSTK, KSTK, l.bootstack, KERN_WRITE, u);
    MapRegionAt(m3, KSTACK_END, PHYS_PAGES, 0, KERN_WRITE, u);
  }

  // Page u belongs to the stack of one of the first n CPUs.
  predicate InStacks(u: nat, n: nat) {
    KSTACK_END - n * (2 * KSTK) <= u < KSTACK_END && (u - KSTACK_END) % (2 * KSTK) >= KSTK
  }

  lemma {:induction false} StacksAt(maps: map<nat, nat>, l: Layout, n: nat, u: nat)
    requires n <= NCPU
    ensures var maps' := Stacks(maps, l, n);
            if InStacks(u, n) then
              u in maps' &&
              maps'[u] == (l.kstacks + (KSTACK_END - 1 - u) / (2 * KSTK) * KSTK +
                           (u - KSTACK_END) % (2 * KSTK) - KSTK) * PGSIZE + KERN_WRITE
            else (u in maps' <==> u in maps) && (u in maps ==> maps'[u] == maps[u])
  {
    if n > 0 {
      StacksAt(maps, l, n - 1, u);
      MapRegionAt(Stacks(maps, l, n - 1), StackPage(n - 1), KSTK, l.kstacks + (n - 1) * KSTK, KERN_WRITE, u);
      OneMore(u, n);
    }
  }

  lemma OneMore(u: nat, n: nat)
    requires 0 < n <= NCPU
    ensures InStacks(u, n) <==> InStacks(u, n - 1) || StackPage(n - 1) <= u < StackPage(n - 1) + KSTK
    ensures StackPage(n - 1) <= u < StackPage(n - 1) + KSTK ==>
              !InStacks(u, n - 1) && (KSTACK_END - 1 - u) / (2 * KSTK) == n - 1
              && (u - KSTACK_END) % (2 * KSTK) - KSTK == u - StackPage(n - 1)
  {}

  method MemInit(memory: seq<seq<Word>>, kern: nat, free: seq<nat>, l: Layout) returns (b: Boot)
    requires Sized(memory) && kern < |memory| <= MAX_FRAMES && |free| >= 67 && Fits(l)
    requires FreeOk(free, |memory|, kern, map[])
    ensures b.Valid() && b.kern == kern && fresh(b) && fresh(b.mem)
    ensures b.maps == Stacks(BootMaps(l), l, NCPU)
  {
    hide Stands, MapRegion, FreeOk, REGIONAL;
    Unpack(free, |memory|, kern);
    b := new Boot(memory, kern, free);
    b.MapRegionAtBoot(UPAGES_PAGE, l.pagesLen, l.pagesAt, USER_READ);
    b.MapRegionAtBoot(UENVS_PAGE, l.envsLen, l.envsAt, USER_READ);
    b.MapRegionAtBoot(KSTACK_END - KSTK, KSTK, l.bootstack, KERN_WRITE);
    b.MapRegionAtBoot(KSTACK_END, PHYS_PAGES, 0, KERN_WRITE);
    // mem_init_mp
    for i := 0 to NCPU
      invariant b.Valid() && b.maps == Stacks(BootMaps(l), l, i) && fresh(b) && fresh(b.mem) && b.kern == kern
    {
      b.MapRegionAtBoot(StackPage(i), KSTK, l.kstacks + i * KSTK, KERN_WRITE);
    }
  }

  lemma Unpack(free: seq<nat>, n: nat, kern: nat)
    requires FreeOk(free, n, kern, map[])
    ensures forall i, j :: 0 <= i < j < |free| ==> free[i] != free[j]
    ensures forall i :: 0 <= i < |free| ==> free[i] < n && free[i] != kern
  {}

  lemma MapsExpected(l: Layout, u: nat)
    requires Fits(l) && UENVS_PAGE <= u < ALL_PAGES && u / NPTENTRIES != UVPT_PDX
    ensures var maps := Stacks(BootMaps(l), l, NCPU);
            && (u in maps <==> Expected(l, u).Leaf?)
            && (u in maps ==>
                 maps[u] == Expected(l, u).frame * PGSIZE + Expected(l, u).perm
                 && Expected(l, u).perm in {KERN_WRITE, USER_READ})
  {
    StacksAt(BootMaps(l), l, NCPU, u);
    BootMapsAt(l, u);
    hide Stacks, BootMaps;
  }

  lemma LeafParts(f: nat, perm: nat)
    requires perm in {KERN_WRITE, USER_READ}
    ensures var w := f * PGSIZE + perm; w % 2 == 1 && w / PGSIZE == f && w % PGSIZE == perm
  {}

  // The directory mem_init leaves translates every page above UTOP but those of the virtual
  // page table as the layout says: the per-CPU stacks have replaced the boot stack, with an unmapped guard
  // below each.
  lemma KernelTranslates(mem: seq<seq<Word>>, kern: nat, tables: map<nat, nat>, l: Layout, u: nat)
    requires Stands(mem, kern, tables, Stacks(BootMaps(l), l, NCPU)) && Fits(l)
    requires UENVS_PAGE <= u < ALL_PAGES && u / NPTENTRIES != UVPT_PDX
    ensures Walk32(mem, kern, u * PGSIZE) == Expected(l, u)
  {
    MapsExpected(l, u);
    KernWalk(mem, kern, tables, Stacks(BootMaps(l), l, NCPU), u);
    hide Stands, Stacks, BootMaps, Walk32, Expected;
    if Expected(l, u).Leaf? { LeafParts(Expected(l, u).frame, Expected(l, u).perm); }
  }

  lemma StackIndex(n: nat, k: nat)
    requires k < 2 * KSTK
    ensures (2 * KSTK * (n + 1) - k - 1) / (2 * KSTK) == n && (k - 2 * KSTK * (n + 1)) % (2 * KSTK) == k
  {}

  // The k-th page of the n-th slice below KSTACKTOP: a guard page in the lower half.
  lemma StackSlice(l: Layout, n: nat, k: nat)
    requires Fits(l) && n < NCPU && k < 2 * KSTK
    ensures var u := KSTACK_END - 2 * KSTK * (n + 1) + k;
            Expected(l, u) == (if k >= KSTK then Leaf(l.kstacks + n * KSTK + k - KSTK, KERN_WRITE) else Fault)
  {
    StackIndex(n, k);
  }

  // The page there, in the directory mem_init leaves.
  function SlicePage(n: nat, k: nat): nat
    requires n < NCPU && k < 2 * KSTK
  {
    KSTACK_END - 2 * KSTK * (n + 1) + k
  }

  lemma SliceWalk(mem: seq<seq<Word>>, kern: nat, tables: map<nat, nat>, l: Layout, n: nat, k: nat)
    requires Stands(mem, kern, tables, Stacks(BootMaps(l), l, NCPU)) && Fits(l) && n < NCPU && k < 2 * KSTK
    ensures Walk32(mem, kern, SlicePage(n, k) * PGSIZE) ==
            if k >= KSTK then Leaf(l.kstacks + n * KSTK + k - KSTK, KERN_WRITE) else Fault
  {
    hide Stands, Stacks, BootMaps, Walk32, Expected;
    StackSlice(l, n, k);
    KernelTranslates(mem, kern, tables, l, SlicePage(n, k));
  }

  // The stack clauses of check_kern_pgdir.
  lemma CheckStacks(mem: seq<seq<Word>>, kern: nat, tables: map<nat, nat>, l: Layout, n: nat, i: nat)
    requires Stands(mem, kern, tables, Stacks(BootMaps(l), l, NCPU)) && Fits(l) && n < NCPU && i < KSTK
    ensures Walk32(mem, kern, SlicePage(n, KSTK + i) * PGSIZE) == Leaf(l.kstacks + n * KSTK + i, KERN_WRITE)
    ensures Walk32(mem, kern, SlicePage(n, i) * PGSIZE) == Fault
  {
    hide Stands, Stacks, BootMaps, Walk32;
    SliceWalk(mem, kern, tables, l, n, i);
    SliceWalk(mem, kern, tables, l, n, KSTK + i);
  }

  // No two stack pages share a frame.
  lemma StacksDisjoint(mem: seq<seq<Word>>, kern: nat, tables: map<nat, nat>, l: Layout, n: nat, i: nat, m: nat, j: nat)
    requires Stands(mem, kern, tables, Stacks(BootMaps(l), l, NCPU)) && Fits(l)
    requires n < NCPU && m < NCPU && i < KSTK && j < KSTK && (n, i) != (m, j)
    ensures var at := Walk32(mem, kern, SlicePage(n, KSTK + i) * PGSIZE);
            var at' := Walk32(mem, kern, SlicePage(m, KSTK + j) * PGSIZE);
            at.Leaf? && at'.Leaf? && at.frame != at'.frame
  {
    hide Stands, Stacks, BootMaps, Walk32;
    CheckStacks(mem, kern, tables, l, n, i);
    CheckStacks(mem, kern, tables, l, m, j);
  }
}
