// What user programs may read and write: the permission bits of directory and page-table entries
// together, over the whole 4 GB address space.
module Access {
  import opened Mmu
  import opened FlatMemory
  import opened Represents
  import opened Hardware
  import opened KernMap

  // An entry that lets user code through.
  predicate Open(w: nat, write: bool) {
    Has(w, PTE_P) && Has(w, PTE_U) && (write ==> Has(w, PTE_W))
  }

  // A user access to va passes both levels.
  predicate UserMay(mem: seq<seq<Word>>, d: nat, va: nat, write: bool)
    requires Sized(mem)
  {
    var i, j := va / PGSIZE / NPTENTRIES % NPTENTRIES, va / PGSIZE % NPTENTRIES;
    d < |mem| && Open(mem[d][i], write) && mem[d][i] / PGSIZE < |mem| && Open(mem[mem[d][i] / PGSIZE][j], write)
  }

  lemma EntryBits(f: nat, perm: nat)
    requires perm < PGSIZE
    ensures var w := f * PGSIZE + perm;
            w / PGSIZE == f && w % PGSIZE == perm && (forall write :: Open(w, write) <==> Open(perm, write))
  {
    var w := f * PGSIZE + perm;
    Halves(f, perm);
    assert Has(w, PTE_P) == Has(perm, PTE_P) && Has(w, PTE_W) == Has(perm, PTE_W) && Has(w, PTE_U) == Has(perm, PTE_U);
    hide Has;
  }

  lemma Halves(f: nat, perm: nat)
    requires perm < PGSIZE
    ensures var w := f * PGSIZE + perm;
            w / 2 == 2048 * f + perm / 2 && w / 4 == 1024 * f + perm / 4 && w / PGSIZE == f && w % PGSIZE == perm
  {}

  // Page tables and the directory itself: open to user reads, and tables to writes as well, so that
  // the page-table entry alone decides.
  lemma LevelBits()
    ensures Open(TABLE_PERM, true) && Open(TABLE_PERM, false)
    ensures Open(SELF_PERM, false) && !Open(SELF_PERM, true)
    ensures Open(USER_READ, false) && !Open(USER_READ, true)
    ensures !Open(KERN_WRITE, false) && !Open(KERN_WRITE, true) && Has(KERN_WRITE, PTE_W)
  {}

  // Below UTOP the map decides.
  lemma BelowUtop(pages: seq<PageInfo>, mem: seq<seq<Word>>, head: int, s: Flat, managed: set<nat>, kern: nat, d: nat,
                  va: nat, write: bool)
    requires Rep(pages, mem, head, s, managed, kern) && d in s.dirs && va < UTOP
    ensures UserMay(mem, d, va, write) <==>
            (d, va / PGSIZE) in s.maps && Open(s.maps[(d, va / PGSIZE)].perm, write)
  {
    hide Rep, Ok, Has;
    var v := va / PGSIZE;
    var i := v / NPTENTRIES;
    assert i % NPTENTRIES == i;
    LevelBits();
    RepParts(pages, mem, head, s, managed, kern);
    MappedHasTable(s, managed, (d, v));
    ReadPde(pages, mem, head, s, managed, kern, d, i);
    TableEntry(pages, mem, head, s, managed, kern, d, i);
    if (d, i) in s.tables {
      EntryBits(s.tables[(d, i)], TABLE_PERM);
      ReadPte(pages, mem, head, s, managed, kern, (d, v));
      LeafBits(pages, mem, head, s, managed, kern, (d, v));
    }
    hide Open;
    OpenPresent(mem[d][i], write);
    if (d, i) in s.tables { OpenPresent(mem[s.tables[(d, i)]][v % NPTENTRIES], write); }
  }

  lemma OpenPresent(w: nat, write: bool)
    ensures Open(w, write) ==> w % 2 == 1
  {}

  lemma TableEntry(pages: seq<PageInfo>, mem: seq<seq<Word>>, head: int, s: Flat, managed: set<nat>, kern: nat, d: nat,
                   i: nat)
    requires Rep(pages, mem, head, s, managed, kern) && d in s.dirs && i < UPDES
    ensures d < |mem| && |mem[d]| == NPTENTRIES
    ensures (d, i) in s.tables ==> mem[d][i] == s.tables[(d, i)] * PGSIZE + TABLE_PERM
  {
    hide Ok, Chain, Counts, KernelWords;
    assert mem[d][i] == PdeWord(s.tables, d, i);
  }

  lemma LeafBits(pages: seq<PageInfo>, mem: seq<seq<Word>>, head: int, s: Flat, managed: set<nat>, kern: nat, k: Slot)
    requires Rep(pages, mem, head, s, managed, kern) && TableOf(k) in s.tables
    ensures s.tables[TableOf(k)] < |mem| && |mem[s.tables[TableOf(k)]]| == NPTENTRIES
    ensures k in s.maps ==>
              forall write :: Open(mem[s.tables[TableOf(k)]][k.1 % NPTENTRIES], write) <==> Open(s.maps[k].perm, write)
  {
    ReadPte(pages, mem, head, s, managed, kern, k);
    if k in s.maps {
      var w := mem[s.tables[TableOf(k)]][k.1 % NPTENTRIES];
      assert w == w / PGSIZE * PGSIZE + s.maps[k].perm;
      EntryBits(w / PGSIZE, s.maps[k].perm);
    }
  }

  // The virtual page table: nobody writes page tables through it, and its page for directory entry i can be
  // read where that entry is open to reads.
  lemma VirtualTablesReadOnly(pages: seq<PageInfo>, mem: seq<seq<Word>>, head: int, s: Flat, managed: set<nat>,
                              kern: nat,
                              d: nat, va: nat)
    requires Rep(pages, mem, head, s, managed, kern) && d in s.dirs && UVPT <= va < UVPT + 0x40_0000
    ensures !UserMay(mem, d, va, true)
    ensures d < |mem| && |mem[d]| == NPTENTRIES
    ensures var pde := mem[d][(va - UVPT) / PGSIZE];
            UserMay(mem, d, va, false) <==> Open(pde, false)
  {
    hide Ok, Chain, Counts, DirWords, TableWords;
    assert mem[d][UVPT_PDX] == d * PGSIZE + SELF_PERM;
    assert va / PGSIZE / NPTENTRIES == UVPT_PDX && va / PGSIZE % NPTENTRIES == (va - UVPT) / PGSIZE;
    EntryBits(d, SELF_PERM);
    LevelBits();
    hide Open;
  }

  // The windows onto the arrays pages and envs.
  predicate Window(l: Layout, u: nat) {
    UPAGES_PAGE <= u < UPAGES_PAGE + l.pagesLen || UENVS_PAGE <= u < UENVS_PAGE + l.envsLen
  }

  lemma ExpectedBits(l: Layout, u: nat, write: bool)
    requires Fits(l)
    ensures Expected(l, u).Leaf? ==>
              Expected(l, u).perm < PGSIZE && (Open(Expected(l, u).perm, write) <==> Window(l, u) && !write)
    ensures Window(l, u) ==> Expected(l, u).Leaf?
    ensures Expected(l, u).Leaf? ==> (Has(Expected(l, u).perm, PTE_W) <==> !Window(l, u))
  {
    LevelBits();
  }

  // In the kernel's directory user code may read the two windows, and nothing else at all.
  lemma KernelDirectory(mem: seq<seq<Word>>, kern: nat, tables: map<nat, nat>, l: Layout, va: nat, write: bool)
    requires Stands(mem, kern, tables, Stacks(BootMaps(l), l, NCPU)) && Fits(l)
    requires UTOP <= va < 0x1_0000_0000 && va / PGSIZE / NPTENTRIES != UVPT_PDX
    ensures UserMay(mem, kern, va, write) <==> Window(l, va / PGSIZE) && !write
  {
    var u, maps := va / PGSIZE, Stacks(BootMaps(l), l, NCPU);
    var i, j := u / NPTENTRIES, u % NPTENTRIES;
    assert u == i * NPTENTRIES + j && i < NPTENTRIES;
    MapsExpected(l, u);
    ExpectedBits(l, u, write);
    LevelBits();
    assert DirIs(mem, kern, tables, i);
    if i in tables {
      assert EntryIs(mem, tables, maps, i, j);
      EntryBits(tables[i], TABLE_PERM);
      if u in maps { EntryBits(Expected(l, u).frame, Expected(l, u).perm); }
    }
    hide Stacks, BootMaps, Expected, Window;
    OpenPresent(mem[kern][i], write);
    if i in tables { OpenPresent(mem[tables[i]][j], write); }
    hide Open;
  }

  // Every directory repeats those entries.
  lemma AboveUtop(pages: seq<PageInfo>, mem: seq<seq<Word>>, head: int, s: Flat, managed: set<nat>, kern: nat, d: nat,
                  va: nat, write: bool)
    requires Rep(pages, mem, head, s, managed, kern) && d in s.dirs
    requires UTOP <= va < 0x1_0000_0000 && va / PGSIZE / NPTENTRIES != UVPT_PDX
    ensures UserMay(mem, d, va, write) <==> UserMay(mem, kern, va, write)
  {
    hide Ok, Chain, Counts, DirWords, TableWords, Open;
    var i := va / PGSIZE / NPTENTRIES;
    assert i % NPTENTRIES == i;
    assert mem[d][i] == mem[kern][i];
  }

  // The whole address space of an environment: what user code can write is what its own map has
  // writable for users, below UTOP; above it can read the two windows and its own page tables.
  lemma UserWrites(pages: seq<PageInfo>, mem: seq<seq<Word>>, head: int, s: Flat, managed: set<nat>, kern: nat,
                   tables: map<nat, nat>, l: Layout, d: nat, va: nat)
    requires Rep(pages, mem, head, s, managed, kern) && d in s.dirs && va < 0x1_0000_0000
    requires Stands(mem, kern, tables, Stacks(BootMaps(l), l, NCPU)) && Fits(l)
    ensures UserMay(mem, d, va, true) <==>
            va < UTOP && (d, va / PGSIZE) in s.maps && Has(s.maps[(d, va / PGSIZE)].perm, PTE_P)
            && Has(s.maps[(d, va / PGSIZE)].perm, PTE_U) && Has(s.maps[(d, va / PGSIZE)].perm, PTE_W)
    ensures va >= UTOP && va / PGSIZE / NPTENTRIES != UVPT_PDX ==>
              (UserMay(mem, d, va, false) <==> Window(l, va / PGSIZE))
  {
    hide Rep, Stands, Stacks, BootMaps, Window;
    if va < UTOP {
      BelowUtop(pages, mem, head, s, managed, kern, d, va, true);
    } else if va / PGSIZE / NPTENTRIES == UVPT_PDX {
      VirtualTablesReadOnly(pages, mem, head, s, managed, kern, d, va);
    } else {
      AboveUtop(pages, mem, head, s, managed, kern, d, va, true);
      AboveUtop(pages, mem, head, s, managed, kern, d, va, false);
      KernelDirectory(mem, kern, tables, l, va, true);
      KernelDirectory(mem, kern, tables, l, va, false);
    }
  }
}
