// The walk the MMU makes through a page directory, and what it finds in the directories the
// kernel builds: the user's map below UTOP, and the page tables themselves at UVPT.
module Hardware {
  import opened Mmu
  import opened FlatMemory
  import opened Represents

  datatype Entry = Fault | Leaf(frame: nat, perm: nat)

  // The entry for the page that contains va; a directory or table outside memory faults.
  function Walk32(mem: seq<seq<Word>>, d: nat, va: nat): Entry
    requires Sized(mem)
  {
    var i, j := va / PGSIZE / NPTENTRIES % NPTENTRIES, va / PGSIZE % NPTENTRIES;
    if d >= |mem| || mem[d][i] % 2 == 0 then Fault
    else
      var t := mem[d][i] / PGSIZE;
      if t >= |mem| || mem[t][j] % 2 == 0 then Fault else Leaf(mem[t][j] / PGSIZE, mem[t][j] % PGSIZE)
  }

  // The word a load of the aligned address va returns.
  function Load32(mem: seq<seq<Word>>, d: nat, va: nat): (w: int)
    requires Sized(mem)
  {
    match Walk32(mem, d, va)
    case Fault => -1
    case Leaf(f, _) => if f < |mem| then mem[f][va % PGSIZE / 4] else -1
  }

  // Below UTOP the walk finds exactly the user's mappings.
  lemma UserWalk(pages: seq<PageInfo>, mem: seq<seq<Word>>, head: int, s: Flat, managed: set<nat>, kern: nat, d: nat,
                 va: nat)
    requires Rep(pages, mem, head, s, managed, kern) && d in s.dirs && va < UTOP
    ensures var k := (d, va / PGSIZE);
            Walk32(mem, d, va) == if k in s.maps then Leaf(s.maps[k].frame, s.maps[k].perm) else Fault
  {
    var v := va / PGSIZE;
    var i := v / NPTENTRIES;
    assert i % NPTENTRIES == i;
    ReadPde(pages, mem, head, s, managed, kern, d, i);
    if (d, i) in s.tables {
      ReadPte(pages, mem, head, s, managed, kern, (d, v));
    } else {
      RepParts(pages, mem, head, s, managed, kern);
      MappedHasTable(s, managed, (d, v));
    }
  }

  lemma UvptAddress(n: nat)
    requires n < NPTENTRIES * NPTENTRIES
    ensures var va := UVPT + 4 * n;
            va / PGSIZE / NPTENTRIES % NPTENTRIES == UVPT_PDX && va / PGSIZE % NPTENTRIES == n / NPTENTRIES
            && va % PGSIZE / 4 == n % NPTENTRIES
  {
    var va := UVPT + 4 * n;
    assert va / PGSIZE == UVPT_PDX * NPTENTRIES + n / NPTENTRIES;
  }

  // The virtual page table: the load of UVPT + 4n goes to word n % 1024 of the frame that
  // directory entry n / 1024 names, whichever part of the address space page n is in.
  lemma VirtualPageTable(pages: seq<PageInfo>, mem: seq<seq<Word>>, head: int, s: Flat, managed: set<nat>, kern: nat,
                         d: nat, n: nat)
    requires Rep(pages, mem, head, s, managed, kern) && d in s.dirs && n < NPTENTRIES * NPTENTRIES
    ensures d < |mem|
    ensures var pde := mem[d][n / NPTENTRIES];
            Walk32(mem, d, UVPT + 4 * n) == if pde % 2 == 1 then Leaf(pde / PGSIZE, pde % PGSIZE) else Fault
    ensures var pde := mem[d][n / NPTENTRIES];
            pde % 2 == 1 && pde / PGSIZE < |mem| ==> Load32(mem, d, UVPT + 4 * n) == mem[pde / PGSIZE][n % NPTENTRIES]
  {
    hide Ok, Chain, Counts, DirWords, TableWords;
    UvptAddress(n);
    assert mem[d][UVPT_PDX] == d * PGSIZE + SELF_PERM;
  }

  const UVPD := UVPT + UVPT / PGSIZE * 4

  // uvpd[i] is directory entry i.
  lemma VirtualDirectory(pages: seq<PageInfo>, mem: seq<seq<Word>>, head: int, s: Flat, managed: set<nat>, kern: nat,
                         d: nat, i: nat)
    requires Rep(pages, mem, head, s, managed, kern) && d in s.dirs && i < NPTENTRIES
    ensures d < |mem| && Load32(mem, d, UVPD + 4 * i) == mem[d][i]
  {
    hide Ok, Chain, Counts, DirWords, TableWords;
    assert mem[d][UVPT_PDX] == d * PGSIZE + SELF_PERM;
    VirtualPageTable(pages, mem, head, s, managed, kern, d, UVPT_PDX * NPTENTRIES + i);
  }

  // What fork reads: uvpd[v / 1024] tells whether page v has a table, and then uvpt[v] is its entry.
  lemma ForkReads(pages: seq<PageInfo>, mem: seq<seq<Word>>, head: int, s: Flat, managed: set<nat>, kern: nat, d: nat,
                  v: nat)
    requires Rep(pages, mem, head, s, managed, kern) && d in s.dirs && v < UPAGES_TOTAL
    ensures Load32(mem, d, UVPD + 4 * (v / NPTENTRIES)) % 2 == 1 <==> TableOf((d, v)) in s.tables
    ensures TableOf((d, v)) in s.tables ==> Load32(mem, d, UVPT + 4 * v) == EntryWord(s.maps, (d, v))
    ensures TableOf((d, v)) in s.tables ==> (Load32(mem, d, UVPT + 4 * v) % 2 == 1 <==> (d, v) in s.maps)
    ensures TableOf((d, v)) !in s.tables ==> Load32(mem, d, UVPT + 4 * v) == -1
    ensures (d, v) in s.maps ==> TableOf((d, v)) in s.tables
  {
    VirtualDirectory(pages, mem, head, s, managed, kern, d, v / NPTENTRIES);
    VirtualPageTable(pages, mem, head, s, managed, kern, d, v);
    ReadPde(pages, mem, head, s, managed, kern, d, v / NPTENTRIES);
    if TableOf((d, v)) in s.tables { ReadPte(pages, mem, head, s, managed, kern, (d, v)); }
  }
}
