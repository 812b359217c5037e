// How the words of physical memory and the array `pages` stand for a flat memory state,
// and why each elementary write of kern/pmap.c keeps them in step.
module Represents {
  import opened Mmu
  import opened FlatMemory

  const MAX_FRAMES := 0x10_0000
  const TABLE_PERM := 7  // PTE_P | PTE_U | PTE_W
  const SELF_PERM := 5   // PTE_P | PTE_U

  function PdeWord(tables: map<Slot, nat>, d: nat, i: nat): nat {
    if (d, i) in tables then tables[(d, i)] * PGSIZE + TABLE_PERM else 0
  }

  function PteWord(maps: map<Slot, Pte>, d: nat, i: nat, j: nat): nat {
    var k := (d, i * NPTENTRIES + j);
    if k in maps then maps[k].frame * PGSIZE + maps[k].perm else 0
  }

  // The link of the i-th free frame is the next one, or NULL at the end.
  ghost predicate Linked(pages: seq<PageInfo>, free: seq<nat>, i: nat)
    requires i < |free|
  {
    free[i] < |pages| && pages[free[i]].link == if i + 1 < |free| then free[i + 1] else NULL
  }

  // page_free_list and the pp_link fields spell out the free list.
  ghost predicate Chain(pages: seq<PageInfo>, head: int, free: seq<nat>) {
    && head == (if free == [] then NULL else free[0])
    && (forall i :: 0 <= i < |free| ==> Linked(pages, free, i))
  }

  // pp_ref counts the names of the frame; a frame off the list has no link.
  ghost predicate Counts(pages: seq<PageInfo>, s: Flat, managed: set<nat>) {
    forall f :: f in managed ==>
      && f < |pages|
      && pages[f].refs == RefCount(s, f) < REF_MOD
      && (f !in s.free ==> pages[f].link == NULL)
  }

  ghost predicate Sized(mem: seq<seq<Word>>) {
    forall f :: 0 <= f < |mem| ==> |mem[f]| == NPTENTRIES
  }

  ghost predicate DirWords(mem: seq<seq<Word>>, s: Flat)
    requires Sized(mem)
  {
    && (forall d :: d in s.dirs ==> d < |mem|)
    && (forall d, i :: d in s.dirs && 0 <= i < UPDES ==> mem[d][i] == PdeWord(s.tables, d, i))
  }

  ghost predicate TableWords(mem: seq<seq<Word>>, s: Flat)
    requires Sized(mem)
  {
    && (forall k :: k in s.tables ==> s.tables[k] < |mem|)
    && (forall k, j :: k in s.tables && 0 <= j < NPTENTRIES ==> mem[s.tables[k]][j] == PteWord(s.maps, k.0, k.1, j))
  }

  // Above UTOP every directory repeats the kernel's, except for the entry at UVPT, which
  // names the directory itself; the kernel's directory maps nothing for the user.
  ghost predicate KernelWords(mem: seq<seq<Word>>, s: Flat, kern: nat)
    requires Sized(mem)
  {
    && kern < |mem|
    && (forall i :: 0 <= i < UPDES ==> mem[kern][i] == 0)
    && (forall d :: d in s.dirs ==> d < |mem| && mem[d][UVPT_PDX] == d * PGSIZE + SELF_PERM)
    && (forall d, i :: d in s.dirs && UPDES <= i < NPTENTRIES && i != UVPT_PDX ==>
         d < |mem| && mem[d][i] == mem[kern][i])
  }

  ghost predicate Perms(s: Flat) {
    forall k :: k in s.maps ==> s.maps[k].perm < PGSIZE && s.maps[k].perm % 2 == 1
  }

  ghost predicate Bounds(pages: seq<PageInfo>, mem: seq<seq<Word>>, managed: set<nat>, kern: nat) {
    && |pages| == |mem| <= MAX_FRAMES
    && Sized(mem)
    && (forall f :: f in managed ==> f < |mem|)
    && kern < |mem| && kern !in managed
  }

  ghost predicate Words(mem: seq<seq<Word>>, s: Flat, kern: nat)
    requires Sized(mem)
  {
    DirWords(mem, s) && TableWords(mem, s) && KernelWords(mem, s, kern)
  }

  ghost predicate Rep(pages: seq<PageInfo>, mem: seq<seq<Word>>, head: int, s: Flat, managed: set<nat>, kern: nat) {
    && Bounds(pages, mem, managed, kern)
    && Ok(s, managed) && Perms(s)
    && Chain(pages, head, s.free) && Counts(pages, s, managed)
    && Words(mem, s, kern)
  }

  // ------------------------------------------------------------ the free list

  function SetWord(mem: seq<seq<Word>>, f: nat, i: nat, w: Word): seq<seq<Word>>
    requires f < |mem| && i < |mem[f]|
  {
    var page: seq<Word> := mem[f][i := w];
    mem[f := page]
  }

  function SetLink(pages: seq<PageInfo>, f: nat, link: int): seq<PageInfo>
    requires f < |pages|
  {
    pages[f := pages[f].(link := link)]
  }

  function SetRefs(pages: seq<PageInfo>, f: nat, refs: nat): seq<PageInfo>
    requires f < |pages|
  {
    pages[f := pages[f].(refs := refs)]
  }

  lemma ChainPop(pages: seq<PageInfo>, head: int, free: seq<nat>)
    requires Chain(pages, head, free) && NoDup(free) && free != []
    ensures free[0] < |pages|
    ensures Chain(SetLink(pages, free[0], NULL), pages[free[0]].link, free[1..])
  {
    assert Linked(pages, free, 0);
    var pages' := SetLink(pages, free[0], NULL);
    forall i | 0 <= i < |free| - 1 ensures Linked(pages', free[1..], i) {
      assert Linked(pages, free, i + 1);
    }
  }

  lemma ChainPush(pages: seq<PageInfo>, head: int, free: seq<nat>, f: nat)
    requires Chain(pages, head, free) && f !in free && f < |pages|
    ensures Chain(SetLink(pages, f, head), f, [f] + free)
  {
    var more, pages' := [f] + free, SetLink(pages, f, head);
    forall i | 0 <= i < |more| ensures Linked(pages', more, i) {
      if i > 0 {
        assert Linked(pages, free, i - 1);
        assert more[i] == free[i - 1] && free[i - 1] in free;
      }
    }
  }

  lemma ChainKeep(pages: seq<PageInfo>, pages': seq<PageInfo>, head: int, free: seq<nat>)
    requires Chain(pages, head, free)
    requires |pages'| == |pages| && forall i :: 0 <= i < |pages| ==> pages'[i].link == pages[i].link
    ensures Chain(pages', head, free)
  {
    forall i | 0 <= i < |free| ensures Linked(pages', free, i) {
      assert Linked(pages, free, i);
    }
  }

  // ------------------------------------------------------- steps on the page words

  // A write to a frame that is no directory and no page table is invisible.
  lemma WordsOffTables(mem: seq<seq<Word>>, s: Flat, kern: nat, f: nat, page: seq<Word>)
    requires Sized(mem) && Words(mem, s, kern)
    requires |page| == NPTENTRIES && f < |mem| && f != kern
    requires f !in s.dirs && forall k :: k in s.tables ==> s.tables[k] != f
    ensures Sized(mem[f := page]) && Words(mem[f := page], s, kern)
  {
    var mem' := mem[f := page];
    forall k: Slot, j | k in s.tables && 0 <= j < NPTENTRIES
      ensures mem'[s.tables[k]][j] == PteWord(s.maps, k.0, k.1, j) {
      assert mem[s.tables[k]][j] == PteWord(s.maps, k.0, k.1, j);
    }
  }

  const ZERO_PAGE: seq<Word> := seq(NPTENTRIES, i => 0)

  // A zeroed frame hung below a directory.
  lemma WordsAddTable(mem: seq<seq<Word>>, s: Flat, kern: nat, k: Slot, t: nat, w: Word)
    requires Sized(mem) && Words(mem, s, kern) && Rooted(s)
    requires k !in s.tables && k.0 in s.dirs && k.1 < UPDES && k.0 != kern
    requires k.0 < |mem|
    requires t < |mem| && t != k.0 && mem[t] == ZERO_PAGE && w == t * PGSIZE + TABLE_PERM
    requires forall k' :: k' in s.tables ==> s.tables[k'] != k.0
    ensures var mem' := SetWord(mem, k.0, k.1, w); Sized(mem') && Words(mem', AddTable(s, k, t), kern)
  {
    var mem', s' := SetWord(mem, k.0, k.1, w), AddTable(s, k, t);
    forall d, i | d in s'.dirs && 0 <= i < UPDES ensures mem'[d][i] == PdeWord(s'.tables, d, i) {
      assert mem[d][i] == PdeWord(s.tables, d, i);
    }
    forall k': Slot, j | k' in s'.tables && 0 <= j < NPTENTRIES
      ensures mem'[s'.tables[k']][j] == PteWord(s'.maps, k'.0, k'.1, j) {
      if k' == k {
        assert (k.0, k.1 * NPTENTRIES + j) !in s.maps by {
          assert (k.1 * NPTENTRIES + j) / NPTENTRIES == k.1;
        }
      } else {
        assert mem[s.tables[k']][j] == PteWord(s.maps, k'.0, k'.1, j);
      }
    }
  }

  // What the writes below need to know of the roles of frames.
  ghost predicate TablesApart(s: Flat, kern: nat) {
    && (forall k, k' :: k in s.tables && k' in s.tables && s.tables[k] == s.tables[k'] ==> k == k')
    && (forall k :: k in s.tables ==> s.tables[k] !in s.dirs && s.tables[k] != kern)
  }

  ghost predicate SameBut(maps: map<Slot, Pte>, maps': map<Slot, Pte>, k: Slot) {
    forall j :: j != k ==> (j in maps' <==> j in maps) && (j in maps' ==> maps'[j] == maps[j])
  }

  lemma RemoveSameBut(s: Flat, k: Slot)
    requires k in s.maps
    ensures SameBut(s.maps, Remove(s, k).maps, k)
    ensures Remove(s, k).dirs == s.dirs && Remove(s, k).tables == s.tables && k !in Remove(s, k).maps
  {}

  function EntryWord(maps: map<Slot, Pte>, k: Slot): nat {
    if k in maps then maps[k].frame * PGSIZE + maps[k].perm else 0
  }

  function TableOf(k: Slot): Slot { (k.0, k.1 / NPTENTRIES) }

  // A page-table entry written: the mapping at k becomes what the word says.
  lemma WordsSetPte(mem: seq<seq<Word>>, s: Flat, s': Flat, kern: nat, k: Slot, w: Word)
    requires Sized(mem) && Words(mem, s, kern) && TablesApart(s, kern)
    requires TableOf(k) in s.tables && s'.tables == s.tables && s'.dirs == s.dirs
    requires SameBut(s.maps, s'.maps, k)
    requires w == EntryWord(s'.maps, k)
    ensures s.tables[TableOf(k)] < |mem|
    ensures var mem' := SetWord(mem, s.tables[TableOf(k)], k.1 % NPTENTRIES, w); Sized(mem') && Words(mem', s', kern)
  {
    var t, jk := s.tables[TableOf(k)], k.1 % NPTENTRIES;
    var mem' := SetWord(mem, t, jk, w);
    forall k': Slot, j | k' in s'.tables && 0 <= j < NPTENTRIES
      ensures mem'[s'.tables[k']][j] == PteWord(s'.maps, k'.0, k'.1, j) {
      assert mem[s.tables[k']][j] == PteWord(s.maps, k'.0, k'.1, j);
      var v := k'.1 * NPTENTRIES + j;
      assert v / NPTENTRIES == k'.1 && v % NPTENTRIES == j;
      if (k'.0, v) == k {
        assert k' == TableOf(k);
      } else if k' == TableOf(k) {
        assert j != jk;
      }
    }
  }

  // ----------------------------------------------------- whole steps keep the relation

  lemma RepTake(pages: seq<PageInfo>, mem: seq<seq<Word>>, mem': seq<seq<Word>>, head: int, s: Flat, managed: set<nat>,
                kern: nat)
    requires Rep(pages, mem, head, s, managed, kern) && s.free != []
    requires |mem'| == |mem| && Sized(mem') && forall f :: 0 <= f < |mem| && f != s.free[0] ==> mem'[f] == mem[f]
    ensures s.free[0] < |pages|
    ensures Rep(SetLink(pages, s.free[0], NULL), mem', pages[s.free[0]].link, Take(s), managed, kern)
  {
    var f, s' := s.free[0], Take(s);
    TakeOk(s, managed);
    ChainPop(pages, head, s.free);
    Named(s, f);
    assert f in s.free && f in managed;
    assert mem' == mem[f := mem'[f]];
    WordsOffTables(mem, s, kern, f, mem'[f]);
    assert Words(mem', s', kern) by { WordsSame(mem', s, s', kern); }
    var pages' := SetLink(pages, f, NULL);
    forall g | g in managed
      ensures g < |pages'| && pages'[g].refs == RefCount(s', g) < REF_MOD
              && (g !in s'.free ==> pages'[g].link == NULL) {
      assert RefCount(s', g) == RefCount(s, g);
      assert g in s.free <==> g == f || g in s'.free;
    }
  }

  lemma WordsSame(mem: seq<seq<Word>>, s: Flat, s': Flat, kern: nat)
    requires Sized(mem) && Words(mem, s, kern)
    requires s.dirs == s'.dirs && s.tables == s'.tables && s.maps == s'.maps
    ensures Words(mem, s', kern)
  {
    forall k: Slot, j | k in s'.tables && 0 <= j < NPTENTRIES
      ensures mem[s'.tables[k]][j] == PteWord(s'.maps, k.0, k.1, j) {
      assert mem[s.tables[k]][j] == PteWord(s.maps, k.0, k.1, j);
    }
  }

  lemma RepGiveBack(pages: seq<PageInfo>, mem: seq<seq<Word>>, head: int, s: Flat, managed: set<nat>, kern: nat, f: nat)
    requires Rep(pages, mem, head, s, managed, kern) && f in s.held
    ensures f < |pages| && pages[f] == PageInfo(NULL, 0) && f !in s.free
    ensures Rep(SetLink(pages, f, head), mem, f, GiveBack(s, f), managed, kern)
  {
    var s' := GiveBack(s, f);
    GiveBackOk(s, managed, f);
    assert f in managed && f !in s.free;
    ChainPush(pages, head, s.free, f);
    forall g ensures RefCount(s', g) == RefCount(s, g) {}
    WordsSame(mem, s, s', kern);
  }

  lemma RepAddTable(pages: seq<PageInfo>, mem: seq<seq<Word>>, head: int, s: Flat, managed: set<nat>, kern: nat,
                    k: Slot, t: nat, w: Word)
    requires Rep(pages, mem, head, s, managed, kern) && t in s.held
    requires k !in s.tables && k.0 in s.dirs && k.1 < UPDES
    requires t < |mem| && mem[t] == ZERO_PAGE && w == t * PGSIZE + TABLE_PERM
    ensures k.0 < |mem| && pages[t].refs == 0
    ensures Rep(SetRefs(pages, t, 1), SetWord(mem, k.0, k.1, w), head, AddTable(s, k, t), managed, kern)
  {
    var s', pages' := AddTable(s, k, t), SetRefs(pages, t, 1);
    AddTableOk(s, managed, k, t);
    Named(s, t);
    ChainKeep(pages, pages', head, s.free);
    WordsAddTable(mem, s, kern, k, t, w);
    forall g | g in managed ensures g < |pages'| && pages'[g].refs == RefCount(s', g) < REF_MOD {
      CountAddTable(s, k, t, g);
    }
  }

  lemma PagesAddMap(pages: seq<PageInfo>, head: int, s: Flat, managed: set<nat>, k: Slot, p: Pte)
    requires Ok(s, managed) && Chain(pages, head, s.free) && Counts(pages, s, managed)
    requires Mappable(s, p.frame) && k !in s.maps && RefCount(s, p.frame) + 1 < REF_MOD
    ensures p.frame < |pages| && pages[p.frame].refs == RefCount(s, p.frame)
    ensures var pages' := SetRefs(pages, p.frame, RefCount(s, p.frame) + 1); var s' := AddMap(s, k, p);
            Chain(pages', head, s'.free) && Counts(pages', s', managed)
  {
    MappableApart(s, managed, p.frame);
    var pages' := SetRefs(pages, p.frame, RefCount(s, p.frame) + 1);
    ChainKeep(pages, pages', head, s.free);
    forall g ensures RefCount(AddMap(s, k, p), g) == RefCount(s, g) + if g == p.frame then 1 else 0 {
      CountAddMap(s, k, p, g);
    }
  }

  lemma RolesTablesApart(s: Flat, managed: set<nat>, kern: nat)
    requires Ok(s, managed) && kern !in managed
    ensures TablesApart(s, kern)
  {}

  ghost predicate EntryExists(mem: seq<seq<Word>>, s: Flat, k: Slot) {
    TableOf(k) in s.tables && s.tables[TableOf(k)] < |mem| && |mem[s.tables[TableOf(k)]]| == NPTENTRIES
  }

  // One entry rewritten, with the page array already brought up to date.
  lemma RepSetPte(pages: seq<PageInfo>, mem: seq<seq<Word>>, head: int, s: Flat, s': Flat, managed: set<nat>, kern: nat,
                  k: Slot, w: Word)
    requires Bounds(pages, mem, managed, kern) && Ok(s, managed) && Perms(s) && Words(mem, s, kern)
    requires Ok(s', managed) && Chain(pages, head, s'.free) && Counts(pages, s', managed)
    requires TableOf(k) in s.tables && s'.tables == s.tables && s'.dirs == s.dirs
    requires SameBut(s.maps, s'.maps, k)
    requires w == EntryWord(s'.maps, k) && (k in s'.maps ==> s'.maps[k].perm < PGSIZE && s'.maps[k].perm % 2 == 1)
    ensures EntryExists(mem, s, k)
    ensures Rep(pages, SetWord(mem, s.tables[TableOf(k)], k.1 % NPTENTRIES, w), head, s', managed, kern)
  {
    RolesTablesApart(s, managed, kern);
    WordsSetPte(mem, s, s', kern, k, w);
  }

  lemma RepAddMap(pages: seq<PageInfo>, mem: seq<seq<Word>>, head: int, s: Flat, managed: set<nat>, kern: nat,
                  k: Slot, f: nat, refs: nat, perm: nat, t: nat, j: nat, w: Word)
    requires Rep(pages, mem, head, s, managed, kern) && Mappable(s, f) && k !in s.maps
    requires TableOf(k) in s.tables && t == s.tables[TableOf(k)] && j == k.1 % NPTENTRIES
    requires refs == RefCount(s, f) + 1 < REF_MOD
    requires perm < PGSIZE && perm % 2 == 1 && w == f * PGSIZE + perm
    ensures f < |pages| && pages[f].refs + 1 == refs
    ensures t < |mem| && j < |mem[t]|
    ensures Rep(SetRefs(pages, f, refs), SetWord(mem, t, j, w), head, AddMap(s, k, Pte(f, perm)), managed, kern)
  {
    hide Ok, Chain, Counts, Words;
    var p := Pte(f, perm);
    AddMapOk(s, managed, k, p);
    PagesAddMap(pages, head, s, managed, k, p);
    RepSetPte(SetRefs(pages, f, refs), mem, head, s, AddMap(s, k, p), managed, kern, k, w);
  }

  // The page array after page_decref: one name fewer, and on the list if it was the last.
  function Decref(pages: seq<PageInfo>, head: int, f: nat): seq<PageInfo>
    requires f < |pages| && pages[f].refs > 0
  {
    var dropped := SetRefs(pages, f, pages[f].refs - 1);
    if pages[f].refs == 1 then SetLink(dropped, f, head) else dropped
  }

  // Decref establishes the parts of the relation that speak of `pages`.
  lemma DecrefKeeps(pages: seq<PageInfo>, head: int, s: Flat, s': Flat, managed: set<nat>, f: nat)
    requires Ok(s, managed) && Ok(s', managed) && Chain(pages, head, s.free) && Counts(pages, s, managed)
    requires f in managed && f !in s.free
    requires forall g :: RefCount(s, g) == RefCount(s', g) + if g == f then 1 else 0
    requires s'.free == if RefCount(s', f) == 0 then [f] + s.free else s.free
    ensures f < |pages| && pages[f].refs > 0
    ensures Chain(Decref(pages, head, f), if pages[f].refs == 1 then f else head, s'.free)
    ensures Counts(Decref(pages, head, f), s', managed)
  {
    var dropped, pages' := SetRefs(pages, f, pages[f].refs - 1), Decref(pages, head, f);
    ChainKeep(pages, dropped, head, s.free);
    if pages[f].refs == 1 { ChainPush(dropped, head, s.free, f); }
    forall g | g in managed
      ensures g < |pages'| && pages'[g].refs == RefCount(s', g) < REF_MOD
              && (g !in s'.free ==> pages'[g].link == NULL) {
      assert RefCount(s, g) == RefCount(s', g) + if g == f then 1 else 0;
    }
  }

  // Remove, told as page_decref and the erased entry.
  lemma RemoveIsDecref(pages: seq<PageInfo>, s: Flat, managed: set<nat>, k: Slot)
    requires Ok(s, managed) && Counts(pages, s, managed) && k in s.maps
    ensures s.maps[k].frame < |pages| && pages[s.maps[k].frame].refs > 0 && pages[s.maps[k].frame].link == NULL
    ensures s.maps[k].frame !in s.free && s.maps[k].frame !in s.held && s.maps[k].frame in managed
    ensures Remove(s, k) == (if pages[s.maps[k].frame].refs == 1 then GiveBack(s, s.maps[k].frame)
                             else s).(maps := s.maps - {k})
  {
    var f := s.maps[k].frame;
    Named(s, f);
    CountDropMap(s, k, f);
  }

  lemma PagesRemove(pages: seq<PageInfo>, head: int, s: Flat, managed: set<nat>, k: Slot)
    requires Ok(s, managed) && Chain(pages, head, s.free) && Counts(pages, s, managed) && k in s.maps
    ensures s.maps[k].frame < |pages| && pages[s.maps[k].frame].refs > 0
    ensures var f := s.maps[k].frame; var pages' := Decref(pages, head, f);
            Chain(pages', if pages[f].refs == 1 then f else head, Remove(s, k).free)
            && Counts(pages', Remove(s, k), managed)
  {
    var f, s', m := s.maps[k].frame, Remove(s, k), s.(maps := s.maps - {k});
    RemoveOk(s, managed, k);
    RemoveIsDecref(pages, s, managed, k);
    forall g ensures RefCount(s, g) == RefCount(s', g) + if g == f then 1 else 0 {
      CountDropMap(s, k, g);
      assert RefCount(m, g) == RefCount(s', g);
    }
    DecrefKeeps(pages, head, s, s', managed, f);
  }

  lemma RepRemove(pages: seq<PageInfo>, mem: seq<seq<Word>>, head: int, s: Flat, managed: set<nat>, kern: nat, k: Slot)
    requires Rep(pages, mem, head, s, managed, kern) && k in s.maps
    ensures s.maps[k].frame < |pages| && pages[s.maps[k].frame].refs > 0
    ensures EntryExists(mem, s, k)
    ensures var f := s.maps[k].frame;
            Rep(Decref(pages, head, f), SetWord(mem, s.tables[TableOf(k)], k.1 % NPTENTRIES, 0),
                if pages[f].refs == 1 then f else head, Remove(s, k), managed, kern)
  {
    RemoveSameBut(s, k);
    RemoveOk(s, managed, k);
    PagesRemove(pages, head, s, managed, k);
    var f := s.maps[k].frame;
    RepSetPte(Decref(pages, head, f), mem, if pages[f].refs == 1 then f else head, s, Remove(s, k), managed, kern, k,
              0);
  }

  // ------------------------------------------------- directories and tables come and go

  lemma WordsAddDir(mem: seq<seq<Word>>, s: Flat, kern: nat, p: nat, page: seq<Word>)
    requires Sized(mem) && Words(mem, s, kern) && Rooted(s) && p < |mem| && p != kern
    requires p !in s.dirs && forall k :: k in s.tables ==> s.tables[k] != p
    requires |page| == NPTENTRIES && page == mem[kern][UVPT_PDX := p * PGSIZE + SELF_PERM]
    ensures Sized(mem[p := page]) && Words(mem[p := page], AddDir(s, p), kern)
  {
    WordsOffTables(mem, s, kern, p, page);
    var mem', s' := mem[p := page], AddDir(s, p);
    forall d, i | d in s'.dirs && 0 <= i < UPDES ensures mem'[d][i] == PdeWord(s'.tables, d, i) {
      if d != p { assert mem'[d][i] == PdeWord(s.tables, d, i); }
    }
    assert TableWords(mem', s) ==> TableWords(mem', s') by { WordsSameTables(mem', s, s'); }
  }

  lemma WordsSameTables(mem: seq<seq<Word>>, s: Flat, s': Flat)
    requires Sized(mem) && s.tables == s'.tables && s.maps == s'.maps
    ensures TableWords(mem, s) ==> TableWords(mem, s')
  {
    if TableWords(mem, s) {
      forall k: Slot, j | k in s'.tables && 0 <= j < NPTENTRIES
        ensures mem[s'.tables[k]][j] == PteWord(s'.maps, k.0, k.1, j) {
        assert mem[s.tables[k]][j] == PteWord(s.maps, k.0, k.1, j);
      }
    }
  }

  lemma RepAddDir(pages: seq<PageInfo>, mem: seq<seq<Word>>, head: int, s: Flat, managed: set<nat>, kern: nat, p: nat,
                  page: seq<Word>)
    requires Rep(pages, mem, head, s, managed, kern) && p in s.held
    requires |page| == NPTENTRIES && page == mem[kern][UVPT_PDX := p * PGSIZE + SELF_PERM]
    ensures p < |mem| && pages[p].refs == 0
    ensures Rep(SetRefs(pages, p, 1), mem[p := page], head, AddDir(s, p), managed, kern)
  {
    Named(s, p);
    AddDirOk(s, managed, p);
    ChainKeep(pages, SetRefs(pages, p, 1), head, s.free);
    WordsAddDir(mem, s, kern, p, page);
    forall g ensures RefCount(AddDir(s, p), g) == RefCount(s, g) + if g == p then 1 else 0 {}
  }

  lemma WordsDropTable(mem: seq<seq<Word>>, s: Flat, s': Flat, kern: nat, k: Slot)
    requires Sized(mem) && Words(mem, s, kern) && TablesApart(s, kern) && Rooted(s) && kern !in s.dirs
    requires k in s.tables && s'.tables == s.tables - {k} && s'.dirs == s.dirs && s'.maps == s.maps
    ensures k.0 < |mem| && k.1 < UPDES
    ensures Sized(SetWord(mem, k.0, k.1, 0)) && Words(SetWord(mem, k.0, k.1, 0), s', kern)
  {
    var mem' := SetWord(mem, k.0, k.1, 0);
    forall d, i | d in s'.dirs && 0 <= i < UPDES ensures mem'[d][i] == PdeWord(s'.tables, d, i) {
      assert mem[d][i] == PdeWord(s.tables, d, i);
    }
    forall k': Slot, j | k' in s'.tables && 0 <= j < NPTENTRIES
      ensures mem'[s'.tables[k']][j] == PteWord(s'.maps, k'.0, k'.1, j) {
      assert mem[s.tables[k']][j] == PteWord(s.maps, k'.0, k'.1, j);
    }
  }

  ghost predicate Barren(s: Flat, k: Slot) {
    forall j :: j in s.maps ==> TableOf(j) != k
  }

  lemma RepDropTable(pages: seq<PageInfo>, mem: seq<seq<Word>>, head: int, s: Flat, managed: set<nat>, kern: nat,
                     k: Slot)
    requires Rep(pages, mem, head, s, managed, kern) && k in s.tables && Barren(s, k)
    ensures s.tables[k] < |pages| && pages[s.tables[k]] == PageInfo(NULL, 1) && s.tables[k] !in s.free
    ensures s.tables[k] !in s.held
    ensures k.0 in s.dirs && k.0 < |mem| && k.1 < UPDES
    ensures Rep(Decref(pages, head, s.tables[k]), SetWord(mem, k.0, k.1, 0), s.tables[k], DropTable(s, k), managed,
                kern)
  {
    var t, s' := s.tables[k], DropTable(s, k);
    DropTableOk(s, managed, k);
    RolesTablesApart(s, managed, kern);
    WordsDropTable(mem, s, s', kern, k);
    forall g ensures RefCount(s, g) == RefCount(s', g) + if g == t then 1 else 0 { CountDropTable(s, k, g); }
    Named(s', t);
    assert t in managed && RefCount(s, t) == 1;
    DecrefKeeps(pages, head, s, s', managed, t);
  }

  lemma RepDropDir(pages: seq<PageInfo>, mem: seq<seq<Word>>, head: int, s: Flat, managed: set<nat>, kern: nat, d: nat)
    requires Rep(pages, mem, head, s, managed, kern) && d in s.dirs && forall k :: k in s.tables ==> k.0 != d
    ensures d < |pages| && pages[d] == PageInfo(NULL, 1) && d !in s.free && d !in s.held
    ensures Rep(Decref(pages, head, d), mem, d, DropDir(s, d), managed, kern)
  {
    var s' := DropDir(s, d);
    DropDirOk(s, managed, d);
    WordsSameTables(mem, s, s');
    forall g ensures RefCount(s, g) == RefCount(s', g) + if g == d then 1 else 0 {}
    Named(s', d);
    assert d in managed && RefCount(s, d) == 1;
    DecrefKeeps(pages, head, s, s', managed, d);
  }

  // ------------------------------------------------------------- frames left alone

  // Only directories and page tables may differ.
  ghost predicate SameOff(mem: seq<seq<Word>>, mem': seq<seq<Word>>, dirs: set<nat>, tables: map<Slot, nat>) {
    |mem'| == |mem| &&
    forall f :: 0 <= f < |mem| && f !in dirs && f !in tables.Values ==> mem'[f] == mem[f]
  }

  lemma SetWordSameOff(mem: seq<seq<Word>>, dirs: set<nat>, tables: map<Slot, nat>, f: nat, i: nat, w: Word)
    requires f < |mem| && i < |mem[f]| && (f in dirs || f in tables.Values)
    ensures SameOff(mem, SetWord(mem, f, i, w), dirs, tables)
  {}

  lemma SameOffTrans(a: seq<seq<Word>>, b: seq<seq<Word>>, c: seq<seq<Word>>, dirs: set<nat>, tables: map<Slot, nat>)
    requires SameOff(a, b, dirs, tables) && SameOff(b, c, dirs, tables)
    ensures SameOff(a, c, dirs, tables)
  {}

  // ------------------------------------------------------------------ reading words

  lemma ReadPde(pages: seq<PageInfo>, mem: seq<seq<Word>>, head: int, s: Flat, managed: set<nat>, kern: nat, d: nat,
                i: nat)
    requires Rep(pages, mem, head, s, managed, kern) && d in s.dirs && i < UPDES
    ensures d < |mem| && |mem[d]| == NPTENTRIES && (mem[d][i] % 2 == 1 <==> (d, i) in s.tables)
    ensures (d, i) in s.tables ==> mem[d][i] / PGSIZE == s.tables[(d, i)] && s.tables[(d, i)] < |mem|
  {
    hide Ok, Chain, Counts, KernelWords;
    assert mem[d][i] == PdeWord(s.tables, d, i);
  }

  lemma ReadPte(pages: seq<PageInfo>, mem: seq<seq<Word>>, head: int, s: Flat, managed: set<nat>, kern: nat, k: Slot)
    requires Rep(pages, mem, head, s, managed, kern) && TableOf(k) in s.tables
    ensures s.tables[TableOf(k)] < |mem| && |mem[s.tables[TableOf(k)]]| == NPTENTRIES
    ensures var w := mem[s.tables[TableOf(k)]][k.1 % NPTENTRIES];
            && w == EntryWord(s.maps, k)
            && (w % 2 == 1 <==> k in s.maps)
            && (k in s.maps ==> w / PGSIZE == s.maps[k].frame && w % PGSIZE == s.maps[k].perm)
  {
    hide Ok, Chain, Counts, DirWords, KernelWords;
    assert mem[s.tables[TableOf(k)]][k.1 % NPTENTRIES] == PteWord(s.maps, k.0, k.1 / NPTENTRIES, k.1 % NPTENTRIES);
    WordParts(s, k);
  }

  lemma WordParts(s: Flat, k: Slot)
    requires Perms(s)
    ensures PteWord(s.maps, k.0, k.1 / NPTENTRIES, k.1 % NPTENTRIES) == EntryWord(s.maps, k)
    ensures EntryWord(s.maps, k) % 2 == 1 <==> k in s.maps
    ensures k in s.maps ==>
              EntryWord(s.maps, k) / PGSIZE == s.maps[k].frame && EntryWord(s.maps, k) % PGSIZE == s.maps[k].perm
  {
    assert k.1 / NPTENTRIES * NPTENTRIES + k.1 % NPTENTRIES == k.1;
  }

  lemma RepParts(pages: seq<PageInfo>, mem: seq<seq<Word>>, head: int, s: Flat, managed: set<nat>, kern: nat)
    requires Rep(pages, mem, head, s, managed, kern)
    ensures Ok(s, managed) && Chain(pages, head, s.free) && Counts(pages, s, managed)
    ensures |pages| == |mem| <= MAX_FRAMES && kern < |mem|
    ensures forall f :: 0 <= f < |mem| ==> |mem[f]| == NPTENTRIES
  {}

  lemma MappedHasTable(s: Flat, managed: set<nat>, k: Slot)
    requires Ok(s, managed)
    ensures k in s.maps ==> TableOf(k) in s.tables
  {}

  // What the representation says of the page array: counters are exact, and the list is the
  // frames nothing names and nobody holds, each once.
  lemma CountersExact(pages: seq<PageInfo>, mem: seq<seq<Word>>, head: int, s: Flat, managed: set<nat>, kern: nat,
                      f: nat)
    requires Rep(pages, mem, head, s, managed, kern) && f in managed
    ensures f < |pages| && pages[f].refs == RefCount(s, f) && NoDup(s.free)
    ensures f in s.free <==> pages[f].refs == 0 && f !in s.held
    ensures pages[f].refs == 0 <==>
            f !in s.dirs && (forall k :: k in s.tables ==> s.tables[k] != f)
            && (forall k :: k in s.maps ==> s.maps[k].frame != f)
  {
    Named(s, f);
  }
}
