// The specification of kern/pmap.c: which page is mapped where, and nothing else.
// Reference counts are not part of it; they are a function of the mappings.
module FlatMemory {
  import opened Mmu

  datatype Pte = Pte(frame: nat, perm: nat)

  // free: the free list from its head.  held: frames taken by PageAlloc and named by
  // no table yet.  dirs: the page directories.  tables: (directory, PDX) to page table.
  // maps: (directory, page number) to the user mapping.
  datatype Flat = Flat(free: seq<nat>, held: set<nat>, dirs: set<nat>,
                       tables: map<Slot, nat>, maps: map<Slot, Pte>)

  function PdeRefs(tables: map<Slot, nat>, f: nat): set<Slot> {
    set k | k in tables && tables[k] == f
  }

  function PteRefs(maps: map<Slot, Pte>, f: nat): set<Slot> {
    set k | k in maps && maps[k].frame == f
  }

  // The number of directory roots, directory entries and user page-table entries that name f.
  function RefCount(s: Flat, f: nat): nat {
    (if f in s.dirs then 1 else 0) + |PdeRefs(s.tables, f)| + |PteRefs(s.maps, f)|
  }

  // ---------------------------------------------------------------- invariant

  ghost predicate NoDup(q: seq<nat>) {
    forall i, j :: 0 <= i < j < |q| ==> q[i] != q[j]
  }

  // Page tables hang below directories and mappings below page tables.
  ghost predicate Rooted(s: Flat) {
    && (forall k :: k in s.tables ==> k.0 in s.dirs && k.1 < UPDES)
    && (forall k :: k in s.maps ==> (k.0, k.1 / NPTENTRIES) in s.tables)
  }

  // No frame plays two roles, and no page table hangs at two places.
  ghost predicate Roles(s: Flat) {
    && (forall k, k' :: k in s.tables && k' in s.tables && s.tables[k] == s.tables[k'] ==> k == k')
    && (forall k :: k in s.tables ==> s.tables[k] !in s.dirs)
    && (forall k :: k in s.maps ==> s.maps[k].frame !in s.dirs)
    && (forall k, k' :: k in s.maps && k' in s.tables ==> s.maps[k].frame != s.tables[k'])
    && (forall f :: f in s.held ==> RefCount(s, f) == 0)
  }

  ghost predicate Managed(s: Flat, managed: set<nat>) {
    && s.dirs <= managed
    && s.held <= managed
    && (forall k :: k in s.tables ==> s.tables[k] in managed)
    && (forall k :: k in s.maps ==> s.maps[k].frame in managed)
    && (forall f :: f in s.free ==> f in managed)
  }

  // A managed frame is on the free list exactly when nothing names it.
  ghost predicate FreeExact(s: Flat, managed: set<nat>) {
    && NoDup(s.free)
    && (forall f :: f in managed ==> (f in s.free <==> RefCount(s, f) == 0 && f !in s.held))
  }

  ghost predicate Ok(s: Flat, managed: set<nat>) {
    Rooted(s) && Roles(s) && Managed(s, managed) && FreeExact(s, managed)
  }

  lemma OkRooted(s: Flat, managed: set<nat>)
    requires Ok(s, managed)
    ensures Rooted(s)
  {}

  // ------------------------------------------------------------ elementary steps

  function Take(s: Flat): Flat
    requires s.free != []
  {
    s.(free := s.free[1..], held := s.held + {s.free[0]})
  }

  function GiveBack(s: Flat, f: nat): Flat {
    s.(free := [f] + s.free, held := s.held - {f})
  }

  function AddTable(s: Flat, k: Slot, t: nat): Flat {
    s.(held := s.held - {t}, tables := s.tables[k := t])
  }

  function DropTable(s: Flat, k: Slot): Flat
    requires k in s.tables
  {
    s.(free := [s.tables[k]] + s.free, tables := s.tables - {k})
  }

  function AddDir(s: Flat, d: nat): Flat {
    s.(held := s.held - {d}, dirs := s.dirs + {d})
  }

  function DropDir(s: Flat, d: nat): Flat {
    s.(free := [d] + s.free, dirs := s.dirs - {d})
  }

  function AddMap(s: Flat, k: Slot, p: Pte): Flat {
    s.(held := s.held - {p.frame}, maps := s.maps[k := p])
  }

  // What page_remove does: forget the mapping; the frame is freed with its last name.
  function Remove(s: Flat, k: Slot): Flat {
    if k !in s.maps then s
    else
      var f := s.maps[k].frame;
      var s' := s.(maps := s.maps - {k});
      if RefCount(s', f) == 0 then s'.(free := [f] + s.free) else s'
  }

  // ------------------------------------------------------- the counts, step by step

  lemma CountAddMap(s: Flat, k: Slot, p: Pte, f: nat)
    requires k !in s.maps
    ensures RefCount(AddMap(s, k, p), f) == RefCount(s, f) + if f == p.frame then 1 else 0
  {
    assert PteRefs(AddMap(s, k, p).maps, f) == PteRefs(s.maps, f) + if f == p.frame then {k} else {};
  }

  lemma CountDropMap(s: Flat, k: Slot, f: nat)
    requires k in s.maps
    ensures RefCount(s, f) == RefCount(s.(maps := s.maps - {k}), f) + if f == s.maps[k].frame then 1 else 0
  {
    var rest := PteRefs(s.maps - {k}, f);
    assert PteRefs(s.maps, f) == rest + if f == s.maps[k].frame then {k} else {};
    assert k !in rest;
  }

  lemma CountAddTable(s: Flat, k: Slot, t: nat, f: nat)
    requires k !in s.tables
    ensures RefCount(AddTable(s, k, t), f) == RefCount(s, f) + if f == t then 1 else 0
  {
    assert PdeRefs(AddTable(s, k, t).tables, f) == PdeRefs(s.tables, f) + if f == t then {k} else {};
  }

  lemma CountDropTable(s: Flat, k: Slot, f: nat)
    requires k in s.tables
    ensures RefCount(s, f) == RefCount(DropTable(s, k), f) + if f == s.tables[k] then 1 else 0
  {
    var rest := PdeRefs(s.tables - {k}, f);
    assert PdeRefs(s.tables, f) == rest + if f == s.tables[k] then {k} else {};
    assert k !in rest;
  }

  // A frame with a name has a positive count, one without has count zero.
  lemma Named(s: Flat, f: nat)
    ensures RefCount(s, f) == 0 <==>
            f !in s.dirs && (forall k :: k in s.tables ==> s.tables[k] != f)
            && (forall k :: k in s.maps ==> s.maps[k].frame != f)
  {
    if k :| k in s.tables && s.tables[k] == f { assert k in PdeRefs(s.tables, f); }
    if k :| k in s.maps && s.maps[k].frame == f { assert k in PteRefs(s.maps, f); }
    if RefCount(s, f) != 0 && f !in s.dirs {
      if |PdeRefs(s.tables, f)| > 0 {
        var k :| k in PdeRefs(s.tables, f);
      } else {
        var k :| k in PteRefs(s.maps, f);
      }
    }
  }

  // ---------------------------------------------------------- every step keeps Ok

  lemma TakeOk(s: Flat, managed: set<nat>)
    requires Ok(s, managed) && s.free != []
    ensures Ok(Take(s), managed)
    ensures s.free[0] !in Take(s).free && RefCount(s, s.free[0]) == 0 && s.free[0] !in s.held
  {
    var s', f := Take(s), s.free[0];
    assert f in s.free;
    forall g | g in managed ensures g in s'.free <==> RefCount(s', g) == 0 && g !in s'.held {
      assert RefCount(s', g) == RefCount(s, g);
      assert g in s.free <==> g == f || g in s'.free;
    }
    forall g | g in s'.held ensures RefCount(s', g) == 0 { assert RefCount(s', g) == RefCount(s, g); }
    forall g | g in s'.free ensures g in managed { assert g in s.free; }
  }

  lemma GiveBackOk(s: Flat, managed: set<nat>, f: nat)
    requires Ok(s, managed) && f in s.held
    ensures Ok(GiveBack(s, f), managed)
  {
    var s' := GiveBack(s, f);
    forall g ensures RefCount(s', g) == RefCount(s, g) {}
    assert f !in s.free;
    forall g | g in managed ensures g in s'.free <==> RefCount(s', g) == 0 && g !in s'.held {}
  }

  lemma AddTableOk(s: Flat, managed: set<nat>, k: Slot, t: nat)
    requires Ok(s, managed) && t in s.held && k !in s.tables && k.0 in s.dirs && k.1 < UPDES
    ensures Ok(AddTable(s, k, t), managed)
  {
    var s' := AddTable(s, k, t);
    Named(s, t);
    forall g ensures RefCount(s', g) == RefCount(s, g) + if g == t then 1 else 0 { CountAddTable(s, k, t, g); }
  }

  lemma DropTableOk(s: Flat, managed: set<nat>, k: Slot)
    requires Ok(s, managed) && k in s.tables
    requires forall j :: j in s.maps ==> (j.0, j.1 / NPTENTRIES) != k
    ensures Ok(DropTable(s, k), managed)
  {
    var s', t := DropTable(s, k), s.tables[k];
    forall g ensures RefCount(s, g) == RefCount(s', g) + if g == t then 1 else 0 { CountDropTable(s, k, g); }
    Named(s', t);
    assert RefCount(s, t) == 1;
    assert t !in s.free;
    assert t !in s.held;
  }

  lemma AddDirOk(s: Flat, managed: set<nat>, d: nat)
    requires Ok(s, managed) && d in s.held
    ensures Ok(AddDir(s, d), managed)
  {
    Named(s, d);
    CountsDir(s, AddDir(s, d), d);
    DirRoles(s, AddDir(s, d), d);
    hide RefCount, Rooted, Roles;
  }

  lemma DropDirOk(s: Flat, managed: set<nat>, d: nat)
    requires Ok(s, managed) && d in s.dirs
    requires forall k :: k in s.tables ==> k.0 != d
    ensures Ok(DropDir(s, d), managed)
  {
    Named(DropDir(s, d), d);
    CountsDir(DropDir(s, d), s, d);
    DirGone(s, d);
    assert d !in s.free && d !in s.held && d in managed;
    hide RefCount, Rooted, Roles;
  }

  // One directory more: its frame has one name more.
  lemma CountsDir(s: Flat, s': Flat, d: nat)
    requires d !in s.dirs && s'.dirs == s.dirs + {d} && s'.tables == s.tables && s'.maps == s.maps
    ensures forall g :: RefCount(s', g) == RefCount(s, g) + if g == d then 1 else 0
  {}

  lemma DirRoles(s: Flat, s': Flat, d: nat)
    requires Rooted(s) && Roles(s) && d in s.held && s' == AddDir(s, d)
    ensures Rooted(s') && Roles(s')
  {
    Named(s, d);
    CountsDir(s, s', d);
    hide RefCount;
  }

  lemma DirGone(s: Flat, d: nat)
    requires Rooted(s) && Roles(s) && d in s.dirs && forall k :: k in s.tables ==> k.0 != d
    ensures Rooted(DropDir(s, d)) && Roles(DropDir(s, d))
  {
    CountsDir(DropDir(s, d), s, d);
    hide RefCount;
  }

  // p.frame may be mapped: it was just taken, or it is already a mapped page.
  predicate Mappable(s: Flat, f: nat) {
    f in s.held || PteRefs(s.maps, f) != {}
  }

  lemma AddMapOk(s: Flat, managed: set<nat>, k: Slot, p: Pte)
    requires Ok(s, managed) && k !in s.maps && (k.0, k.1 / NPTENTRIES) in s.tables && Mappable(s, p.frame)
    ensures Ok(AddMap(s, k, p), managed)
  {
    MappableApart(s, managed, p.frame);
    AddMapRoles(s, k, p);
    AddMapFree(s, managed, k, p);
  }

  lemma AddMapRoles(s: Flat, k: Slot, p: Pte)
    requires Rooted(s) && Roles(s) && k !in s.maps && (k.0, k.1 / NPTENTRIES) in s.tables
    requires p.frame !in s.dirs && forall j :: j in s.tables ==> s.tables[j] != p.frame
    ensures Rooted(AddMap(s, k, p)) && Roles(AddMap(s, k, p))
  {
    var s' := AddMap(s, k, p);
    forall j, j' | j in s'.maps && j' in s'.tables ensures s'.maps[j].frame != s'.tables[j'] {
      if j != k { assert j in s.maps; }
    }
    forall g | g in s'.held ensures RefCount(s', g) == 0 { CountAddMap(s, k, p, g); }
  }

  lemma AddMapFree(s: Flat, managed: set<nat>, k: Slot, p: Pte)
    requires Managed(s, managed) && FreeExact(s, managed) && k !in s.maps && p.frame in managed && p.frame !in s.free
    ensures Managed(AddMap(s, k, p), managed) && FreeExact(AddMap(s, k, p), managed)
  {
    forall g ensures RefCount(AddMap(s, k, p), g) == RefCount(s, g) + if g == p.frame then 1 else 0 {
      CountAddMap(s, k, p, g);
    }
  }

  lemma MappableApart(s: Flat, managed: set<nat>, f: nat)
    requires Ok(s, managed) && Mappable(s, f)
    ensures f in managed && f !in s.free && f !in s.dirs && forall k :: k in s.tables ==> s.tables[k] != f
  {
    Named(s, f);
    if f !in s.held {
      var j :| j in PteRefs(s.maps, f);
    }
  }

  lemma RemoveOk(s: Flat, managed: set<nat>, k: Slot)
    requires Ok(s, managed)
    ensures Ok(Remove(s, k), managed)
  {
    if k in s.maps {
      var s', m, f := Remove(s, k), s.(maps := s.maps - {k}), s.maps[k].frame;
      forall g ensures RefCount(s, g) == RefCount(s', g) + if g == f then 1 else 0 {
        CountDropMap(s, k, g);
        assert RefCount(m, g) == RefCount(s', g);
      }
      assert f !in s.free;
      assert f !in s.held;
      forall g | g in managed ensures g in s'.free <==> RefCount(s', g) == 0 && g !in s'.held {}
      forall g | g in s'.held ensures RefCount(s', g) == 0 {}
    }
  }

  // ------------------------------------------------------- page_insert, in one step

  datatype Result = Done(s: Flat) | NoMem

  // pgdir_walk with create: the page table of k, taken from the free list if there is none.
  function Walk(s: Flat, k: Slot): Result {
    var t := (k.0, k.1 / NPTENTRIES);
    if t in s.tables then Done(s)
    else if s.free == [] then NoMem
    else Done(AddTable(Take(s), t, s.free[0]))
  }

  // k is the only mapping of its frame.
  ghost predicate LastMap(s: Flat, k: Slot)
    requires k in s.maps
  {
    forall j :: j in s.maps && s.maps[j].frame == s.maps[k].frame ==> j == k
  }

  // An update of the map at k.  The replaced frame is freed if k was its last mapping,
  // unless it is the very frame being inserted.
  ghost function Insert(s: Flat, k: Slot, f: nat, perm: nat): Result {
    match Walk(s, k)
    case NoMem => NoMem
    case Done(w) =>
      var freed := if k in w.maps && w.maps[k].frame != f && LastMap(w, k) then [w.maps[k].frame] else [];
      Done(w.(free := freed + w.free, held := w.held - {f}, maps := w.maps[k := Pte(f, Present(perm))]))
  }

  lemma WalkOk(s: Flat, managed: set<nat>, k: Slot)
    requires Ok(s, managed) && k.0 in s.dirs && k.1 < UPAGES_TOTAL
    ensures Walk(s, k).Done? ==> Ok(Walk(s, k).s, managed) && Walk(s, k).s.maps == s.maps
  {
    if (k.0, k.1 / NPTENTRIES) !in s.tables && s.free != [] {
      TakeOk(s, managed);
      AddTableOk(Take(s), managed, (k.0, k.1 / NPTENTRIES), s.free[0]);
    }
  }

  // Remove frees the frame exactly when k was its last mapping.
  lemma RemoveFrees(s: Flat, managed: set<nat>, k: Slot)
    requires Ok(s, managed) && k in s.maps
    ensures Remove(s, k) == s.(maps := s.maps - {k}, free := (if LastMap(s, k) then [s.maps[k].frame] else []) + s.free)
  {
    assert s.maps[k].frame !in s.dirs && forall j :: j in s.tables ==> s.tables[j] != s.maps[k].frame;
    RemoveFreesData(s, k);
  }

  lemma RemoveFreesData(s: Flat, k: Slot)
    requires k in s.maps && s.maps[k].frame !in s.dirs && forall j :: j in s.tables ==> s.tables[j] != s.maps[k].frame
    ensures Remove(s, k) == s.(maps := s.maps - {k}, free := (if LastMap(s, k) then [s.maps[k].frame] else []) + s.free)
  {
    var f, s' := s.maps[k].frame, s.(maps := s.maps - {k});
    Named(s', f);
    if LastMap(s, k) {
      assert forall j :: j in s'.maps ==> s'.maps[j].frame != f;
    } else {
      var j :| j in s.maps && s.maps[j].frame == f && j != k;
      assert j in s'.maps && s'.maps[j].frame == f;
      assert [] + s.free == s.free;
    }
  }

  // The code path of page_insert after the walk: remove, take the frame back from the head of
  // the free list if it has just landed there, and write the entry.
  function Retake(r: Flat, f: nat): Flat {
    if r.free != [] && r.free[0] == f then Take(r) else r
  }

  function InsertPath(w: Flat, k: Slot, f: nat, perm: nat): Flat {
    AddMap(Retake(Remove(w, k), f), k, Pte(f, Present(perm)))
  }

  // The frame is taken back exactly when the removal dropped its last mapping.
  lemma RetakeHead(w: Flat, managed: set<nat>, k: Slot, f: nat)
    requires Ok(w, managed) && Mappable(w, f)
    ensures var r := Remove(w, k);
            (r.free != [] && r.free[0] == f) <==> (k in w.maps && w.maps[k].frame == f && LastMap(w, k))
  {
    MappableApart(w, managed, f);
    if k in w.maps { RemoveFrees(w, managed, k); }
  }

  lemma RetakeMappable(w: Flat, managed: set<nat>, k: Slot, f: nat)
    requires Ok(w, managed) && Mappable(w, f)
    ensures Mappable(Retake(Remove(w, k), f), f)
  {
    RetakeHead(w, managed, k, f);
    if f !in w.held { OtherMap(w, k, f); }
  }

  // A mapped frame stays mapped when an entry goes that is not its last.
  lemma OtherMap(w: Flat, k: Slot, f: nat)
    requires PteRefs(w.maps, f) != {}
    ensures PteRefs(Remove(w, k).maps, f) != {} || (k in w.maps && w.maps[k].frame == f && LastMap(w, k))
  {
    var j :| j in PteRefs(w.maps, f);
    if j != k {
      assert j in PteRefs(Remove(w, k).maps, f);
    } else if !LastMap(w, k) {
      var j' :| j' in w.maps && w.maps[j'].frame == f && j' != k;
      assert j' in PteRefs(Remove(w, k).maps, f);
    }
  }

  lemma RetakeOk(w: Flat, managed: set<nat>, k: Slot, f: nat)
    requires Ok(w, managed)
    ensures Ok(Retake(Remove(w, k), f), managed)
  {
    hide Ok;
    RemoveOk(w, managed, k);
    var r := Remove(w, k);
    if r.free != [] && r.free[0] == f { TakeOk(r, managed); }
  }

  // The two descriptions of page_insert agree, whatever the count of the frame was.
  lemma InsertPathIsInsert(w: Flat, managed: set<nat>, k: Slot, f: nat, perm: nat)
    requires Ok(w, managed) && Mappable(w, f) && (k.0, k.1 / NPTENTRIES) in w.tables
    ensures Insert(w, k, f, perm) == Done(InsertPath(w, k, f, perm))
    ensures Ok(InsertPath(w, k, f, perm), managed)
  {
    hide Ok;
    assert Ok(InsertPath(w, k, f, perm), managed) by {
      RetakeOk(w, managed, k, f);
      RetakeMappable(w, managed, k, f);
      AddMapOk(Retake(Remove(w, k), f), managed, k, Pte(f, Present(perm)));
    }
    MappableApart(w, managed, f);
    if k in w.maps { RemoveFrees(w, managed, k); }
    InsertShape(w, k, f, perm, k in w.maps && LastMap(w, k));
  }

  lemma InsertShape(w: Flat, k: Slot, f: nat, perm: nat, last: bool)
    requires (k.0, k.1 / NPTENTRIES) in w.tables && f !in w.free
    requires last <==> k in w.maps && LastMap(w, k)
    requires k in w.maps ==>
      Remove(w, k) == w.(maps := w.maps - {k}, free := (if last then [w.maps[k].frame] else []) + w.free)
    ensures Insert(w, k, f, perm) == Done(InsertPath(w, k, f, perm))
  {
    var r, p := Remove(w, k), Pte(f, Present(perm));
    assert (w.maps - {k})[k := p] == w.maps[k := p];
    assert (w.held + {f}) - {f} == w.held - {f};
    if last {
      assert r.free == [w.maps[k].frame] + w.free;
      assert r.free[1..] == w.free;
    } else {
      assert r.free == w.free;
    }
    assert [] + w.free == w.free;
  }

  // The walk leaves an insertable frame insertable, and its count alone.
  lemma WalkMappable(s: Flat, managed: set<nat>, k: Slot, f: nat)
    requires Ok(s, managed) && Mappable(s, f) && Walk(s, k).Done?
    ensures Mappable(Walk(s, k).s, f) && RefCount(Walk(s, k).s, f) == RefCount(s, f)
  {
    var t := (k.0, k.1 / NPTENTRIES);
    if t !in s.tables {
      MappableApart(s, managed, f);
      assert s.free[0] in s.free;
      assert RefCount(Take(s), f) == RefCount(s, f);
      CountAddTable(Take(s), t, s.free[0], f);
    }
  }

  lemma RetakeCount(w: Flat, k: Slot, f: nat)
    ensures RefCount(Retake(Remove(w, k), f), f) <= RefCount(w, f)
  {
    var r := Remove(w, k);
    if k in w.maps {
      CountDropMap(w, k, f);
      assert RefCount(r, f) == RefCount(w.(maps := w.maps - {k}), f);
    }
    assert RefCount(Retake(r, f), f) == RefCount(r, f);
  }

  // All that page_insert relies on between its walk and its last write.
  lemma InsertSteps(s: Flat, managed: set<nat>, k: Slot, f: nat, perm: nat)
    requires Ok(s, managed) && Mappable(s, f) && Walk(s, k).Done? && k.0 in s.dirs && k.1 < UPAGES_TOTAL
    ensures var w := Walk(s, k).s; var r := Retake(Remove(w, k), f);
            && Insert(s, k, f, perm) == Done(AddMap(r, k, Pte(f, Present(perm))))
            && Mappable(r, f) && k !in r.maps && RefCount(r, f) <= RefCount(s, f)
            && r.tables == w.tables && r.dirs == w.dirs && (k.0, k.1 / NPTENTRIES) in w.tables
  {
    hide Ok;
    var w := Walk(s, k).s;
    WalkOk(s, managed, k);
    WalkMappable(s, managed, k, f);
    InsertPathIsInsert(w, managed, k, f, perm);
    assert Insert(s, k, f, perm) == Insert(w, k, f, perm);
    RetakeMappable(w, managed, k, f);
    RetakeCount(w, k, f);
  }
}
