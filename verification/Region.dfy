// region_alloc of kern/env.c: fresh pages under a range of addresses.
module Regions {
  import opened Mmu
  import opened FlatMemory
  import opened Represents
  import opened Pmap
  import Cow
  import Forks
  import Kernels

  // Page v of directory d is writable memory that nothing else maps.
  ghost predicate Private(s: Flat, d: nat, v: nat) {
    (d, v) in s.maps && s.maps[(d, v)].perm == Cow.RW && LastMap(s, (d, v))
  }

  lemma PrivateStep(s: Flat, s': Flat, d: nat, u: nat, f: nat)
    requires s'.maps == s.maps[(d, u) := Pte(f, Cow.RW)] && !Cow.Mapped(s.maps, f)
    ensures Private(s', d, u)
    ensures forall v: nat :: Private(s, d, v) ==> Private(s', d, v)
  {
    forall v: nat | Private(s, d, v) && v != u ensures Private(s', d, v) {
      var mine := s.maps[(d, v)].frame;
      assert mine != f;
    }
  }

  // One turn: page_alloc and page_insert; false is a panic.
  method AllocOne(m: Machine, d: nat, u: nat) returns (done: bool)
    requires m.Valid() && d in m.S.dirs && u < UPAGES_TOTAL
    modifies m, m.pages, m.mem
    ensures m.Valid() && d in m.S.dirs
    ensures done ==> old(m.S.free) != [] && !Cow.Mapped(old(m.S.maps), old(m.S.free)[0])
    ensures done ==> m.S.maps == old(m.S.maps)[(d, u) := Pte(old(m.S.free)[0], Cow.RW)]
    ensures !done ==> m.S.free == [] && |old(m.S.free)| <= 1
  {
    hide Rep, Ok, Cow.Mapped;
    ghost var s := m.S;
    RepParts(m.pages[..], m.mem[..], m.freeList, m.S, m.managed, m.kern);
    var pp := m.PageAlloc(false);
    if pp == NULL { return false; }
    Forks.AllocEffect(s, m.managed, (d, u), Cow.RW - PTE_P);
    Kernels.TakenFrame(s, m.managed);
    var status := m.PageInsert(d, pp, u, Cow.RW - PTE_P);
    return status == 0;
  }

  // region_alloc, for a range below UTOP
  method RegionAlloc(m: Machine, d: nat, va: nat, len: nat) returns (done: bool)
    requires m.Valid() && d in m.S.dirs && va + len <= UTOP
    modifies m, m.pages, m.mem
    ensures m.Valid() && (!done ==> m.S.free == [])
    ensures done ==> forall v: nat :: va / PGSIZE <= v < (va + len + PGSIZE - 1) / PGSIZE ==> Private(m.S, d, v)
    ensures done ==>
              forall k :: k in old(m.S.maps) && !(k.0 == d && va / PGSIZE <= k.1 < (va + len + PGSIZE - 1) / PGSIZE) ==>
                       k in m.S.maps && m.S.maps[k] == old(m.S.maps)[k]
  {
    hide Rep, Ok, Private, Cow.Mapped;
    var lower, upper := va / PGSIZE, (va + len + PGSIZE - 1) / PGSIZE;
    while lower < upper
      invariant va / PGSIZE <= lower && upper <= UPAGES_TOTAL && m.Valid() && d in m.S.dirs
      invariant forall v: nat :: va / PGSIZE <= v < lower ==> Private(m.S, d, v)
      invariant forall k :: k in old(m.S.maps) && !(k.0 == d && va / PGSIZE <= k.1 < upper) ==>
                  k in m.S.maps && m.S.maps[k] == old(m.S.maps)[k]
    {
      ghost var s := m.S;
      var one := AllocOne(m, d, lower);
      if !one { return false; }
      PrivateStep(s, m.S, d, lower, s.free[0]);
      lower := lower + 1;
    }
    done := true;
  }
}
