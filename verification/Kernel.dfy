// kern/env.c and kern/syscall.c over the machine: the table of environments is an array of
// records updated in place.  Every method leaves the state its specification function gives.
module Kernels {
  import opened Mmu
  import opened FlatMemory
  import opened Represents
  import Pmap
  import EnvSpace
  import opened EnvIds
  import opened EnvTable
  import Syscalls

  class Kernel {
    const m: Pmap.Machine
    const envs: array<Env>
    var envFree: int
    ghost var free: seq<nat>

    ghost function K(): KState
      reads this, envs, m
    {
      KState(envs[..], free, m.S)
    }

    ghost predicate Valid()
      reads this, envs, m, m.pages, m.mem
    {
      && m.Valid() && m.S.held == {}
      && EnvChain(envs[..], envFree, free) && TableOk(K())
    }

    // No page is mapped so often that its 16-bit count could wrap.
    ghost predicate Uncrowded()
      reads m
    {
      forall f :: RefCount(m.S, f) + 1 < REF_MOD
    }

    // env_init: the free list in the order of the table.
    constructor (m: Pmap.Machine, blank: Env)
      requires m.Valid() && m.S.held == {} && m.S.dirs == {}
      ensures Valid() && this.m == m && fresh(envs)
      ensures free == seq(NENV, i => i) && forall e :: 0 <= e < NENV ==> envs[e].status == ENV_FREE && envs[e].id == 0
      ensures m.S == old(m.S)
    {
      this.m := m;
      envs := new Env[NENV](i => blank);
      envFree := NULL;
      free := [];
      new;
      hide Rep, Ok, TableOk;
      var i := NENV - 1;
      while i >= 0
        invariant -1 <= i < NENV && fresh(envs) && envs.Length == NENV
        invariant free == seq(NENV - 1 - i, j requires 0 <= j < NENV - 1 - i => i + 1 + j)
        invariant EnvChain(envs[..], envFree, free)
        invariant forall e :: i < e < NENV ==> envs[e].status == ENV_FREE && envs[e].id == 0
        invariant m.S == old(m.S) && m.Valid()
      {
        ListSlot(i);
        i := i - 1;
      }
      InitialTable(envs[..], free, m.S);
    }

    method ListSlot(i: nat)
      requires EnvChain(envs[..], envFree, free) && i !in free && i < envs.Length
      modifies this, envs
      ensures EnvChain(envs[..], envFree, free) && free == [i] + old(free)
      ensures envs[i].status == ENV_FREE && envs[i].id == 0
      ensures forall e :: 0 <= e < envs.Length && e != i ==> envs[e] == old(envs[e])
    {
      ghost var before := envs[..];
      envs[i] := envs[i].(status := ENV_FREE);
      envs[i] := envs[i].(id := 0);
      envs[i] := envs[i].(link := envFree);
      EnvChainPush(before, envFree, free, i, envs[i]);
      assert envs[..] == before[i := envs[i]];
      envFree := i;
      free := [i] + free;
    }

    // envid2env: the slot, or -1 with r == -E_BAD_ENV.
    method Envid2Env(cur: nat, envid: int, check: bool) returns (r: int, e: int)
      requires Valid() && Live(K(), cur)
      ensures e == Resolve(envs[..], cur, envid, check)
      ensures r == if e < 0 then -E_BAD_ENV else 0
    {
      if envid == 0 { return 0, cur; }
      e := envid % NENV;
      if envs[e].status == ENV_FREE || envs[e].id != envid { return -E_BAD_ENV, -1; }
      if check && e != cur && envs[e].parent != envs[cur].id { return -E_BAD_ENV, -1; }
      r := 0;
    }

    // env_alloc: on failure neither ids nor the free list have changed.
    method EnvAlloc(parent: int) returns (r: int, e: int)
      requires Valid()
      modifies this, envs, m, m.pages, m.mem
      ensures Valid()
      ensures old(free) != [] ==> old(free)[0] < NENV
      ensures Outcome(K(), r) == EnvTable.EnvAlloc(old(K()), parent)
      ensures r == 0 ==> e == old(free)[0]
      ensures SameOff(old(m.mem[..]), m.mem[..], m.S.dirs, m.S.tables)
    {
      hide Rep, Ok, FreeSlots, SlotIds, OwnDirs;
      ghost var k := K();
      RepParts(m.pages[..], m.mem[..], m.freeList, m.S, m.managed, m.kern);
      EnvAllocOk(k, m.managed, parent);
      e := envFree;
      if e == NULL { return -E_NO_FREE_ENV, e; }
      var d;
      r, d := EnvSpace.EnvSetupVm(m);
      if r < 0 { return r, e; }
      PopHead(envs[..], envFree, free, NewEnv(envs[e], e, parent, d));
      envFree := envs[e].link;
      envs[e] := NewEnv(envs[e], e, parent, d);
      free := free[1..];
      assert m.S.held == {};
    }

    // The part of env_destroy that takes a slot apart: env_free.
    method ReleaseEnv(e: nat)
      requires Valid() && Live(K(), e)
      modifies this, envs, m, m.pages, m.mem
      ensures Valid() && K() == EnvTable.ReleaseEnv(old(K()), e)
      ensures SameOff(old(m.mem[..]), m.mem[..], old(m.S).dirs, old(m.S).tables)
    {
      hide Rep, Ok, FreeSlots, SlotIds, OwnDirs;
      ghost var k := K();
      LiveHasDir(k, e);
      RepParts(m.pages[..], m.mem[..], m.freeList, m.S, m.managed, m.kern);
      ReleaseEnvOk(k, m.managed, e);
      PushHead(envs[..], envFree, free, e, envs[e].(status := ENV_FREE, link := envFree, pgdir := 0));
      EnvSpace.EnvFree(m, envs[e].pgdir);
      envs[e] := envs[e].(pgdir := 0);
      envs[e] := envs[e].(status := ENV_FREE);
      envs[e] := envs[e].(link := envFree);
      envFree := e;
      free := [e] + free;
      assert envs[..] == EnvTable.ReleaseEnv(k, e).envs;
    }

    // sys_exofork
    method SysExofork(cur: nat) returns (r: int)
      requires Valid() && Live(K(), cur)
      modifies this, envs, m, m.pages, m.mem
      ensures Valid() && (old(free) != [] ==> old(free)[0] < NENV)
      ensures Outcome(K(), r) == Syscalls.Exofork(old(K()), cur)
      ensures SameOff(old(m.mem[..]), m.mem[..], m.S.dirs, m.S.tables)
    {
      hide Rep, Ok, FreeSlots, SlotIds, OwnDirs, Resolve;
      var e;
      r, e := EnvAlloc(envs[cur].id);
      if r < 0 { return; }
      Patch(e, envs[e].(status := ENV_NOT_RUNNABLE, eax := 0));
      r := envs[e].id;
    }

    // A field of a live environment rewritten.
    method Patch(e: nat, env: Env)
      requires Valid() && e < NENV
      requires env.id == envs[e].id && env.pgdir == envs[e].pgdir && env.link == envs[e].link
      requires env.status == ENV_FREE <==> envs[e].status == ENV_FREE
      modifies envs
      ensures Valid() && envs[..] == old(envs[..])[e := env]
    {
      hide Rep, Ok, FreeSlots, SlotIds, OwnDirs;
      EnvChainKeep(envs[..], envFree, free, e, env);
      Syscalls.SameSlotsOk(K(), envs[..][e := env]);
      envs[e] := env;
    }

    // sys_page_alloc
    method SysPageAlloc(cur: nat, envid: int, va: nat, perm: nat) returns (r: int)
      requires Valid() && Live(K(), cur) && perm < PGSIZE
      modifies m, m.pages, m.mem
      ensures Valid() && Outcome(K(), r) == Syscalls.PageAlloc(old(K()), cur, envid, va, perm)
      ensures SameOff(old(m.mem[..]), m.mem[..], m.S.dirs, m.S.tables)
    {
      hide Rep, Ok, FreeSlots, SlotIds, OwnDirs, EnvChain;
      ghost var k := K();
      Syscalls.ResolveLive(k, cur, envid, true);
      RepParts(m.pages[..], m.mem[..], m.freeList, m.S, m.managed, m.kern);
      Syscalls.PageAllocGood(k, m.managed, cur, envid, va, perm);
      var r0, e := Envid2Env(cur, envid, true);
      if r0 < 0 { return -E_BAD_ENV; }
      if Syscalls.VaBad(va) || !Syscalls.PermOk(perm) { return -E_INVAL; }
      var pp := m.PageAlloc(false);
      if pp == NULL { return -E_NO_MEM; }
      TakenFrame(k.mem, m.managed);
      r := m.PageInsert(envs[e].pgdir, pp, va / PGSIZE, perm);
      if r < 0 {
        RepParts(m.pages[..], m.mem[..], m.freeList, m.S, m.managed, m.kern);
        RepGiveBack(m.pages[..], m.mem[..], m.freeList, m.S, m.managed, m.kern, pp);
        m.PageFree(pp);
        assert m.S == k.mem;
        return -E_NO_MEM;
      }
    }

    // sys_page_map
    method SysPageMap(cur: nat, srcid: int, srcva: nat, dstid: int, dstva: nat, perm: nat) returns (r: int)
      requires Valid() && Live(K(), cur) && perm < PGSIZE && Uncrowded()
      modifies m, m.pages, m.mem
      ensures Valid() && Outcome(K(), r) == Syscalls.PageMap(old(K()), cur, srcid, srcva, dstid, dstva, perm)
      ensures SameOff(old(m.mem[..]), m.mem[..], m.S.dirs, m.S.tables)
    {
      hide Rep, Ok, FreeSlots, SlotIds, OwnDirs, EnvChain;
      ghost var k := K();
      Syscalls.ResolveLive(k, cur, srcid, true);
      Syscalls.ResolveLive(k, cur, dstid, true);
      RepParts(m.pages[..], m.mem[..], m.freeList, m.S, m.managed, m.kern);
      Syscalls.PageMapGood(k, m.managed, cur, srcid, srcva, dstid, dstva, perm);
      var r0, s := Envid2Env(cur, srcid, true);
      if r0 < 0 { return -E_BAD_ENV; }
      var r1, d := Envid2Env(cur, dstid, true);
      if r1 < 0 { return -E_BAD_ENV; }
      if Syscalls.VaBad(srcva) || Syscalls.VaBad(dstva) || !Syscalls.PermOk(perm) { return -E_INVAL; }
      var shared, pp := CheckSource(envs[s].pgdir, srcva / PGSIZE, perm);
      if !shared { return -E_INVAL; }
      Syscalls.MappedMappable(m.S, (envs[s].pgdir, srcva / PGSIZE));
      r := m.PageInsert(envs[d].pgdir, pp, dstva / PGSIZE, perm);
      if r < 0 { return -E_NO_MEM; }
    }

    // page_lookup of the source and the test that no write permission is created.
    method CheckSource(d: nat, v: nat, perm: nat) returns (shared: bool, pp: nat)
      requires m.Valid() && d in m.S.dirs && v < UPAGES_TOTAL
      modifies m, m.pages, m.mem
      ensures m.Valid() && m.S == old(m.S) && m.mem[..] == old(m.mem[..])
      ensures shared == Syscalls.Shareable(m.S, (d, v), perm)
      ensures shared ==> pp == m.S.maps[(d, v)].frame
    {
      hide Rep, Ok;
      var f, pte := m.PageLookup(d, v);
      if f == NULL { return false, 0; }
      RepParts(m.pages[..], m.mem[..], m.freeList, m.S, m.managed, m.kern);
      MappedHasTable(m.S, m.managed, (d, v));
      ReadPte(m.pages[..], m.mem[..], m.freeList, m.S, m.managed, m.kern, (d, v));
      var w := m.mem[pte.frame][pte.index];
      LowBits(w, m.S.maps[(d, v)].perm);
      return Has(w, PTE_W) || !Has(perm, PTE_W), f;
    }

    // sys_page_unmap
    method SysPageUnmap(cur: nat, envid: int, va: nat) returns (r: int)
      requires Valid() && Live(K(), cur)
      modifies m, m.pages, m.mem
      ensures Valid() && Outcome(K(), r) == Syscalls.PageUnmap(old(K()), cur, envid, va)
      ensures SameOff(old(m.mem[..]), m.mem[..], m.S.dirs, m.S.tables)
    {
      hide Rep, Ok, FreeSlots, SlotIds, OwnDirs, EnvChain;
      ghost var k := K();
      Syscalls.ResolveLive(k, cur, envid, true);
      var r0, e := Envid2Env(cur, envid, true);
      if r0 < 0 { return -E_BAD_ENV; }
      if Syscalls.VaBad(va) { return -E_INVAL; }
      EnvSpace.RemoveMaps(m.S, (envs[e].pgdir, va / PGSIZE));
      m.PageRemove(envs[e].pgdir, va / PGSIZE);
      r := 0;
    }

    // sys_env_destroy, as far as env_destroy returns
    method SysEnvDestroy(cur: nat, envid: int) returns (r: int)
      requires Valid() && Live(K(), cur)
      modifies this, envs, m, m.pages, m.mem
      ensures Valid() && Outcome(K(), r) == Syscalls.Destroy(old(K()), cur, envid)
      ensures SameOff(old(m.mem[..]), m.mem[..], old(m.S).dirs, old(m.S).tables)
    {
      hide Rep, Ok, FreeSlots, SlotIds, OwnDirs, EnvChain, EnvTable.ReleaseEnv;
      Syscalls.ResolveLive(K(), cur, envid, true);
      var r0, e := Envid2Env(cur, envid, true);
      if r0 < 0 { return r0; }
      if envs[e].status == ENV_RUNNING && e != cur {
        Patch(e, envs[e].(status := ENV_DYING));
        return 0;
      }
      ReleaseEnv(e);
      r := 0;
    }

    // sys_env_set_status
    method SysEnvSetStatus(cur: nat, envid: int, status: Status) returns (r: int)
      requires Valid() && Live(K(), cur)
      modifies envs
      ensures Valid() && Outcome(K(), r) == Syscalls.SetStatus(old(K()), cur, envid, status)
    {
      hide Rep, Ok, FreeSlots, SlotIds, OwnDirs, EnvChain;
      Syscalls.ResolveLive(K(), cur, envid, true);
      if status != ENV_RUNNABLE && status != ENV_NOT_RUNNABLE { return -E_INVAL; }
      var r0, e := Envid2Env(cur, envid, true);
      if r0 < 0 { return r0; }
      Patch(e, envs[e].(status := status));
      r := 0;
    }

    // sys_env_set_pgfault_upcall
    method SysEnvSetPgfaultUpcall(cur: nat, envid: int, func: nat) returns (r: int)
      requires Valid() && Live(K(), cur)
      modifies envs
      ensures Valid() && Outcome(K(), r) == Syscalls.SetUpcall(old(K()), cur, envid, func)
    {
      hide Rep, Ok, FreeSlots, SlotIds, OwnDirs, EnvChain;
      Syscalls.ResolveLive(K(), cur, envid, true);
      var r0, e := Envid2Env(cur, envid, true);
      if r0 < 0 { return -E_BAD_ENV; }
      Patch(e, envs[e].(upcall := func));
      r := 0;
    }

    // sys_ipc_try_send
    method SysIpcTrySend(cur: nat, envid: int, value: nat, srcva: nat, perm: nat) returns (r: int)
      requires Valid() && Live(K(), cur) && perm < PGSIZE && Uncrowded()
      modifies envs, m, m.pages, m.mem
      ensures Valid() && Outcome(K(), r) == Syscalls.TrySend(old(K()), cur, envid, value, srcva, perm)
      ensures SameOff(old(m.mem[..]), m.mem[..], m.S.dirs, m.S.tables)
    {
      hide Rep, Ok, FreeSlots, SlotIds, OwnDirs, EnvChain;
      ghost var k := K();
      Syscalls.ResolveLive(k, cur, envid, false);
      Syscalls.ResolveLive(k, cur, 0, false);
      RepParts(m.pages[..], m.mem[..], m.freeList, m.S, m.managed, m.kern);
      var r0, t := Envid2Env(cur, envid, false);
      if r0 < 0 { return -E_BAD_ENV; }
      if !envs[t].recving { return -E_IPC_NOT_RECV; }
      var sent := 0;
      if srcva < UTOP && envs[t].dstva < UTOP {
        if srcva / PGSIZE * PGSIZE != srcva || !Syscalls.PermOk(perm) { return -E_INVAL; }
        var shared, pp := CheckSource(envs[cur].pgdir, srcva / PGSIZE, perm);
        if !shared { return -E_INVAL; }
        Syscalls.MappedMappable(m.S, (envs[cur].pgdir, srcva / PGSIZE));
        Syscalls.FinishGood(k, m.managed, k.mem, envs[t].pgdir, envs[t].dstva / PGSIZE, pp, perm);
        r := m.PageInsert(envs[t].pgdir, pp, envs[t].dstva / PGSIZE, perm);
        if r < 0 { return -E_NO_MEM; }
        sent := perm;
      }
      Patch(t, Syscalls.Deliver(envs[t], envs[cur].id, value, sent));
      r := 0;
    }

    // sys_ipc_recv, before it yields
    method SysIpcRecv(cur: nat, dstva: nat) returns (r: int)
      requires Valid() && Live(K(), cur)
      modifies envs
      ensures Valid() && Outcome(K(), r) == Syscalls.Recv(old(K()), cur, dstva)
    {
      hide Rep, Ok, FreeSlots, SlotIds, OwnDirs, EnvChain;
      var va := UTOP;
      if dstva < UTOP {
        if dstva / PGSIZE * PGSIZE != dstva { return -E_INVAL; }
        va := dstva;
      }
      Patch(cur, envs[cur].(dstva := va, recving := true, status := ENV_NOT_RUNNABLE));
      r := 0;
    }
  }

  lemma LiveHasDir(k: KState, e: nat)
    requires TableOk(k) && Live(k, e)
    ensures k.envs[e].pgdir in k.mem.dirs && e !in k.free
  {}

  lemma LowBits(w: nat, perm: nat)
    requires w % PGSIZE == perm
    ensures Has(w, PTE_W) == Has(perm, PTE_W) && Has(w, PTE_COW) == Has(perm, PTE_COW)
  {
    assert w == PGSIZE * (w / PGSIZE) + perm;
  }

  // A frame just taken from the list can be inserted, and giving it back restores the state.
  lemma TakenFrame(s: Flat, managed: set<nat>)
    requires Ok(s, managed) && s.free != []
    ensures Ok(Take(s), managed) && Mappable(Take(s), s.free[0]) && RefCount(Take(s), s.free[0]) == 0
    ensures GiveBack(Take(s), s.free[0]) == s
  {
    TakeOk(s, managed);
    assert RefCount(Take(s), s.free[0]) == RefCount(s, s.free[0]);
    assert [s.free[0]] + s.free[1..] == s.free;
    assert (s.held + {s.free[0]}) - {s.free[0]} == s.held;
  }

  lemma PushHead(envs: seq<Env>, head: int, free: seq<nat>, e: nat, env: Env)
    requires EnvChain(envs, head, free) && e !in free && e < |envs| && env.link == head
    ensures EnvChain(envs[e := env], e, [e] + free)
    ensures head == if free == [] then NULL else free[0]
  {
    EnvChainPush(envs, head, free, e, env);
  }

  lemma EnvChainPush(envs: seq<Env>, head: int, free: seq<nat>, e: nat, env: Env)
    requires EnvChain(envs, head, free) && e !in free && e < |envs| && env.link == head
    ensures EnvChain(envs[e := env], e, [e] + free)
  {
    var more, envs' := [e] + free, envs[e := env];
    forall i | 0 <= i < |more| ensures EnvLinked(envs', more, i) {
      if i > 0 {
        assert EnvLinked(envs, free, i - 1);
        assert more[i] == free[i - 1] && free[i - 1] in free;
      }
    }
  }

  lemma InitialTable(envs: seq<Env>, free: seq<nat>, mem: Flat)
    requires |envs| == NENV == |free| && mem.dirs == {}
    requires forall e :: 0 <= e < NENV ==> free[e] == e && envs[e].status == ENV_FREE && envs[e].id == 0
    ensures TableOk(KState(envs, free, mem))
  {
    forall e | 0 <= e < NENV ensures e in free { assert free[e] == e; }
  }

  lemma PopHead(envs: seq<Env>, head: int, free: seq<nat>, env: Env)
    requires EnvChain(envs, head, free) && FreeSlots(envs, free) && free != []
    ensures free[0] < |envs| && EnvChain(envs[free[0] := env], envs[free[0]].link, free[1..])
  {
    EnvChainPop(envs, head, free, env);
  }

  lemma EnvChainPop(envs: seq<Env>, head: int, free: seq<nat>, env: Env)
    requires EnvChain(envs, head, free) && NoDup(free) && free != []
    ensures free[0] < |envs| && EnvChain(envs[free[0] := env], envs[free[0]].link, free[1..])
  {
    assert EnvLinked(envs, free, 0);
    var envs', rest := envs[free[0] := env], free[1..];
    forall i | 0 <= i < |rest| ensures EnvLinked(envs', rest, i) {
      assert EnvLinked(envs, free, i + 1);
    }
  }

  // A write to a slot that is not on the list, or that keeps its link.
  lemma EnvChainKeep(envs: seq<Env>, head: int, free: seq<nat>, e: nat, env: Env)
    requires EnvChain(envs, head, free) && e < |envs| && (e !in free || env.link == envs[e].link)
    ensures EnvChain(envs[e := env], head, free)
  {
    var envs' := envs[e := env];
    forall i | 0 <= i < |free| ensures EnvLinked(envs', free, i) {
      assert EnvLinked(envs, free, i) && free[i] in free;
    }
  }
}
