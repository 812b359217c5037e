// The system calls of kern/syscall.c that change address spaces and IPC state, as functions of
// the environment table and the flat memory.  `cur` is the slot of curenv.
module Syscalls {
  import opened Mmu
  import opened FlatMemory
  import opened EnvIds
  import opened EnvSpace
  import opened EnvTable

  // The test on addresses.  C's % on a negative int is never positive, so from 0x8000_0000 up a
  // misaligned address passes and stands for the page that contains it.
  predicate VaBad(va: nat) {
    va >= UTOP || (va < 0x8000_0000 && va % PGSIZE > 0)
  }

  predicate PermOk(perm: nat) {
    Has(perm, PTE_U) && Has(perm, PTE_P)
  }

  function PageOf(va: nat): nat { va / PGSIZE }

  function Finish(k: KState, r: Result): Outcome {
    match r
    case NoMem => Outcome(k, -E_NO_MEM)
    case Done(s) => Outcome(k.(mem := s), 0)
  }

  ghost function PageAlloc(k: KState, cur: nat, envid: int, va: nat, perm: nat): Outcome
    requires |k.envs| == NENV && cur < NENV
  {
    var e := Resolve(k.envs, cur, envid, true);
    if e < 0 then Outcome(k, -E_BAD_ENV)
    else if VaBad(va) || !PermOk(perm) then Outcome(k, -E_INVAL)
    else if k.mem.free == [] then Outcome(k, -E_NO_MEM)
    else Finish(k, Insert(Take(k.mem), (k.envs[e].pgdir, PageOf(va)), k.mem.free[0], perm))
  }

  // The mapping that the source page and the permission check allow to be copied.
  ghost function Shareable(mem: Flat, src: Slot, perm: nat): bool {
    src in mem.maps && (Has(mem.maps[src].perm, PTE_W) || !Has(perm, PTE_W))
  }

  ghost function PageMap(k: KState, cur: nat, srcid: int, srcva: nat, dstid: int, dstva: nat, perm: nat): Outcome
    requires |k.envs| == NENV && cur < NENV
  {
    var s, d := Resolve(k.envs, cur, srcid, true), Resolve(k.envs, cur, dstid, true);
    if s < 0 || d < 0 then Outcome(k, -E_BAD_ENV)
    else if VaBad(srcva) || VaBad(dstva) || !PermOk(perm) then Outcome(k, -E_INVAL)
    else
      var src := (k.envs[s].pgdir, PageOf(srcva));
      if !Shareable(k.mem, src, perm) then Outcome(k, -E_INVAL)
      else Finish(k, Insert(k.mem, (k.envs[d].pgdir, PageOf(dstva)), k.mem.maps[src].frame, perm))
  }

  function PageUnmap(k: KState, cur: nat, envid: int, va: nat): Outcome
    requires |k.envs| == NENV && cur < NENV
  {
    var e := Resolve(k.envs, cur, envid, true);
    if e < 0 then Outcome(k, -E_BAD_ENV)
    else if VaBad(va) then Outcome(k, -E_INVAL)
    else Outcome(k.(mem := Remove(k.mem, (k.envs[e].pgdir, PageOf(va)))), 0)
  }

  // sys_exofork: the child gets a fresh space, the caller's registers with eax 0, and does not run.
  function Exofork(k: KState, cur: nat): Outcome
    requires |k.envs| == NENV && cur < NENV && (k.free != [] ==> k.free[0] < NENV)
  {
    var o := EnvAlloc(k, k.envs[cur].id);
    if o.r < 0 then o
    else
      var e := k.free[0];
      Outcome(o.k.(envs := o.k.envs[e := o.k.envs[e].(status := ENV_NOT_RUNNABLE, eax := 0)]), o.k.envs[e].id)
  }

  // sys_env_destroy: an environment that runs on another CPU is only marked.
  function Destroy(k: KState, cur: nat, envid: int): Outcome
    requires |k.envs| == NENV && cur < NENV
  {
    var e := Resolve(k.envs, cur, envid, true);
    if e < 0 then Outcome(k, -E_BAD_ENV)
    else if k.envs[e].status == ENV_RUNNING && e != cur then
      Outcome(k.(envs := k.envs[e := k.envs[e].(status := ENV_DYING)]), 0)
    else Outcome(ReleaseEnv(k, e), 0)
  }

  // env_run's writes: a RUNNABLE or RUNNING environment becomes the other.
  function Schedule(k: KState, e: nat, running: bool): KState
    requires e < |k.envs|
  {
    if k.envs[e].status == ENV_RUNNABLE || k.envs[e].status == ENV_RUNNING then
      k.(envs := k.envs[e := k.envs[e].(status := if running then ENV_RUNNING else ENV_RUNNABLE)])
    else k
  }

  // sys_env_set_status
  function SetStatus(k: KState, cur: nat, envid: int, status: Status): Outcome
    requires |k.envs| == NENV && cur < NENV
  {
    var e := Resolve(k.envs, cur, envid, true);
    if status != ENV_RUNNABLE && status != ENV_NOT_RUNNABLE then Outcome(k, -E_INVAL)
    else if e < 0 then Outcome(k, -E_BAD_ENV)
    else Outcome(k.(envs := k.envs[e := k.envs[e].(status := status)]), 0)
  }

  // sys_env_set_pgfault_upcall
  function SetUpcall(k: KState, cur: nat, envid: int, func: nat): Outcome
    requires |k.envs| == NENV && cur < NENV
  {
    var e := Resolve(k.envs, cur, envid, true);
    if e < 0 then Outcome(k, -E_BAD_ENV)
    else Outcome(k.(envs := k.envs[e := k.envs[e].(upcall := func)]), 0)
  }

  // ------------------------------------------------------------------------- IPC

  function Deliver(env: Env, from: int, value: nat, perm: nat): Env {
    env.(recving := false, from := from, value := value, perm := perm, eax := 0, status := ENV_RUNNABLE)
  }

  // A page travels only if the sender offers one and the receiver asked for one.  (user_mem_check
  // on one page below UTOP accepts exactly the mapped ones, as the lookup after it does.)
  ghost function TrySend(k: KState, cur: nat, envid: int, value: nat, srcva: nat, perm: nat): Outcome
    requires |k.envs| == NENV && cur < NENV
  {
    var t := Resolve(k.envs, cur, envid, false);
    if t < 0 then Outcome(k, -E_BAD_ENV)
    else if !k.envs[t].recving then Outcome(k, -E_IPC_NOT_RECV)
    else
      var from := k.envs[cur].id;
      if srcva < UTOP && k.envs[t].dstva < UTOP then
        var src := (k.envs[cur].pgdir, PageOf(srcva));
        if srcva % PGSIZE != 0 || !PermOk(perm) || !Shareable(k.mem, src, perm) then Outcome(k, -E_INVAL)
        else
          match Insert(k.mem, (k.envs[t].pgdir, PageOf(k.envs[t].dstva)), k.mem.maps[src].frame, perm)
          case NoMem => Outcome(k, -E_NO_MEM)
          case Done(s) => Outcome(k.(envs := k.envs[t := Deliver(k.envs[t], from, value, perm)], mem := s), 0)
      else
        Outcome(k.(envs := k.envs[t := Deliver(k.envs[t], from, value, 0)]), 0)
  }

  // sys_ipc_recv up to the point where it gives up the CPU.
  function Recv(k: KState, cur: nat, dstva: nat): Outcome
    requires |k.envs| == NENV && cur < NENV
  {
    if dstva < UTOP && dstva % PGSIZE != 0 then Outcome(k, -E_INVAL)
    else
      var va := if dstva < UTOP then dstva else UTOP;
      var env := k.envs[cur].(dstva := va, recving := true, status := ENV_NOT_RUNNABLE);
      Outcome(k.(envs := k.envs[cur := env]), 0)
  }

  // --------------------------------------------------------------- every run keeps Good

  datatype Call =
    | CallExofork(cur: nat)
    | CallPageAlloc(cur: nat, envid: int, va: nat, perm: nat)
    | CallPageMap(cur: nat, srcid: int, srcva: nat, dstid: int, dstva: nat, perm: nat)
    | CallPageUnmap(cur: nat, envid: int, va: nat)
    | CallSetStatus(cur: nat, envid: int, status: Status)
    | CallSetUpcall(cur: nat, envid: int, func: nat)
    | CallTrySend(cur: nat, envid: int, value: nat, srcva: nat, perm: nat)
    | CallRecv(cur: nat, dstva: nat)
    | CallEnvCreate
    | CallDestroy(cur: nat, envid: int)
    | CallSchedule(cur: nat, running: bool)
    | CallEnvFree(cur: nat)

  // One kernel operation; a caller that is not alive makes no call.  CallSchedule and CallEnvFree are the
  // kernel's own, for env_run and for a zombie that traps, and cur is the environment concerned.
  ghost function Do(k: KState, call: Call): KState
    requires TableOk(k)
  {
    assert k.free != [] ==> k.free[0] in k.free;
    if call.CallEnvCreate? then EnvAlloc(k, 0).k
    else if !Live(k, call.cur) then k
    else match call
      case CallExofork(cur) => Exofork(k, cur).k
      case CallPageAlloc(cur, envid, va, perm) => PageAlloc(k, cur, envid, va, perm).k
      case CallPageMap(cur, srcid, srcva, dstid, dstva, perm) => PageMap(k, cur, srcid, srcva, dstid, dstva, perm).k
      case CallPageUnmap(cur, envid, va) => PageUnmap(k, cur, envid, va).k
      case CallSetStatus(cur, envid, status) => SetStatus(k, cur, envid, status).k
      case CallSetUpcall(cur, envid, func) => SetUpcall(k, cur, envid, func).k
      case CallTrySend(cur, envid, value, srcva, perm) => TrySend(k, cur, envid, value, srcva, perm).k
      case CallRecv(cur, dstva) => Recv(k, cur, dstva).k
      case CallDestroy(cur, envid) => Destroy(k, cur, envid).k
      case CallSchedule(cur, running) => Schedule(k, cur, running)
      case CallEnvFree(cur) => ReleaseEnv(k, cur)
  }

  ghost predicate Good(k: KState, managed: set<nat>) {
    TableOk(k) && Ok(k.mem, managed) && k.mem.held == {}
  }

  // A change of IPC and scheduling fields is none of the invariant's business.
  ghost predicate SameSlots(envs: seq<Env>, envs': seq<Env>) {
    |envs'| == |envs| &&
    forall e :: 0 <= e < |envs| ==>
      envs'[e].id == envs[e].id && envs'[e].pgdir == envs[e].pgdir
      && (envs'[e].status == ENV_FREE <==> envs[e].status == ENV_FREE)
  }

  lemma SameSlotsOk(k: KState, envs': seq<Env>)
    requires TableOk(k) && SameSlots(k.envs, envs')
    ensures TableOk(k.(envs := envs'))
  {
    var envs := k.envs;
    forall d | d in k.mem.dirs
      ensures exists e :: 0 <= e < |envs'| && envs'[e].status != ENV_FREE && envs'[e].pgdir == d
    {
      var e :| 0 <= e < |envs| && envs[e].status != ENV_FREE && envs[e].pgdir == d;
      assert envs'[e].pgdir == d;
    }
  }

  lemma ResolveLive(k: KState, cur: nat, envid: int, check: bool)
    requires TableOk(k) && Live(k, cur)
    ensures var e := Resolve(k.envs, cur, envid, check);
            e == -1 || (0 <= e < NENV && Live(k, e) && k.envs[e].pgdir in k.mem.dirs)
  {}

  // page_insert of a mapped page, or of a page just taken, keeps the memory good.
  lemma FinishGood(k: KState, managed: set<nat>, mem: Flat, d: nat, v: nat, f: nat, perm: nat)
    requires Good(k, managed) && Ok(mem, managed) && mem.dirs == k.mem.dirs && mem.held <= {f}
    requires Mappable(mem, f) && d in k.mem.dirs && v < UPAGES_TOTAL
    ensures Good(Finish(k, Insert(mem, (d, v), f, perm)).k, managed)
  {
    hide Ok;
    if Insert(mem, (d, v), f, perm).Done? { InsertOk(mem, managed, (d, v), f, perm); }
  }

  lemma PageAllocGood(k: KState, managed: set<nat>, cur: nat, envid: int, va: nat, perm: nat)
    requires Good(k, managed) && Live(k, cur)
    ensures Good(PageAlloc(k, cur, envid, va, perm).k, managed)
  {
    hide Ok;
    ResolveLive(k, cur, envid, true);
    if PageAlloc(k, cur, envid, va, perm).k != k {
      TakeOk(k.mem, managed);
      FinishGood(k, managed, Take(k.mem), k.envs[Resolve(k.envs, cur, envid, true)].pgdir, PageOf(va), k.mem.free[0],
                 perm);
    }
  }

  lemma MappedMappable(s: Flat, k: Slot)
    requires k in s.maps
    ensures Mappable(s, s.maps[k].frame)
  {
    assert k in PteRefs(s.maps, s.maps[k].frame);
  }

  lemma PageMapGood(k: KState, managed: set<nat>, cur: nat, srcid: int, srcva: nat, dstid: int, dstva: nat, perm: nat)
    requires Good(k, managed) && Live(k, cur)
    ensures Good(PageMap(k, cur, srcid, srcva, dstid, dstva, perm).k, managed)
  {
    hide Ok;
    ResolveLive(k, cur, srcid, true);
    ResolveLive(k, cur, dstid, true);
    if PageMap(k, cur, srcid, srcva, dstid, dstva, perm).k != k {
      var s, d := Resolve(k.envs, cur, srcid, true), Resolve(k.envs, cur, dstid, true);
      var src := (k.envs[s].pgdir, PageOf(srcva));
      MappedMappable(k.mem, src);
      FinishGood(k, managed, k.mem, k.envs[d].pgdir, PageOf(dstva), k.mem.maps[src].frame, perm);
    }
  }

  lemma TrySendGood(k: KState, managed: set<nat>, cur: nat, envid: int, value: nat, srcva: nat, perm: nat)
    requires Good(k, managed) && Live(k, cur)
    ensures Good(TrySend(k, cur, envid, value, srcva, perm).k, managed)
  {
    hide Ok;
    var k' := TrySend(k, cur, envid, value, srcva, perm).k;
    ResolveLive(k, cur, envid, false);
    if k' != k {
      var t := Resolve(k.envs, cur, envid, false);
      if srcva < UTOP && k.envs[t].dstva < UTOP {
        var src := (k.envs[cur].pgdir, PageOf(srcva));
        MappedMappable(k.mem, src);
        FinishGood(k, managed, k.mem, k.envs[t].pgdir, PageOf(k.envs[t].dstva), k.mem.maps[src].frame, perm);
      }
      SameSlotsOk(k.(mem := k'.mem), k'.envs);
    }
  }

  lemma ExoforkGood(k: KState, managed: set<nat>, cur: nat)
    requires Good(k, managed) && Live(k, cur)
    ensures k.free != [] ==> k.free[0] < NENV
    ensures Good(Exofork(k, cur).k, managed)
  {
    hide Ok;
    EnvAllocOk(k, managed, k.envs[cur].id);
    var o := EnvAlloc(k, k.envs[cur].id);
    if o.r == 0 {
      assert o.k.mem.held == {};
      SameSlotsOk(o.k, Exofork(k, cur).k.envs);
    }
  }

  lemma PatchGood(k: KState, managed: set<nat>, cur: nat, envid: int, status: Status, func: nat, dstva: nat)
    requires Good(k, managed) && Live(k, cur)
    ensures Good(SetStatus(k, cur, envid, status).k, managed)
    ensures Good(SetUpcall(k, cur, envid, func).k, managed)
    ensures Good(Recv(k, cur, dstva).k, managed)
  {
    hide Ok, FreeSlots, SlotIds, OwnDirs;
    ResolveLive(k, cur, envid, true);
    SameSlotsOk(k, SetStatus(k, cur, envid, status).k.envs);
    SameSlotsOk(k, SetUpcall(k, cur, envid, func).k.envs);
    SameSlotsOk(k, Recv(k, cur, dstva).k.envs);
  }

  lemma ScheduleGood(k: KState, managed: set<nat>, e: nat, running: bool)
    requires Good(k, managed) && Live(k, e)
    ensures Good(Schedule(k, e, running), managed)
  {
    hide Ok, FreeSlots, SlotIds, OwnDirs;
    SameSlotsOk(k, Schedule(k, e, running).envs);
  }

  lemma DestroyGood(k: KState, managed: set<nat>, cur: nat, envid: int)
    requires Good(k, managed) && Live(k, cur)
    ensures Good(Destroy(k, cur, envid).k, managed)
  {
    hide Ok, FreeSlots, SlotIds, OwnDirs, ReleaseEnv;
    ResolveLive(k, cur, envid, true);
    var e := Resolve(k.envs, cur, envid, true);
    if e >= 0 {
      if k.envs[e].status == ENV_RUNNING && e != cur {
        SameSlotsOk(k, k.envs[e := k.envs[e].(status := ENV_DYING)]);
      } else {
        LifeGood(k, managed, e);
      }
    }
  }

  lemma PageUnmapGood(k: KState, managed: set<nat>, cur: nat, envid: int, va: nat)
    requires Good(k, managed) && Live(k, cur)
    ensures Good(PageUnmap(k, cur, envid, va).k, managed)
  {
    hide Ok;
    if Resolve(k.envs, cur, envid, true) >= 0 {
      RemoveOk(k.mem, managed, (k.envs[Resolve(k.envs, cur, envid, true)].pgdir, PageOf(va)));
    }
  }

  lemma LifeGood(k: KState, managed: set<nat>, cur: nat)
    requires Good(k, managed)
    ensures k.free != [] ==> k.free[0] < NENV
    ensures Good(EnvAlloc(k, 0).k, managed)
    ensures Live(k, cur) ==> Good(ReleaseEnv(k, cur), managed)
  {
    hide Ok;
    EnvAllocOk(k, managed, 0);
    assert EnvAlloc(k, 0).k.mem.held == {};
    if Live(k, cur) { ReleaseEnvOk(k, managed, cur); }
  }

  lemma DoGood(k: KState, managed: set<nat>, call: Call)
    requires Good(k, managed)
    ensures Good(Do(k, call), managed)
  {
    LifeGood(k, managed, if call.CallEnvCreate? then 0 else call.cur);
    hide Ok, FreeSlots, SlotIds, OwnDirs, PageAlloc, PageMap, PageUnmap, TrySend, Exofork, EnvAlloc, ReleaseEnv,
      SetStatus, SetUpcall, Recv, Destroy, Schedule;
    if !call.CallEnvCreate? && Live(k, call.cur) {
      match call
      case CallExofork(cur) => ExoforkGood(k, managed, cur);
      case CallPageAlloc(cur, envid, va, perm) => PageAllocGood(k, managed, cur, envid, va, perm);
      case CallPageMap(cur, srcid, srcva, dstid, dstva, perm) =>
        PageMapGood(k, managed, cur, srcid, srcva, dstid, dstva, perm);
      case CallPageUnmap(cur, envid, va) => PageUnmapGood(k, managed, cur, envid, va);
      case CallSetStatus(cur, envid, status) => PatchGood(k, managed, cur, envid, status, 0, 0);
      case CallSetUpcall(cur, envid, func) => PatchGood(k, managed, cur, envid, ENV_RUNNABLE, func, 0);
      case CallTrySend(cur, envid, value, srcva, perm) => TrySendGood(k, managed, cur, envid, value, srcva, perm);
      case CallRecv(cur, dstva) => PatchGood(k, managed, cur, 0, ENV_RUNNABLE, 0, dstva);
      case CallDestroy(cur, envid) => DestroyGood(k, managed, cur, envid);
      case CallSchedule(cur, running) => ScheduleGood(k, managed, cur, running);
      case CallEnvFree(cur) => {}
    }
  }

  // The states after each prefix of a sequence of kernel operations.
  ghost predicate IsRun(states: seq<KState>, calls: seq<Call>) {
    |states| == |calls| + 1 &&
    forall i :: 0 <= i < |calls| ==> (TableOk(states[i]) ==> states[i + 1] == Do(states[i], calls[i]))
  }

  // In every reachable state the counts are exact and a managed frame is free iff nothing names it.
  lemma {:induction false} RunGood(managed: set<nat>, states: seq<KState>, calls: seq<Call>, n: nat)
    requires IsRun(states, calls) && Good(states[0], managed) && n < |states|
    ensures Good(states[n], managed)
    ensures forall f :: f in managed ==> (f in states[n].mem.free <==> RefCount(states[n].mem, f) == 0)
  {
    if n > 0 {
      RunGood(managed, states, calls, n - 1);
      DoGood(states[n - 1], managed, calls[n - 1]);
    }
  }
}
