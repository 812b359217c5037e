// The two models of a system call: what Syscalls does to the table of environments is, for statuses and
// receivers, what Smp lets a CPU do to it.
module Agreement {
  import opened Mmu
  import opened FlatMemory
  import opened EnvIds
  import opened EnvTable
  import opened Syscalls
  import Calls
  import Smp

  // What the scheduler sees of the table.
  function Procs(envs: seq<Env>): (r: seq<Smp.Proc>)
    ensures |r| == |envs| && forall e :: 0 <= e < |envs| ==> r[e] == Smp.Proc(envs[e].status, envs[e].recving)
  {
    seq(|envs|, e requires 0 <= e < |envs| => Smp.Proc(envs[e].status, envs[e].recving))
  }

  // The call as an operation on statuses: the slots are those that the ids resolve to, and a call that
  // is refused is none.
  ghost function OpOf(k: KState, call: Call): Smp.Op
    requires |k.envs| == NENV && (k.free != [] ==> k.free[0] < NENV)
  {
    match call
    case CallDestroy(cur, envid) =>
      if cur < NENV && Resolve(k.envs, cur, envid, true) >= 0 then Smp.Destroy(Resolve(k.envs, cur, envid, true))
      else Smp.Nothing
    case CallSetStatus(cur, envid, status) =>
      if cur < NENV && Resolve(k.envs, cur, envid, true) >= 0 then Smp.SetTo(Resolve(k.envs, cur, envid, true), status)
      else Smp.Nothing
    case CallExofork(cur) => if k.free != [] && k.mem.free != [] then Smp.Exofork(k.free[0]) else Smp.Nothing
    case CallTrySend(cur, envid, value, srcva, perm) =>
      if cur < NENV && TrySend(k, cur, envid, value, srcva, perm).r == 0 then
        Smp.Send(if Resolve(k.envs, cur, envid, false) >= 0 then Resolve(k.envs, cur, envid, false) else 0)
      else Smp.Nothing
    case CallRecv(cur, dstva) => if cur < NENV && Recv(k, cur, dstva).r == 0 then Smp.Recv else Smp.Nothing
    case _ => Smp.Nothing
  }

  // A call of the environment that runs on c.
  predicate FromCpu(s: Smp.State, c: nat, call: Call) {
    && !call.CallEnvCreate? && !call.CallSchedule? && !call.CallEnvFree?
    && c < |s.cpus| && s.cpus[c].cur == call.cur
  }

  // One record changed.
  lemma OneProc(envs: seq<Env>, envs': seq<Env>, e: nat)
    requires e < |envs| && Calls.OthersKept(envs, envs', e)
    ensures Procs(envs)[e := Smp.Proc(envs'[e].status, envs'[e].recving)] == Procs(envs')
  {}

  lemma DestroyAgrees(k: KState, managed: set<nat>, s: Smp.State, c: nat, call: Call)
    requires Good(k, managed) && Smp.Wf(s) && s.procs == Procs(k.envs) && FromCpu(s, c, call) && Live(k, call.cur)
    requires call.CallDestroy? && (k.free != [] ==> k.free[0] < NENV)
    ensures Smp.Effect(s, c, call.cur, OpOf(k, call)).procs == Procs(Do(k, call).envs)
  {
    Calls.DestroyEffect(k, managed, call.cur, call.envid);
    ResolveLive(k, call.cur, call.envid, true);
    hide Ok, FreeSlots, SlotIds, OwnDirs, Destroy, Resolve, Procs;
    var e := Resolve(k.envs, call.cur, call.envid, true);
    if e >= 0 { OneProc(k.envs, Do(k, call).envs, e); }
  }

  lemma StatusAgrees(k: KState, managed: set<nat>, s: Smp.State, c: nat, call: Call)
    requires Good(k, managed) && Smp.Wf(s) && s.procs == Procs(k.envs) && FromCpu(s, c, call) && Live(k, call.cur)
    requires call.CallSetStatus? && (k.free != [] ==> k.free[0] < NENV)
    ensures Smp.Effect(s, c, call.cur, OpOf(k, call)).procs == Procs(Do(k, call).envs)
  {
    Calls.StatusEffect(k, call.cur, call.envid, call.status);
    ResolveLive(k, call.cur, call.envid, true);
    hide Ok, FreeSlots, SlotIds, OwnDirs, SetStatus, Resolve, Procs;
    var e := Resolve(k.envs, call.cur, call.envid, true);
    if e >= 0 && SetStatus(k, call.cur, call.envid, call.status).r == 0 { OneProc(k.envs, Do(k, call).envs, e); }
  }

  lemma ExoforkAgrees(k: KState, managed: set<nat>, s: Smp.State, c: nat, call: Call)
    requires Good(k, managed) && Smp.Wf(s) && s.procs == Procs(k.envs) && FromCpu(s, c, call) && Live(k, call.cur)
    requires call.CallExofork? && (k.free != [] ==> k.free[0] < NENV)
    ensures Smp.Effect(s, c, call.cur, OpOf(k, call)).procs == Procs(Do(k, call).envs)
  {
    hide Ok, FreeSlots, SlotIds, OwnDirs, Calls.NewSpace, IsId, Exofork, Procs;
    Calls.ExoforkEffect(k, managed, call.cur);
    if k.free != [] && k.mem.free != [] { OneProc(k.envs, Do(k, call).envs, k.free[0]); }
  }

  lemma SendAgrees(k: KState, managed: set<nat>, s: Smp.State, c: nat, call: Call)
    requires Good(k, managed) && Smp.Wf(s) && s.procs == Procs(k.envs) && FromCpu(s, c, call) && Live(k, call.cur)
    requires call.CallTrySend? && (k.free != [] ==> k.free[0] < NENV)
    ensures Smp.Effect(s, c, call.cur, OpOf(k, call)).procs == Procs(Do(k, call).envs)
  {
    ResolveLive(k, call.cur, call.envid, false);
    SendRecords(k, call);
    hide Ok, FreeSlots, SlotIds, OwnDirs, TrySend, Resolve, Procs;
    var e := Resolve(k.envs, call.cur, call.envid, false);
    if e >= 0 && TrySend(k, call.cur, call.envid, call.value, call.srcva, call.perm).r == 0 {
      OneProc(k.envs, Do(k, call).envs, e);
    }
  }

  // A send wakes its target, or changes no record.
  lemma SendRecords(k: KState, call: Call)
    requires TableOk(k) && call.CallTrySend? && Live(k, call.cur)
    ensures var o := TrySend(k, call.cur, call.envid, call.value, call.srcva, call.perm);
            var t := Resolve(k.envs, call.cur, call.envid, false);
            && (o.r != 0 ==> o.k.envs == k.envs)
            && (o.r == 0 ==>
                  && 0 <= t < NENV && k.envs[t].recving && k.envs[t].status != ENV_FREE
                  && Calls.OthersKept(k.envs, o.k.envs, t)
                  && o.k.envs[t].status == ENV_RUNNABLE && !o.k.envs[t].recving)
  {
    ResolveLive(k, call.cur, call.envid, false);
    hide FreeSlots, SlotIds, OwnDirs, Resolve, Insert;
  }

  lemma RecvAgrees(k: KState, managed: set<nat>, s: Smp.State, c: nat, call: Call)
    requires Good(k, managed) && Smp.Wf(s) && s.procs == Procs(k.envs) && FromCpu(s, c, call) && Live(k, call.cur)
    requires call.CallRecv? && (k.free != [] ==> k.free[0] < NENV)
    ensures Smp.Effect(s, c, call.cur, OpOf(k, call)).procs == Procs(Do(k, call).envs)
  {
    Calls.RecvEffect(k, call.cur, call.dstva);
    hide Ok, FreeSlots, SlotIds, OwnDirs, Recv, Procs;
    if Recv(k, call.cur, call.dstva).r == 0 { OneProc(k.envs, Do(k, call).envs, call.cur); }
  }

  lemma OtherAgrees(k: KState, managed: set<nat>, s: Smp.State, c: nat, call: Call)
    requires Good(k, managed) && Smp.Wf(s) && s.procs == Procs(k.envs) && FromCpu(s, c, call) && Live(k, call.cur)
    requires call.CallPageAlloc? || call.CallPageMap? || call.CallPageUnmap? || call.CallSetUpcall?
    requires k.free != [] ==> k.free[0] < NENV
    ensures Smp.Effect(s, c, call.cur, OpOf(k, call)).procs == Procs(Do(k, call).envs)
  {
    hide Ok, FreeSlots, SlotIds, OwnDirs, Insert, Remove, Resolve, Procs;
    if call.CallSetUpcall? {
      Calls.UpcallEffect(k, call.cur, call.envid, call.func);
      ResolveLive(k, call.cur, call.envid, true);
      var e := Resolve(k.envs, call.cur, call.envid, true);
      if e >= 0 { OneProc(k.envs, Do(k, call).envs, e); }
    }
  }

  // Each system call changes the scheduler's table exactly as its operation there does.
  lemma CallIsEffect(k: KState, managed: set<nat>, s: Smp.State, c: nat, call: Call)
    requires Good(k, managed) && Smp.Wf(s) && s.procs == Procs(k.envs) && FromCpu(s, c, call) && Live(k, call.cur)
    ensures k.free != [] ==> k.free[0] < NENV
    ensures Smp.Effect(s, c, call.cur, OpOf(k, call)).procs == Procs(Do(k, call).envs)
  {
    Calls.EnvAllocEffect(k, managed, 0);
    hide Good, Do, Smp.Effect, OpOf, Procs;
    match call {
      case CallDestroy(_, _) => DestroyAgrees(k, managed, s, c, call);
      case CallSetStatus(_, _, _) => StatusAgrees(k, managed, s, c, call);
      case CallExofork(_) => ExoforkAgrees(k, managed, s, c, call);
      case CallTrySend(_, _, _, _, _) => SendAgrees(k, managed, s, c, call);
      case CallRecv(_, _) => RecvAgrees(k, managed, s, c, call);
      case _ => OtherAgrees(k, managed, s, c, call);
    }
  }
}
