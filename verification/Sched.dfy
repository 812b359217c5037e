// The code of kern/sched.c, env_destroy, env_run and trap over the shared table, updated in
// place, against the steps of module Smp.  Each way out of the kernel also promises what is proved
// about those steps: the invariant, and that the lock has been given back.
module Schedulers {
  import opened Mmu
  import opened EnvIds
  import opened EnvTable
  import opened Smp

  class Table {
    const procs: array<Proc>
    const cpus: array<Cpu>
    var lock: int

    ghost function S(): State
      reads this, procs, cpus
    {
      State(procs[..], cpus[..], lock)
    }

    // A CPU in the kernel.
    ghost predicate In(c: nat)
      reads this, procs, cpus
    {
      Wf(S()) && c < cpus.Length && lock == c
    }

    constructor (table: seq<Proc>, ncpu: nat)
      requires |table| == NENV
      requires forall e :: 0 <= e < NENV ==> !OnCpu(table[e].status) && !table[e].recving
      ensures Boot(S()) && Inv(S()) && procs[..] == table && cpus.Length == ncpu && fresh(procs) && fresh(cpus)
    {
      procs := new Proc[NENV](e requires 0 <= e < |table| => table[e]);
      cpus := new Cpu[ncpu](c => Cpu(SpinBoot, NULL, false, AtBoot, 1, 0, 0));
      lock := NULL;
      new;
      assert procs[..] == table;
      BootInv(S());
    }

    method UnlockKernel(c: nat, mode: Mode)
      requires In(c)
      modifies this, cpus
      ensures S() == Unlock(old(S()), c, mode)
    {
      cpus[c] := cpus[c].(mode := mode, given := cpus[c].given + 1);
      lock := NULL;
    }

    method SetProcStatus(e: nat, st: Status)
      requires e < procs.Length
      modifies procs
      ensures S() == SetStatus(old(S()), e, st)
    {
      procs[e] := procs[e].(status := st);
    }

    method SetCurenv(c: nat, cur: int)
      requires c < cpus.Length
      modifies cpus
      ensures S() == SetCur(old(S()), c, cur)
    {
      cpus[c] := cpus[c].(cur := cur);
    }

    // env_run
    method Run(c: nat, e: nat)
      requires In(c) && e < NENV
      modifies this, procs, cpus
      ensures S() == EnvRun(old(S()), c, e)
      ensures InvBut(old(S()), c) && MayRun(old(S()), c, e) ==> Inv(S())
    {
      ghost var s := S();
      if cpus[c].cur != NULL && procs[cpus[c].cur].status == ENV_RUNNING {
        SetProcStatus(cpus[c].cur, ENV_RUNNABLE);
      }
      SetCurenv(c, e);
      SetProcStatus(e, ENV_RUNNING);
      UnlockKernel(c, User);
      hide InvBut, Inv, EnvRun;
      if InvBut(s, c) && MayRun(s, c, e) { EnvRunInv(s, c, e); }
    }

    // sched_halt
    method Halt(c: nat)
      requires In(c)
      modifies this, cpus
      ensures S() == SchedHalt(old(S()), c)
      ensures cpus[c].mode == (if Waiting(old(procs[..])) then Monitor else Halted)
      ensures lock == if Waiting(old(procs[..])) then c else NULL
    {
      HaltExact(S(), c);
      var i := 0;
      while i < NENV
        invariant 0 <= i <= NENV && forall e :: 0 <= e < i ==> !Busy(procs[e])
      {
        if Busy(procs[i]) { break; }
        i := i + 1;
      }
      if i == NENV {
        cpus[c] := cpus[c].(mode := Monitor);
        return;
      }
      SetCurenv(c, NULL);
      cpus[c] := cpus[c].(halted := true);
      UnlockKernel(c, Halted);
    }

    // sched_yield
    method YieldCpu(c: nat)
      requires In(c)
      modifies this, procs, cpus
      ensures S() == SchedYield(old(S()), c) && Left(old(S()), S(), c)
      ensures InvBut(old(S()), c) ==> Inv(S())
      ensures cpus[c].mode == Monitor <==> Waiting(old(procs[..]))
    {
      hide EnvRun, SchedHalt, Turn, InvBut, Inv, Left;
      ghost var s := S();
      YieldLeaves(s, c);
      YieldExact(s, c);
      if InvBut(s, c) { SchedYieldInv(s, c); }
      var cur := cpus[c].cur;
      TurnNext(cur, 0);
      var i, ct := 0, 0;
      if cur != NULL { i := (cur + 1) % NENV; }
      while ct < NENV
        invariant 0 <= ct <= NENV && 0 <= i < NENV && i == Turn(cur, ct)
        invariant In(c) && S() == old(S())
        invariant Scan(procs[..], cur, 0) == Scan(procs[..], cur, ct)
      {
        if i == cur {
          if procs[i].status == ENV_RUNNING {
            Run(c, i);
            return;
          }
          break;
        }
        if procs[i].status != ENV_RUNNABLE {
          TurnNext(cur, ct);
          i := (i + 1) % NENV;
          ct := ct + 1;
          continue;
        }
        Run(c, i);
        return;
      }
      Halt(c);
    }

    // The end of trap.
    method Leave(c: nat)
      requires In(c)
      modifies this, procs, cpus
      ensures S() == Resume(old(S()), c) && Left(old(S()), S(), c)
      ensures InvBut(old(S()), c) ==> Inv(S())
    {
      hide InvBut, Inv, Left, SchedYield, EnvRun;
      ghost var s := S();
      YieldLeaves(s, c);
      if InvBut(s, c) { ResumeInv(s, c); }
      var cur := cpus[c].cur;
      if cur != NULL && procs[cur].status == ENV_RUNNING { Run(c, cur); } else { YieldCpu(c); }
    }

    // env_destroy, up to its sched_yield; r tells whether it comes to that.
    method DestroyEnv(c: nat, e: nat) returns (gone: bool)
      requires In(c) && e < NENV
      modifies procs, cpus
      ensures S() == Destroyed(old(S()), c, e) && In(c) && gone == (old(cpus[c].cur) == e)
    {
      if procs[e].status == ENV_RUNNING && cpus[c].cur != e {
        SetProcStatus(e, ENV_DYING);
        return false;
      }
      gone := cpus[c].cur == e;
      SetProcStatus(e, ENV_FREE);
      if gone { SetCurenv(c, NULL); }
    }

    // trap_dispatch: the call's effect, and whether it ends in sched_yield.
    method Handle(c: nat, op: Op) returns (gone: bool)
      requires In(c) && cpus[c].cur != NULL
      modifies procs, cpus
      ensures In(c) && S() == Effect(old(S()), c, old(cpus[c].cur), op)
      ensures gone == GivesUp(old(S()), old(cpus[c].cur), op)
      ensures MayHandle(old(S()), c, op) ==> InvBut(S(), c)
    {
      hide InvBut, MayHandle;
      ghost var s, cur0: nat := S(), cpus[c].cur;
      gone := false;
      match op {
        case Nothing => {}
        case Yield => gone := true;
        case Destroy(e) =>
          if e < NENV && procs[e].status != ENV_FREE { gone := DestroyEnv(c, e); }
        case SetTo(e, st) =>
          if e < NENV && procs[e].status != ENV_FREE && (st == ENV_RUNNABLE || st == ENV_NOT_RUNNABLE) {
            SetProcStatus(e, st);
          }
        case Exofork(e) =>
          if e < NENV && procs[e].status == ENV_FREE { procs[e] := Proc(ENV_NOT_RUNNABLE, false); }
        case Send(e) =>
          if e < NENV && procs[e].status != ENV_FREE && procs[e].recving { procs[e] := Proc(ENV_RUNNABLE, false); }
        case Recv =>
          procs[cpus[c].cur] := Proc(ENV_NOT_RUNNABLE, true);
          gone := true;
      }
      assert S() == Effect(s, c, cur0, op);
      if MayHandle(s, c, op) { HandleKeeps(s, c, op); }
    }

    // lock_kernel, when the exchange finds the lock free.
    method LockKernel(c: nat)
      requires Wf(S()) && Enabled(S(), Acquire(c))
      modifies this, cpus
      ensures S() == Next(old(S()), Acquire(c))
    {
      cpus[c] := Acquired(cpus[c]);
      lock := c;
    }

    // trap, from its first test to the way out, on a CPU that finds the lock free whenever it
    // asks for it.  It asks exactly once, never holding the lock, and assert(curenv) holds.
    method Trap(c: nat, op: Op)
      requires Inv(S()) && c < cpus.Length && cpus[c].mode == AtStatus && lock == NULL
      modifies this, procs, cpus
      ensures S() == Service(Arrive(old(S()), c), c, op) && Left(Arrive(old(S()), c), S(), c)
      ensures cpus[c].taken == old(cpus[c].taken) + 1 && cpus[c].taken == cpus[c].entered
      ensures Harmless(Arrive(old(S()), c), c, op) ==> Inv(S())
    {
      hide Inv;
      ghost var s0 := S();
      EntryFacts(s0, c);
      var halted := cpus[c].halted;
      cpus[c] := AfterStatus(cpus[c]);
      if halted {
        assert lock != c;
        LockKernel(c);
      }
      var user := cpus[c].origin == FromUser;
      cpus[c] := AfterOrigin(cpus[c]);
      if user {
        assert lock != c;
        LockKernel(c);
        assert cpus[c].cur != NULL;
      }
      ghost var s := S();
      assert s == Arrive(s0, c);
      ArriveInv(s0, c);
      hide Inv, Left, Harmless, Service;
      Serve(c, op);
      LeftCounts(s, S(), c);
    }

    // The part of trap that has the lock.
    method Serve(c: nat, op: Op)
      requires Inv(S()) && c < cpus.Length && cpus[c].mode == InKernel
      modifies this, procs, cpus
      ensures S() == Service(old(S()), c, op) && Left(old(S()), S(), c)
      ensures Harmless(old(S()), c, op) ==> Inv(S())
    {
      ghost var s := S();
      WorkFacts(s, c);
      OneRelease(s, c, op);
      hide Inv, InvBut, Left, Harmless, SchedYield, Resume, Effect;
      if Harmless(s, c, op) { WorkKeeps(s, c, op); }
      if cpus[c].origin != FromUser {
        YieldCpu(c);
      } else if procs[cpus[c].cur].status == ENV_DYING {
        SetProcStatus(cpus[c].cur, ENV_FREE);
        SetCurenv(c, NULL);
        YieldCpu(c);
      } else {
        var gone := Handle(c, op);
        if gone { YieldCpu(c); } else { Leave(c); }
      }
    }
  }

  // Nothing is RUNNABLE, RUNNING or DYING.
  predicate Waiting(procs: seq<Proc>) {
    forall e :: 0 <= e < |procs| ==> procs[e].status in {ENV_FREE, ENV_NOT_RUNNABLE}
  }

  lemma LeftCounts(s: State, s': State, c: nat)
    requires c < |s.cpus| && Left(s, s', c)
    ensures c < |s'.cpus| && s'.cpus[c].taken == s.cpus[c].taken && s'.cpus[c].entered == s.cpus[c].entered
  {}

  // What the callers of env_run see to.
  predicate MayRun(s: State, c: nat, e: nat)
    requires c < |s.cpus| && e < |s.procs|
  {
    ProcOk(s.procs[e])
    && (s.procs[e].status == ENV_RUNNABLE || (s.procs[e].status == ENV_RUNNING && s.cpus[c].cur == e))
  }

  // A harmless call of an environment that is no zombie.
  ghost predicate MayHandle(s: State, c: nat, op: Op) {
    Inv(s) && c < |s.cpus| && s.cpus[c].mode == InKernel && 0 <= s.cpus[c].cur < |s.procs|
    && Harmless(s, c, op) && s.procs[s.cpus[c].cur].status != ENV_DYING
  }

  lemma HandleKeeps(s: State, c: nat, op: Op)
    requires MayHandle(s, c, op)
    ensures Wf(s) && InvBut(Effect(s, c, s.cpus[c].cur, op), c)
  {
    EffectKeeps(s, c, s.cpus[c].cur, op);
  }

  // What the invariant says of a CPU at the entry of trap.
  lemma EntryFacts(s: State, c: nat)
    requires Inv(s) && c < |s.cpus| && s.cpus[c].mode == AtStatus
    ensures Wf(s) && EntryOk(s.cpus[c]) && s.cpus[c].entered == s.cpus[c].taken + 1
  {
    assert CpuOk(s, s.cpus[c]) && LockCount(s.cpus[c]);
  }

  lemma TurnNext(cur: int, t: nat)
    requires NULL <= cur < NENV
    ensures Turn(cur, 0) == (if cur == NULL then 0 else (cur + 1) % NENV)
    ensures Turn(cur, t + 1) == (Turn(cur, t) + 1) % NENV
  {}
}
