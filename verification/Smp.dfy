// Several CPUs, one table of environments and the big kernel lock: kern/trap.c, kern/sched.c and
// env_destroy and env_run of kern/env.c.  A CPU works on the table only while it holds the lock,
// so a visit to the kernel is one step; traps, the two tests at the entry of trap and lock
// acquisition interleave freely.
module Smp {
  import opened Mmu
  import opened EnvIds
  import opened EnvTable

  // In user mode; before the test of cpu_status; spinning for a CPU that was halted; before the
  // test of the trap's origin; spinning for a trap from user mode; spinning in i386_init or
  // mp_main; at work on the table; in the halt; in the monitor for good; stopped by assert(curenv).
  datatype Mode = User | AtStatus | SpinHalted | AtOrigin | SpinUser | SpinBoot | InKernel | Halted | Monitor | Failed

  // Where the CPU came into the kernel from.
  datatype Origin = FromUser | FromKernel | AtBoot

  // curenv (or NULL), cpu_status == CPU_HALTED, and how often the CPU has entered the kernel, and taken and
  // released the lock.
  datatype Cpu = Cpu(mode: Mode, cur: int, halted: bool, origin: Origin, entered: nat, taken: nat, given: nat)

  datatype Proc = Proc(status: Status, recving: bool)

  // lock: the CPU that holds it, or NULL.
  datatype State = State(procs: seq<Proc>, cpus: seq<Cpu>, lock: int)

  predicate OnCpu(st: Status) { st == ENV_RUNNING || st == ENV_DYING }

  predicate Wf(s: State) {
    && |s.procs| == NENV
    && forall c :: 0 <= c < |s.cpus| ==> NULL <= s.cpus[c].cur < NENV
  }

  // -------------------------------------------------------------------- the kernel's steps

  function SetStatus(s: State, e: nat, st: Status): State
    requires e < |s.procs|
  {
    s.(procs := s.procs[e := s.procs[e].(status := st)])
  }

  function SetCur(s: State, c: nat, cur: int): State
    requires c < |s.cpus|
  {
    s.(cpus := s.cpus[c := s.cpus[c].(cur := cur)])
  }

  function Unlock(s: State, c: nat, mode: Mode): State
    requires c < |s.cpus|
  {
    s.(cpus := s.cpus[c := s.cpus[c].(mode := mode, given := s.cpus[c].given + 1)], lock := NULL)
  }

  // env_run
  function EnvRun(s: State, c: nat, e: nat): State
    requires Wf(s) && c < |s.cpus| && e < NENV
  {
    var cur := s.cpus[c].cur;
    var s1 := if cur != NULL && s.procs[cur].status == ENV_RUNNING then SetStatus(s, cur, ENV_RUNNABLE) else s;
    Unlock(SetStatus(SetCur(s1, c, e), e, ENV_RUNNING), c, User)
  }

  predicate Busy(p: Proc) {
    p.status == ENV_RUNNABLE || OnCpu(p.status)
  }

  function SetHalted(s: State, c: nat): State
    requires c < |s.cpus|
  {
    s.(cpus := s.cpus[c := s.cpus[c].(halted := true)])
  }

  // sched_halt
  ghost function SchedHalt(s: State, c: nat): State
    requires Wf(s) && c < |s.cpus|
  {
    if exists e :: 0 <= e < NENV && Busy(s.procs[e]) then Unlock(SetHalted(SetCur(s, c, NULL), c), c, Halted)
    else s.(cpus := s.cpus[c := s.cpus[c].(mode := Monitor)])
  }

  // The slot sched_yield looks at in its t-th turn.
  function Turn(cur: int, t: nat): nat
    requires NULL <= cur < NENV
  {
    if cur == NULL then t % NENV else (cur + 1 + t) % NENV
  }

  // sched_yield's choice from its t-th turn on, or NULL for none.
  function Scan(procs: seq<Proc>, cur: int, t: nat): int
    requires |procs| == NENV && NULL <= cur < NENV && t <= NENV
    decreases NENV - t
  {
    if t == NENV then NULL
    else
      var i := Turn(cur, t);
      if i == cur then (if procs[i].status == ENV_RUNNING then i else NULL)
      else if procs[i].status == ENV_RUNNABLE then i
      else Scan(procs, cur, t + 1)
  }

  ghost function SchedYield(s: State, c: nat): State
    requires Wf(s) && c < |s.cpus|
  {
    var e := Scan(s.procs, s.cpus[c].cur, 0);
    if 0 <= e < NENV then EnvRun(s, c, e) else SchedHalt(s, c)
  }

  // The end of trap: back to the current environment if it still runs.
  ghost function Resume(s: State, c: nat): State
    requires Wf(s) && c < |s.cpus|
  {
    var cur := s.cpus[c].cur;
    if cur != NULL && s.procs[cur].status == ENV_RUNNING then EnvRun(s, c, cur) else SchedYield(s, c)
  }

  // What an environment's trap asks for; e is the slot its envid resolved to.
  datatype Op =
    | Nothing
    | Yield
    | Destroy(e: nat)
    | SetTo(e: nat, st: Status)
    | Exofork(e: nat)
    | Send(e: nat)
    | Recv

  predicate LiveSlot(s: State, e: nat) {
    e < |s.procs| && s.procs[e].status != ENV_FREE
  }

  // env_destroy, up to its sched_yield: an environment running elsewhere only becomes a zombie.
  function Destroyed(s: State, c: nat, e: nat): State
    requires Wf(s) && c < |s.cpus| && e < NENV
  {
    if s.procs[e].status == ENV_RUNNING && s.cpus[c].cur != e then SetStatus(s, e, ENV_DYING)
    else if s.cpus[c].cur == e then SetCur(SetStatus(s, e, ENV_FREE), c, NULL)
    else SetStatus(s, e, ENV_FREE)
  }

  // What the call does to the table, for a CPU whose current environment is cur.
  function Effect(s: State, c: nat, cur: nat, op: Op): State
    requires Wf(s) && c < |s.cpus| && cur < NENV
  {
    match op
    case Nothing => s
    case Yield => s
    case Destroy(e) => if LiveSlot(s, e) then Destroyed(s, c, e) else s
    case SetTo(e, st) => if LiveSlot(s, e) && (st == ENV_RUNNABLE || st == ENV_NOT_RUNNABLE) then SetStatus(s, e, st)
                         else s
    case Exofork(e) =>
      if e < NENV && s.procs[e].status == ENV_FREE then s.(procs := s.procs[e := Proc(ENV_NOT_RUNNABLE, false)]) else s
    case Send(e) => if LiveSlot(s, e) && s.procs[e].recving then s.(procs := s.procs[e := Proc(ENV_RUNNABLE, false)])
                    else s
    case Recv => s.(procs := s.procs[cur := Proc(ENV_NOT_RUNNABLE, true)])
  }

  // The call ends in sched_yield and does not come back to trap.
  predicate GivesUp(s: State, cur: nat, op: Op) {
    op.Yield? || op.Recv? || (op.Destroy? && op.e == cur && LiveSlot(s, cur))
  }

  // trap_dispatch, and the end of trap.
  ghost function Dispatch(s: State, c: nat, cur: nat, op: Op): State
    requires Wf(s) && c < |s.cpus| && cur < NENV
  {
    if GivesUp(s, cur, op) then SchedYield(Effect(s, c, cur, op), c) else Resume(Effect(s, c, cur, op), c)
  }

  // trap once the lock is held: from user mode a zombie is freed and anything else dispatched;
  // a CPU that was halted, or is booting, schedules.
  ghost function Service(s: State, c: nat, op: Op): State
    requires Wf(s) && c < |s.cpus|
  {
    var cur := s.cpus[c].cur;
    if s.cpus[c].origin != FromUser || cur == NULL then SchedYield(s, c)
    else if s.procs[cur].status == ENV_DYING then SchedYield(SetCur(SetStatus(s, cur, ENV_FREE), c, NULL), c)
    else Dispatch(s, c, cur, op)
  }

  // ------------------------------------------------------------------------ the system

  datatype Step = Enter(c: nat) | TestStatus(c: nat) | TestOrigin(c: nat) | Acquire(c: nat) | Work(c: nat, op: Op)

  predicate Spins(mode: Mode) { mode == SpinHalted || mode == SpinUser || mode == SpinBoot }

  predicate Enabled(s: State, step: Step) {
    step.c < |s.cpus| &&
    match step
    case Enter(c) => s.cpus[c].mode == User || s.cpus[c].mode == Halted
    case TestStatus(c) => s.cpus[c].mode == AtStatus
    case TestOrigin(c) => s.cpus[c].mode == AtOrigin
    case Acquire(c) => Spins(s.cpus[c].mode) && s.lock == NULL
    case Work(c, op) => s.cpus[c].mode == InKernel
  }

  function SetCpu(s: State, c: nat, cpu: Cpu): State
    requires c < |s.cpus|
  {
    s.(cpus := s.cpus[c := cpu])
  }

  // A trap or an interrupt.
  function Entered(cpu: Cpu): Cpu {
    cpu.(mode := AtStatus, origin := if cpu.mode == User then FromUser else FromKernel, entered := cpu.entered + 1)
  }

  // if (xchg(&thiscpu->cpu_status, CPU_STARTED) == CPU_HALTED) lock_kernel();
  function AfterStatus(cpu: Cpu): Cpu {
    cpu.(mode := if cpu.halted then SpinHalted else AtOrigin, halted := false)
  }

  // if ((tf->tf_cs & 3) == 3) { lock_kernel(); ... }
  function AfterOrigin(cpu: Cpu): Cpu {
    cpu.(mode := if cpu.origin == FromUser then SpinUser else InKernel)
  }

  // lock_kernel has come back, and from user mode assert(curenv) is next.
  function Acquired(cpu: Cpu): Cpu {
    cpu.(taken := cpu.taken + 1,
         mode := if cpu.mode == SpinHalted then AtOrigin
                 else if cpu.mode == SpinUser && cpu.cur == NULL then Failed
                 else InKernel)
  }

  ghost function Next(s: State, step: Step): State
    requires Wf(s) && Enabled(s, step)
  {
    match step
    case Enter(c) => SetCpu(s, c, Entered(s.cpus[c]))
    case TestStatus(c) => SetCpu(s, c, AfterStatus(s.cpus[c]))
    case TestOrigin(c) => SetCpu(s, c, AfterOrigin(s.cpus[c]))
    case Acquire(c) => SetCpu(s, c, Acquired(s.cpus[c])).(lock := c)
    case Work(c, op) => Service(s, c, op)
  }

  // -------------------------------------------------------------------- the invariant

  // The CPU has the lock.
  predicate Holds(cpu: Cpu) {
    || cpu.mode == InKernel || cpu.mode == Monitor || cpu.mode == Failed
    || (cpu.mode == AtOrigin && cpu.origin == FromKernel)
  }

  // It has entered and not yet taken it.
  predicate Owes(cpu: Cpu) {
    cpu.mode == AtStatus || Spins(cpu.mode) || (cpu.mode == AtOrigin && cpu.origin == FromUser)
  }

  predicate LockCount(cpu: Cpu) {
    && cpu.taken == cpu.given + (if Holds(cpu) then 1 else 0)
    && cpu.entered == cpu.taken + (if Owes(cpu) then 1 else 0)
  }

  ghost predicate LockOk(s: State) {
    && NULL <= s.lock < |s.cpus|
    && (forall c :: 0 <= c < |s.cpus| ==> (Holds(s.cpus[c]) <==> s.lock == c))
    && (forall c :: 0 <= c < |s.cpus| ==> LockCount(s.cpus[c]))
  }

  // No environment is current twice.
  ghost predicate OneCpu(s: State) {
    forall c, c' :: 0 <= c < c' < |s.cpus| && s.cpus[c].cur == s.cpus[c'].cur ==> s.cpus[c].cur == NULL
  }

  // Which of cpu_status, the origin and curenv go together.
  predicate EntryOk(cpu: Cpu) {
    && cpu.mode != Failed
    && (cpu.halted <==> cpu.mode == Halted || (cpu.mode == AtStatus && cpu.origin == FromKernel))
    && (cpu.mode == User ==> cpu.cur != NULL)
    && (cpu.mode == Halted ==> cpu.cur == NULL)
    && (cpu.mode == SpinHalted ==> cpu.origin == FromKernel)
    && (cpu.mode == SpinUser ==> cpu.origin == FromUser)
    && (cpu.mode == AtStatus || cpu.mode == AtOrigin ==> cpu.origin != AtBoot)
    && (cpu.mode == SpinBoot ==> cpu.origin == AtBoot)
    && (Owes(cpu) || cpu.mode == InKernel || cpu.mode == AtOrigin ==> (cpu.cur != NULL <==> cpu.origin == FromUser))
  }

  // What a CPU's mode says of its current environment.
  predicate CpuOk(s: State, cpu: Cpu)
    requires Wf(s)
  {
    EntryOk(cpu) && (NULL < cpu.cur < NENV && cpu.mode != Monitor ==> OnCpu(s.procs[cpu.cur].status))
  }

  ghost predicate OnSomeCpu(s: State, e: nat) {
    exists c :: 0 <= c < |s.cpus| && s.cpus[c].cur == e
  }

  predicate ProcOk(p: Proc) {
    p.recving && p.status != ENV_FREE ==> p.status == ENV_NOT_RUNNABLE
  }

  ghost predicate ProcsOk(s: State)
    requires Wf(s)
  {
    forall e :: 0 <= e < NENV ==> ProcOk(s.procs[e]) && (OnCpu(s.procs[e].status) ==> OnSomeCpu(s, e))
  }

  ghost predicate Inv(s: State) {
    Wf(s) && LockOk(s) && OneCpu(s) && ProcsOk(s) && forall c :: 0 <= c < |s.cpus| ==> CpuOk(s, s.cpus[c])
  }

  // The same while c is in the kernel and has not settled what runs on it next.
  ghost predicate InvBut(s: State, c: nat) {
    && Wf(s) && LockOk(s) && OneCpu(s) && ProcsOk(s)
    && c < |s.cpus| && s.lock == c && s.cpus[c].mode == InKernel && !s.cpus[c].halted
    && (s.cpus[c].cur != NULL ==> s.procs[s.cpus[c].cur].status != ENV_DYING)
    && forall b :: 0 <= b < |s.cpus| && b != c ==> CpuOk(s, s.cpus[b])
  }

  // ------------------------------------------------------------- leaving the kernel

  // Changes that leave every environment current where it was, or not in need of a CPU.
  lemma OwnersKept(s: State, s': State)
    requires Wf(s) && Wf(s') && |s'.cpus| == |s.cpus|
    requires forall e :: 0 <= e < NENV && OnCpu(s.procs[e].status) ==> OnSomeCpu(s, e)
    requires forall e :: 0 <= e < NENV && OnCpu(s'.procs[e].status) ==>
               || OnSomeCpu(s', e)
               || (OnCpu(s.procs[e].status)
                   && forall c :: 0 <= c < |s.cpus| && s.cpus[c].cur == e ==> s'.cpus[c].cur == e)
    ensures forall e :: 0 <= e < NENV && OnCpu(s'.procs[e].status) ==> OnSomeCpu(s', e)
  {}

  // env_run of a RUNNABLE environment, or of the current one.
  lemma EnvRunInv(s: State, c: nat, e: nat)
    requires InvBut(s, c) && e < NENV && ProcOk(s.procs[e])
    requires s.procs[e].status == ENV_RUNNABLE || (s.procs[e].status == ENV_RUNNING && s.cpus[c].cur == e)
    ensures Inv(EnvRun(s, c, e))
  {
    EnvRunLock(s, c, e);
    EnvRunProcs(s, c, e);
    EnvRunCpus(s, c, e);
  }

  lemma EnvRunLock(s: State, c: nat, e: nat)
    requires InvBut(s, c) && e < NENV
    ensures Wf(EnvRun(s, c, e)) && LockOk(EnvRun(s, c, e))
  {
    hide ProcsOk, OneCpu, CpuOk;
  }

  lemma EnvRunProcs(s: State, c: nat, e: nat)
    requires InvBut(s, c) && e < NENV && ProcOk(s.procs[e])
    requires s.procs[e].status == ENV_RUNNABLE || (s.procs[e].status == ENV_RUNNING && s.cpus[c].cur == e)
    ensures Wf(EnvRun(s, c, e)) && ProcsOk(EnvRun(s, c, e))
  {
    var s' := EnvRun(s, c, e);
    hide LockOk, CpuOk, OneCpu;
    assert OnSomeCpu(s', e) by { assert s'.cpus[c].cur == e; }
    OwnersKept(s, s');
  }

  lemma EnvRunCpus(s: State, c: nat, e: nat)
    requires InvBut(s, c) && e < NENV
    requires s.procs[e].status == ENV_RUNNABLE || (s.procs[e].status == ENV_RUNNING && s.cpus[c].cur == e)
    ensures var s' := EnvRun(s, c, e); Wf(s') && OneCpu(s') && forall b :: 0 <= b < |s'.cpus| ==> CpuOk(s', s'.cpus[b])
  {
    hide ProcsOk, OnSomeCpu;
    var s' := EnvRun(s, c, e);
    forall b | 0 <= b < |s.cpus| && b != c
      ensures s'.cpus[b] == s.cpus[b] && s.cpus[b].cur != e && CpuOk(s', s'.cpus[b])
    {
      assert s.cpus[b].mode != Monitor && CpuOk(s, s.cpus[b]);
    }
  }

  lemma HaltProcs(s: State, c: nat)
    requires InvBut(s, c) && (s.cpus[c].cur != NULL ==> s.procs[s.cpus[c].cur].status != ENV_RUNNING)
    ensures Wf(SchedHalt(s, c)) && ProcsOk(SchedHalt(s, c))
  {
    OwnersKept(s, SchedHalt(s, c));
  }

  lemma SchedHaltInv(s: State, c: nat)
    requires InvBut(s, c) && (s.cpus[c].cur != NULL ==> s.procs[s.cpus[c].cur].status != ENV_RUNNING)
    ensures Inv(SchedHalt(s, c))
  {
    HaltProcs(s, c);
    hide ProcsOk;
  }

  // sched_yield chooses a RUNNABLE environment, or the current one if it is RUNNING and no
  // other can run, and otherwise none; never one that runs elsewhere.
  lemma {:induction false} ScanChoice(procs: seq<Proc>, cur: int, t: nat)
    requires |procs| == NENV && NULL <= cur < NENV && t <= NENV
    ensures var e := Scan(procs, cur, t);
            && NULL <= e < NENV
            && (e != NULL ==> procs[e].status == if e == cur then ENV_RUNNING else ENV_RUNNABLE)
            && (cur != NULL && t < NENV && procs[cur].status == ENV_RUNNING ==> e != NULL)
    decreases NENV - t
  {
    if t < NENV {
      ScanChoice(procs, cur, t + 1);
      if cur != NULL && t == NENV - 1 { LastTurn(cur); }
      hide Turn;
    }
  }

  // The last turn comes back to the start.
  lemma LastTurn(cur: int)
    requires 0 <= cur < NENV
    ensures Turn(cur, NENV - 1) == cur
  {}

  lemma SchedYieldInv(s: State, c: nat)
    requires InvBut(s, c)
    ensures Inv(SchedYield(s, c))
  {
    ScanChoice(s.procs, s.cpus[c].cur, 0);
    var e := Scan(s.procs, s.cpus[c].cur, 0);
    if e == NULL { SchedHaltInv(s, c); } else { EnvRunInv(s, c, e); }
  }

  lemma ResumeInv(s: State, c: nat)
    requires InvBut(s, c)
    ensures Inv(Resume(s, c))
  {
    var cur := s.cpus[c].cur;
    if cur != NULL && s.procs[cur].status == ENV_RUNNING { EnvRunInv(s, c, cur); } else { SchedYieldInv(s, c); }
  }

  // -------------------------------------------------------------- every step, exactly

  // The calls the protocol relies on environments not to make: to set the status of another
  // environment that is on a CPU, to wake one that waits to receive, to destroy a zombie again.
  predicate Harmless(s: State, c: nat, op: Op)
    requires Wf(s) && c < |s.cpus|
  {
    var cur := s.cpus[c].cur;
    cur == NULL || s.procs[cur].status == ENV_DYING ||
    match op
    case Destroy(e) => !(e < NENV && s.procs[e].status == ENV_DYING)
    case SetTo(e, st) =>
      LiveSlot(s, e) ==>
        && (st == ENV_RUNNABLE || st == ENV_NOT_RUNNABLE ==> e == cur || !OnCpu(s.procs[e].status))
        && (st == ENV_RUNNABLE ==> !s.procs[e].recving)
    case _ => true
  }

  // A status written for an environment that is current nowhere else.
  lemma WriteInv(s: State, c: nat, e: nat, p: Proc)
    requires InvBut(s, c) && e < NENV && ProcOk(p)
    requires OnCpu(p.status) ==> OnCpu(s.procs[e].status)
    requires s.cpus[c].cur == e ==> p.status != ENV_DYING
    requires forall b :: 0 <= b < |s.cpus| && b != c && s.cpus[b].cur == e ==> OnCpu(p.status)
    ensures InvBut(s.(procs := s.procs[e := p]), c)
  {
    var s' := s.(procs := s.procs[e := p]);
    assert ProcsOk(s') by { OwnersKept(s, s'); }
    hide ProcsOk, OnSomeCpu;
    forall b | 0 <= b < |s.cpus| && b != c ensures CpuOk(s', s'.cpus[b]) { assert CpuOk(s, s.cpus[b]); }
  }

  // The current environment freed.
  lemma DropInv(s: State, c: nat)
    requires Inv(s) && c < |s.cpus| && s.cpus[c].mode == InKernel && s.cpus[c].cur != NULL
    ensures InvBut(SetCur(SetStatus(s, s.cpus[c].cur, ENV_FREE), c, NULL), c)
  {
    var e := s.cpus[c].cur;
    var s' := SetCur(SetStatus(s, e, ENV_FREE), c, NULL);
    assert ProcsOk(s') by { OwnersKept(s, s'); }
    hide ProcsOk, OnSomeCpu;
    forall b | 0 <= b < |s.cpus| && b != c ensures CpuOk(s', s'.cpus[b]) { assert CpuOk(s, s.cpus[b]); }
  }

  // An environment that is not on a CPU is current nowhere else.
  lemma NotOnCpu(s: State, c: nat, e: nat)
    requires Inv(s) && c < |s.cpus| && s.cpus[c].mode == InKernel && e < NENV
    ensures InvBut(s, c) || (s.cpus[c].cur != NULL && s.procs[s.cpus[c].cur].status == ENV_DYING)
    ensures !OnCpu(s.procs[e].status) ==> forall b :: 0 <= b < |s.cpus| && b != c ==> s.cpus[b].cur != e
    ensures s.cpus[c].cur == e ==> forall b :: 0 <= b < |s.cpus| && b != c ==> s.cpus[b].cur != e
  {
    hide ProcsOk;
    forall b | 0 <= b < |s.cpus| && b != c ensures s.cpus[b].mode != Monitor && CpuOk(s, s.cpus[b]) {}
  }

  lemma WorkFacts(s: State, c: nat)
    requires Inv(s) && c < |s.cpus| && s.cpus[c].mode == InKernel
    ensures Wf(s) && s.lock == c && (s.cpus[c].cur != NULL <==> s.cpus[c].origin == FromUser)
    ensures var cur := s.cpus[c].cur; cur != NULL ==> OnCpu(s.procs[cur].status) && !s.procs[cur].recving
    ensures forall e :: 0 <= e < NENV ==> ProcOk(s.procs[e])
  {
    assert CpuOk(s, s.cpus[c]);
  }

  lemma EffectKeeps(s: State, c: nat, cur: nat, op: Op)
    requires Inv(s) && Enabled(s, Work(c, op)) && Harmless(s, c, op)
    requires s.cpus[c].cur == cur && s.procs[cur].status != ENV_DYING
    ensures InvBut(Effect(s, c, cur, op), c)
  {
    WorkFacts(s, c);
    NotOnCpu(s, c, cur);
    hide Inv, InvBut;
    match op
    case Nothing => {}
    case Yield => {}
    case Destroy(e) =>
      if LiveSlot(s, e) {
        if e == cur {
          DropInv(s, c);
        } else {
          NotOnCpu(s, c, e);
          WriteInv(s, c, e, s.procs[e].(status := if s.procs[e].status == ENV_RUNNING then ENV_DYING else ENV_FREE));
        }
      }
    case SetTo(e, st) =>
      if LiveSlot(s, e) && (st == ENV_RUNNABLE || st == ENV_NOT_RUNNABLE) {
        NotOnCpu(s, c, e);
        WriteInv(s, c, e, s.procs[e].(status := st));
      }
    case Exofork(e) =>
      if e < NENV && s.procs[e].status == ENV_FREE {
        NotOnCpu(s, c, e);
        WriteInv(s, c, e, Proc(ENV_NOT_RUNNABLE, false));
      }
    case Send(e) =>
      if LiveSlot(s, e) && s.procs[e].recving {
        NotOnCpu(s, c, e);
        WriteInv(s, c, e, Proc(ENV_RUNNABLE, false));
      }
    case Recv => WriteInv(s, c, cur, Proc(ENV_NOT_RUNNABLE, true));
  }

  lemma WorkKeeps(s: State, c: nat, op: Op)
    requires Inv(s) && Enabled(s, Work(c, op)) && Harmless(s, c, op)
    ensures Inv(Service(s, c, op))
  {
    WorkFacts(s, c);
    NotOnCpu(s, c, 0);
    hide Inv, InvBut, SchedYield, Resume, Effect;
    var cur := s.cpus[c].cur;
    if cur == NULL {
      SchedYieldInv(s, c);
    } else if s.procs[cur].status == ENV_DYING {
      DropInv(s, c);
      SchedYieldInv(SetCur(SetStatus(s, cur, ENV_FREE), c, NULL), c);
    } else {
      EffectKeeps(s, c, cur, op);
      SchedYieldInv(Effect(s, c, cur, op), c);
      ResumeInv(Effect(s, c, cur, op), c);
    }
  }

  // The environment of another CPU that is no longer to run.
  lemma BreaksOther(s: State, s': State, c: nat, e: nat)
    requires Inv(s) && c < |s.cpus| && s.cpus[c].mode == InKernel && s.cpus[c].cur != e < NENV
    requires OnCpu(s.procs[e].status)
    requires |s'.cpus| == |s.cpus| && forall b :: 0 <= b < |s.cpus| && b != c ==> s'.cpus[b] == s.cpus[b]
    requires |s'.procs| == NENV && !OnCpu(s'.procs[e].status)
    ensures !Inv(s')
  {
    var b :| 0 <= b < |s.cpus| && s.cpus[b].cur == e;
    assert CpuOk(s, s.cpus[b]) && s.cpus[b].mode != Monitor;
    hide LockOk, OneCpu, ProcsOk;
    assert Wf(s') ==> !CpuOk(s', s'.cpus[b]);
  }

  // A forbidden call is about another environment, and leaves it off every CPU, or RUNNABLE
  // and receiving.
  lemma BreakingCall(s: State, c: nat, op: Op)
    requires Inv(s) && Enabled(s, Work(c, op)) && !Harmless(s, c, op)
    ensures op.Destroy? || op.SetTo?
    ensures var e, s' := op.e, Service(s, c, op);
            && |s'.procs| == NENV && s.cpus[c].cur != e < NENV
            && (OnCpu(s.procs[e].status) ==> !OnCpu(s'.procs[e].status))
            && (!OnCpu(s.procs[e].status) ==> !ProcOk(s'.procs[e]))
  {
    WorkFacts(s, c);
    hide Inv;
    assert s.procs[s.cpus[c].cur].status == ENV_RUNNING;
  }

  // Each forbidden call does break the invariant, so it is kept exactly when none is made.
  lemma WorkBreaks(s: State, c: nat, op: Op)
    requires Inv(s) && Enabled(s, Work(c, op)) && !Harmless(s, c, op)
    ensures !Inv(Service(s, c, op))
  {
    BreakingCall(s, c, op);
    OneRelease(s, c, op);
    hide Service;
    if OnCpu(s.procs[op.e].status) { BreaksOther(s, Service(s, c, op), c, op.e); }
  }

  lemma StepExact(s: State, step: Step)
    requires Inv(s) && Enabled(s, step)
    ensures Inv(Next(s, step)) <==> (step.Work? ==> Harmless(s, step.c, step.op))
  {
    if step.Work? {
      if Harmless(s, step.c, step.op) { WorkKeeps(s, step.c, step.op); } else { WorkBreaks(s, step.c, step.op); }
    } else {
      EntryKeeps(s, step);
    }
  }

  // A step of the entry leaves everything but the CPU's place, cpu_status and counts alone.
  lemma EntryCpu(s: State, step: Step)
    requires Inv(s) && Enabled(s, step) && !step.Work?
    ensures var s' := Next(s, step); var c := step.c;
            && |s'.cpus| == |s.cpus| && s'.procs == s.procs
            && (forall b :: 0 <= b < |s.cpus| && b != c ==> s'.cpus[b] == s.cpus[b])
            && s'.cpus[c].cur == s.cpus[c].cur && EntryOk(s'.cpus[c]) && LockCount(s'.cpus[c])
            && s'.cpus[c].mode != Monitor
            && (Holds(s'.cpus[c]) <==> s'.lock == c) && (s'.lock == s.lock || (s.lock == NULL && s'.lock == c))
            && s.cpus[c].mode != Monitor
  {
    EntryCounts(s, step.c);
    hide Inv;
  }

  lemma EntryCounts(s: State, c: nat)
    requires Inv(s) && c < |s.cpus|
    ensures Wf(s) && CpuOk(s, s.cpus[c]) && LockCount(s.cpus[c]) && (Holds(s.cpus[c]) <==> s.lock == c)
    ensures NULL <= s.lock < |s.cpus|
  {}

  lemma EntryLock(s: State, s': State, c: nat)
    requires LockOk(s) && c < |s.cpus| == |s'.cpus| && LockCount(s'.cpus[c]) && (Holds(s'.cpus[c]) <==> s'.lock == c)
    requires forall b :: 0 <= b < |s.cpus| && b != c ==> s'.cpus[b] == s.cpus[b]
    requires s'.lock == s.lock || (s.lock == NULL && s'.lock == c)
    ensures LockOk(s')
  {
    hide Holds, LockCount;
  }

  lemma EntryKeeps(s: State, step: Step)
    requires Inv(s) && Enabled(s, step) && !step.Work?
    ensures Inv(Next(s, step))
  {
    var s' := Next(s, step);
    EntryCpu(s, step);
    EntryLock(s, s', step.c);
    hide Next, Enabled, LockOk;
    assert ProcsOk(s') by {
      hide OneCpu, CpuOk;
      OwnersKept(s, s');
    }
    hide ProcsOk, OnSomeCpu, EntryOk, LockCount, Holds;
    forall b | 0 <= b < |s'.cpus| ensures CpuOk(s', s'.cpus[b]) { assert CpuOk(s, s.cpus[b]); }
  }

  // ---------------------------------------------------------------------- all runs

  // At boot every CPU is about to take the lock and nothing is current.
  predicate Boot(s: State) {
    && |s.procs| == NENV && s.lock == NULL
    && (forall c :: 0 <= c < |s.cpus| ==> s.cpus[c] == Cpu(SpinBoot, NULL, false, AtBoot, 1, 0, 0))
    && (forall e :: 0 <= e < NENV ==> !OnCpu(s.procs[e].status) && !s.procs[e].recving)
  }

  ghost predicate RunStep(states: seq<State>, steps: seq<Step>, i: nat)
    requires |states| == |steps| + 1 && i < |steps|
  {
    Inv(states[i]) ==>
      Enabled(states[i], steps[i]) && states[i + 1] == Next(states[i], steps[i])
      && (steps[i].Work? ==> Harmless(states[i], steps[i].c, steps[i].op))
  }

  ghost predicate IsRun(states: seq<State>, steps: seq<Step>) {
    |states| == |steps| + 1 && Boot(states[0]) && forall i :: 0 <= i < |steps| ==> RunStep(states, steps, i)
  }

  lemma BootInv(s: State)
    requires Boot(s)
    ensures Inv(s)
  {}

  lemma {:induction false} RunInv(states: seq<State>, steps: seq<Step>, n: nat)
    requires IsRun(states, steps) && n < |states|
    ensures Inv(states[n]) && MonitorIdle(states[n])
  {
    if n == 0 {
      BootInv(states[0]);
    } else {
      RunInv(states, steps, n - 1);
      hide Inv, Next, Harmless, MonitorIdle, Enabled;
      assert RunStep(states, steps, n - 1);
      StepExact(states[n - 1], steps[n - 1]);
      MonitorKept(states[n - 1], steps[n - 1]);
    }
  }

  // A CPU works on the table only with the lock, waits for it only without, has taken it exactly once
  // for every entry when it leaves and given it back as often, and passes assert(curenv).
  predicate EntrySafe(s: State, cpu: Cpu, c: int) {
    && (cpu.mode == InKernel ==> s.lock == c && cpu.taken == cpu.entered)
    && (Spins(cpu.mode) ==> s.lock != c && cpu.taken + 1 == cpu.entered)
    && (cpu.mode == User || cpu.mode == Halted ==> cpu.entered == cpu.taken == cpu.given)
    && cpu.mode != Failed
  }

  // What the invariant says of every reachable state.
  lemma RunSafe(states: seq<State>, steps: seq<Step>, n: nat)
    requires IsRun(states, steps) && n < |states|
    ensures var s := states[n];
            && Wf(s)
            && (forall c, c' :: 0 <= c < c' < |s.cpus| && s.cpus[c].cur == s.cpus[c'].cur ==> s.cpus[c].cur == NULL)
            && (forall e :: 0 <= e < NENV && OnCpu(s.procs[e].status) ==> OnSomeCpu(s, e))
            && (forall c :: 0 <= c < |s.cpus| && s.cpus[c].mode == User ==>
                 s.cpus[c].cur != NULL && OnCpu(s.procs[s.cpus[c].cur].status))
            && (forall c, c' :: 0 <= c < c' < |s.cpus| ==> !(Holds(s.cpus[c]) && Holds(s.cpus[c'])))
            && (forall c :: 0 <= c < |s.cpus| ==> EntrySafe(s, s.cpus[c], c))
            && (forall c, b :: 0 <= c < |s.cpus| && 0 <= b < |s.cpus| && b != c && s.cpus[c].mode == Monitor ==>
                 s.cpus[b].cur == NULL && s.cpus[b].mode != User)
  {
    RunInv(states, steps, n);
    var s := states[n];
    MonitorAlone(s);
    forall c | 0 <= c < |s.cpus|
      ensures EntrySafe(s, s.cpus[c], c)
    {
      assert CpuOk(s, s.cpus[c]) && LockCount(s.cpus[c]);
    }
    forall c | 0 <= c < |s.cpus| && s.cpus[c].mode == User
      ensures s.cpus[c].cur != NULL && OnCpu(s.procs[s.cpus[c].cur].status)
    {
      assert CpuOk(s, s.cpus[c]);
    }
  }

  // While a CPU is in the monitor no other has an environment.
  lemma MonitorAlone(s: State)
    requires Inv(s) && MonitorIdle(s)
    ensures forall c, b :: 0 <= c < |s.cpus| && 0 <= b < |s.cpus| && b != c && s.cpus[c].mode == Monitor ==>
              s.cpus[b].cur == NULL && s.cpus[b].mode != User
  {
    forall c, b | 0 <= c < |s.cpus| && 0 <= b < |s.cpus| && b != c && s.cpus[c].mode == Monitor
      ensures s.cpus[b].cur == NULL && s.cpus[b].mode != User
    {
      assert CpuOk(s, s.cpus[b]) && (Holds(s.cpus[b]) <==> s.lock == b) && (Holds(s.cpus[c]) <==> s.lock == c);
    }
  }

  // ------------------------------------------------------------------ lock discipline

  // c has left the kernel: the lock is given back exactly once, on the way out to user mode or
  // into the halt, and kept only in the monitor; no other CPU is touched.
  ghost predicate Left(s: State, s': State, c: nat)
    requires c < |s.cpus|
  {
    && |s'.cpus| == |s.cpus| && (forall b :: 0 <= b < |s.cpus| && b != c ==> s'.cpus[b] == s.cpus[b])
    && var out := s'.cpus[c].mode;
       && (out == User || out == Halted || out == Monitor)
       && s'.cpus[c].taken == s.cpus[c].taken && s'.cpus[c].entered == s.cpus[c].entered
       && s'.cpus[c].given == s.cpus[c].given + (if out == Monitor then 0 else 1)
       && s'.lock == (if out == Monitor then s.lock else NULL)
  }

  lemma YieldLeaves(s: State, c: nat)
    requires Wf(s) && c < |s.cpus|
    ensures Left(s, SchedYield(s, c), c) && Left(s, Resume(s, c), c)
  {
    hide Scan;
  }

  lemma EffectCpus(s: State, c: nat, cur: nat, op: Op)
    requires Wf(s) && c < |s.cpus| && cur < NENV
    ensures var s1 := Effect(s, c, cur, op);
            && Wf(s1) && |s1.cpus| == |s.cpus| && s1.lock == s.lock
            && (forall b :: 0 <= b < |s.cpus| && b != c ==> s1.cpus[b] == s.cpus[b])
            && s1.cpus[c] == s.cpus[c].(cur := s1.cpus[c].cur)
            && (!(op.Destroy? && op.e == s.cpus[c].cur) ==> s1.cpus == s.cpus)
  {}

  lemma OneRelease(s: State, c: nat, op: Op)
    requires Wf(s) && c < |s.cpus|
    ensures Left(s, Service(s, c, op), c)
  {
    hide SchedYield, Resume, Effect;
    var cur := s.cpus[c].cur;
    YieldLeaves(s, c);
    if cur != NULL {
      EffectCpus(s, c, cur, op);
      YieldLeaves(Effect(s, c, cur, op), c);
      YieldLeaves(SetCur(SetStatus(s, cur, ENV_FREE), c, NULL), c);
    }
  }

  // ------------------------------------------------------------ run, halt or monitor

  // Every environment is free or waits for something.
  ghost predicate Idle(procs: seq<Proc>) {
    forall e :: 0 <= e < |procs| ==> procs[e].status == ENV_FREE || procs[e].status == ENV_NOT_RUNNABLE
  }

  // Some environment but cur can run.
  ghost predicate OtherReady(procs: seq<Proc>, cur: int) {
    exists e :: 0 <= e < |procs| && e != cur && procs[e].status == ENV_RUNNABLE
  }

  // sched_halt enters the monitor exactly when all environments are free or wait; otherwise the CPU
  // halts without an environment and gives the lock back.
  lemma HaltExact(s: State, c: nat)
    requires Wf(s) && c < |s.cpus|
    ensures var s' := SchedHalt(s, c);
            && |s'.cpus| == |s.cpus| && s'.procs == s.procs
            && if Idle(s.procs) then s'.cpus[c] == s.cpus[c].(mode := Monitor) && s'.lock == s.lock
               else s'.cpus[c].mode == Halted && s'.cpus[c].cur == NULL && s'.cpus[c].halted && s'.lock == NULL
  {
    if e :| 0 <= e < NENV && !(s.procs[e].status == ENV_FREE || s.procs[e].status == ENV_NOT_RUNNABLE) {
      assert Busy(s.procs[e]);
    } else {
      forall e | 0 <= e < NENV ensures !Busy(s.procs[e]) {}
    }
  }

  // env_run of e on c.
  predicate Switched(s: State, s': State, c: nat, e: int)
    requires Wf(s) && c < |s.cpus| && |s'.procs| == |s.procs|
  {
    && 0 <= e < NENV && s'.lock == NULL && s'.procs[e] == s.procs[e].(status := ENV_RUNNING)
    && forall i :: 0 <= i < NENV && i != e ==>
         s'.procs[i] ==
         if i == s.cpus[c].cur && s.procs[i].status == ENV_RUNNING then s.procs[i].(status := ENV_RUNNABLE)
         else s.procs[i]
  }

  lemma RunExact(s: State, c: nat, e: nat)
    requires Wf(s) && c < |s.cpus| && e < NENV
    ensures var s' := EnvRun(s, c, e);
            && |s'.cpus| == |s.cpus| && |s'.procs| == NENV && Switched(s, s', c, e)
            && s'.cpus[c].mode == User && s'.cpus[c].cur == e
  {}

  lemma ReadyFound(procs: seq<Proc>, cur: int, e: nat)
    requires |procs| == NENV && NULL <= cur < NENV && e < NENV && e != cur && procs[e].status == ENV_RUNNABLE
    ensures Scan(procs, cur, 0) != NULL
  {
    TurnAt(cur, e);
    hide Scan;
    ScanFirst(procs, cur, 0, e);
  }

  lemma ScanExact(procs: seq<Proc>, cur: int)
    requires |procs| == NENV && NULL <= cur < NENV
    ensures Scan(procs, cur, 0) != NULL <==> OtherReady(procs, cur) || (cur != NULL && procs[cur].status == ENV_RUNNING)
    ensures Idle(procs) ==> Scan(procs, cur, 0) == NULL
  {
    hide Scan, Turn, Distance;
    ScanChoice(procs, cur, 0);
    if OtherReady(procs, cur) {
      var e :| 0 <= e < NENV && e != cur && procs[e].status == ENV_RUNNABLE;
      ReadyFound(procs, cur, e);
    }
  }

  // sched_yield runs an environment exactly when another is RUNNABLE or its own is still RUNNING, and
  // that one is RUNNING and current then; its own, if it was RUNNING and another is taken, can run again.
  lemma YieldExact(s: State, c: nat)
    requires Wf(s) && c < |s.cpus|
    ensures var s' := SchedYield(s, c); var cur := s.cpus[c].cur;
            && |s'.cpus| == |s.cpus| && |s'.procs| == NENV
            && (s'.cpus[c].mode == User <==>
                OtherReady(s.procs, cur) || (cur != NULL && s.procs[cur].status == ENV_RUNNING))
            && (s'.cpus[c].mode == Monitor <==> Idle(s.procs))
            && (s'.cpus[c].mode == User || s'.cpus[c].mode == Monitor || s'.cpus[c].mode == Halted)
            && (s'.cpus[c].mode == User ==> Switched(s, s', c, s'.cpus[c].cur))
            && (s'.cpus[c].mode != User ==> s'.procs == s.procs)
  {
    var e := Scan(s.procs, s.cpus[c].cur, 0);
    ScanExact(s.procs, s.cpus[c].cur);
    ScanChoice(s.procs, s.cpus[c].cur, 0);
    if e != NULL { RunExact(s, c, e); } else { HaltExact(s, c); }
    hide Scan, SchedHalt, EnvRun, Idle, OtherReady, Switched;
  }

  // A trap of an environment that is no zombie: unless it asks for the CPU to be given up, it comes back
  // to it if it still runs; and if it does, another environment runs if one can.
  lemma ServeExact(s: State, c: nat, op: Op)
    requires Wf(s) && c < |s.cpus| && s.cpus[c].origin == FromUser && s.cpus[c].cur != NULL
    requires s.procs[s.cpus[c].cur].status == ENV_RUNNING
    ensures var cur := s.cpus[c].cur; var s1, s' := Effect(s, c, cur, op), Service(s, c, op);
            && |s1.procs| == NENV && |s'.cpus| == |s.cpus|
            && if op == Yield || op == Recv || op == Destroy(cur) then
                 OtherReady(s1.procs, cur) ==> s'.cpus[c].mode == User && s'.cpus[c].cur != cur
               else s1.procs[cur].status == ENV_RUNNING ==>
                 s'.procs == s1.procs && s'.cpus[c].mode == User && s'.cpus[c].cur == cur && s'.lock == NULL
  {
    var cur := s.cpus[c].cur;
    var s1 := Effect(s, c, cur, op);
    EffectCpus(s, c, cur, op);
    hide Effect, SchedYield, OtherReady;
    if op == Yield || op == Recv || op == Destroy(cur) {
      if OtherReady(s1.procs, cur) { GivenUp(s, c, op); }
    } else if s1.procs[cur].status == ENV_RUNNING {
      BackTo(s1, c);
    }
  }

  // Back to an environment that is RUNNING: nothing else changes.
  lemma BackTo(s: State, c: nat)
    requires Wf(s) && c < |s.cpus| && s.cpus[c].cur != NULL && s.procs[s.cpus[c].cur].status == ENV_RUNNING
    ensures var s' := Resume(s, c);
            && |s'.cpus| == |s.cpus| && s'.procs == s.procs
            && s'.cpus[c].mode == User && s'.cpus[c].cur == s.cpus[c].cur && s'.lock == NULL
  {
    RunExact(s, c, s.cpus[c].cur);
    hide EnvRun;
  }

  lemma GivenUp(s: State, c: nat, op: Op)
    requires Wf(s) && c < |s.cpus| && s.cpus[c].cur != NULL && s.procs[s.cpus[c].cur].status == ENV_RUNNING
    requires var cur := s.cpus[c].cur;
             (op == Yield || op == Recv || op == Destroy(cur)) && OtherReady(Effect(s, c, cur, op).procs, cur)
    ensures var s' := SchedYield(Effect(s, c, s.cpus[c].cur, op), c);
            |s'.cpus| == |s.cpus| && s'.cpus[c].mode == User && s'.cpus[c].cur != s.cpus[c].cur
  {
    var cur := s.cpus[c].cur;
    var s1 := Effect(s, c, cur, op);
    EffectCpus(s, c, cur, op);
    var e :| 0 <= e < NENV && e != cur && s1.procs[e].status == ENV_RUNNABLE;
    hide Scan, EnvRun, SchedHalt, Turn;
    ReadyFound(s1.procs, s1.cpus[c].cur, e);
    ScanChoice(s1.procs, s1.cpus[c].cur, 0);
    TurnAt(s1.cpus[c].cur, e);
    ScanFirst(s1.procs, s1.cpus[c].cur, 0, e);
    RunExact(s1, c, Scan(s1.procs, s1.cpus[c].cur, 0));
  }

  // A CPU is in the monitor only when there is nothing to run.
  ghost predicate MonitorIdle(s: State) {
    forall c :: 0 <= c < |s.cpus| && s.cpus[c].mode == Monitor ==> Idle(s.procs)
  }

  lemma LeaveMonitor(s: State, c: nat)
    requires Wf(s) && c < |s.cpus|
    ensures MonitorAt(SchedYield(s, c), c) && MonitorAt(Resume(s, c), c)
  {
    YieldExact(s, c);
    if s.cpus[c].cur != NULL { RunExact(s, c, s.cpus[c].cur); }
    hide Idle, SchedYield, EnvRun, Switched, OtherReady;
  }

  // If c is in the monitor there is nothing to run.
  ghost predicate MonitorAt(s: State, c: nat) {
    c < |s.cpus| && (s.cpus[c].mode == Monitor ==> Idle(s.procs))
  }

  lemma ServiceMonitor(s: State, c: nat, op: Op)
    requires Wf(s) && c < |s.cpus|
    ensures MonitorAt(Service(s, c, op), c)
  {
    hide SchedYield, Resume, Effect, MonitorAt;
    var cur := s.cpus[c].cur;
    LeaveMonitor(s, c);
    if cur != NULL {
      EffectCpus(s, c, cur, op);
      LeaveMonitor(Effect(s, c, cur, op), c);
      LeaveMonitor(SetCur(SetStatus(s, cur, ENV_FREE), c, NULL), c);
    }
  }

  lemma MonitorKept(s: State, step: Step)
    requires Inv(s) && MonitorIdle(s) && Enabled(s, step)
    ensures MonitorIdle(Next(s, step))
  {
    if step.Work? {
      WorkFacts(s, step.c);
      ServiceMonitor(s, step.c, step.op);
      OneRelease(s, step.c, step.op);
      assert forall b :: 0 <= b < |s.cpus| ==> s.cpus[b].mode != Monitor;
      hide Service, Idle;
    } else {
      EntryCpu(s, step);
    }
  }

  // ------------------------------------------------------------------------- no deadlock

  // CPU c can take a step; by a trap or an interrupt if it runs a user or is halted.
  ghost predicate Moves(s: State, c: nat) {
    exists step: Step :: step.c == c && Enabled(s, step)
  }

  // A CPU that is not in the monitor can move, or waits for the lock while the CPU that has it can.
  lemma NoDeadlock(s: State, c: nat)
    requires Inv(s) && c < |s.cpus| && forall b :: 0 <= b < |s.cpus| ==> s.cpus[b].mode != Monitor
    ensures Moves(s, c) || (s.lock != NULL && Spins(s.cpus[c].mode) && Moves(s, s.lock))
    ensures s.cpus[c].mode == User || s.cpus[c].mode == Halted ==> Moves(s, c)
  {
    MovesUnless(s, c);
    if Spins(s.cpus[c].mode) && s.lock != NULL {
      assert Holds(s.cpus[s.lock]);
      MovesUnless(s, s.lock);
    }
  }

  lemma MovesUnless(s: State, c: nat)
    requires Inv(s) && c < |s.cpus| && s.cpus[c].mode != Monitor
    ensures Moves(s, c) || (s.lock != NULL && Spins(s.cpus[c].mode))
    ensures s.cpus[c].mode == User || s.cpus[c].mode == Halted ==> Enabled(s, Enter(c))
  {
    assert CpuOk(s, s.cpus[c]);
    if s.cpus[c].mode == User || s.cpus[c].mode == Halted {
      assert Enabled(s, Enter(c));
    } else if s.cpus[c].mode == AtStatus {
      assert Enabled(s, TestStatus(c));
    } else if s.cpus[c].mode == AtOrigin {
      assert Enabled(s, TestOrigin(c));
    } else if s.cpus[c].mode == InKernel {
      assert Enabled(s, Work(c, Nothing));
    } else if s.lock == NULL {
      assert Enabled(s, Acquire(c));
    }
  }

  // ------------------------------------------------------------------ a whole visit

  // The CPU in the kernel, with the lock, after its entry.
  function Arrive(s: State, c: nat): State
    requires c < |s.cpus|
  {
    SetCpu(s, c, s.cpus[c].(mode := InKernel, halted := false, taken := s.cpus[c].taken + 1)).(lock := c)
  }

  // With the lock free, the two tests of trap lead there by exactly one acquisition.
  lemma ArriveRuns(s: State, c: nat)
    requires Wf(s) && c < |s.cpus| && s.cpus[c].mode == AtStatus && s.lock == NULL && EntryOk(s.cpus[c])
    ensures var s1 := Next(s, TestStatus(c));
            if s.cpus[c].origin == FromUser then
              && Enabled(s1, TestOrigin(c)) && Wf(s1)
              && var s2 := Next(s1, TestOrigin(c));
                 Enabled(s2, Acquire(c)) && Wf(s2) && Next(s2, Acquire(c)) == Arrive(s, c)
            else
              && Enabled(s1, Acquire(c)) && Wf(s1)
              && var s2 := Next(s1, Acquire(c));
                 Enabled(s2, TestOrigin(c)) && Wf(s2) && Next(s2, TestOrigin(c)) == Arrive(s, c)
  {}

  lemma ArriveInv(s: State, c: nat)
    requires Inv(s) && c < |s.cpus| && s.cpus[c].mode == AtStatus && s.lock == NULL
    ensures Inv(Arrive(s, c))
  {
    assert CpuOk(s, s.cpus[c]);
    ArriveRuns(s, c);
    hide Inv, Next, Enabled, EntryOk;
    var s1 := Next(s, TestStatus(c));
    StillEnabled(s, c);
    EntryKeeps(s, TestStatus(c));
    if s.cpus[c].origin == FromUser {
      EntryKeeps(s1, TestOrigin(c));
      EntryKeeps(Next(s1, TestOrigin(c)), Acquire(c));
    } else {
      EntryKeeps(s1, Acquire(c));
      EntryKeeps(Next(s1, Acquire(c)), TestOrigin(c));
    }
  }

  lemma StillEnabled(s: State, c: nat)
    requires c < |s.cpus| && s.cpus[c].mode == AtStatus
    ensures Enabled(s, TestStatus(c))
  {}

  // Trap, entry and work, with nobody in between.
  ghost function Visit(s: State, c: nat, op: Op): State
    requires Wf(s) && c < |s.cpus|
  {
    Service(Arrive(SetCpu(s, c, Entered(s.cpus[c])), c), c, op)
  }

  // -------------------------------------------------------------- round-robin waiting

  // How many turns it takes the scan of a CPU whose environment is cur to look at e.
  function Distance(cur: int, e: nat): nat
    requires NULL <= cur < NENV && e < NENV
  {
    if cur == NULL then e else (e - cur - 1) % NENV
  }

  lemma TurnAt(cur: int, e: nat)
    requires NULL <= cur < NENV && e < NENV
    ensures Distance(cur, e) < NENV && Turn(cur, Distance(cur, e)) == e
    ensures forall t: nat :: t < NENV && Turn(cur, t) == e ==> t == Distance(cur, e)
  {}

  // The choice is the first RUNNABLE slot in the order of the turns.
  lemma {:induction false} ScanFirst(procs: seq<Proc>, cur: int, t: nat, e: nat)
    requires |procs| == NENV && NULL <= cur < NENV && e < NENV && e != cur && procs[e].status == ENV_RUNNABLE
    requires t <= Distance(cur, e)
    ensures var r := Scan(procs, cur, t);
            && 0 <= r < NENV && r != cur && t <= Distance(cur, r) <= Distance(cur, e)
            && forall u: nat :: t <= u < Distance(cur, r) ==> procs[Turn(cur, u)].status != ENV_RUNNABLE
    decreases NENV - t
  {
    TurnAt(cur, e);
    TurnAt(cur, Turn(cur, t));
    if cur != NULL { TurnAt(cur, cur); }
    if procs[Turn(cur, t)].status != ENV_RUNNABLE { ScanFirst(procs, cur, t + 1, e); }
  }

  // Past r, the way to e is shorter.
  lemma Nearer(cur: int, r: nat, e: nat)
    requires NULL <= cur < NENV && r < NENV && e < NENV && r != cur && r != e && e != cur
    requires Distance(cur, r) <= Distance(cur, e)
    ensures Distance(r, e) < Distance(cur, e)
  {}

  // A scan chooses the RUNNABLE environment nearest behind the current one, going round, and the lowest
  // if there is no current one: with one at e, none beyond e.
  lemma ScanNearest(procs: seq<Proc>, cur: int, e: nat)
    requires |procs| == NENV && NULL <= cur < NENV && e < NENV && e != cur && procs[e].status == ENV_RUNNABLE
    ensures var r := Scan(procs, cur, 0);
            && 0 <= r < NENV
            && (cur < e ==> (cur < r <= e))
            && (e < cur ==> (cur < r || r <= e))
  {
    ScanFirst(procs, cur, 0, e);
    DistanceIs(cur, e);
    DistanceIs(cur, Scan(procs, cur, 0));
    hide Scan, Distance;
  }

  lemma DistanceIs(cur: int, e: nat)
    requires NULL <= cur < NENV && e < NENV && e != cur
    ensures Distance(cur, e) == if e > cur then e - cur - 1 else e + NENV - cur - 1
  {}

  // One yield runs e or brings its turn strictly nearer.
  lemma YieldNearer(procs: seq<Proc>, cur: int, e: nat)
    requires |procs| == NENV && NULL <= cur < NENV && e < NENV && e != cur && procs[e].status == ENV_RUNNABLE
    ensures var r := Scan(procs, cur, 0);
            0 <= r < NENV && (r == e || Distance(r, e) < Distance(cur, e))
  {
    ScanFirst(procs, cur, 0, e);
    var r := Scan(procs, cur, 0);
    hide Distance, Scan, Turn;
    if r != e { Nearer(cur, r, e); }
  }

  // The scan of a CPU for which e waits, and its environment afterwards.
  lemma YieldTo(s: State, c: nat, e: nat)
    requires Wf(s) && c < |s.cpus| && e < NENV && s.cpus[c].cur != e && s.procs[e].status == ENV_RUNNABLE
    ensures var s' := SchedYield(s, c);
            && |s'.procs| == NENV && |s'.cpus| == |s.cpus| && 0 <= s'.cpus[c].cur < NENV
            && (s'.procs[e].status == ENV_RUNNABLE ==> Distance(s'.cpus[c].cur, e) < Distance(s.cpus[c].cur, e))
  {
    YieldNearer(s.procs, s.cpus[c].cur, e);
    hide Scan, Distance;
  }

  // e is left RUNNABLE by the call only if it was before.
  lemma EffectWaiting(s: State, c: nat, cur: nat, op: Op, e: nat)
    requires Wf(s) && c < |s.cpus| && cur < NENV && e < NENV && e != cur && s.procs[e].status == ENV_RUNNABLE
    requires ProcOk(s.procs[e])
    requires s.cpus[c].cur == cur
    ensures var s1 := Effect(s, c, cur, op);
            |s1.procs| == NENV && s1.procs[e].status in {ENV_RUNNABLE, ENV_NOT_RUNNABLE, ENV_FREE}
  {}

  // What one step of a run does to the distance at which e waits, as seen from CPU c.
  ghost predicate Waits(s: State, c: nat, e: nat) {
    Wf(s) && c < |s.cpus| && e < NENV && s.procs[e].status == ENV_RUNNABLE && s.cpus[c].cur != NULL
  }

  // The step makes c give up its environment by a yield or a receive.
  predicate Yields(step: Step, c: nat) {
    step.Work? && step.c == c && (step.op.Yield? || step.op.Recv?)
  }

  // curenv of c is not reset: it is no zombie at a trap and does not destroy itself.
  predicate KeepsCurenv(s: State, step: Step, c: nat) {
    step.Work? && step.c == c && c < |s.cpus| && 0 <= s.cpus[c].cur < |s.procs| ==>
      s.procs[s.cpus[c].cur].status != ENV_DYING && step.op != Destroy(s.cpus[c].cur)
  }

  lemma StepNearer(s: State, step: Step, c: nat, e: nat)
    requires Inv(s) && Enabled(s, step) && Waits(s, c, e) && Waits(Next(s, step), c, e) && KeepsCurenv(s, step, c)
    ensures var s' := Next(s, step); var d, d' := Distance(s.cpus[c].cur, e), Distance(s'.cpus[c].cur, e);
            d' <= d && (Yields(step, c) ==> d' < d)
  {
    if step.Work? && step.c == c {
      WorkNearer(s, c, step.op, e);
    } else if step.Work? {
      OneRelease(s, step.c, step.op);
    } else {
      EntryCpu(s, step);
    }
  }

  lemma WorkNearer(s: State, c: nat, op: Op, e: nat)
    requires Inv(s) && Enabled(s, Work(c, op)) && Waits(s, c, e) && KeepsCurenv(s, Work(c, op), c)
    requires Waits(Service(s, c, op), c, e)
    ensures var s' := Service(s, c, op); var d, d' := Distance(s.cpus[c].cur, e), Distance(s'.cpus[c].cur, e);
            d' <= d && (Yields(Work(c, op), c) ==> d' < d)
  {
    WorkFacts(s, c);
    var cur := s.cpus[c].cur;
    assert e != cur;
    var s1 := Effect(s, c, cur, op);
    EffectCpus(s, c, cur, op);
    EffectWaiting(s, c, cur, op, e);
    assert s1.cpus[c].cur == cur;
    hide Effect, Inv, Scan, Distance;
    if s1.procs[e].status == ENV_RUNNABLE { YieldTo(s1, c, e); } else { NotChosen(s1, c, e); }
  }

  // An environment that is not RUNNABLE is not made so by leaving the kernel.
  lemma NotChosen(s: State, c: nat, e: nat)
    requires Wf(s) && c < |s.cpus| && e < NENV && s.procs[e].status in {ENV_NOT_RUNNABLE, ENV_FREE}
    requires s.cpus[c].cur != e
    ensures |SchedYield(s, c).procs| == NENV && SchedYield(s, c).procs[e].status != ENV_RUNNABLE
    ensures |Resume(s, c).procs| == NENV && Resume(s, c).procs[e].status != ENV_RUNNABLE
  {
    ScanChoice(s.procs, s.cpus[c].cur, 0);
    hide Scan;
  }

  // The yields of c among the first n of a run's steps from state a on.
  function YieldCount(steps: seq<Step>, c: nat, a: nat, n: nat): nat
    requires a + n <= |steps|
  {
    if n == 0 then 0 else YieldCount(steps, c, a, n - 1) + if Yields(steps[a + n - 1], c) then 1 else 0
  }

  // The distance of e in a state in which it waits.
  ghost function Away(s: State, c: nat, e: nat): nat {
    if Waits(s, c, e) then Distance(s.cpus[c].cur, e) else 0
  }

  ghost predicate WaitsOn(states: seq<State>, steps: seq<Step>, c: nat, e: nat, i: nat) {
    i + 1 < |states| && i < |steps| && Waits(states[i], c, e) && Waits(states[i + 1], c, e)
    && KeepsCurenv(states[i], steps[i], c)
  }

  // In a run, as long as e waits RUNNABLE and the current environment of c is not reset, c
  // yields at most as many times as e is distant from it: by the next yield e has run.
  lemma {:induction false} BoundedWaiting(states: seq<State>, steps: seq<Step>, c: nat, e: nat, a: nat, n: nat)
    requires IsRun(states, steps) && a + n <= |steps| && forall i :: a <= i < a + n ==> WaitsOn(states, steps, c, e, i)
    ensures YieldCount(steps, c, a, n) + Away(states[a + n], c, e) <= Away(states[a], c, e)
  {
    if n > 0 {
      BoundedWaiting(states, steps, c, e, a, n - 1);
      RunNearer(states, steps, c, e, a + n - 1);
    }
  }

  lemma RunNearer(states: seq<State>, steps: seq<Step>, c: nat, e: nat, i: nat)
    requires IsRun(states, steps) && i < |steps| && WaitsOn(states, steps, c, e, i)
    ensures Away(states[i + 1], c, e) + (if Yields(steps[i], c) then 1 else 0) <= Away(states[i], c, e)
  {
    RunInv(states, steps, i);
    assert RunStep(states, steps, i);
    hide Inv, KeepsCurenv, Next, Distance, Enabled, IsRun;
    StepNearer(states[i], steps[i], c, e);
  }

  // A zombie that comes into the kernel is freed, whatever it asks for.
  lemma ZombieFreed(s: State, c: nat, op: Op)
    requires Wf(s) && c < |s.cpus| && s.cpus[c].origin == FromUser && s.cpus[c].cur != NULL
    requires s.procs[s.cpus[c].cur].status == ENV_DYING
    ensures |Service(s, c, op).procs| == NENV && Service(s, c, op).procs[s.cpus[c].cur].status == ENV_FREE
  {
    var e := s.cpus[c].cur;
    NotRun(SetCur(SetStatus(s, e, ENV_FREE), c, NULL), c, e);
    hide SchedYield;
  }

  // ------------------------------------------------------------------ stopped environments

  predicate CannotRun(st: Status) { st == ENV_NOT_RUNNABLE || st == ENV_FREE }

  // Only a wake-up or a message can make it run again.
  predicate Wakes(step: Step, e: nat) {
    step.Work? && (step.op == SetTo(e, ENV_RUNNABLE) || step.op == Send(e) || step.op == Exofork(e))
  }

  // The way out of the kernel runs nothing that cannot run.
  lemma NotRun(s: State, c: nat, e: nat)
    requires Wf(s) && c < |s.cpus| && e < NENV && CannotRun(s.procs[e].status)
    ensures |SchedYield(s, c).procs| == NENV && SchedYield(s, c).procs[e] == s.procs[e]
    ensures |Resume(s, c).procs| == NENV && Resume(s, c).procs[e] == s.procs[e]
  {
    ScanChoice(s.procs, s.cpus[c].cur, 0);
    hide Scan;
  }

  // sys_env_set_status with ENV_NOT_RUNNABLE stops its target, the caller itself too.
  lemma StopStops(s: State, c: nat, e: nat)
    requires Inv(s) && Enabled(s, Work(c, SetTo(e, ENV_NOT_RUNNABLE))) && LiveSlot(s, e)
    requires s.cpus[c].cur != NULL && s.procs[s.cpus[c].cur].status == ENV_RUNNING
    ensures var s' := Next(s, Work(c, SetTo(e, ENV_NOT_RUNNABLE)));
            |s'.procs| == NENV && s'.procs[e].status == ENV_NOT_RUNNABLE && s'.procs[e].recving == s.procs[e].recving
  {
    WorkFacts(s, c);
    hide Inv, Resume, SchedYield;
    NotRun(SetStatus(s, e, ENV_NOT_RUNNABLE), c, e);
  }

  // And no step of any CPU runs a stopped environment until it is woken.
  lemma StaysStopped(s: State, step: Step, e: nat)
    requires Inv(s) && Enabled(s, step) && e < NENV && CannotRun(s.procs[e].status) && !Wakes(step, e)
    ensures |Next(s, step).procs| == NENV && CannotRun(Next(s, step).procs[e].status)
  {
    if step.Work? {
      var c, op := step.c, step.op;
      var cur := s.cpus[c].cur;
      WorkFacts(s, c);
      NotRun(s, c, e);
      if cur != NULL {
        EffectStopped(s, c, cur, op, e);
        EffectCpus(s, c, cur, op);
        NotRun(Effect(s, c, cur, op), c, e);
        NotRun(SetCur(SetStatus(s, cur, ENV_FREE), c, NULL), c, e);
      }
      hide Effect, SchedYield, Resume, Inv;
    } else {
      EntryCpu(s, step);
    }
  }

  lemma EffectStopped(s: State, c: nat, cur: nat, op: Op, e: nat)
    requires Wf(s) && c < |s.cpus| && cur < NENV && e < NENV && CannotRun(s.procs[e].status)
    requires !(op == SetTo(e, ENV_RUNNABLE) || op == Send(e) || op == Exofork(e))
    ensures Wf(Effect(s, c, cur, op)) && CannotRun(Effect(s, c, cur, op).procs[e].status)
  {}

  // ------------------------------------------------------- what the forbidden wake-up leads to

  // The end of trap for a CPU whose environment runs on.
  lemma ResumeRunning(s: State, c: nat)
    requires Wf(s) && c < |s.cpus| && s.cpus[c].cur != NULL && s.procs[s.cpus[c].cur].status == ENV_RUNNING
    ensures Resume(s, c) == Unlock(s, c, User)
  {
    var cur := s.cpus[c].cur;
    assert s.procs[cur := s.procs[cur].(status := ENV_RUNNABLE)][cur := s.procs[cur]] == s.procs;
  }

  lemma WakeFirst(s: State, c: nat, e: nat)
    requires Wf(s) && c < |s.cpus| && s.cpus[c].origin == FromUser && s.cpus[c].cur != NULL && s.cpus[c].cur != e
    requires s.procs[s.cpus[c].cur].status == ENV_RUNNING && e < NENV && s.procs[e].status == ENV_NOT_RUNNABLE
    ensures Service(s, c, SetTo(e, ENV_RUNNABLE)) == Unlock(SetStatus(s, e, ENV_RUNNABLE), c, User)
  {
    ResumeRunning(SetStatus(s, e, ENV_RUNNABLE), c);
  }

  lemma WakeSecond(s: State, b: nat, e: nat)
    requires Wf(s) && b < |s.cpus| && s.cpus[b].mode == User && 0 <= s.cpus[b].cur != e < NENV
    requires s.procs[s.cpus[b].cur].status == ENV_RUNNING && s.procs[e].status == ENV_RUNNABLE
    requires Scan(s.procs, s.cpus[b].cur, 0) == e
    ensures var s' := Visit(s, b, Yield);
            && Wf(s') && |s'.cpus| == |s.cpus| && s'.lock == NULL && s'.cpus[b].mode == User && s'.cpus[b].cur == e
            && s'.procs[e] == s.procs[e].(status := ENV_RUNNING)
            && (forall i :: 0 <= i < NENV && i != e && i != s.cpus[b].cur ==> s'.procs[i] == s.procs[i])
            && (forall d :: 0 <= d < |s.cpus| && d != b ==> s'.cpus[d] == s.cpus[d])
  {
    hide Scan;
  }

  lemma WakeThird(s: State, c: nat, e: nat)
    requires Wf(s) && c < |s.cpus| && s.cpus[c].mode == User && 0 <= s.cpus[c].cur != e < NENV
    requires s.procs[s.cpus[c].cur].status == ENV_RUNNING && s.procs[e] == Proc(ENV_RUNNING, true)
    ensures var s' := Visit(s, c, Send(e));
            && |s'.procs| == NENV && |s'.cpus| == |s.cpus| && s'.procs[e].status == ENV_RUNNABLE
            && (forall d :: 0 <= d < |s.cpus| && d != c ==> s'.cpus[d] == s.cpus[d])
  {
    var s1 := Arrive(SetCpu(s, c, Entered(s.cpus[c])), c);
    ResumeRunning(s1.(procs := s.procs[e := Proc(ENV_RUNNABLE, false)]), c);
  }

  // c wakes e, which waits to receive; b yields to it; c sends to it: e is RUNNABLE, and current on b.
  lemma WakeBreaks(s: State, c: nat, b: nat, e: nat)
    requires Inv(s) && c < |s.cpus| && b < |s.cpus| && b != c && s.cpus[c].mode == InKernel
    requires s.cpus[c].origin == FromUser
    requires s.procs[s.cpus[c].cur].status == ENV_RUNNING && s.cpus[b].mode == User
    requires s.procs[s.cpus[b].cur].status == ENV_RUNNING
    requires e < NENV && s.procs[e].recving && s.procs[e].status == ENV_NOT_RUNNABLE
    requires Scan(SetStatus(s, e, ENV_RUNNABLE).procs, s.cpus[b].cur, 0) == e
    ensures var s1 := Service(s, c, SetTo(e, ENV_RUNNABLE));
            && Wf(s1) && |s1.cpus| == |s.cpus| && s1.cpus[b].mode == User && s1.lock == NULL
            && var s2 := Visit(s1, b, Yield);
               && Wf(s2) && |s2.cpus| == |s.cpus| && s2.cpus[c].mode == User && s2.lock == NULL
               && var s3 := Visit(s2, c, Send(e));
                  && |s3.procs| == NENV && |s3.cpus| == |s.cpus|
                  && s3.cpus[b].mode == User && s3.cpus[b].cur == e && s3.procs[e].status == ENV_RUNNABLE
  {
    WorkFacts(s, c);
    assert CpuOk(s, s.cpus[b]);
    WakeFirst(s, c, e);
    hide Scan, Inv, Service, Visit;
    var s1 := Service(s, c, SetTo(e, ENV_RUNNABLE));
    WakeSecond(s1, b, e);
    WakeThird(Visit(s1, b, Yield), c, e);
  }

  // A state in which this happens: CPU 0 in the kernel for environment 0, CPU 1 running
  // environment 1, environment 2 waiting to receive.
  function Receiving(): State {
    State(seq(NENV, e => if e < 2 then Proc(ENV_RUNNING, false)
                         else if e == 2 then Proc(ENV_NOT_RUNNABLE, true)
                         else Proc(ENV_FREE, false)),
          [Cpu(InKernel, 0, false, FromUser, 1, 1, 0), Cpu(User, 1, false, FromUser, 0, 0, 0)], 0)
  }

  lemma ReceivingProcs()
    ensures var s := Receiving(); Wf(s) && ProcsOk(s)
  {
    var s := Receiving();
    forall e | 0 <= e < NENV && OnCpu(s.procs[e].status) ensures OnSomeCpu(s, e) { assert s.cpus[e].cur == e; }
  }

  lemma ReceivingInv()
    ensures Inv(Receiving()) && Scan(SetStatus(Receiving(), 2, ENV_RUNNABLE).procs, 1, 0) == 2
  {
    ReceivingProcs();
    hide ProcsOk;
  }

  lemma WakeCanBreak()
    ensures var s := Receiving();
            && Inv(s) && Enabled(s, Work(0, SetTo(2, ENV_RUNNABLE)))
            && var s1 := Service(s, 0, SetTo(2, ENV_RUNNABLE));
               && Wf(s1) && |s1.cpus| == 2
               && var s2 := Visit(s1, 1, Yield);
                  && Wf(s2) && |s2.cpus| == 2
                  && var s3 := Visit(s2, 0, Send(2));
                     |s3.procs| == NENV && |s3.cpus| == 2 && s3.cpus[1].cur == 2 && s3.procs[2].status == ENV_RUNNABLE
  {
    ReceivingInv();
    var s := Receiving();
    assert s.procs[0].status == ENV_RUNNING && s.procs[1].status == ENV_RUNNING
           && s.procs[2] == Proc(ENV_NOT_RUNNABLE, true);
    hide Inv, Service, Visit, Scan;
    WakeBreaks(s, 0, 1, 2);
  }
}
