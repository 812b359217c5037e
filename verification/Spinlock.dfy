// kern/spinlock.c with DEBUG_SPINLOCK, one read, write or exchange of shared memory at a time.
module Spinlock {

  // Where a CPU is: before which access to the lock.
  datatype Pc =
    | Out              // not using the lock
    | LockReadLocked   // spin_lock's holding(): read locked
    | LockReadCpu      //   and, if it was set, read cpu
    | LockXchg         // the exchange of the spin loop
    | LockWriteCpu     // lk->cpu = thiscpu
    | Critical
    | UnlockReadLocked // spin_unlock's holding()
    | UnlockReadCpu
    | UnlockWriteCpu   // lk->cpu = 0
    | UnlockXchg
    | Panic            // one of the two debug panics

  const NOBODY := -1

  datatype State = State(locked: nat, cpu: int, pcs: seq<Pc>)

  // The access CPU c makes next.
  function Step(s: State, c: nat): State
    requires c < |s.pcs|
  {
    match s.pcs[c]
    case Out => Go(s, c, LockReadLocked)
    case LockReadLocked => Go(s, c, if s.locked != 0 then LockReadCpu else LockXchg)
    case LockReadCpu => Go(s, c, if s.cpu == c then Panic else LockXchg)
    case LockXchg => Go(s.(locked := 1), c, if s.locked != 0 then LockXchg else LockWriteCpu)
    case LockWriteCpu => Go(s.(cpu := c), c, Critical)
    case Critical => Go(s, c, UnlockReadLocked)
    case UnlockReadLocked => Go(s, c, if s.locked != 0 then UnlockReadCpu else Panic)
    case UnlockReadCpu => Go(s, c, if s.cpu == c then UnlockWriteCpu else Panic)
    case UnlockWriteCpu => Go(s.(cpu := NOBODY), c, UnlockXchg)
    case UnlockXchg => Go(s.(locked := 0), c, Out)
    case Panic => s
  }

  function Go(s: State, c: nat, pc: Pc): State
    requires c < |s.pcs|
  {
    s.(pcs := s.pcs[c := pc])
  }

  // From the successful exchange of spin_lock to the exchange of spin_unlock.
  predicate Owns(pc: Pc) {
    pc in {LockWriteCpu, Critical, UnlockReadLocked, UnlockReadCpu, UnlockWriteCpu, UnlockXchg}
  }

  // The part of it in which lk->cpu names the owner.
  predicate Signed(pc: Pc) {
    pc in {Critical, UnlockReadLocked, UnlockReadCpu, UnlockWriteCpu}
  }

  ghost predicate Inv(s: State) {
    && s.locked <= 1
    && (forall c, d :: 0 <= c < d < |s.pcs| ==> !(Owns(s.pcs[c]) && Owns(s.pcs[d])))
    && (s.locked == 1 <==> exists c :: 0 <= c < |s.pcs| && Owns(s.pcs[c]))
    && (forall c :: 0 <= c < |s.pcs| ==> (Signed(s.pcs[c]) <==> s.cpu == c))
    && (forall c :: 0 <= c < |s.pcs| ==> s.pcs[c] != Panic)
  }

  // lock->locked && lock->cpu == thiscpu
  predicate Holding(s: State, c: int) { s.locked != 0 && s.cpu == c }

  lemma StepInv(s: State, c: nat)
    requires Inv(s) && c < |s.pcs|
    ensures Inv(Step(s, c))
  {
    var s' := Step(s, c);
    if Owns(s'.pcs[c]) {
      assert s'.locked == 1;
    } else if d :| 0 <= d < |s.pcs| && d != c && Owns(s.pcs[d]) {
      assert s'.pcs[d] == s.pcs[d] && s'.locked == 1;
    } else {
      assert s'.locked == 0 by {
        if s.pcs[c] != UnlockXchg { assert !Owns(s.pcs[c]); }
      }
    }
  }

  // n accesses of CPU c in a row.
  function Alone(s: State, c: nat, n: nat): (r: State)
    requires c < |s.pcs|
    ensures |r.pcs| == |s.pcs|
  {
    if n == 0 then s else Step(Alone(s, c, n - 1), c)
  }

  lemma AloneNext(s: State, c: nat, n: nat)
    requires c < |s.pcs|
    ensures Alone(s, c, 0) == s && Alone(s, c, n + 1) == Step(Alone(s, c, n), c)
  {}

  // A free lock is taken by whoever asks for it next, in four accesses if nobody comes in between.
  lemma FreeIsTaken(s: State, c: nat)
    requires Inv(s) && c < |s.pcs| && s.pcs[c] == Out && s.locked == 0
    ensures var s' := Alone(s, c, 4); s'.pcs[c] == Critical && s'.locked == 1 && s'.cpu == c
  {
    hide Alone, Inv;
    AloneNext(s, c, 0);
    AloneNext(s, c, 1);
    AloneNext(s, c, 2);
    AloneNext(s, c, 3);
  }

  // And its owner gives it back in five, so that it is free again.
  lemma OwnerReleases(s: State, c: nat)
    requires Inv(s) && c < |s.pcs| && s.pcs[c] == Critical
    ensures var s' := Alone(s, c, 5); s'.pcs[c] == Out && s'.locked == 0
  {
    assert s.locked == 1 && s.cpu == c;
    hide Alone, Inv;
    AloneNext(s, c, 0);
    AloneNext(s, c, 1);
    AloneNext(s, c, 2);
    AloneNext(s, c, 3);
    AloneNext(s, c, 4);
  }

  // A CPU at the exchange of the spin loop gets the lock exactly if it is free, and waits otherwise.
  lemma ExchangeDecides(s: State, c: nat)
    requires Inv(s) && c < |s.pcs| && s.pcs[c] == LockXchg
    ensures Owns(Step(s, c).pcs[c]) <==> forall d :: 0 <= d < |s.pcs| ==> !Owns(s.pcs[d])
    ensures !Owns(Step(s, c).pcs[c]) ==> Step(s, c) == s
  {
    if d :| 0 <= d < |s.pcs| && Owns(s.pcs[d]) { assert s.locked == 1; }
  }

  // steps[i] is the CPU that moves from state i to state i + 1.
  ghost predicate IsRun(states: seq<State>, steps: seq<nat>) {
    && |states| == |steps| + 1
    && states[0].locked == 0 && states[0].cpu == NOBODY
    && (forall c :: 0 <= c < |states[0].pcs| ==> states[0].pcs[c] == Out)
    && forall i :: 0 <= i < |steps| ==> steps[i] < |states[i].pcs| && states[i + 1] == Step(states[i], steps[i])
  }

  lemma {:induction false} RunInv(states: seq<State>, steps: seq<nat>, n: nat)
    requires IsRun(states, steps) && n < |states|
    ensures Inv(states[n])
  {
    if n > 0 {
      RunInv(states, steps, n - 1);
      StepInv(states[n - 1], steps[n - 1]);
    }
  }

  // In every interleaving of any number of CPUs: one critical section at a time, no panic; and the
  // two reads of holding(), though other CPUs may move in between, tell each CPU the truth.
  lemma LockSafe(states: seq<State>, steps: seq<nat>, n: nat)
    requires IsRun(states, steps) && n < |states|
    ensures var s := states[n];
            && (forall c, d :: 0 <= c < d < |s.pcs| ==> !(s.pcs[c] == Critical && s.pcs[d] == Critical))
            && (forall c :: 0 <= c < |s.pcs| ==> s.pcs[c] != Panic)
            && (forall c :: 0 <= c < |s.pcs| && s.pcs[c] in {LockReadLocked, LockReadCpu} ==> !Holding(s, c))
            && (forall c :: 0 <= c < |s.pcs| && s.pcs[c] in {UnlockReadLocked, UnlockReadCpu} ==> Holding(s, c))
  {
    RunInv(states, steps, n);
  }
}
