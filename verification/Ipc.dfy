// IPC as its users see it (lib/ipc.c over sys_ipc_try_send and sys_ipc_recv): what a receiver's
// completed receives return, over every run of kernel operations.
module Ipc {
  import opened Mmu
  import opened FlatMemory
  import opened EnvIds
  import opened EnvTable
  import EnvSpace
  import opened Syscalls

  datatype Msg = Msg(value: nat, from: int, perm: nat)

  function MsgOf(env: Env): Msg { Msg(env.value, env.from, env.perm) }

  // ------------------------------------------------------------------- one send

  // The page a successful send carries: offered below UTOP and asked for below UTOP.
  predicate Carries(k: KState, t: nat, srcva: nat)
    requires t < |k.envs|
  {
    srcva < UTOP && k.envs[t].dstva < UTOP
  }

  // A send that fails leaves everything untouched.  One that succeeds finds its target waiting,
  // and reports a nonzero perm exactly when the sender's frame went into the page asked for;
  // without a page the receiver's space is as it was.
  lemma SendOutcome(k: KState, managed: set<nat>, cur: nat, envid: int, value: nat, srcva: nat, perm: nat)
    requires Good(k, managed) && Live(k, cur) && perm < PGSIZE
    ensures var o := TrySend(k, cur, envid, value, srcva, perm); var t := Resolve(k.envs, cur, envid, false);
            && (o.r < 0 <==> o.k == k) && o.r <= 0
            && (o.r == 0 ==>
                  && 0 <= t < NENV && k.envs[t].recving && !o.k.envs[t].recving && o.k.envs[t].status == ENV_RUNNABLE
                  && MsgOf(o.k.envs[t]) == Msg(value, k.envs[cur].id, if Carries(k, t, srcva) then perm else 0)
                  && (o.k.envs[t].perm != 0 <==> Carries(k, t, srcva))
                  && o.k.envs[t].eax == 0 && o.k.envs[t].id == k.envs[t].id && o.k.envs[t].parent == k.envs[t].parent
                  && o.k.envs[t].pgdir == k.envs[t].pgdir && o.k.envs[t].upcall == k.envs[t].upcall
                  && (forall e :: 0 <= e < NENV && e != t ==> o.k.envs[e] == k.envs[e])
                  && var src := (k.envs[cur].pgdir, PageOf(srcva));
                     var dst := (k.envs[t].pgdir, PageOf(k.envs[t].dstva));
                     if Carries(k, t, srcva) then
                       src in k.mem.maps && o.k.mem.maps == k.mem.maps[dst := Pte(k.mem.maps[src].frame, Present(perm))]
                     else o.k.mem == k.mem)
  {
    hide Ok, FreeSlots, SlotIds, OwnDirs;
    ResolveLive(k, cur, envid, false);
    ResolveLive(k, cur, 0, false);
    var o := TrySend(k, cur, envid, value, srcva, perm);
    var t := Resolve(k.envs, cur, envid, false);
    if o.r == 0 && Carries(k, t, srcva) {
      var src := (k.envs[cur].pgdir, PageOf(srcva));
      MappedMappable(k.mem, src);
      EnvSpace.InsertOk(k.mem, managed, (k.envs[t].pgdir, PageOf(k.envs[t].dstva)), k.mem.maps[src].frame, perm);
      assert PermOk(perm);
    }
  }

  // Exactly when each error is returned: the target's id names nobody; it does not wait; the page is
  // misaligned, not one the sender maps for users, or would become writable; no page table can be made.
  lemma SendErrors(k: KState, managed: set<nat>, cur: nat, envid: int, value: nat, srcva: nat, perm: nat)
    requires Good(k, managed) && Live(k, cur) && perm < PGSIZE
    ensures var o := TrySend(k, cur, envid, value, srcva, perm); var t := Resolve(k.envs, cur, envid, false);
            var src := (k.envs[cur].pgdir, srcva / PGSIZE);
            && (o.r == -E_BAD_ENV <==> t < 0)
            && (o.r == -E_IPC_NOT_RECV <==> t >= 0 && !k.envs[t].recving)
            && (o.r == -E_INVAL <==>
                  (t >= 0 && k.envs[t].recving && Carries(k, t, srcva)
                   && (|| srcva % PGSIZE != 0 || perm % 2 == 0 || !Has(perm, PTE_U) || src !in k.mem.maps
                       || (Has(perm, PTE_W) && !Has(k.mem.maps[src].perm, PTE_W)))))
            && (o.r == -E_NO_MEM <==>
                  (t >= 0 && k.envs[t].recving && Carries(k, t, srcva) && srcva % PGSIZE == 0 && perm % 2 == 1
                   && Has(perm, PTE_U) && src in k.mem.maps && (Has(perm, PTE_W) ==> Has(k.mem.maps[src].perm, PTE_W))
                   && k.mem.free == [] && (k.envs[t].pgdir, k.envs[t].dstva / PGSIZE / NPTENTRIES) !in k.mem.tables))
            && o.r in {0, -E_BAD_ENV, -E_IPC_NOT_RECV, -E_INVAL, -E_NO_MEM}
  {
    hide Ok, FreeSlots, SlotIds, OwnDirs, Resolve;
    ResolveLive(k, cur, envid, false);
  }

  // The call is a send that reaches t.
  ghost predicate SendsTo(k: KState, call: Call, t: nat)
    requires |k.envs| == NENV
  {
    call.CallTrySend? && Live(k, call.cur) && Resolve(k.envs, call.cur, call.envid, false) == t
    && TrySend(k, call.cur, call.envid, call.value, call.srcva, call.perm).r == 0
  }

  // The call is t's own receive, and takes effect.
  ghost predicate Receives(k: KState, call: Call, t: nat)
    requires |k.envs| == NENV
  {
    call.CallRecv? && call.cur == t && Live(k, t) && Recv(k, t, call.dstva).r == 0
  }

  // Nobody frees t, or sets the status of t while it waits.
  ghost predicate Polite(k: KState, call: Call, t: nat)
    requires |k.envs| == NENV
  {
    && !(call.CallEnvFree? && call.cur == t)
    && !(call.CallDestroy? && Live(k, call.cur) && Resolve(k.envs, call.cur, call.envid, true) == t)
    && !(call.CallSetStatus? && Live(k, call.cur) && Resolve(k.envs, call.cur, call.envid, true) == t && t < NENV
         && k.envs[t].recving)
  }

  // What a call can do to the IPC side of t.
  ghost predicate Untouched(env: Env, env': Env) {
    && MsgOf(env') == MsgOf(env) && env'.recving == env.recving && env'.id == env.id && env'.status != ENV_FREE
    && env'.dstva == env.dstva && env'.pgdir == env.pgdir
    && (env.recving && env.status == ENV_NOT_RUNNABLE ==> env'.status == ENV_NOT_RUNNABLE)
  }

  // Between a delivery and the next receive of t, no call of anybody changes what t will read.
  lemma FieldsStable(k: KState, managed: set<nat>, call: Call, t: nat)
    requires Good(k, managed) && Live(k, t) && t < NENV && Polite(k, call, t)
    requires !SendsTo(k, call, t) && !Receives(k, call, t)
    ensures |Do(k, call).envs| == NENV && Untouched(k.envs[t], Do(k, call).envs[t])
  {
    hide Ok, FreeSlots, SlotIds, OwnDirs, Do, Untouched;
    if call.CallEnvCreate? || call.CallExofork? || call.CallEnvFree? || call.CallDestroy? {
      SlotsStable(k, call, t);
    } else if Live(k, call.cur) {
      PatchStable(k, call, t);
    } else {
      DeadCaller(k, call, t);
    }
  }

  lemma DeadCaller(k: KState, call: Call, t: nat)
    requires TableOk(k) && Live(k, t) && t < NENV && !call.CallEnvCreate? && !Live(k, call.cur)
    ensures |Do(k, call).envs| == NENV && Untouched(k.envs[t], Do(k, call).envs[t])
  {}

  // A slot just taken or given up is not t's.
  lemma SlotsStable(k: KState, call: Call, t: nat)
    requires TableOk(k) && Live(k, t) && t < NENV
    requires (call.CallEnvCreate? || call.CallExofork? || call.CallEnvFree? || call.CallDestroy?)
    requires Polite(k, call, t)
    ensures |Do(k, call).envs| == NENV && Untouched(k.envs[t], Do(k, call).envs[t])
  {
    hide SlotIds, OwnDirs, EnvSpace.FreeEnv, NextId;
    if k.free != [] { assert k.free[0] in k.free && k.free[0] != t; }
  }

  lemma PatchStable(k: KState, call: Call, t: nat)
    requires TableOk(k) && Live(k, t) && t < NENV && !call.CallEnvCreate? && !call.CallExofork? && !call.CallEnvFree?
    requires !call.CallDestroy?
    requires Polite(k, call, t) && Live(k, call.cur) && !SendsTo(k, call, t) && !Receives(k, call, t)
    ensures |Do(k, call).envs| == NENV && Untouched(k.envs[t], Do(k, call).envs[t])
  {
    hide SlotIds, OwnDirs, FreeSlots, Insert, Remove, Shareable;
  }

  // ------------------------------------------------------------------ a page in transit

  // No send reaches t, and t makes no receive.
  ghost predicate Unheard(k: KState, call: Call, t: nat)
    requires |k.envs| == NENV
  {
    Polite(k, call, t) && !SendsTo(k, call, t) && !Receives(k, call, t)
  }

  ghost predicate UnheardRun(states: seq<KState>, calls: seq<Call>, t: nat, i: nat, j: nat) {
    |states| == |calls| + 1 && forall n :: i <= n < j < |calls| ==>
      |states[n].envs| == NENV && Unheard(states[n], calls[n], t)
  }

  // What t waits for stays as it is until a send reaches it.
  lemma {:induction false} AskStands(states: seq<KState>, calls: seq<Call>, managed: set<nat>, t: nat, i: nat, j: nat)
    requires IsRun(states, calls) && i <= j < |calls| && UnheardRun(states, calls, t, i, j)
    requires Good(states[i], managed) && t < NENV && Live(states[i], t)
    ensures Good(states[j], managed) && Live(states[j], t)
    ensures states[j].envs[t].dstva == states[i].envs[t].dstva && states[j].envs[t].pgdir == states[i].envs[t].pgdir
    decreases j
  {
    if i < j {
      AskStands(states, calls, managed, t, i, j - 1) by {
        assert forall n :: i <= n < j - 1 ==> |states[n].envs| == NENV && Unheard(states[n], calls[n], t);
      }
      assert Unheard(states[j - 1], calls[j - 1], t);
      DoGood(states[j - 1], managed, calls[j - 1]);
      FieldsStable(states[j - 1], managed, calls[j - 1], t);
    }
  }

  // A receive at dstva and the next send that reaches t, whatever the others do in between: if
  // both have an address below UTOP, the sender's frame is in t's page dstva afterwards, with the
  // permission that t is told, which does not exceed the sender's; otherwise no page goes.
  lemma PageArrives(states: seq<KState>, calls: seq<Call>, managed: set<nat>, t: nat, i: nat, j: nat)
    requires IsRun(states, calls) && i < j < |calls| && UnheardRun(states, calls, t, i + 1, j)
    requires Good(states[i], managed) && t < NENV && Receives(states[i], calls[i], t)
    requires |states[j].envs| == NENV && SendsTo(states[j], calls[j], t) && calls[j].perm < PGSIZE
    ensures |states[i].envs| == |states[j + 1].envs| == NENV
    ensures var k, k', send := states[j], states[j + 1], calls[j];
            var to := (states[i].envs[t].pgdir, calls[i].dstva / PGSIZE);
            if calls[i].dstva < UTOP && send.srcva < UTOP then
              var from := (k.envs[send.cur].pgdir, send.srcva / PGSIZE);
              && from in k.mem.maps && k'.envs[t].perm == send.perm
              && k'.mem.maps == k.mem.maps[to := Pte(k.mem.maps[from].frame, send.perm)]
              && (Has(send.perm, PTE_W) ==> Has(k.mem.maps[from].perm, PTE_W))
            else k'.envs[t].perm == 0 && k'.mem == k.mem
  {
    var recv, send := calls[i], calls[j];
    DoGood(states[i], managed, recv);
    GoodTable(states[i], managed);
    AskRecorded(states[i], recv, t);
    AskStands(states, calls, managed, t, i + 1, j);
    hide Ok, FreeSlots, SlotIds, OwnDirs, Resolve, Recv, TrySend, Insert;
    GoodTable(states[j], managed);
    SendMapped(states[j], managed, send, t);
  }

  lemma AskRecorded(k: KState, call: Call, t: nat)
    requires TableOk(k) && t < NENV && Receives(k, call, t)
    ensures var k' := Do(k, call);
            && |k'.envs| == NENV && Live(k', t) && k'.envs[t].pgdir == k.envs[t].pgdir
            && (call.dstva < UTOP ==> k'.envs[t].dstva == call.dstva)
            && (call.dstva >= UTOP ==> k'.envs[t].dstva >= UTOP)
  {}

  lemma SendMapped(k: KState, managed: set<nat>, send: Call, t: nat)
    requires Good(k, managed) && t < NENV && SendsTo(k, send, t) && send.perm < PGSIZE
    ensures var k' := Do(k, send); var to := (k.envs[t].pgdir, k.envs[t].dstva / PGSIZE);
            && |k'.envs| == NENV
            && if Carries(k, t, send.srcva) then
                 var from := (k.envs[send.cur].pgdir, send.srcva / PGSIZE);
                 && from in k.mem.maps && k'.envs[t].perm == send.perm
                 && k'.mem.maps == k.mem.maps[to := Pte(k.mem.maps[from].frame, send.perm)]
                 && (Has(send.perm, PTE_W) ==> Has(k.mem.maps[from].perm, PTE_W))
               else k'.envs[t].perm == 0 && k'.mem == k.mem
  {
    SendOutcome(k, managed, send.cur, send.envid, send.value, send.srcva, send.perm);
    PermKept(send.perm);
    hide Ok, FreeSlots, SlotIds, OwnDirs, Resolve, Insert;
  }

  lemma PermKept(perm: nat)
    ensures PermOk(perm) ==> Present(perm) == perm
  {}

  // ---------------------------------------------------------- exactly once, in order

  // The kernel with the history of one receiver: whether it is inside ipc_recv, the messages
  // successfully sent to it, and those its completed receives returned.
  datatype Watch = Watch(k: KState, waiting: bool, sent: seq<Msg>, got: seq<Msg>)

  // Return: ipc_recv comes back to its caller with what it finds in the ipc fields.
  datatype Event = Kernel(call: Call) | Return

  predicate ByEnv(call: Call, t: nat) {
    !call.CallEnvCreate? && !call.CallEnvFree? && !call.CallSchedule? && call.cur == t
  }

  ghost predicate Enabled(w: Watch, ev: Event, t: nat) {
    |w.k.envs| == NENV && t < NENV &&
    match ev
    case Kernel(call) => Polite(w.k, call, t) && (ByEnv(call, t) ==> !w.waiting)
    case Return => w.waiting && w.k.envs[t].status != ENV_NOT_RUNNABLE
  }

  // The message a successful send to t is meant to deliver.
  function Sent(k: KState, call: Call, t: nat): Msg
    requires call.CallTrySend? && call.cur < |k.envs| && t < |k.envs|
  {
    Msg(call.value, k.envs[call.cur].id, if Carries(k, t, call.srcva) then call.perm else 0)
  }

  ghost function Next(w: Watch, ev: Event, t: nat): Watch
    requires TableOk(w.k) && Enabled(w, ev, t)
  {
    match ev
    case Kernel(call) =>
      Watch(Do(w.k, call), w.waiting || Receives(w.k, call, t),
            if SendsTo(w.k, call, t) then w.sent + [Sent(w.k, call, t)] else w.sent, w.got)
    case Return => w.(waiting := false, got := w.got + [MsgOf(w.k.envs[t])])
  }

  // What was sent is what was returned, but for one message that lies in the ipc fields.
  ghost predicate Matched(w: Watch, t: nat) {
    && t < |w.k.envs| && Live(w.k, t)
    && (w.k.envs[t].recving ==> w.waiting && w.k.envs[t].status == ENV_NOT_RUNNABLE)
    && w.sent == w.got + if w.waiting && !w.k.envs[t].recving then [MsgOf(w.k.envs[t])] else []
  }

  lemma DoSend(k: KState, managed: set<nat>, call: Call, t: nat)
    requires Good(k, managed) && t < NENV && SendsTo(k, call, t) && call.perm < PGSIZE
    ensures var k' := Do(k, call);
            |k'.envs| == NENV && MsgOf(k'.envs[t]) == Sent(k, call, t) && k.envs[t].recving && !k'.envs[t].recving
            && Live(k', t)
  {
    hide Ok, FreeSlots, SlotIds, OwnDirs, TrySend, Insert, Resolve;
    TrySendGood(k, managed, call.cur, call.envid, call.value, call.srcva, call.perm);
    SendOutcome(k, managed, call.cur, call.envid, call.value, call.srcva, call.perm);
  }

  lemma DoReceive(k: KState, call: Call, t: nat)
    requires TableOk(k) && t < NENV && Receives(k, call, t)
    ensures var k' := Do(k, call); |k'.envs| == NENV && k'.envs[t].recving && k'.envs[t].status == ENV_NOT_RUNNABLE
  {}

  lemma NextMatched(w: Watch, managed: set<nat>, ev: Event, t: nat)
    requires Good(w.k, managed) && Enabled(w, ev, t) && Matched(w, t)
    requires (ev.Kernel? && ev.call.CallTrySend? ==> ev.call.perm < PGSIZE)
    ensures Good(Next(w, ev, t).k, managed) && Matched(Next(w, ev, t), t)
  {
    if ev.Kernel? {
      DoGood(w.k, managed, ev.call);
      hide Good, Ok, Do, TrySend;
      if SendsTo(w.k, ev.call, t) {
        DoSend(w.k, managed, ev.call, t);
      } else if Receives(w.k, ev.call, t) {
        GoodTable(w.k, managed);
        DoReceive(w.k, ev.call, t);
      } else {
        FieldsStable(w.k, managed, ev.call, t);
      }
    }
  }

  lemma GoodTable(k: KState, managed: set<nat>)
    requires Good(k, managed)
    ensures TableOk(k)
  {}

  ghost predicate WatchStep(ws: seq<Watch>, evs: seq<Event>, t: nat, i: nat)
    requires |ws| == |evs| + 1 && i < |evs|
  {
    (TableOk(ws[i].k) ==> Enabled(ws[i], evs[i], t) && ws[i + 1] == Next(ws[i], evs[i], t))
    && (evs[i].Kernel? && evs[i].call.CallTrySend? ==> evs[i].call.perm < PGSIZE)
  }

  ghost predicate Watched(ws: seq<Watch>, evs: seq<Event>, t: nat) {
    |ws| == |evs| + 1 && forall i :: 0 <= i < |evs| ==> WatchStep(ws, evs, t, i)
  }

  lemma {:induction false} RunMatched(ws: seq<Watch>, evs: seq<Event>, managed: set<nat>, t: nat, n: nat)
    requires Watched(ws, evs, t) && n < |ws| && Good(ws[0].k, managed) && Matched(ws[0], t)
    ensures Good(ws[n].k, managed) && Matched(ws[n], t)
  {
    hide Good, Matched, Next, Enabled;
    if n > 0 {
      RunMatched(ws, evs, managed, t, n - 1);
      assert WatchStep(ws, evs, t, n - 1);
      GoodTable(ws[n - 1].k, managed);
      NextMatched(ws[n - 1], managed, evs[n - 1], t);
    }
  }

  // In every run, what t's receives return is what was successfully sent to it: each message
  // once, in order, with at most the last one still on its way.
  lemma ExactlyOnce(ws: seq<Watch>, evs: seq<Event>, managed: set<nat>, t: nat, n: nat)
    requires Watched(ws, evs, t) && n < |ws|
    requires Good(ws[0].k, managed) && t < NENV && Live(ws[0].k, t) && !ws[0].k.envs[t].recving
    requires !ws[0].waiting && ws[0].sent == [] && ws[0].got == []
    ensures Good(ws[n].k, managed) && Matched(ws[n], t)
    ensures ws[n].got <= ws[n].sent && |ws[n].sent| <= |ws[n].got| + 1
    ensures !ws[n].waiting ==> ws[n].got == ws[n].sent
  {
    RunMatched(ws, evs, managed, t, n);
    hide Good;
  }
}
