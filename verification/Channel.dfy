// The channels of user/primes.c are the rendezvous of lib/ipc.c: every send, receive and return of
// the chain is an event of the kernel, and no other call of anyone is seen by the stages.
module Channels {
  import opened Mmu
  import opened FlatMemory
  import opened EnvIds
  import opened EnvTable
  import opened Syscalls
  import opened Ipc
  import Sieve

  // ----------------------------------------------------------------- one receiver

  function Values(msgs: seq<Msg>): seq<int> {
    if msgs == [] then [] else Values(msgs[..|msgs| - 1]) + [msgs[|msgs| - 1].value]
  }

  // The receiver's side of stage st is environment t: waiting means recving, a value in the slot lies in
  // the ipc fields, and the values got are those its receives have returned.
  ghost predicate Channel(w: Watch, t: nat, st: Sieve.Stage) {
    && t < NENV && Matched(w, t)
    && (st.waiting <==> w.k.envs[t].recving)
    && st.slot == (if w.waiting && !w.k.envs[t].recving then [w.k.envs[t].value] else [])
    && st.got == Values(w.got)
  }

  // What an event does to the stage.
  ghost function After(w: Watch, ev: Event, t: nat, st: Sieve.Stage): Sieve.Stage
    requires Enabled(w, ev, t) && Channel(w, t, st)
  {
    if ev.Return? then Sieve.Return(st, w.k.envs[t].value)
    else if SendsTo(w.k, ev.call, t) then Sieve.Deliver(st, ev.call.value)
    else if Receives(w.k, ev.call, t) then st.(waiting := true)
    else st
  }

  lemma ReturnNext(w: Watch, t: nat, st: Sieve.Stage)
    requires TableOk(w.k) && Enabled(w, Return, t) && Channel(w, t, st)
    ensures |st.slot| == 1 && After(w, Return, t, st) == Sieve.Return(st, st.slot[0])
    ensures Matched(Next(w, Return, t), t) ==> Channel(Next(w, Return, t), t, After(w, Return, t, st))
  {
    hide TableOk, Values, Live;
    assert st.slot == [w.k.envs[t].value] && !w.k.envs[t].recving;
    ValuesPush(w.got, MsgOf(w.k.envs[t]));
    hide Matched;
  }

  lemma ValuesPush(msgs: seq<Msg>, m: Msg)
    ensures Values(msgs + [m]) == Values(msgs) + [m.value]
  {
    assert (msgs + [m])[..|msgs|] == msgs;
  }

  // Each event is the step of the stage: a send that arrives delivers into an empty place the
  // stage waits at, a receive begins to wait, a return takes the value, and nothing else shows.
  lemma ChannelNext(w: Watch, managed: set<nat>, ev: Event, t: nat, st: Sieve.Stage)
    requires Good(w.k, managed) && Enabled(w, ev, t) && Channel(w, t, st)
    requires (ev.Kernel? && ev.call.CallTrySend? ==> ev.call.perm < PGSIZE)
    ensures Good(Next(w, ev, t).k, managed) && Channel(Next(w, ev, t), t, After(w, ev, t, st))
    ensures ev.Kernel? && SendsTo(w.k, ev.call, t) ==> st.waiting && st.slot == []
    ensures ev.Kernel? && Receives(w.k, ev.call, t) ==> !st.waiting && st.slot == []
  {
    GoodTable(w.k, managed);
    NextMatched(w, managed, ev, t);
    hide Good, Do, TrySend, Resolve, Recv;
    if ev.Return? {
      ReturnNext(w, t, st);
    } else if SendsTo(w.k, ev.call, t) {
      DoSend(w.k, managed, ev.call, t);
    } else if Receives(w.k, ev.call, t) {
      DoReceive(w.k, ev.call, t);
    } else {
      FieldsStable(w.k, managed, ev.call, t);
    }
  }

  // A send without a page arrives exactly when the stage waits; otherwise ipc_send tries again.
  lemma SendExact(w: Watch, t: nat, st: Sieve.Stage, call: Call)
    requires TableOk(w.k) && Channel(w, t, st) && call.CallTrySend? && Live(w.k, call.cur)
    requires Resolve(w.k.envs, call.cur, call.envid, false) == t && call.srcva >= UTOP
    ensures SendsTo(w.k, call, t) <==> st.waiting
    ensures !st.waiting ==>
              TrySend(w.k, call.cur, call.envid, call.value, call.srcva, call.perm) == Outcome(w.k, -E_IPC_NOT_RECV)
  {
    hide TableOk, Resolve;
  }

  // ----------------------------------------------------------------- the whole chain

  // Environment ts[j] is stage j of the chain.
  ghost predicate Network(k: KState, ts: seq<nat>, ws: seq<Watch>, s: Sieve.Chain) {
    && |ts| == |ws| == |s.stages|
    && (forall i, j :: 0 <= i < j < |ts| ==> ts[i] != ts[j])
    && (forall j :: 0 <= j < |ts| ==> ws[j].k == k && Channel(ws[j], ts[j], s.stages[j]))
  }

  ghost predicate AllEnabled(ws: seq<Watch>, ts: seq<nat>, call: Call) {
    |ts| == |ws| && forall j :: 0 <= j < |ws| ==> TableOk(ws[j].k) && Enabled(ws[j], Kernel(call), ts[j])
  }

  // All receivers after a kernel call.
  ghost function NextAll(ws: seq<Watch>, ts: seq<nat>, call: Call): (r: seq<Watch>)
    requires AllEnabled(ws, ts, call)
    ensures |r| == |ws|
  {
    seq(|ws|, j requires 0 <= j < |ws| => Next(ws[j], Kernel(call), ts[j]))
  }

  // The stages agree on what the channels are about.
  predicate SameEnds(st: Sieve.Stage, st': Sieve.Stage) {
    st.waiting == st'.waiting && st.slot == st'.slot && st.got == st'.got
  }

  lemma CallNetwork(k: KState, managed: set<nat>, ts: seq<nat>, ws: seq<Watch>, s: Sieve.Chain, call: Call,
                    s': Sieve.Chain)
    requires Good(k, managed) && Network(k, ts, ws, s) && AllEnabled(ws, ts, call)
    requires (call.CallTrySend? ==> call.perm < PGSIZE)
    requires |s'.stages| == |s.stages|
    requires forall j :: 0 <= j < |ts| ==> SameEnds(After(ws[j], Kernel(call), ts[j], s.stages[j]), s'.stages[j])
    ensures Good(Do(k, call), managed) && Network(Do(k, call), ts, NextAll(ws, ts, call), s')
  {
    GoodTable(k, managed);
    DoGood(k, managed, call);
    hide Good, Do, Matched, After;
    forall j | 0 <= j < |ts|
      ensures Next(ws[j], Kernel(call), ts[j]).k == Do(k, call)
      ensures Channel(Next(ws[j], Kernel(call), ts[j]), ts[j], s'.stages[j])
    {
      ChannelNext(ws[j], managed, Kernel(call), ts[j], s.stages[j]);
    }
  }

  // A call of an environment that is no stage, or of one that is not inside ipc_recv.
  ghost predicate Caller(ts: seq<nat>, ws: seq<Watch>, cur: nat) {
    |ts| == |ws| && forall j :: 0 <= j < |ts| && ts[j] == cur ==> !ws[j].waiting
  }

  // The number v sent to stage i by a caller for whom envid names it.
  ghost predicate Sends(k: KState, call: Call, t: nat, v: int) {
    && call.CallTrySend? && call.value == v && call.srcva >= UTOP && call.perm < PGSIZE
    && |k.envs| == NENV && Live(k, call.cur) && Resolve(k.envs, call.cur, call.envid, false) == t
  }

  lemma SendNetwork(k: KState, managed: set<nat>, ts: seq<nat>, ws: seq<Watch>, s: Sieve.Chain, call: Call, i: nat,
                    s': Sieve.Chain)
    requires Good(k, managed) && Network(k, ts, ws, s) && i < |ts| && s.stages[i].waiting
    requires call.CallTrySend? && Sends(k, call, ts[i], call.value) && Caller(ts, ws, call.cur)
    requires |s'.stages| == |s.stages|
    requires SameEnds(Sieve.Deliver(s.stages[i], call.value), s'.stages[i])
    requires forall j :: 0 <= j < |ts| && j != i ==> SameEnds(s.stages[j], s'.stages[j])
    ensures SendsTo(k, call, ts[i]) && AllEnabled(ws, ts, call) && Network(Do(k, call), ts, NextAll(ws, ts, call), s')
  {
    GoodTable(k, managed);
    hide Good, Do, Matched, TrySend, Resolve, TableOk;
    SendExact(ws[i], ts[i], s.stages[i], call);
    forall j | 0 <= j < |ts| ensures TableOk(ws[j].k) && Enabled(ws[j], Kernel(call), ts[j]) {
      assert Channel(ws[j], ts[j], s.stages[j]);
    }
    CallNetwork(k, managed, ts, ws, s, call, s');
  }

  // ipc_send(id, i, 0, 0) of a filter: the value in hand goes to the next stage.
  lemma PassIsSend(k: KState, managed: set<nat>, ts: seq<nat>, ws: seq<Watch>, s: Sieve.Chain, call: Call, i: nat)
    requires Good(k, managed) && Network(k, ts, ws, s) && Sieve.Enabled(s, Sieve.Pass(i)) && Sieve.StageOk(s.stages[i])
    requires call.CallTrySend? && call.cur == ts[i] && Sends(k, call, ts[i + 1], s.stages[i].hand[0])
    ensures SendsTo(k, call, ts[i + 1]) && AllEnabled(ws, ts, call)
    ensures Network(Do(k, call), ts, NextAll(ws, ts, call), Sieve.Next(s, Sieve.Pass(i)))
  {
    hide Good, Do, Channel, Live, Resolve, SendsTo, SameEnds, Sieve.StageOk;
    PassEnds(s, i);
    PassingFree(ws[i], ts[i], s.stages[i]);
    hide Sieve.Next;
    SendNetwork(k, managed, ts, ws, s, call, i + 1, Sieve.Next(s, Sieve.Pass(i)));
  }

  // A stage with a value in hand is not inside ipc_recv.
  lemma PassingFree(w: Watch, t: nat, st: Sieve.Stage)
    requires Channel(w, t, st) && Sieve.StageOk(st) && st.hand != []
    ensures !w.waiting
  {}

  lemma PassEnds(s: Sieve.Chain, i: nat)
    requires Sieve.Enabled(s, Sieve.Pass(i))
    ensures var s' := Sieve.Next(s, Sieve.Pass(i));
            && |s'.stages| == |s.stages|
            && SameEnds(Sieve.Deliver(s.stages[i + 1], s.stages[i].hand[0]), s'.stages[i + 1])
            && forall j :: 0 <= j < |s.stages| && j != i + 1 ==> SameEnds(s.stages[j], s'.stages[j])
  {}

  // That of the generator, which is no stage.
  lemma FeedIsSend(k: KState, managed: set<nat>, ts: seq<nat>, ws: seq<Watch>, s: Sieve.Chain, call: Call)
    requires Good(k, managed) && Network(k, ts, ws, s) && Sieve.Enabled(s, Sieve.Feed)
    requires call.CallTrySend? && call.cur !in ts && Sends(k, call, ts[0], s.next)
    ensures SendsTo(k, call, ts[0]) && AllEnabled(ws, ts, call)
    ensures Network(Do(k, call), ts, NextAll(ws, ts, call), Sieve.Next(s, Sieve.Feed))
  {
    hide Good, Do, Channel, Live, Resolve, SendsTo;
    SendNetwork(k, managed, ts, ws, s, call, 0, Sieve.Next(s, Sieve.Feed));
  }

  // ipc_recv(&envid, 0, 0) as far as it waits.
  lemma AskIsReceive(k: KState, managed: set<nat>, ts: seq<nat>, ws: seq<Watch>, s: Sieve.Chain, i: nat)
    requires Good(k, managed) && Network(k, ts, ws, s) && Sieve.Enabled(s, Sieve.Ask(i))
    ensures var call := CallRecv(ts[i], UTOP);
            && AllEnabled(ws, ts, call) && Receives(k, call, ts[i])
            && Network(Do(k, call), ts, NextAll(ws, ts, call), Sieve.Next(s, Sieve.Ask(i)))
  {
    GoodTable(k, managed);
    var call := CallRecv(ts[i], UTOP);
    assert Channel(ws[i], ts[i], s.stages[i]);
    hide Good, Do, TableOk;
    forall j | 0 <= j < |ts| ensures TableOk(ws[j].k) && Enabled(ws[j], Kernel(call), ts[j]) {
      assert Channel(ws[j], ts[j], s.stages[j]);
    }
    CallNetwork(k, managed, ts, ws, s, call, Sieve.Next(s, Sieve.Ask(i)));
  }

  // Its return with a value, once the stage has been woken.
  lemma TakeIsReturn(k: KState, managed: set<nat>, ts: seq<nat>, ws: seq<Watch>, s: Sieve.Chain, i: nat)
    requires Good(k, managed) && Network(k, ts, ws, s) && i < |ts| && Enabled(ws[i], Return, ts[i])
    ensures Sieve.Enabled(s, Sieve.Take(i))
    ensures TableOk(k) && Network(k, ts, ws[i := Next(ws[i], Return, ts[i])], Sieve.Next(s, Sieve.Take(i)))
  {
    GoodTable(k, managed);
    ChannelNext(ws[i], managed, Return, ts[i], s.stages[i]);
    ReturnNext(ws[i], ts[i], s.stages[i]);
    hide Good, TableOk, Channel;
  }

  // Everything else that the kernel does, for these environments and for others, leaves the
  // chain as it is.
  lemma OtherCall(k: KState, managed: set<nat>, ts: seq<nat>, ws: seq<Watch>, s: Sieve.Chain, call: Call)
    requires Good(k, managed) && Network(k, ts, ws, s) && AllEnabled(ws, ts, call)
    requires (call.CallTrySend? ==> call.perm < PGSIZE)
    requires forall j :: 0 <= j < |ts| ==> !SendsTo(k, call, ts[j]) && !Receives(k, call, ts[j])
    ensures Network(Do(k, call), ts, NextAll(ws, ts, call), s)
  {
    hide Good, Do, Channel, SendsTo, Receives;
    CallNetwork(k, managed, ts, ws, s, call, s);
  }

  lemma ChildFresh(k: KState, cur: nat)
    requires TableOk(k) && Live(k, cur) && k.free != [] && k.mem.free != []
    ensures k.free[0] < NENV && !Live(k, k.free[0])
    ensures var k', e := Do(k, CallExofork(cur)), k.free[0]; Channel(Watch(k', false, [], []), e, Sieve.NEWBORN)
  {
    assert k.free[0] in k.free;
    hide SlotIds, OwnDirs;
  }

  lemma TableSize(k: KState)
    requires TableOk(k)
    ensures |k.envs| == NENV
  {}

  // The last stage, not inside ipc_recv, may call sys_exofork.
  lemma ForkEnabled(k: KState, ts: seq<nat>, ws: seq<Watch>, s: Sieve.Chain)
    requires TableOk(k) && Network(k, ts, ws, s) && ts != [] && !ws[|ts| - 1].waiting
    ensures AllEnabled(ws, ts, CallExofork(ts[|ts| - 1]))
    ensures forall j :: 0 <= j < |ts| ==> Live(k, ts[j])
  {
    hide TableOk, Resolve;
    forall j | 0 <= j < |ts|
      ensures Enabled(ws[j], Kernel(CallExofork(ts[|ts| - 1])), ts[j]) && Live(k, ts[j])
    {
      assert Channel(ws[j], ts[j], s.stages[j]);
      assert |k.envs| == NENV by { TableSize(k); }
    }
  }

  // sys_exofork in the fork of the last stage: the child joins the chain, with nothing received.
  lemma ForkIsExofork(k: KState, managed: set<nat>, ts: seq<nat>, ws: seq<Watch>, s: Sieve.Chain)
    requires Good(k, managed) && Network(k, ts, ws, s) && Sieve.Enabled(s, Sieve.ForkNext) && k.free != []
    requires k.mem.free != []
    requires !ws[|ts| - 1].waiting
    ensures var call := CallExofork(ts[|ts| - 1]);
            && AllEnabled(ws, ts, call) && k.free[0] !in ts
            && Network(Do(k, call), ts + [k.free[0]], NextAll(ws, ts, call) + [Watch(Do(k, call), false, [], [])],
                       Sieve.Next(s, Sieve.ForkNext))
  {
    GoodTable(k, managed);
    var call := CallExofork(ts[|ts| - 1]);
    ForkEnabled(k, ts, ws, s);
    hide Good, Do, TableOk, Resolve;
    ChildFresh(k, ts[|ts| - 1]);
    assert k.free[0] !in ts;
    hide Channel, Enabled, Live, NextAll, Network;
    OtherCall(k, managed, ts, ws, s, call);
    JoinNetwork(Do(k, call), ts, NextAll(ws, ts, call), s, k.free[0]);
  }

  lemma JoinNetwork(k: KState, ts: seq<nat>, ws: seq<Watch>, s: Sieve.Chain, t: nat)
    requires Network(k, ts, ws, s) && Sieve.Enabled(s, Sieve.ForkNext) && t !in ts
    requires Channel(Watch(k, false, [], []), t, Sieve.NEWBORN)
    ensures Network(k, ts + [t], ws + [Watch(k, false, [], [])], Sieve.Next(s, Sieve.ForkNext))
  {
    hide Channel;
  }
}
