// What the system calls on environments do, field by field, and whom they can reach.
module Calls {
  import opened Mmu
  import opened FlatMemory
  import opened EnvIds
  import opened EnvTable
  import EnvSpace
  import opened Syscalls

  // Every slot but e has the record it had.
  predicate OthersKept(envs: seq<Env>, envs': seq<Env>, e: nat) {
    |envs'| == |envs| && forall i :: 0 <= i < |envs| && i != e ==> envs'[i] == envs[i]
  }

  // The fields that tell who an environment is and where its memory is.
  predicate SameIdentity(env: Env, env': Env) {
    env'.id == env.id && env'.parent == env.parent && env'.pgdir == env.pgdir && env'.link == env.link
  }

  predicate SameMessage(env: Env, env': Env) {
    env'.value == env.value && env'.from == env.from && env'.perm == env.perm
  }

  // A space with directory d, and nothing in it yet.
  ghost predicate NewSpace(s: Flat, s': Flat, d: nat) {
    && d !in s.dirs && s'.dirs == s.dirs + {d} && s'.maps == s.maps && s'.tables == s.tables
    && (forall k :: k in s.maps ==> k.0 != d) && (forall k :: k in s.tables ==> k.0 != d)
  }

  // env_alloc: a record that was free becomes an environment that can run, with a new id, the parent
  // it is given, an empty space, no upcall and nothing to receive.
  lemma EnvAllocEffect(k: KState, managed: set<nat>, parent: int)
    requires Good(k, managed)
    ensures k.free != [] ==> k.free[0] < NENV && k.envs[k.free[0]].status == ENV_FREE
    ensures var o := EnvAlloc(k, parent);
            && (o.r == -E_NO_FREE_ENV <==> k.free == []) && (o.r == -E_NO_MEM <==> k.free != [] && k.mem.free == [])
            && (o.r == 0 <==> k.free != [] && k.mem.free != []) && (o.r != 0 ==> o.k == k)
            && (o.r == 0 ==>
                  var e := k.free[0]; var env := o.k.envs[e];
                  && OthersKept(k.envs, o.k.envs, e) && o.k.free == k.free[1..]
                  && IsId(env.id, e) && env.id != k.envs[e].id && env.parent == parent
                  && env.status == ENV_RUNNABLE && env.upcall == 0 && !env.recving
                  && env.pgdir == k.mem.free[0] && NewSpace(k.mem, o.k.mem, env.pgdir))
  {
    EnvAllocOk(k, managed, parent);
    hide Ok, SlotIds, OwnDirs, IsId;
    if k.mem.free != [] { FreshSpace(k.mem, managed); }
  }

  lemma FreshSpace(s: Flat, managed: set<nat>)
    requires Ok(s, managed) && s.free != []
    ensures NewSpace(s, AddDir(Take(s), s.free[0]), s.free[0])
  {
    assert s.free[0] in s.free;
    Named(s, s.free[0]);
  }

  // sys_exofork: the child is a new environment of the caller's that does not run and sees 0
  // where its parent sees the child's id.
  lemma ExoforkEffect(k: KState, managed: set<nat>, cur: nat)
    requires Good(k, managed) && Live(k, cur)
    ensures k.free != [] ==> k.free[0] < NENV && k.envs[k.free[0]].status == ENV_FREE
    ensures var o := Exofork(k, cur);
            && (o.r == -E_NO_FREE_ENV <==> k.free == []) && (o.r == -E_NO_MEM <==> k.free != [] && k.mem.free == [])
            && (o.r > 0 <==> k.free != [] && k.mem.free != []) && (o.r <= 0 ==> o.k == k)
            && (o.r > 0 ==>
                  var e := k.free[0]; var child := o.k.envs[e];
                  && e != cur && OthersKept(k.envs, o.k.envs, e) && o.k.free == k.free[1..]
                  && o.r == child.id && IsId(child.id, e) && child.id != k.envs[e].id
                  && child.parent == k.envs[cur].id && child.eax == 0 && child.status == ENV_NOT_RUNNABLE
                  && child.upcall == 0 && !child.recving
                  && child.pgdir == k.mem.free[0] && NewSpace(k.mem, o.k.mem, child.pgdir))
  {
    EnvAllocEffect(k, managed, k.envs[cur].id);
    hide Ok, FreeSlots, SlotIds, OwnDirs, NewSpace;
  }

  // sys_env_destroy: -E_BAD_ENV, or an environment that runs on another CPU is marked, or the
  // environment is gone with its whole space and its slot is the first to be used again.
  lemma DestroyEffect(k: KState, managed: set<nat>, cur: nat, envid: int)
    requires Good(k, managed) && Live(k, cur)
    ensures var o := Destroy(k, cur, envid); var e := Resolve(k.envs, cur, envid, true);
            && (o.r == -E_BAD_ENV <==> e < 0) && (o.r != 0 ==> o.k == k) && o.r in {0, -E_BAD_ENV}
            && (o.r == 0 ==>
                  && e < NENV && OthersKept(k.envs, o.k.envs, e)
                  && var was, env := k.envs[e], o.k.envs[e];
                     if was.status == ENV_RUNNING && e != cur then
                       && env.status == ENV_DYING && SameIdentity(was, env) && SameMessage(was, env)
                       && env.recving == was.recving && env.upcall == was.upcall && o.k.free == k.free
                       && o.k.mem == k.mem
                     else
                       && env.status == ENV_FREE && env.id == was.id && env.recving == was.recving
                       && o.k.free == [e] + k.free
                       && o.k.mem.dirs == k.mem.dirs - {was.pgdir}
                       && (forall p :: p in o.k.mem.maps <==> p in k.mem.maps && p.0 != was.pgdir)
                       && (forall p :: p in o.k.mem.maps ==> o.k.mem.maps[p] == k.mem.maps[p]))
  {
    hide FreeSlots, SlotIds, OwnDirs;
    ResolveLive(k, cur, envid, true);
    var e := Resolve(k.envs, cur, envid, true);
    if e >= 0 { EnvSpace.FreeEnvEffect(k.mem, managed, k.envs[e].pgdir); }
    hide Ok, EnvSpace.FreeEnv, Resolve;
  }

  // sys_env_set_status: it can only be made RUNNABLE or stopped, and nothing else of it changes.
  lemma StatusEffect(k: KState, cur: nat, envid: int, status: Status)
    requires TableOk(k) && Live(k, cur)
    ensures var o := SetStatus(k, cur, envid, status); var e := Resolve(k.envs, cur, envid, true);
            && (o.r == -E_INVAL <==> status in {ENV_FREE, ENV_DYING, ENV_RUNNING})
            && (o.r == -E_BAD_ENV <==> status in {ENV_RUNNABLE, ENV_NOT_RUNNABLE} && e < 0)
            && o.r in {0, -E_INVAL, -E_BAD_ENV} && (o.r != 0 ==> o.k == k)
            && (o.r == 0 ==>
                  && 0 <= e < NENV && OthersKept(k.envs, o.k.envs, e) && o.k.free == k.free && o.k.mem == k.mem
                  && var was, env := k.envs[e], o.k.envs[e];
                     && env.status == status && SameIdentity(was, env) && SameMessage(was, env)
                     && env.upcall == was.upcall && env.eax == was.eax
                     && env.recving == was.recving && env.dstva == was.dstva)
  {
    hide FreeSlots, SlotIds, OwnDirs;
    ResolveLive(k, cur, envid, true);
    hide Resolve;
  }

  // env_run's two writes: an environment that can run is RUNNING, or waits again, and no other record changes.
  lemma ScheduleEffect(k: KState, e: nat, running: bool)
    requires e < |k.envs|
    ensures var k' := Schedule(k, e, running); var was := k.envs[e];
            && OthersKept(k.envs, k'.envs, e) && k'.free == k.free && k'.mem == k.mem
            && (was.status in {ENV_FREE, ENV_DYING, ENV_NOT_RUNNABLE} ==> k' == k)
            && (was.status in {ENV_RUNNABLE, ENV_RUNNING} ==>
                  && k'.envs[e].status == (if running then ENV_RUNNING else ENV_RUNNABLE)
                  && SameIdentity(was, k'.envs[e]) && SameMessage(was, k'.envs[e]) && k'.envs[e].recving == was.recving)
  {}

  // sys_env_set_pgfault_upcall
  lemma UpcallEffect(k: KState, cur: nat, envid: int, func: nat)
    requires TableOk(k) && Live(k, cur)
    ensures var o := SetUpcall(k, cur, envid, func); var e := Resolve(k.envs, cur, envid, true);
            && (o.r == -E_BAD_ENV <==> e < 0) && o.r in {0, -E_BAD_ENV} && (o.r != 0 ==> o.k == k)
            && (o.r == 0 ==>
                  && 0 <= e < NENV && OthersKept(k.envs, o.k.envs, e) && o.k.free == k.free && o.k.mem == k.mem
                  && var was, env := k.envs[e], o.k.envs[e];
                     && env.upcall == func && SameIdentity(was, env) && SameMessage(was, env)
                     && env.status == was.status
                     && env.eax == was.eax && env.recving == was.recving && env.dstva == was.dstva)
  {
    hide FreeSlots, SlotIds, OwnDirs;
    ResolveLive(k, cur, envid, true);
    hide Resolve;
  }

  // sys_ipc_recv, before it yields: the page asked for is the one recorded, and none is if the
  // address is no user address.
  lemma RecvEffect(k: KState, cur: nat, dstva: nat)
    requires TableOk(k) && Live(k, cur)
    ensures var o := Recv(k, cur, dstva);
            && (o.r == -E_INVAL <==> dstva < UTOP && dstva % PGSIZE != 0) && o.r in {0, -E_INVAL}
            && (o.r != 0 ==> o.k == k)
            && (o.r == 0 ==>
                  && OthersKept(k.envs, o.k.envs, cur) && o.k.free == k.free && o.k.mem == k.mem
                  && var was, env := k.envs[cur], o.k.envs[cur];
                     && (dstva < UTOP ==> env.dstva == dstva) && (dstva >= UTOP ==> env.dstva >= UTOP)
                     && env.recving && env.status == ENV_NOT_RUNNABLE
                     && SameIdentity(was, env) && SameMessage(was, env) && env.upcall == was.upcall)
  {
    hide FreeSlots, SlotIds, OwnDirs;
  }

  // -------------------------------------------------------------------- protection

  // v is none of the caller's business: it is neither the caller nor its child.
  predicate Stranger(envs: seq<Env>, cur: nat, v: nat)
    requires v < |envs|
  {
    v != cur && (cur < |envs| ==> envs[v].parent != envs[cur].id)
  }

  // The call is not made by v or its parent, and does not send to v.
  ghost predicate Foreign(k: KState, call: Call, v: nat) {
    |k.envs| == NENV && v < NENV &&
    match call
    case CallEnvCreate => true
    case CallSchedule(e, _) => e != v
    case CallEnvFree(e) => e != v
    case CallTrySend(cur, envid, _, _, _) => v != cur && (cur < NENV ==> Resolve(k.envs, cur, envid, false) != v)
    case CallExofork(cur) => true
    case CallRecv(cur, _) => v != cur
    case _ => Stranger(k.envs, call.cur, v)
  }

  // v's record and everything mapped in its space.
  ghost predicate Intact(k: KState, k': KState, v: nat)
    requires v < |k.envs|
  {
    && v < |k'.envs| && k'.envs[v] == k.envs[v]
    && MapsIntact(k.mem.maps, k'.mem.maps, k.envs[v].pgdir)
  }

  ghost predicate MapsIntact(maps: map<Slot, Pte>, maps': map<Slot, Pte>, d: nat) {
    forall p: Slot :: p.0 == d ==> (p in maps <==> p in maps') && (p in maps ==> maps'[p] == maps[p])
  }

  // The permission check keeps every checked call of a stranger away from v.
  lemma StrangerUnnamed(k: KState, cur: nat, envid: int, v: nat)
    requires TableOk(k) && Live(k, cur) && v < NENV && Live(k, v) && Stranger(k.envs, cur, v)
    ensures var e := Resolve(k.envs, cur, envid, true);
            && e != v
            && (e >= 0 ==>
                  e < NENV && Live(k, e) && k.envs[e].pgdir in k.mem.dirs && k.envs[e].pgdir != k.envs[v].pgdir)
  {
    ResolveLive(k, cur, envid, true);
    ResolveChecked(k, cur, envid, v);
    var e := Resolve(k.envs, cur, envid, true);
    if e >= 0 { OtherDir(k, e, v); }
  }

  lemma OtherDir(k: KState, e: nat, v: nat)
    requires TableOk(k) && Live(k, e) && Live(k, v) && e != v
    ensures k.envs[e].pgdir != k.envs[v].pgdir
  {}

  lemma InsertElsewhere(s: Flat, managed: set<nat>, at: Slot, f: nat, perm: nat, d: nat)
    requires Ok(s, managed) && Mappable(s, f) && at.0 in s.dirs && at.1 < UPAGES_TOTAL && at.0 != d
    requires Insert(s, at, f, perm).Done?
    ensures MapsIntact(s.maps, Insert(s, at, f, perm).s.maps, d)
  {
    EnvSpace.InsertOk(s, managed, at, f, perm);
  }

  lemma SameIntact(maps: map<Slot, Pte>, d: nat)
    ensures MapsIntact(maps, maps, d)
  {}

  lemma AllocProtected(k: KState, managed: set<nat>, cur: nat, envid: int, va: nat, perm: nat, v: nat)
    requires Good(k, managed) && v < NENV && Live(k, v) && Live(k, cur) && Stranger(k.envs, cur, v)
    ensures Intact(k, PageAlloc(k, cur, envid, va, perm).k, v)
  {
    hide Ok, FreeSlots, SlotIds, OwnDirs, Insert, Resolve, MapsIntact;
    StrangerUnnamed(k, cur, envid, v);
    SameIntact(k.mem.maps, k.envs[v].pgdir);
    var e := Resolve(k.envs, cur, envid, true);
    if e >= 0 && !VaBad(va) && k.mem.free != [] {
      var at, t := (k.envs[e].pgdir, PageOf(va)), Take(k.mem);
      TakenMappable(k.mem, managed);
      if Insert(t, at, k.mem.free[0], perm).Done? {
        InsertElsewhere(t, managed, at, k.mem.free[0], perm, k.envs[v].pgdir);
      }
    }
  }

  lemma TakenMappable(s: Flat, managed: set<nat>)
    requires Ok(s, managed) && s.free != []
    ensures Ok(Take(s), managed) && Mappable(Take(s), s.free[0])
  {
    TakeOk(s, managed);
  }

  lemma MapProtected(k: KState, managed: set<nat>, call: Call, v: nat)
    requires Good(k, managed) && v < NENV && Live(k, v) && call.CallPageMap? && Live(k, call.cur)
    requires Stranger(k.envs, call.cur, v)
    ensures Intact(k, PageMap(k, call.cur, call.srcid, call.srcva, call.dstid, call.dstva, call.perm).k, v)
  {
    hide Ok, FreeSlots, SlotIds, OwnDirs, Insert, Resolve, MapsIntact;
    StrangerUnnamed(k, call.cur, call.dstid, v);
    SameIntact(k.mem.maps, k.envs[v].pgdir);
    var s, d := Resolve(k.envs, call.cur, call.srcid, true), Resolve(k.envs, call.cur, call.dstid, true);
    ResolveLive(k, call.cur, call.srcid, true);
    if s >= 0 && d >= 0 && !VaBad(call.dstva) {
      var from, at := (k.envs[s].pgdir, PageOf(call.srcva)), (k.envs[d].pgdir, PageOf(call.dstva));
      if from in k.mem.maps {
        MappedMappable(k.mem, from);
        if Insert(k.mem, at, k.mem.maps[from].frame, call.perm).Done? {
          InsertElsewhere(k.mem, managed, at, k.mem.maps[from].frame, call.perm, k.envs[v].pgdir);
        }
      }
    }
  }

  lemma UnmapProtected(k: KState, cur: nat, envid: int, va: nat, v: nat)
    requires TableOk(k) && v < NENV && Live(k, v) && Live(k, cur) && Stranger(k.envs, cur, v)
    ensures Intact(k, PageUnmap(k, cur, envid, va).k, v)
  {
    hide FreeSlots, SlotIds, OwnDirs, Resolve, Remove;
    StrangerUnnamed(k, cur, envid, v);
    var e := Resolve(k.envs, cur, envid, true);
    if e >= 0 { EnvSpace.RemoveMaps(k.mem, (k.envs[e].pgdir, PageOf(va))); }
  }

  lemma SendProtected(k: KState, managed: set<nat>, call: Call, v: nat)
    requires Good(k, managed) && v < NENV && Live(k, v) && call.CallTrySend? && Live(k, call.cur) && Foreign(k, call, v)
    ensures Intact(k, TrySend(k, call.cur, call.envid, call.value, call.srcva, call.perm).k, v)
  {
    SameIntact(k.mem.maps, k.envs[v].pgdir);
    ResolveLive(k, call.cur, call.envid, false);
    var t := Resolve(k.envs, call.cur, call.envid, false);
    var from := (k.envs[call.cur].pgdir, PageOf(call.srcva));
    if t >= 0 {
      OtherDir(k, t, v);
      hide Ok, FreeSlots, SlotIds, OwnDirs, Insert, Resolve, MapsIntact, Mappable;
      if k.envs[t].dstva < UTOP && from in k.mem.maps {
        MappedMappable(k.mem, from);
        CopyElsewhere(k.mem, managed, (k.envs[t].pgdir, PageOf(k.envs[t].dstva)), k.mem.maps[from].frame, call.perm,
                      k.envs[v].pgdir);
      }
    }
  }

  lemma CopyElsewhere(s: Flat, managed: set<nat>, at: Slot, f: nat, perm: nat, d: nat)
    requires Ok(s, managed) && Mappable(s, f) && at.0 in s.dirs && at.1 < UPAGES_TOTAL && at.0 != d
    ensures Insert(s, at, f, perm).Done? ==> MapsIntact(s.maps, Insert(s, at, f, perm).s.maps, d)
  {
    hide Ok, Mappable, Insert;
    if Insert(s, at, f, perm).Done? { InsertElsewhere(s, managed, at, f, perm, d); }
  }

  lemma ReleaseProtected(k: KState, managed: set<nat>, e: nat, v: nat)
    requires Good(k, managed) && v < NENV && Live(k, v) && Live(k, e) && e != v
    ensures Intact(k, ReleaseEnv(k, e), v)
  {
    OtherDir(k, e, v);
    EnvSpace.FreeEnvEffect(k.mem, managed, k.envs[e].pgdir);
    hide Ok, FreeSlots, SlotIds, OwnDirs, EnvSpace.FreeEnv;
  }

  lemma DestroyProtected(k: KState, managed: set<nat>, cur: nat, envid: int, v: nat)
    requires Good(k, managed) && v < NENV && Live(k, v) && Live(k, cur) && Stranger(k.envs, cur, v)
    ensures Intact(k, Destroy(k, cur, envid).k, v)
  {
    StrangerUnnamed(k, cur, envid, v);
    hide Ok, FreeSlots, SlotIds, OwnDirs, Resolve, ReleaseEnv;
    var e := Resolve(k.envs, cur, envid, true);
    if e >= 0 { ReleaseProtected(k, managed, e, v); }
  }

  // The calls that write one record.
  lemma RecordProtected(k: KState, call: Call, v: nat)
    requires TableOk(k) && v < NENV && Live(k, v) && Foreign(k, call, v)
    requires call.CallSetStatus? || call.CallSetUpcall? || call.CallRecv? || call.CallSchedule?
    requires Live(k, call.cur)
    ensures Intact(k, Do(k, call), v)
  {
    if call.CallSetStatus? || call.CallSetUpcall? { StrangerUnnamed(k, call.cur, call.envid, v); }
    hide FreeSlots, SlotIds, OwnDirs, Resolve;
  }

  lemma NewProtected(k: KState, managed: set<nat>, call: Call, v: nat)
    requires Good(k, managed) && v < NENV && Live(k, v)
    requires call.CallEnvCreate? || (call.CallExofork? && Live(k, call.cur))
    ensures Intact(k, Do(k, call), v)
  {
    EnvAllocEffect(k, managed, 0);
    if call.CallExofork? { ExoforkEffect(k, managed, call.cur); }
    hide Ok, FreeSlots, SlotIds, OwnDirs, EnvAlloc, Exofork;
  }

  // Whatever call others make, the record of a live environment and all its mappings stay as they
  // are, unless the caller is its parent or the call is a send to it.
  lemma Protected(k: KState, managed: set<nat>, call: Call, v: nat)
    requires Good(k, managed) && v < NENV && Live(k, v) && Foreign(k, call, v)
    ensures Intact(k, Do(k, call), v)
  {
    SameIntact(k.mem.maps, k.envs[v].pgdir);
    if call.CallEnvCreate? || Live(k, call.cur) {
      match call {
        case CallEnvCreate => NewProtected(k, managed, call, v);
        case CallExofork(_) => NewProtected(k, managed, call, v);
        case CallPageAlloc(cur, envid, va, perm) => AllocProtected(k, managed, cur, envid, va, perm, v);
        case CallPageMap(_, _, _, _, _, _) => MapProtected(k, managed, call, v);
        case CallPageUnmap(cur, envid, va) => UnmapProtected(k, cur, envid, va, v);
        case CallTrySend(_, _, _, _, _) => SendProtected(k, managed, call, v);
        case CallDestroy(cur, envid) => DestroyProtected(k, managed, cur, envid, v);
        case CallEnvFree(e) => ReleaseProtected(k, managed, e, v);
        case _ => RecordProtected(k, call, v);
      }
    }
  }

  ghost predicate ForeignRun(states: seq<KState>, calls: seq<Call>, v: nat) {
    |states| == |calls| + 1 && forall i :: 0 <= i < |calls| ==> Foreign(states[i], calls[i], v)
  }

  // And so over every run: only itself, its parent and senders it lets in can touch an environment.
  lemma {:induction false} Isolated(managed: set<nat>, states: seq<KState>, calls: seq<Call>, v: nat, n: nat)
    requires IsRun(states, calls) && Good(states[0], managed) && n < |states|
    requires ForeignRun(states, calls, v) && v < NENV && Live(states[0], v)
    ensures Good(states[n], managed) && |states[0].envs| == NENV && Intact(states[0], states[n], v)
  {
    hide Ok, FreeSlots, SlotIds, OwnDirs, Foreign, Do;
    if n > 0 {
      Isolated(managed, states, calls, v, n - 1);
      DoGood(states[n - 1], managed, calls[n - 1]);
      Protected(states[n - 1], managed, calls[n - 1], v);
    } else {
      SameIntact(states[0].mem.maps, states[0].envs[v].pgdir);
    }
  }
}
