// struct Env, the table of environments and what the system calls of kern/syscall.c do to it
// and to the flat memory: the specification the Kernel class is proved against.
module EnvTable {
  import opened Mmu
  import opened FlatMemory
  import opened EnvIds
  import opened EnvSpace

  const E_BAD_ENV := 2
  const E_INVAL := 3
  const E_NO_MEM := 4
  const E_NO_FREE_ENV := 5
  const E_IPC_NOT_RECV := 8

  datatype Status = ENV_FREE | ENV_DYING | ENV_RUNNABLE | ENV_RUNNING | ENV_NOT_RUNNABLE

  // eax stands for the saved register in which a system call returns its result.
  datatype Env = Env(id: int, parent: int, status: Status, link: int, pgdir: nat, upcall: nat, eax: int,
                     recving: bool, dstva: nat, value: nat, from: int, perm: nat)

  // The table, the free list from its head, and memory.
  datatype KState = KState(envs: seq<Env>, free: seq<nat>, mem: Flat)

  // -------------------------------------------------------------------- invariant

  ghost predicate EnvLinked(envs: seq<Env>, free: seq<nat>, i: nat)
    requires i < |free|
  {
    free[i] < |envs| && envs[free[i]].link == if i + 1 < |free| then free[i + 1] else NULL
  }

  ghost predicate EnvChain(envs: seq<Env>, head: int, free: seq<nat>) {
    && head == (if free == [] then NULL else free[0])
    && (forall i :: 0 <= i < |free| ==> EnvLinked(envs, free, i))
  }

  // A slot is on the free list exactly when its status is FREE.
  ghost predicate FreeSlots(envs: seq<Env>, free: seq<nat>) {
    && NoDup(free)
    && (forall e :: e in free ==> e < |envs|)
    && (forall e :: 0 <= e < |envs| ==> (e in free <==> envs[e].status == ENV_FREE))
  }

  // The id of a slot is 0 until its first use; a live environment has a proper one.
  ghost predicate SlotIds(envs: seq<Env>) {
    forall e :: 0 <= e < |envs| ==>
      IsId(envs[e].id, e) || (envs[e].id == 0 && envs[e].status == ENV_FREE)
  }

  // The page directories are those of the live environments, one each.
  ghost predicate OwnDirs(envs: seq<Env>, dirs: set<nat>) {
    && (forall e :: 0 <= e < |envs| && envs[e].status != ENV_FREE ==> envs[e].pgdir in dirs)
    && (forall e, e' :: 0 <= e < e' < |envs| && envs[e].status != ENV_FREE && envs[e'].status != ENV_FREE
          ==> envs[e].pgdir != envs[e'].pgdir)
    && (forall d :: d in dirs ==> exists e :: 0 <= e < |envs| && envs[e].status != ENV_FREE && envs[e].pgdir == d)
  }

  ghost predicate TableOk(k: KState) {
    && |k.envs| == NENV
    && FreeSlots(k.envs, k.free) && SlotIds(k.envs) && OwnDirs(k.envs, k.mem.dirs)
  }

  predicate Live(k: KState, e: nat) {
    e < |k.envs| && k.envs[e].status != ENV_FREE
  }

  // ------------------------------------------------------------------- envid2env

  // The slot an envid names for the environment in slot cur, or -1 for -E_BAD_ENV.
  function Resolve(envs: seq<Env>, cur: nat, envid: int, check: bool): int
    requires |envs| == NENV && cur < NENV
  {
    var e := Envx(envid);
    if envid == 0 then cur
    else if envs[e].status == ENV_FREE || envs[e].id != envid then -1
    else if check && e != cur && envs[e].parent != envs[cur].id then -1
    else e
  }

  // An id names at most one live environment, and that one answers to it.
  lemma ResolveExact(k: KState, cur: nat, envid: int, e: nat)
    requires TableOk(k) && Live(k, cur) && e < NENV && envid != 0
    ensures Resolve(k.envs, cur, envid, false) == e <==> Live(k, e) && k.envs[e].id == envid
  {
    if Live(k, e) && k.envs[e].id == envid { IdSlot(envid, e); }
  }

  // With the permission check, the environment itself and its children are all it can name.
  lemma ResolveChecked(k: KState, cur: nat, envid: int, e: nat)
    requires TableOk(k) && Live(k, cur) && e < NENV
    ensures Resolve(k.envs, cur, envid, true) == e <==>
            || (envid == 0 && e == cur)
            || (envid != 0 && k.envs[e].status != ENV_FREE && k.envs[e].id == envid
                && (e == cur || k.envs[e].parent == k.envs[cur].id))
    ensures Resolve(k.envs, cur, envid, true) >= -1 && Resolve(k.envs, cur, 0, false) == cur
  {
    if k.envs[e].status != ENV_FREE && k.envs[e].id == envid { IdSlot(envid, e); }
  }

  lemma LiveIdsDistinct(k: KState, e: nat, e': nat)
    requires TableOk(k) && Live(k, e) && Live(k, e') && k.envs[e].id == k.envs[e'].id
    ensures e == e'
  {
    IdSlot(k.envs[e].id, e);
    IdSlot(k.envs[e].id, e');
  }

  // --------------------------------------------------------- env_alloc and env_free

  datatype Outcome = Outcome(k: KState, r: int)

  // The record env_alloc leaves: a running start, no upcall, not receiving.
  function NewEnv(was: Env, slot: nat, parent: int, pgdir: nat): Env {
    was.(id := NextId(was.id, slot), parent := parent, status := ENV_RUNNABLE, pgdir := pgdir,
         upcall := 0, eax := 0, recving := false)
  }

  // r is 0 on success, with the new environment in slot k.free[0].
  function EnvAlloc(k: KState, parent: int): Outcome
    requires k.free != [] ==> k.free[0] < |k.envs|
  {
    if k.free == [] then Outcome(k, -E_NO_FREE_ENV)
    else if k.mem.free == [] then Outcome(k, -E_NO_MEM)
    else
      var e, d := k.free[0], k.mem.free[0];
      Outcome(KState(k.envs[e := NewEnv(k.envs[e], e, parent, d)], k.free[1..], AddDir(Take(k.mem), d)), 0)
  }

  lemma EnvAllocOk(k: KState, managed: set<nat>, parent: int)
    requires TableOk(k) && Ok(k.mem, managed)
    ensures k.free != [] ==> k.free[0] in k.free && k.free[0] < |k.envs|
    ensures var o := EnvAlloc(k, parent);
            && TableOk(o.k) && Ok(o.k.mem, managed)
            && (o.r == 0 ==> k.free != [] && Live(o.k, k.free[0]) && !Live(k, k.free[0])
                             && IsId(o.k.envs[k.free[0]].id, k.free[0])
                             && o.k.envs[k.free[0]].id != k.envs[k.free[0]].id)
            && (o.r != 0 ==> o.k == k)
  {
    hide Ok;
    if k.free != [] { assert k.free[0] in k.free; }
    var o := EnvAlloc(k, parent);
    if o.r == 0 {
      var e, d := k.free[0], k.mem.free[0];
      assert e in k.free;
      NextIdKeeps(k.envs[e].id, e);
      TakeOk(k.mem, managed);
      AddDirOk(Take(k.mem), managed, d);
      Named(k.mem, d);
      assert FreeSlots(o.k.envs, o.k.free) by { PopSlot(k.envs, k.free, o.k.envs[e]); }
      NewOwner(k.envs, e, k.mem.dirs, d, o.k.envs[e]);
    }
  }

  lemma PopSlot(envs: seq<Env>, free: seq<nat>, env: Env)
    requires FreeSlots(envs, free) && free != [] && env.status != ENV_FREE
    ensures free[0] < |envs| && FreeSlots(envs[free[0] := env], free[1..])
  {
    assert free[0] in free;
    assert forall e :: e in free[1..] ==> e in free;
    assert forall e :: e in free ==> e == free[0] || e in free[1..];
  }

  lemma NewOwner(envs: seq<Env>, e: nat, dirs: set<nat>, d: nat, env: Env)
    requires OwnDirs(envs, dirs) && e < |envs| && envs[e].status == ENV_FREE && d !in dirs
    requires env.status != ENV_FREE && env.pgdir == d
    ensures OwnDirs(envs[e := env], dirs + {d})
  {
    var envs' := envs[e := env];
    forall c | c in dirs + {d}
      ensures exists i :: 0 <= i < |envs'| && envs'[i].status != ENV_FREE && envs'[i].pgdir == c
    {
      if c == d {
        assert envs'[e].pgdir == d;
      } else {
        var i :| 0 <= i < |envs| && envs[i].status != ENV_FREE && envs[i].pgdir == c;
        assert envs'[i] == envs[i];
      }
    }
  }

  // env_free: the address space is taken apart and the slot goes to the head of the free list.
  function ReleaseEnv(k: KState, e: nat): KState
    requires e < |k.envs|
  {
    var link := if k.free == [] then NULL else k.free[0];
    KState(k.envs[e := k.envs[e].(status := ENV_FREE, link := link, pgdir := 0)], [e] + k.free,
           FreeEnv(k.mem, k.envs[e].pgdir))
  }

  lemma ReleaseEnvOk(k: KState, managed: set<nat>, e: nat)
    requires TableOk(k) && Ok(k.mem, managed) && Live(k, e)
    ensures TableOk(ReleaseEnv(k, e)) && Ok(ReleaseEnv(k, e).mem, managed) && ReleaseEnv(k, e).mem.held == k.mem.held
  {
    hide Ok;
    FreeEnvEffect(k.mem, managed, k.envs[e].pgdir);
    OneOwnerLess(k.envs, e, k.mem.dirs, ReleaseEnv(k, e).envs[e]);
  }

  lemma OneOwnerLess(envs: seq<Env>, e: nat, dirs: set<nat>, env: Env)
    requires OwnDirs(envs, dirs) && e < |envs| && envs[e].status != ENV_FREE && env.status == ENV_FREE
    ensures OwnDirs(envs[e := env], dirs - {envs[e].pgdir})
  {
    var envs', d := envs[e := env], envs[e].pgdir;
    forall c | c in dirs - {d}
      ensures exists i :: 0 <= i < |envs'| && envs'[i].status != ENV_FREE && envs'[i].pgdir == c
    {
      var i :| 0 <= i < |envs| && envs[i].status != ENV_FREE && envs[i].pgdir == c;
      assert envs'[i] == envs[i];
    }
    forall i | 0 <= i < |envs'| && envs'[i].status != ENV_FREE ensures envs'[i].pgdir in dirs - {d} {
      assert envs'[i] == envs[i] && i != e;
    }
  }
}
