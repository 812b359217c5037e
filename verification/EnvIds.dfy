// Environment ids, kern/env.c and inc/env.h: a 32-bit value, the slot in its low ten bits and
// a generation above them.
module EnvIds {
  import opened Basics

  const NENV := 1024
  const STEP := 4096              // 1 << ENVGENSHIFT
  const PERIOD := 0x7_FFFF        // 2^19 - 1

  // ENVX(envid), also right for negative ids.
  function Envx(envid: int): nat {
    envid % NENV
  }

  // The id env_alloc gives to a slot whose last id was `id` (0 if it never had one).
  function NextId(id: int, slot: nat): int {
    var shifted := Wrap(id + STEP);
    var generation := shifted - shifted % NENV;
    (if generation <= 0 then STEP else generation) + slot
  }

  // An id of the slot: a generation from 1 to PERIOD above the slot number.
  predicate IsId(id: int, slot: nat) {
    slot < NENV && STEP <= id < 0x8000_0000 && id % STEP == slot
  }

  // The id after n allocations of a slot.
  function NthId(slot: nat, n: nat): int {
    if n == 0 then 0 else NextId(NthId(slot, n - 1), slot)
  }

  lemma NextIdIs(slot: nat, g: nat)
    requires slot < NENV && g <= PERIOD
    ensures NextId(if g == 0 then 0 else g * STEP + slot, slot) == (if g == PERIOD then 1 else g + 1) * STEP + slot
  {}

  lemma NextIdKeeps(id: int, slot: nat)
    requires slot < NENV && (id == 0 || IsId(id, slot))
    ensures IsId(NextId(id, slot), slot) && NextId(id, slot) != id
    ensures 0 < NextId(id, slot) < 0x8000_0000 && Envx(NextId(id, slot)) == slot
  {
    if id == 0 {
      NextIdIs(slot, 0);
    } else {
      var g := id / STEP;
      assert id == g * STEP + slot;
      NextIdIs(slot, g);
    }
  }

  lemma {:induction false} NthIdIs(slot: nat, n: nat)
    requires slot < NENV && n >= 1
    ensures NthId(slot, n) == ((n - 1) % PERIOD + 1) * STEP + slot
  {
    if n == 1 {
      NextIdIs(slot, 0);
    } else {
      NthIdIs(slot, n - 1);
      NextIdIs(slot, (n - 2) % PERIOD + 1);
      assert (n - 1) % PERIOD == if (n - 2) % PERIOD == PERIOD - 1 then 0 else (n - 2) % PERIOD + 1;
    }
  }

  lemma ModDifference(a: nat, b: nat)
    requires a <= b
    ensures a % PERIOD == b % PERIOD <==> (b - a) % PERIOD == 0
  {
    var k := b / PERIOD - a / PERIOD - (b - a) / PERIOD;
    assert PERIOD * k == (b - a) % PERIOD - b % PERIOD + a % PERIOD;
    assert -1 <= k <= 1;
  }

  // A stale id of the slot becomes current again after 2^19 - 1 further allocations, and not before.
  lemma IdPeriod(slot: nat, n: nat, later: nat)
    requires slot < NENV && n >= 1
    ensures NthId(slot, n + later) == NthId(slot, n) <==> later % PERIOD == 0
  {
    NthIdIs(slot, n);
    NthIdIs(slot, n + later);
    ModDifference(n - 1, n - 1 + later);
  }

  // The low ten bits of an id are its slot, so ids of two slots differ.
  lemma IdSlot(id: int, slot: nat)
    requires IsId(id, slot)
    ensures Envx(id) == slot
  {
    assert id == NENV * (4 * (id / STEP)) + slot;
  }
}
