// user/primes.c: the generator, the chain of filters and the one-place channels between them,
// as a step system; in every run the values that reach the stages first are the primes.
module Sieve {

  // ----------------------------------------------------------------- number theory

  predicate Divides(d: int, v: int)
    requires d > 0
  {
    v % d == 0
  }

  predicate Prime(v: int) {
    v >= 2 && forall d :: 2 <= d < v ==> !Divides(d, v)
  }

  // No entry of ps divides v.
  predicate Survives(ps: seq<int>, v: int)
    requires forall i :: 0 <= i < |ps| ==> ps[i] > 0
  {
    forall i :: 0 <= i < |ps| ==> !Divides(ps[i], v)
  }

  // ps are the primes up to its last entry, in increasing order.
  ghost predicate FirstPrimes(ps: seq<int>) {
    && (forall i :: 0 <= i < |ps| ==> Prime(ps[i]))
    && (forall i, j :: 0 <= i < j < |ps| ==> ps[i] < ps[j])
    && (forall q :: Prime(q) && ps != [] && q <= ps[|ps| - 1] ==> q in ps)
  }

  // v is the least number from 2 up that no entry of ps divides.
  ghost predicate Least(ps: seq<int>, v: int)
    requires forall i :: 0 <= i < |ps| ==> ps[i] > 0
  {
    v >= 2 && Survives(ps, v) && forall u :: 2 <= u < v ==> !Survives(ps, u)
  }

  lemma DividesTrans(a: int, b: int, c: int)
    requires a > 0 && b > 0 && Divides(a, b) && Divides(b, c)
    ensures Divides(a, c)
  {
    var k, l := b / a, c / b;
    assert c == (a * k) * l == a * (k * l);
    Multiple(a, k * l);
  }

  lemma Multiple(a: int, k: int)
    requires a > 0
    ensures Divides(a, a * k)
  {
    var q, r := a * k / a, a * k % a;
    assert a * k == a * q + r;
    Remainder(a, k - q, r);
  }

  lemma Remainder(a: int, m: int, r: int)
    requires 0 <= r < a && a * m == r
    ensures r == 0
  {}

  lemma PrimeDivisor(d: int, q: int)
    requires d >= 2 && q >= 2 && Divides(d, q) && Prime(q)
    ensures d == q
  {}

  // Every number from 2 below the least survivor has a divisor in ps.
  lemma Struck(ps: seq<int>, v: int, u: int) returns (i: nat)
    requires FirstPrimes(ps) && Least(ps, v) && 2 <= u < v
    ensures i < |ps| && ps[i] >= 2 && Divides(ps[i], u)
  {
    assert !Survives(ps, u);
    i :| 0 <= i < |ps| && Divides(ps[i], u);
  }

  // The least survivor of the first primes is a prime,
  lemma LeastIsPrime(ps: seq<int>, v: int)
    requires FirstPrimes(ps) && Least(ps, v)
    ensures Prime(v)
  {
    hide Divides;
    forall d | 2 <= d < v ensures !Divides(d, v) {
      var i := Struck(ps, v, d);
      if Divides(d, v) { DividesTrans(ps[i], d, v); }
    }
  }

  // beyond all of them,
  lemma LeastIsAbove(ps: seq<int>, v: int, i: nat)
    requires FirstPrimes(ps) && Least(ps, v) && i < |ps|
    ensures ps[i] < v
  {
    LeastIsPrime(ps, v);
    assert v !in ps;
  }

  // and the next one.
  lemma NextPrime(ps: seq<int>, v: int)
    requires FirstPrimes(ps) && Least(ps, v)
    ensures FirstPrimes(ps + [v])
  {
    LeastIsPrime(ps, v);
    forall i | 0 <= i < |ps| ensures ps[i] < v { LeastIsAbove(ps, v, i); }
    hide Divides;
    forall q | Prime(q) && q <= v ensures q in ps + [v] {
      if q < v {
        var i := Struck(ps, v, q);
        PrimeDivisor(ps[i], q);
        assert (ps + [v])[i] == q;
      } else {
        assert (ps + [v])[|ps|] == q;
      }
    }
  }

  // --------------------------------------------------------------------- streams

  predicate AllPositive(ps: seq<int>) {
    forall i :: 0 <= i < |ps| ==> ps[i] >= 2
  }

  // The numbers from 2 to n that no entry of ps divides, in increasing order.
  function Stream(ps: seq<int>, n: int): seq<int>
    requires AllPositive(ps)
  {
    if n < 2 then [] else Stream(ps, n - 1) + if Survives(ps, n) then [n] else []
  }

  // What a stage with prime p forwards of xs.
  function Filter(xs: seq<int>, p: int): seq<int>
    requires p > 0
  {
    if xs == [] then []
    else
      var v := xs[|xs| - 1];
      Filter(xs[..|xs| - 1], p) + if v % p != 0 then [v] else []
  }

  lemma FilterPush(xs: seq<int>, v: int, p: int)
    requires p > 0
    ensures Filter(xs + [v], p) == Filter(xs, p) + if v % p != 0 then [v] else []
  {
    assert (xs + [v])[..|xs|] == xs;
  }

  lemma SurvivesMore(ps: seq<int>, p: int, v: int)
    requires AllPositive(ps) && p >= 2
    ensures Survives(ps + [p], v) <==> Survives(ps, v) && !Divides(p, v)
  {
    if Survives(ps + [p], v) {
      forall i | 0 <= i < |ps| ensures !Divides(ps[i], v) { assert (ps + [p])[i] == ps[i]; }
      assert (ps + [p])[|ps|] == p;
    }
  }

  // Filtering the survivors of ps by p leaves the survivors of ps and p.
  lemma {:induction false} FilterStream(ps: seq<int>, p: int, n: int)
    requires AllPositive(ps) && p >= 2
    ensures Filter(Stream(ps, n), p) == Stream(ps + [p], n)
  {
    if n >= 2 {
      FilterStream(ps, p, n - 1);
      SurvivesMore(ps, p, n);
      assert Divides(p, n) <==> n % p == 0;
      hide Survives, Divides, Filter;
      var xs := Stream(ps, n - 1);
      if Survives(ps, n) {
        FilterPush(xs, n, p);
        assert Stream(ps, n) == xs + [n];
      } else {
        assert Stream(ps, n) == xs;
      }
    }
  }

  lemma {:induction false} FilterPrefix(xs: seq<int>, ys: seq<int>, p: int)
    requires p > 0 && xs <= ys
    ensures Filter(xs, p) <= Filter(ys, p)
  {
    if xs == ys {
    } else {
      var rest := ys[..|ys| - 1];
      assert xs <= rest;
      FilterPrefix(xs, rest, p);
    }
  }

  // The stream starts with the least survivor.
  lemma {:induction false} StreamHead(ps: seq<int>, n: int)
    requires AllPositive(ps)
    ensures Stream(ps, n) != [] ==> Least(ps, Stream(ps, n)[0])
    ensures Stream(ps, n) == [] ==> forall u :: 2 <= u <= n ==> !Survives(ps, u)
  {
    if n >= 2 { StreamHead(ps, n - 1); }
  }

  // ------------------------------------------------------------------- the pipeline

  // One process of the chain.  p: its prime (0 before it has one); hand: the value ipc_send is
  // trying to pass on; waiting: blocked in ipc_recv; slot: a value delivered and not yet returned.
  // got and sent are the values received and passed on so far.
  datatype Stage = Stage(p: int, hand: seq<int>, waiting: bool, slot: seq<int>, got: seq<int>, sent: seq<int>)

  // next: the integer the generator sends next.
  datatype Chain = Chain(next: int, stages: seq<Stage>, printed: seq<int>)

  const NEWBORN := Stage(0, [], false, [], [], [])

  datatype Step = Feed | Ask(k: nat) | Pass(k: nat) | Take(k: nat) | ForkNext

  predicate Enabled(s: Chain, step: Step) {
    match step
    case Feed => s.stages != [] && s.stages[0].waiting
    case Ask(k) =>
      k < |s.stages| && !s.stages[k].waiting && s.stages[k].slot == [] && s.stages[k].hand == []
      && (s.stages[k].p == 0 || k + 1 < |s.stages|)
    case Pass(k) => k + 1 < |s.stages| && |s.stages[k].hand| == 1 && s.stages[k + 1].waiting
    case Take(k) => k < |s.stages| && |s.stages[k].slot| == 1
    case ForkNext => s.stages != [] && s.stages[|s.stages| - 1].p != 0
  }

  function Deliver(st: Stage, v: int): Stage { st.(waiting := false, slot := [v]) }

  // ipc_recv returns v to the top of primeproc or to its filter loop.
  function Return(st: Stage, v: int): Stage {
    var st' := st.(slot := [], got := st.got + [v]);
    if st.p == 0 then st'.(p := v)
    else if v % st.p != 0 then st'.(hand := [v])
    else st'
  }

  function Next(s: Chain, step: Step): Chain
    requires Enabled(s, step)
  {
    match step
    case Feed => s.(next := s.next + 1, stages := s.stages[0 := Deliver(s.stages[0], s.next)])
    case Ask(k) => s.(stages := s.stages[k := s.stages[k].(waiting := true)])
    case Pass(k) =>
      var v := s.stages[k].hand[0];
      var from := s.stages[k].(hand := [], sent := s.stages[k].sent + [v]);
      s.(stages := s.stages[k := from][k + 1 := Deliver(s.stages[k + 1], v)])
    case Take(k) =>
      var v := s.stages[k].slot[0];
      s.(stages := s.stages[k := Return(s.stages[k], v)],
         printed := if s.stages[k].p == 0 then s.printed + [v] else s.printed)
    case ForkNext => s.(stages := s.stages + [NEWBORN])
  }

  // ------------------------------------------------------------------ the invariant

  predicate StageOk(st: Stage) {
    && AllPositive(st.got) && AllPositive(st.slot) && AllPositive(st.hand) && AllPositive(st.sent)
    && |st.slot| <= 1 && |st.hand| <= 1
    && (st.waiting ==> st.slot == [] && st.hand == []) && (st.slot != [] ==> st.hand == [])
    && if st.p == 0 then st.got == [] && st.sent == [] && st.hand == []
       else st.got != [] && st.p == st.got[0] && st.sent + st.hand == Filter(st.got, st.p)
  }

  // Everything passed on to stage k.
  function Source(s: Chain, k: nat): seq<int>
    requires k < |s.stages|
  {
    if k == 0 then Stream([], s.next - 1) else s.stages[k - 1].sent
  }

  // What has reached a stage.
  function Received(st: Stage): seq<int> { st.got + st.slot }

  predicate Link(s: Chain, k: nat)
    requires k < |s.stages|
  {
    Source(s, k) == Received(s.stages[k])
  }

  predicate Printed(s: Chain) {
    && |s.printed| <= |s.stages| <= |s.printed| + 1
    && (forall k :: 0 <= k < |s.printed| ==> s.stages[k].p != 0 && s.printed[k] == s.stages[k].p)
    && (forall k :: |s.printed| <= k < |s.stages| ==> s.stages[k].p == 0)
  }

  ghost predicate Inv(s: Chain) {
    && s.next >= 2 && s.stages != [] && Printed(s) && s.stages[|s.stages| - 1].sent == []
    && (forall k :: 0 <= k < |s.stages| ==> StageOk(s.stages[k]))
    && (forall k :: 0 <= k < |s.stages| ==> Link(s, k))
  }

  // ---------------------------------------------------------------- stage by stage

  lemma DeliverOk(st: Stage, v: int)
    requires StageOk(st) && st.waiting && v >= 2
    ensures StageOk(Deliver(st, v)) && Received(Deliver(st, v)) == Received(st) + [v]
  {}

  lemma PassOk(st: Stage)
    requires StageOk(st) && |st.hand| == 1
    ensures st.hand[0] >= 2 && StageOk(st.(hand := [], sent := st.sent + [st.hand[0]]))
  {
    assert st.sent + [st.hand[0]] == st.sent + st.hand;
  }

  lemma ReturnOk(st: Stage)
    requires StageOk(st) && |st.slot| == 1
    ensures var st' := Return(st, st.slot[0]);
            StageOk(st') && st'.sent == st.sent && Received(st') == Received(st) && st'.p != 0
            && (st.p != 0 ==> st'.p == st.p)
  {
    var v := st.slot[0];
    assert st.slot == [v];
    if st.p == 0 {
      assert Filter([v], v) == [] by { FilterPush([], v, v); }
    } else {
      FilterPush(st.got, v, st.p);
    }
  }

  // ----------------------------------------------------------------- step by step

  lemma FeedInv(s: Chain)
    requires Inv(s) && Enabled(s, Feed)
    ensures Inv(Next(s, Feed))
  {
    var s' := Next(s, Feed);
    DeliverOk(s.stages[0], s.next);
    assert Stream([], s.next) == Stream([], s.next - 1) + [s.next];
    hide StageOk, Received, Stream;
    forall k | 0 <= k < |s'.stages| ensures Link(s', k) { assert Link(s, k); }
  }

  // A stage changed without receiving or passing on anything.
  lemma LocalChange(s: Chain, k: nat, st: Stage, printed: seq<int>)
    requires Inv(s) && k < |s.stages| && StageOk(st)
    requires Received(st) == Received(s.stages[k]) && st.sent == s.stages[k].sent
    ensures var stages := s.stages[k := st];
            && (forall j :: 0 <= j < |stages| ==> StageOk(stages[j])) && stages[|stages| - 1].sent == []
            && forall j :: 0 <= j < |stages| ==> Link(Chain(s.next, stages, printed), j)
  {
    hide StageOk, Received, Stream, Printed;
    var s' := Chain(s.next, s.stages[k := st], printed);
    forall j | 0 <= j < |s'.stages| ensures Link(s', j) { assert Link(s, j); }
  }

  lemma AskInv(s: Chain, k: nat)
    requires Inv(s) && Enabled(s, Ask(k))
    ensures Inv(Next(s, Ask(k)))
  {
    var st := s.stages[k].(waiting := true);
    assert StageOk(st) && Received(st) == Received(s.stages[k]);
    hide StageOk, Received, Stream, Link;
    LocalChange(s, k, st, s.printed);
  }

  lemma PassInv(s: Chain, k: nat)
    requires Inv(s) && Enabled(s, Pass(k))
    ensures Inv(Next(s, Pass(k)))
  {
    PassOk(s.stages[k]);
    DeliverOk(s.stages[k + 1], s.stages[k].hand[0]);
    hide StageOk, Received, Stream;
    PassLinks(s, k);
    hide Link, Next;
    PassPrinted(s, k);
  }

  lemma PassPrinted(s: Chain, k: nat)
    requires Printed(s) && Enabled(s, Pass(k))
    requires forall j :: 0 <= j < |s.stages| ==> StageOk(s.stages[j])
    requires StageOk(s.stages[k].(hand := [], sent := s.stages[k].sent + [s.stages[k].hand[0]]))
    requires StageOk(Deliver(s.stages[k + 1], s.stages[k].hand[0])) && s.stages[|s.stages| - 1].sent == []
    ensures var s' := Next(s, Pass(k));
            && Printed(s') && s'.next == s.next && s'.stages != [] && s'.stages[|s'.stages| - 1].sent == []
            && forall j :: 0 <= j < |s'.stages| ==> StageOk(s'.stages[j])
  {
    hide StageOk;
  }

  lemma PassLinks(s: Chain, k: nat)
    requires Enabled(s, Pass(k)) && forall j :: 0 <= j < |s.stages| ==> Link(s, j)
    requires var v := s.stages[k].hand[0]; Received(Deliver(s.stages[k + 1], v)) == Received(s.stages[k + 1]) + [v]
    ensures var s' := Next(s, Pass(k)); forall j :: 0 <= j < |s'.stages| ==> Link(s', j)
  {
    hide Stream;
    var s' := Next(s, Pass(k));
    assert Received(s'.stages[k]) == Received(s.stages[k]);
    hide Received, Deliver;
    forall j | 0 <= j < |s'.stages| ensures Link(s', j) { assert Link(s, j); }
  }

  lemma TakeInv(s: Chain, k: nat)
    requires Inv(s) && Enabled(s, Take(k))
    ensures Inv(Next(s, Take(k)))
  {
    ReturnOk(s.stages[k]);
    hide StageOk, Received, Stream, Link, Return, Printed;
    LocalChange(s, k, Return(s.stages[k], s.stages[k].slot[0]), Next(s, Take(k)).printed);
    TakePrinted(s, k);
  }

  lemma TakePrinted(s: Chain, k: nat)
    requires Printed(s) && Enabled(s, Take(k))
    requires var st' := Return(s.stages[k], s.stages[k].slot[0]);
            st'.p != 0 && (s.stages[k].p != 0 ==> st'.p == s.stages[k].p)
    ensures Printed(Next(s, Take(k)))
  {}

  lemma ForkInv(s: Chain)
    requires Inv(s) && Enabled(s, ForkNext)
    ensures Inv(Next(s, ForkNext))
  {
    var s', n := Next(s, ForkNext), |s.stages|;
    assert StageOk(NEWBORN) && Received(NEWBORN) == [];
    hide StageOk, Received, Stream;
    forall j | 0 <= j < |s'.stages| ensures Link(s', j) { if j < n { assert Link(s, j); } }
  }

  lemma NextInv(s: Chain, step: Step)
    requires Inv(s) && Enabled(s, step)
    ensures Inv(Next(s, step))
  {
    match step
    case Feed => FeedInv(s);
    case Ask(k) => AskInv(s, k);
    case Pass(k) => PassInv(s, k);
    case Take(k) => TakeInv(s, k);
    case ForkNext => ForkInv(s);
  }

  // A stage that is not waiting, or one behind it, can move.
  lemma {:induction false} Unblocked(s: Chain, k: nat) returns (step: Step)
    requires Inv(s) && k < |s.stages| && !s.stages[k].waiting
    ensures Enabled(s, step) && step != Feed
    decreases |s.stages| - k
  {
    var st := s.stages[k];
    assert StageOk(st);
    hide Inv;
    if st.slot != [] {
      step := Take(k);
    } else if k + 1 == |s.stages| {
      step := if st.p == 0 then Ask(k) else ForkNext;
    } else if st.hand == [] {
      step := Ask(k);
    } else if s.stages[k + 1].waiting {
      step := Pass(k);
    } else {
      step := Unblocked(s, k + 1);
    }
  }

  // The chain never gets stuck.
  lemma CanMove(s: Chain) returns (step: Step)
    requires Inv(s)
    ensures Enabled(s, step) && Next(s, step) != s
  {
    if s.stages[0].waiting { step := Feed; } else { step := Unblocked(s, 0); }
    Moves(s, step);
  }

  lemma Moves(s: Chain, step: Step)
    requires Inv(s) && Enabled(s, step)
    ensures Next(s, step) != s
  {
    match step
    case Feed => {}
    case Ask(k) => assert Next(s, step).stages[k].waiting;
    case Pass(k) => assert Next(s, step).stages[k].hand == [];
    case Take(k) => assert Next(s, step).stages[k].slot == [];
    case ForkNext => assert |Next(s, step).stages| == |s.stages| + 1;
  }

  // ------------------------------------------------------------- what flows down the chain

  lemma PrimesPositive(s: Chain, k: nat)
    requires Inv(s) && k <= |s.printed|
    ensures AllPositive(s.printed[..k])
  {
    forall i | 0 <= i < k ensures s.printed[i] >= 2 { assert StageOk(s.stages[i]); }
  }

  // What reaches stage k is a prefix of the survivors of the stages before it.
  lemma {:induction false} Flow(s: Chain, k: nat)
    requires Inv(s) && k < |s.stages|
    ensures k <= |s.printed| && AllPositive(s.printed[..k])
    ensures Received(s.stages[k]) <= Stream(s.printed[..k], s.next - 1)
  {
    assert Link(s, k);
    PrimesPositive(s, k);
    if k > 0 {
      Flow(s, k - 1);
      var st, ps := s.stages[k - 1], s.printed[..k - 1];
      assert s.printed[..k] == ps + [st.p];
      FilterStream(ps, st.p, s.next - 1);
      FilterPrefix(st.got, Stream(ps, s.next - 1), st.p);
      assert st.sent <= st.sent + st.hand;
    } else {
      assert s.printed[..0] == [];
    }
  }

  // The first value to reach a stage is the prime after those of the stages before it.
  lemma {:induction false} KthPrime(s: Chain, k: nat)
    requires Inv(s) && k <= |s.printed|
    ensures FirstPrimes(s.printed[..k])
  {
    hide Inv;
    if k > 0 {
      KthPrime(s, k - 1);
      FirstReceived(s, k - 1);
      NextPrefix(s.printed, k);
    }
  }

  lemma NextPrefix(xs: seq<int>, k: nat)
    requires 0 < k <= |xs| && FirstPrimes(xs[..k - 1]) && AllPositive(xs[..k - 1]) && Least(xs[..k - 1], xs[k - 1])
    ensures FirstPrimes(xs[..k])
  {
    NextPrime(xs[..k - 1], xs[k - 1]);
    assert xs[..k] == xs[..k - 1] + [xs[k - 1]];
  }

  lemma FirstReceived(s: Chain, k: nat)
    requires Inv(s) && k < |s.printed|
    ensures AllPositive(s.printed[..k]) && Least(s.printed[..k], s.printed[k])
  {
    Flow(s, k);
    var st := s.stages[k];
    assert StageOk(st) && st.p == s.printed[k];
    hide Inv, Least;
    assert st.got[0] == Received(st)[0] == Stream(s.printed[..k], s.next - 1)[0];
    StreamHead(s.printed[..k], s.next - 1);
  }

  // ------------------------------------------------------------------------ all runs

  // umain has forked the first stage.
  const START := Chain(2, [NEWBORN], [])

  ghost predicate RunStep(states: seq<Chain>, steps: seq<Step>, i: nat)
    requires |states| == |steps| + 1 && i < |steps|
  {
    Enabled(states[i], steps[i]) && states[i + 1] == Next(states[i], steps[i])
  }

  ghost predicate IsRun(states: seq<Chain>, steps: seq<Step>) {
    |states| == |steps| + 1 && states[0] == START && forall i :: 0 <= i < |steps| ==> RunStep(states, steps, i)
  }

  lemma {:induction false} RunInv(states: seq<Chain>, steps: seq<Step>, n: nat)
    requires IsRun(states, steps) && n < |states|
    ensures Inv(states[n])
  {
    if n > 0 {
      RunInv(states, steps, n - 1);
      assert RunStep(states, steps, n - 1);
      NextInv(states[n - 1], steps[n - 1]);
    } else {
      assert Stream([], 1) == [];
    }
  }

  // In every run the values printed are the primes, in order and with none left out; stage k
  // printed the k-th, and forwards a prefix of the numbers that the first k primes do not divide.
  lemma SievePrints(states: seq<Chain>, steps: seq<Step>, n: nat)
    requires IsRun(states, steps) && n < |states|
    ensures var s := states[n];
            && FirstPrimes(s.printed) && |s.printed| <= |s.stages|
            && forall k :: 0 <= k < |s.printed| ==>
                 && s.stages[k].p == s.printed[k] && s.stages[k].got != [] && s.stages[k].got[0] == s.printed[k]
                 && AllPositive(s.printed[..k + 1]) && s.stages[k].sent <= Stream(s.printed[..k + 1], s.next - 1)
  {
    RunInv(states, steps, n);
    var s := states[n];
    KthPrime(s, |s.printed|);
    assert s.printed[..|s.printed|] == s.printed;
    forall k | 0 <= k < |s.printed|
      ensures s.stages[k].got != [] && s.stages[k].got[0] == s.printed[k]
      ensures AllPositive(s.printed[..k + 1]) && s.stages[k].sent <= Stream(s.printed[..k + 1], s.next - 1)
    {
      Forwards(s, k);
    }
  }

  lemma Forwards(s: Chain, k: nat)
    requires Inv(s) && k < |s.printed|
    ensures s.stages[k].got != [] && s.stages[k].got[0] == s.printed[k]
    ensures AllPositive(s.printed[..k + 1]) && s.stages[k].sent <= Stream(s.printed[..k + 1], s.next - 1)
  {
    assert StageOk(s.stages[k]);
    PrimesPositive(s, k + 1);
    if k + 1 < |s.stages| {
      Flow(s, k + 1);
      assert Link(s, k + 1);
    }
  }
}
