// User page faults: the kernel pushes a UTrapframe on the exception stack (page_fault_handler,
// kern/trap.c) and _pgfault_upcall (lib/pfentry.S) undoes it, at any depth of nesting.
// Memory is a map of words at word-aligned addresses; an address not in it holds 0.
module Upcall {
  import opened Mmu

  const M32 := 0x1_0000_0000
  const UXSTACKTOP := UTOP
  const UXSTACK := UXSTACKTOP - PGSIZE
  const FRAME := 52  // sizeof(struct UTrapframe)

  datatype Reg = EDI | ESI | EBP | EBX | EDX | ECX | EAX

  datatype Cpu = Cpu(edi: nat, esi: nat, ebp: nat, ebx: nat, edx: nat, ecx: nat, eax: nat,
                     esp: nat, eip: nat, eflags: nat, mem: map<nat, nat>)

  function Get(c: Cpu, r: Reg): nat {
    match r
    case EDI => c.edi
    case ESI => c.esi
    case EBP => c.ebp
    case EBX => c.ebx
    case EDX => c.edx
    case ECX => c.ecx
    case EAX => c.eax
  }

  function Put(c: Cpu, r: Reg, w: nat): Cpu {
    match r
    case EDI => c.(edi := w)
    case ESI => c.(esi := w)
    case EBP => c.(ebp := w)
    case EBX => c.(ebx := w)
    case EDX => c.(edx := w)
    case ECX => c.(ecx := w)
    case EAX => c.(eax := w)
  }

  function Read(mem: map<nat, nat>, a: nat): nat {
    if a in mem then mem[a] else 0
  }

  function Plus(a: nat, n: nat): nat { (a + n) % M32 }
  function Minus(a: nat, n: nat): nat { (a - n) % M32 }

  // ----------------------------------------------------------------- the kernel's part

  predicate OnExceptionStack(esp: nat) {
    UXSTACK <= esp < UXSTACKTOP
  }

  // Where the frame goes: below a reserved word if the exception stack is already in use.
  function FrameAt(esp: nat): (f: int)
    ensures OnExceptionStack(esp) ==> f == esp - 56
    ensures f >= 0
  {
    (if OnExceptionStack(esp) then esp - 4 else UXSTACKTOP) - FRAME
  }

  // user_mem_assert: the frame must lie in the one page of the exception stack.
  predicate Fits(esp: nat) {
    FrameAt(esp) >= UXSTACK
  }

  // struct UTrapframe from its lowest word: fault_va, err, edi, esi, ebp, oesp, ebx, edx, ecx, eax,
  // eip, eflags, esp.
  function FrameWords(c: Cpu, va: nat, err: nat, oesp: nat): seq<nat> {
    [va, err, c.edi, c.esi, c.ebp, oesp, c.ebx, c.edx, c.ecx, c.eax, c.eip, c.eflags, c.esp]
  }

  function Write(mem: map<nat, nat>, a: nat, words: seq<nat>): map<nat, nat> {
    if words == [] then mem else Write(mem, a, words[..|words| - 1])[a + 4 * (|words| - 1) := words[|words| - 1]]
  }

  // page_fault_handler, for an environment with an upcall
  function PushFrame(c: Cpu, va: nat, err: nat, oesp: nat, upcall: nat): Cpu
  {
    var f := FrameAt(c.esp);
    c.(esp := f, eip := upcall, mem := Write(c.mem, f, FrameWords(c, va, err, oesp)))
  }

  // ---------------------------------------------------------------------- the upcall

  datatype Instr =
    | PushEsp                        // pushl %esp
    | Call(ret: nat)                 // call *%eax, pushing the return address
    | LoadSp(dst: Reg, off: nat)     // movl off(%esp), dst
    | StoreSp(src: Reg, off: nat)    // movl src, off(%esp)
    | StoreAt(src: Reg, base: Reg)   // movl src, (base)
    | SubImm(n: nat, dst: Reg, flags: nat)  // subl $n, dst
    | AddSp(n: nat, flags: nat)      // addl $n, %esp
    | Popal
    | Popfl
    | PopEsp                         // popl %esp
    | Ret

  // One instruction; flags is what the arithmetic leaves in eflags, eip is kept only by Ret.
  function Step(c: Cpu, i: Instr): Cpu {
    match i
    case PushEsp => c.(esp := Minus(c.esp, 4), mem := c.mem[Minus(c.esp, 4) := c.esp])
    case Call(ret) => c.(esp := Minus(c.esp, 4), mem := c.mem[Minus(c.esp, 4) := ret])
    case LoadSp(dst, off) => Put(c, dst, Read(c.mem, Plus(c.esp, off)))
    case StoreSp(src, off) => c.(mem := c.mem[Plus(c.esp, off) := Get(c, src)])
    case StoreAt(src, base) => c.(mem := c.mem[Get(c, base) := Get(c, src)])
    case SubImm(n, dst, flags) => Put(c, dst, Minus(Get(c, dst), n)).(eflags := flags)
    case AddSp(n, flags) => c.(esp := Plus(c.esp, n), eflags := flags)
    case Popal =>
      var s := c.esp;
      c.(edi := Read(c.mem, s), esi := Read(c.mem, Plus(s, 4)), ebp := Read(c.mem, Plus(s, 8)),
         ebx := Read(c.mem, Plus(s, 16)), edx := Read(c.mem, Plus(s, 20)), ecx := Read(c.mem, Plus(s, 24)),
         eax := Read(c.mem, Plus(s, 28)), esp := Plus(s, 32))
    case Popfl => c.(eflags := Read(c.mem, c.esp), esp := Plus(c.esp, 4))
    case PopEsp => c.(esp := Read(c.mem, c.esp))
    case Ret => c.(eip := Read(c.mem, c.esp), esp := Plus(c.esp, 4))
  }

  // The first n instructions of prog.
  function Exec(c: Cpu, prog: seq<Instr>, n: nat): Cpu
    requires n <= |prog|
  {
    if n == 0 then c else Step(Exec(c, prog, n - 1), prog[n - 1])
  }

  // _pgfault_upcall after the handler has returned: up to the store of the trap-time eip on the
  // trap-time stack,
  function Front(fl: seq<nat>): seq<Instr>
    requires |fl| == 4
  {
    [AddSp(4, fl[0]), LoadSp(EAX, 48), SubImm(4, EAX, fl[1]), LoadSp(EBX, 40)]
  }

  // and from it on.
  function Back(fl: seq<nat>): seq<Instr>
    requires |fl| == 4
  {
    [StoreAt(EBX, EAX), StoreSp(EAX, 48), AddSp(8, fl[2]), Popal, AddSp(4, fl[3]), Popfl, PopEsp, Ret]
  }

  // What runs on the exception stack while a fault is handled: code that leads to the state `to`,
  // or a further fault, whose handler runs `body` and returns through the upcall.  The upcall's
  // own store can fault too, when the trap-time stack is copy-on-write: that fault is `late`.
  datatype Run =
    | End
    | Code(to: Cpu, rest: Run)
    | Fault(va: nat, err: nat, oesp: nat, upcall: nat, ret: nat, fl: seq<nat>, body: Run, late: Run, rest: Run)

  // The handler's first state: the frame, the pointer to it and the return address are pushed.
  function Enter(c: Cpu, va: nat, err: nat, oesp: nat, upcall: nat, ret: nat): Cpu {
    Step(Step(PushFrame(c, va, err, oesp, upcall), PushEsp), Call(ret))
  }

  function Outcome(run: Run, c: Cpu): Cpu
    decreases run, 0
  {
    match run
    case End => c
    case Code(to, rest) => Outcome(rest, to)
    case Fault(va, err, oesp, upcall, ret, fl, body, late, rest) =>
      var h := Outcome(body, Enter(c, va, err, oesp, upcall, ret));
      Outcome(rest, if |fl| == 4 then Unwind(h, fl, late) else h)
  }

  // The way back from the handler's return, with whatever happens before the store.
  function Unwind(h: Cpu, fl: seq<nat>, late: Run): Cpu
    requires |fl| == 4
    decreases late, 1
  {
    Exec(Outcome(late, Exec(h, Front(fl), 4)), Back(fl), 8)
  }

  lemma {:induction false} ExecSplit(c: Cpu, p: seq<Instr>, q: seq<Instr>, n: nat)
    requires n <= |q|
    ensures Exec(c, p + q, |p| + n) == Exec(Exec(c, p, |p|), q, n)
  {
    if n > 0 { ExecSplit(c, p, q, n - 1); } else { ExecPrefix(c, p, q, |p|); }
  }

  lemma {:induction false} ExecPrefix(c: Cpu, p: seq<Instr>, q: seq<Instr>, n: nat)
    requires n <= |p|
    ensures Exec(c, p + q, n) == Exec(c, p, n)
  {
    if n > 0 { ExecPrefix(c, p, q, n - 1); }
  }

  // With no such fault it is the twelve instructions in a row.
  lemma UnwindStraight(h: Cpu, fl: seq<nat>)
    requires |fl| == 4
    ensures Unwind(h, fl, End) == Exec(h, Front(fl) + Back(fl), 12)
  {
    ExecSplit(h, Front(fl), Back(fl), 8);
  }

  // Everything but memory.
  predicate SameRegs(c: Cpu, c': Cpu) {
    c' == c.(mem := c'.mem)
  }

  // The words of the frame at f that the upcall restores from, as the fault at c left them.
  predicate FrameHolds(mem: map<nat, nat>, f: nat, c: Cpu) {
    && Read(mem, f + 8) == c.edi && Read(mem, f + 12) == c.esi && Read(mem, f + 16) == c.ebp
    && Read(mem, f + 24) == c.ebx && Read(mem, f + 28) == c.edx && Read(mem, f + 32) == c.ecx
    && Read(mem, f + 36) == c.eax
    && Read(mem, f + 40) == c.eip && Read(mem, f + 44) == c.eflags && Read(mem, f + 48) == c.esp
  }

  predicate Aligned(c: Cpu) { c.esp % 4 == 0 && c.esp < M32 }

  lemma {:induction false} ReadWritten(mem: map<nat, nat>, a: nat, words: seq<nat>, i: nat)
    requires i < |words|
    ensures Read(Write(mem, a, words), a + 4 * i) == words[i]
  {
    if i < |words| - 1 { ReadWritten(mem, a, words[..|words| - 1], i); }
  }

  lemma {:induction false} ReadElsewhere(mem: map<nat, nat>, a: nat, words: seq<nat>, b: nat)
    requires b < a || b >= a + 4 * |words|
    ensures Read(Write(mem, a, words), b) == Read(mem, b)
  {
    if words != [] { ReadElsewhere(mem, a, words[..|words| - 1], b); }
  }

  // 52 bytes below the top of the exception stack, or 56 below a stack pointer that is on it; there
  // is no room exactly for one in the lowest 56 bytes.
  lemma FramePlace(esp: nat)
    ensures FrameAt(esp) == if UTOP - PGSIZE <= esp < UTOP then esp - 56 else UTOP - 52
    ensures Fits(esp) <==> !(UTOP - PGSIZE <= esp < UTOP - PGSIZE + 56)
  {}

  // The frame the kernel pushes has the faulting address and the error code in its two lowest words,
  // then the trap-time state; the upcall starts at the frame, and nothing else is written.
  lemma PushHolds(c: Cpu, va: nat, err: nat, oesp: nat, upcall: nat)
    ensures var p, f := PushFrame(c, va, err, oesp, upcall), FrameAt(c.esp);
            && Read(p.mem, f) == va && Read(p.mem, f + 4) == err && FrameHolds(p.mem, f, c)
            && p == c.(esp := f, eip := upcall, mem := p.mem)
            && forall a: nat :: a < f || a >= f + FRAME ==> Read(p.mem, a) == Read(c.mem, a)
  {
    var f, words := FrameAt(c.esp), FrameWords(c, va, err, oesp);
    forall i: nat | i < |words| ensures Read(Write(c.mem, f, words), f + 4 * i) == words[i] {
      ReadWritten(c.mem, f, words, i);
    }
    forall a: nat | a < f || a >= f + FRAME ensures Read(Write(c.mem, f, words), a) == Read(c.mem, a) {
      ReadElsewhere(c.mem, f, words, a);
    }
    hide Write;
    var mem := Write(c.mem, f, words);
    assert Read(mem, f + 4 * 0) == words[0] && Read(mem, f + 4 * 1) == words[1];
    assert Read(mem, f + 4 * 2) == words[2] && Read(mem, f + 4 * 3) == words[3] && Read(mem, f + 4 * 4) == words[4];
    assert Read(mem, f + 4 * 6) == words[6] && Read(mem, f + 4 * 7) == words[7] && Read(mem, f + 4 * 8) == words[8];
    assert Read(mem, f + 4 * 9) == words[9] && Read(mem, f + 4 * 10) == words[10] && Read(mem, f + 4 * 11) == words[11];
    assert Read(mem, f + 4 * 12) == words[12];
  }

  // The scratch word the upcall uses.
  function Scratch(esp: nat): nat { Minus(esp, 4) }

  // The one place where the scratch word lies inside the frame: a trap-time esp of UXSTACKTOP.
  lemma ScratchApart(c: Cpu)
    requires Aligned(c) && Fits(c.esp)
    ensures FrameAt(c.esp) <= Scratch(c.esp) < FrameAt(c.esp) + FRAME <==> c.esp == UXSTACKTOP
    ensures OnExceptionStack(c.esp) ==> Scratch(c.esp) == FrameAt(c.esp) + FRAME
  {}

  lemma ExecNext(c: Cpu, prog: seq<Instr>, n: nat)
    requires n < |prog|
    ensures Exec(c, prog, n + 1) == Step(Exec(c, prog, n), prog[n])
  {}

  lemma ExecNone(c: Cpu, prog: seq<Instr>)
    ensures Exec(c, prog, 0) == c
  {}

  lemma FrameEsp(mem: map<nat, nat>, f: nat, c: Cpu)
    requires FrameHolds(mem, f, c)
    ensures Read(mem, f + 40) == c.eip && Read(mem, f + 44) == c.eflags && Read(mem, f + 48) == c.esp
  {}

  // The first four instructions fetch the scratch address and the trap-time eip.
  lemma FrontLoads(c: Cpu, h: Cpu, f: nat, fl: seq<nat>)
    requires |fl| == 4 && h.esp == f - 4 && UXSTACK <= f && f + FRAME <= UXSTACKTOP && FrameHolds(h.mem, f, c)
    ensures Exec(h, Front(fl), 4) == h.(esp := f, eflags := fl[1], eax := Scratch(c.esp), ebx := c.eip)
  {
    FrameEsp(h.mem, f, c);
    hide FrameHolds, Read, Exec;
    var p := Front(fl);
    assert Exec(h, p, 0) == h by { ExecNone(h, p); }
    ExecNext(h, p, 0);
    ExecNext(h, p, 1);
    ExecNext(h, p, 2);
    ExecNext(h, p, 3);
    assert Exec(h, p, 1) == h.(esp := f, eflags := fl[0]);
    assert Exec(h, p, 2) == h.(esp := f, eflags := fl[0], eax := c.esp);
    assert Exec(h, p, 3) == h.(esp := f, eflags := fl[1], eax := Scratch(c.esp));
  }

  // The next two put the eip on the trap-time stack and its address into the frame.
  lemma BackStores(c: Cpu, x: Cpu, f: nat, fl: seq<nat>)
    requires |fl| == 4 && x.esp == f && f + FRAME <= UXSTACKTOP && x.eax == Scratch(c.esp) && x.ebx == c.eip
    ensures var m := Exec(x, Back(fl), 2);
            m.esp == f && m.mem == x.mem[Scratch(c.esp) := c.eip][f + 48 := Scratch(c.esp)]
  {
    hide Exec;
    var p := Back(fl);
    assert Exec(x, p, 0) == x by { ExecNone(x, p); }
    ExecNext(x, p, 0);
    ExecNext(x, p, 1);
    assert Exec(x, p, 1) == x.(mem := x.mem[Scratch(c.esp) := c.eip]);
  }

  lemma PlusSmall(a: nat, n: nat)
    requires a + n < M32
    ensures Plus(a, n) == a + n
  {}

  // popal over a frame
  lemma PopalRestores(m: Cpu, c: Cpu, f: nat)
    requires m.esp == f + 8 && f + FRAME <= UXSTACKTOP && FrameHolds(m.mem, f, c)
    ensures Step(m, Popal) == c.(esp := f + 40, eip := m.eip, eflags := m.eflags, mem := m.mem)
  {
    PlusSmall(f + 8, 4);
    PlusSmall(f + 8, 8);
    PlusSmall(f + 8, 16);
    PlusSmall(f + 8, 20);
    PlusSmall(f + 8, 24);
    PlusSmall(f + 8, 28);
    PlusSmall(f + 8, 32);
    hide Read, Plus;
  }

  // The last four pop the flags, the stack pointer and the eip under it.
  lemma TailRestores(x: Cpu, c: Cpu, f: nat, flags: nat, top: nat)
    requires x == c.(esp := f + 40, eip := x.eip, eflags := x.eflags, mem := x.mem) && f + FRAME <= UXSTACKTOP
    requires Read(x.mem, f + 44) == c.eflags && Read(x.mem, f + 48) == top
    ensures Step(Step(Step(Step(x, AddSp(4, flags)), Popfl), PopEsp), Ret) ==
              c.(esp := Plus(top, 4), eip := Read(x.mem, top), mem := x.mem)
  {
    hide Read, Put, Get;
    PlusSmall(f + 40, 4);
    PlusSmall(f + 44, 4);
  }

  // The last six restore what the frame holds.
  lemma Restores(m: Cpu, c: Cpu, x: Cpu, f: nat, fl: seq<nat>)
    requires |fl| == 4 && Exec(x, Back(fl), 2) == m && m.esp == f && f + FRAME <= UXSTACKTOP
    requires FrameHolds(m.mem, f, c.(esp := Read(m.mem, f + 48)))
    ensures var r := Exec(x, Back(fl), 8); var top := Read(m.mem, f + 48);
            r == c.(esp := Plus(top, 4), eip := Read(m.mem, top), mem := m.mem)
  {
    LastSix(x, fl);
    PlusSmall(f, 8);
    var top, m1 := Read(m.mem, f + 48), m.(esp := f + 8, eflags := fl[2]);
    FrameEsp(m.mem, f, c.(esp := top));
    assert Step(m, AddSp(8, fl[2])) == m1;
    PopalRestores(m1, c.(esp := top), f);
    hide Exec, Read, FrameHolds, Step;
    TailRestores(Step(m1, Popal), c, f, fl[3], top);
  }

  lemma LastSix(x: Cpu, fl: seq<nat>)
    requires |fl| == 4
    ensures var p := Back(fl);
            Exec(x, p, 8) ==
            Step(Step(Step(Step(Step(Step(Exec(x, p, 2), AddSp(8, fl[2])), Popal), AddSp(4, fl[3])), Popfl), PopEsp),
                 Ret)
  {
    hide Step;
    var p := Back(fl);
    ExecNext(x, p, 2);
    ExecNext(x, p, 3);
    ExecNext(x, p, 4);
    ExecNext(x, p, 5);
    ExecNext(x, p, 6);
    ExecNext(x, p, 7);
  }

  // What happens before the upcall's store has left its registers and its frame alone.
  ghost predicate LateKept(c: Cpu, h: Cpu, fl: seq<nat>, late: Run)
    requires |fl| == 4
  {
    var m := Exec(h, Front(fl), 4);
    SameRegs(m, Outcome(late, m)) && FrameHolds(Outcome(late, m).mem, FrameAt(c.esp), c)
  }

  lemma FrameInside(esp: nat)
    requires Fits(esp)
    ensures UXSTACK <= FrameAt(esp) && FrameAt(esp) + FRAME <= UXSTACKTOP
  {}

  lemma ScratchBack(esp: nat)
    requires 4 <= esp < M32
    ensures Plus(Scratch(esp), 4) == esp
  {}

  // The state the upcall returns to.
  lemma UnwindIs(c: Cpu, h: Cpu, fl: seq<nat>, late: Run)
    requires |fl| == 4 && Aligned(c) && c.esp >= 4 && Fits(c.esp) && h.esp == FrameAt(c.esp) - 4
    requires FrameHolds(h.mem, FrameAt(c.esp), c)
    requires LateKept(c, h, fl, late)
    ensures var x := Outcome(late, Exec(h, Front(fl), 4));
            Unwind(h, fl, late) == c.(eip := if c.esp == UXSTACKTOP then UXSTACKTOP - 4 else c.eip,
                                      mem := x.mem[Scratch(c.esp) := c.eip][FrameAt(c.esp) + 48 := Scratch(c.esp)])
  {
    var f := FrameAt(c.esp);
    FrameInside(c.esp);
    hide FrameAt, FrameHolds, Read, Scratch, Exec;
    FrontLoads(c, h, f, fl);
    var x := Outcome(late, Exec(h, Front(fl), 4));
    assert x.esp == f && x.eax == Scratch(c.esp) && x.ebx == c.eip && FrameHolds(x.mem, f, c);
    hide Outcome, LateKept;
    BackIs(c, x, fl);
  }

  // From the store on.
  lemma BackIs(c: Cpu, x: Cpu, fl: seq<nat>)
    requires |fl| == 4 && Aligned(c) && c.esp >= 4 && Fits(c.esp)
    requires x.esp == FrameAt(c.esp) && x.eax == Scratch(c.esp) && x.ebx == c.eip && FrameHolds(x.mem, x.esp, c)
    ensures Exec(x, Back(fl), 8) == c.(eip := if c.esp == UXSTACKTOP then UXSTACKTOP - 4 else c.eip,
                                       mem := x.mem[Scratch(c.esp) := c.eip][x.esp + 48 := Scratch(c.esp)])
  {
    var f := x.esp;
    FrameInside(c.esp);
    AdjustedFrame(x.mem, f, c);
    ScratchBack(c.esp);
    hide FrameAt, FrameHolds, Read, Scratch, Exec, Fits, Aligned;
    BackStores(c, x, f, fl);
    Restores(Exec(x, Back(fl), 2), c, x, f, fl);
  }

  // A handler that preserves the frame: after the twelve instructions, with or without a fault at
  // the store, everything is as it was at the fault, exactly when the scratch word is apart from
  // the frame.
  lemma RoundTrip(c: Cpu, h: Cpu, fl: seq<nat>, late: Run)
    requires |fl| == 4 && Aligned(c) && c.esp >= 4 && Fits(c.esp) && h.esp == FrameAt(c.esp) - 4
    requires FrameHolds(h.mem, FrameAt(c.esp), c)
    requires LateKept(c, h, fl, late)
    ensures SameRegs(c, Unwind(h, fl, late)) <==> (c.esp == UXSTACKTOP ==> c.eip == UXSTACKTOP - 4)
    ensures forall a: nat :: a != Scratch(c.esp) && a != FrameAt(c.esp) + 48 ==>
              Read(Unwind(h, fl, late).mem, a) == Read(Outcome(late, Exec(h, Front(fl), 4)).mem, a)
  {
    UnwindIs(c, h, fl, late);
    hide Unwind, Outcome, Exec, LateKept, FrameHolds;
  }

  // The frame after the trap-time eip went to the trap-time stack: its esp is the scratch word,
  // which holds the eip unless it is that very slot.
  lemma AdjustedFrame(mem: map<nat, nat>, f: nat, c: Cpu)
    requires Aligned(c) && c.esp >= 4 && Fits(c.esp) && f == FrameAt(c.esp) && FrameHolds(mem, f, c)
    ensures var mem' := mem[Scratch(c.esp) := c.eip][f + 48 := Scratch(c.esp)];
            && Read(mem', f + 48) == Scratch(c.esp) && FrameHolds(mem', f, c.(esp := Scratch(c.esp)))
            && Read(mem', Scratch(c.esp)) == if c.esp == UXSTACKTOP then UXSTACKTOP - 4 else c.eip
  {
    ScratchApart(c);
    assert c.esp == UXSTACKTOP ==> Scratch(c.esp) == f + 48;
  }

  // ------------------------------------------------------------------- nested faults

  // The exception stack from floor up is as it was.
  ghost predicate Above(mem: map<nat, nat>, mem': map<nat, nat>, floor: nat) {
    forall a: nat :: floor <= a < UXSTACKTOP ==> Read(mem', a) == Read(mem, a)
  }

  // Code leaves alone what lies from the current frame up, faults happen below that frame and fit
  // the page, and a handler returns with the stack pointer where its call left it.
  ghost predicate Valid(run: Run, c: Cpu, floor: nat)
    decreases run, 0
  {
    match run
    case End => true
    case Code(to, rest) => Above(c.mem, to.mem, floor) && Valid(rest, to, floor)
    case Fault(va, err, oesp, upcall, ret, fl, body, late, rest) =>
      && OnExceptionStack(c.esp) && c.esp <= floor && Aligned(c) && Fits(c.esp) && |fl| == 4
      && var e := Enter(c, va, err, oesp, upcall, ret);
         && Handled(body, e, FrameAt(c.esp))
         && ValidLate(late, Outcome(body, e), fl, FrameAt(c.esp))
         && Valid(rest, Unwind(Outcome(body, e), fl, late), floor)
  }

  // A handler's run, with its frame at f.
  ghost predicate Handled(body: Run, e: Cpu, f: nat)
    decreases body, 1
  {
    Valid(body, e, f) && Outcome(body, e).esp == f - 4
  }

  // Nothing, or one fault at the upcall's store, where the stack pointer is at the frame.
  ghost predicate ValidLate(late: Run, h: Cpu, fl: seq<nat>, f: nat)
    requires |fl| == 4
    decreases late, 1
  {
    late.End? || (late.Fault? && late.rest.End? && Valid(late, Exec(h, Front(fl), 4), f))
  }

  // The handler's first state: its argument is the address of the frame, which tells it the fault.
  lemma EnterHolds(c: Cpu, va: nat, err: nat, oesp: nat, upcall: nat, ret: nat)
    requires Fits(c.esp)
    ensures var e, f := Enter(c, va, err, oesp, upcall, ret), FrameAt(c.esp);
            && e.esp == f - 8 && Read(e.mem, f - 8) == ret && Read(e.mem, f - 4) == f
            && Read(e.mem, f) == va && Read(e.mem, f + 4) == err && FrameHolds(e.mem, f, c)
            && (forall a: nat :: f + FRAME <= a ==> Read(e.mem, a) == Read(c.mem, a))
  {
    var p, f := PushFrame(c, va, err, oesp, upcall), FrameAt(c.esp);
    PushHolds(c, va, err, oesp, upcall);
    hide PushFrame;
    EntryPushes(p, ret);
    FrameKept(p.mem, Enter(c, va, err, oesp, upcall, ret).mem, f, c);
  }

  lemma EntryPushes(p: Cpu, ret: nat)
    requires 8 <= p.esp < M32
    ensures var e := Step(Step(p, PushEsp), Call(ret));
            && e.esp == p.esp - 8 && Read(e.mem, p.esp - 8) == ret && Read(e.mem, p.esp - 4) == p.esp
            && forall a: nat :: p.esp <= a ==> Read(e.mem, a) == Read(p.mem, a)
  {}

  lemma FrameKept(mem: map<nat, nat>, mem': map<nat, nat>, f: nat, c: Cpu)
    requires FrameHolds(mem, f, c) && forall a: nat :: f <= a < f + FRAME ==> Read(mem', a) == Read(mem, a)
    ensures FrameHolds(mem', f, c)
  {}

  // Whatever is nested in a handler's run, its own frame and everything above it survive.
  lemma {:induction false} Undisturbed(run: Run, c: Cpu, floor: nat)
    requires Valid(run, c, floor)
    ensures Above(c.mem, Outcome(run, c).mem, floor)
    decreases run
  {
    match run
    case End =>
    case Code(to, rest) => Undisturbed(rest, to, floor);
    case Fault(va, err, oesp, upcall, ret, fl, body, late, rest) =>
      NestedFault(run, c, floor);
      Undisturbed(rest, Unwind(Outcome(body, Enter(c, va, err, oesp, upcall, ret)), fl, late), floor);
  }

  // A fault at the upcall's store comes back to that store with the frame as it was.
  lemma {:induction false} LateFault(c: Cpu, h: Cpu, fl: seq<nat>, late: Run)
    requires |fl| == 4 && Aligned(c) && Fits(c.esp) && h.esp == FrameAt(c.esp) - 4
    requires FrameHolds(h.mem, FrameAt(c.esp), c)
    requires ValidLate(late, h, fl, FrameAt(c.esp))
    ensures LateKept(c, h, fl, late)
    ensures Above(h.mem, Outcome(late, Exec(h, Front(fl), 4)).mem, FrameAt(c.esp))
    decreases late, 1
  {
    var f, m := FrameAt(c.esp), Exec(h, Front(fl), 4);
    FrontLoads(c, h, f, fl);
    if late.Fault? {
      NestedFault(late, m, f);
      var back := Unwind(Outcome(late.body, Enter(m, late.va, late.err, late.oesp, late.upcall, late.ret)), late.fl,
                         late.late);
      assert Outcome(late, m) == back;
      hide Unwind, Enter, Exec;
      FrameKept(m.mem, back.mem, f, c);
    }
  }

  // A nested fault, at any depth: the upcall goes back to the trap-time registers, stack pointer, flags and
  // eip, and nothing at or above the trap-time stack pointer has changed.
  lemma {:induction false} NestedFault(run: Run, c: Cpu, floor: nat)
    requires run.Fault? && Valid(run, c, floor)
    ensures var back := Unwind(Outcome(run.body, Enter(c, run.va, run.err, run.oesp, run.upcall, run.ret)), run.fl,
                               run.late);
            SameRegs(c, back) && Above(c.mem, back.mem, c.esp)
    decreases run, 0
  {
    var e := Enter(c, run.va, run.err, run.oesp, run.upcall, run.ret);
    var h := Outcome(run.body, e);
    EnterHolds(c, run.va, run.err, run.oesp, run.upcall, run.ret);
    Undisturbed(run.body, e, FrameAt(c.esp));
    FrameKept(e.mem, h.mem, FrameAt(c.esp), c);
    LateFault(c, h, run.fl, run.late);
    hide Unwind, Enter;
    RoundTrip(c, h, run.fl, run.late);
    ScratchApart(c);
  }

  // The first fault, from any stack: the same holds exactly when the scratch word is not inside
  // the frame or happens to hold the right value.
  lemma FirstFault(c: Cpu, va: nat, err: nat, oesp: nat, upcall: nat, ret: nat, fl: seq<nat>, body: Run, late: Run)
    requires |fl| == 4 && Aligned(c) && c.esp >= 4 && Fits(c.esp)
    requires Handled(body, Enter(c, va, err, oesp, upcall, ret), FrameAt(c.esp))
    requires ValidLate(late, Outcome(body, Enter(c, va, err, oesp, upcall, ret)), fl, FrameAt(c.esp))
    ensures SameRegs(c, Unwind(Outcome(body, Enter(c, va, err, oesp, upcall, ret)), fl, late)) <==>
            (c.esp == UXSTACKTOP ==> c.eip == UXSTACKTOP - 4)
  {
    var e := Enter(c, va, err, oesp, upcall, ret);
    var h := Outcome(body, e);
    EnterHolds(c, va, err, oesp, upcall, ret);
    Undisturbed(body, e, FrameAt(c.esp));
    FrameKept(e.mem, h.mem, FrameAt(c.esp), c);
    LateFault(c, h, fl, late);
    hide Unwind, Enter;
    RoundTrip(c, h, fl, late);
  }

  // ------------------------------------------------------------------ how deep it can go

  function Max(a: nat, b: nat): nat { if a > b then a else b }

  function Depth(run: Run): nat {
    match run
    case End => 0
    case Code(_, rest) => Depth(rest)
    case Fault(_, _, _, _, _, _, body, late, rest) => Max(Depth(rest), Max(Depth(body), Depth(late)) + 1)
  }

  lemma {:induction false} DepthBound(run: Run, c: Cpu, floor: nat)
    requires Valid(run, c, floor) && floor >= UXSTACK
    ensures 56 * Depth(run) <= floor - UXSTACK
    decreases run
  {
    match run
    case End =>
    case Code(to, rest) => DepthBound(rest, to, floor);
    case Fault(va, err, oesp, upcall, ret, fl, body, late, rest) =>
      var e := Enter(c, va, err, oesp, upcall, ret);
      var h := Outcome(body, e);
      DepthBound(body, e, FrameAt(c.esp));
      if late.Fault? { DepthBound(late, Exec(h, Front(fl), 4), FrameAt(c.esp)); }
      DepthBound(rest, Unwind(h, fl, late), floor);
  }

  // At most 73 frames are ever on the exception stack, those of faults in the upcall included.
  lemma FrameLimit(c: Cpu, body: Run, late: Run, va: nat, err: nat, oesp: nat, upcall: nat, ret: nat, fl: seq<nat>)
    requires !OnExceptionStack(c.esp) && |fl| == 4
    requires Handled(body, Enter(c, va, err, oesp, upcall, ret), FrameAt(c.esp))
    requires ValidLate(late, Outcome(body, Enter(c, va, err, oesp, upcall, ret)), fl, FrameAt(c.esp))
    ensures 1 + Max(Depth(body), Depth(late)) <= 73
  {
    var e := Enter(c, va, err, oesp, upcall, ret);
    DepthBound(body, e, FrameAt(c.esp));
    if late.Fault? { DepthBound(late, Exec(Outcome(body, e), Front(fl), 4), FrameAt(c.esp)); }
  }

  // The n-th of frames pushed with nothing between them; 73 fit and the 74th does not.
  function NthFrame(n: nat): nat
    requires n >= 1
  {
    if n == 1 then FrameAt(0) else FrameAt(NthFrame(n - 1))
  }

  lemma {:induction false} FramesFit(n: nat)
    requires 1 <= n <= 74
    ensures NthFrame(n) >= UXSTACK <==> n <= 73
    ensures NthFrame(n) == UXSTACKTOP - FRAME - 56 * (n - 1)
  {
    if n > 1 { FramesFit(n - 1); }
  }
}
