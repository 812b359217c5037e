// Copy-on-write address spaces (lib/fork.c) against eagerly copied ones (user/dumbfork.c).
// An environment is named by its page directory.  A copy-on-write fault is what its handler does,
// one system call or one word of memmove at a time, with other environments running in between.
module Cow {
  import opened Mmu
  import opened FlatMemory

  type Page = seq<Word>

  // The mappings of all environments and the contents of all frames.
  datatype Vm = Vm(maps: map<Slot, Pte>, mem: seq<Page>)

  // How far pgfault has come with page v: n words are in the private page at PFTEMP, or that
  // page is mapped at v too.
  datatype Phase = Copying(v: nat, n: nat) | Moved(v: nat)

  // faults: the environments inside pgfault.
  datatype State = State(vm: Vm, faults: map<nat, Phase>)

  predicate Writable(p: Pte) { Has(p.perm, PTE_W) }
  predicate CopyOnWrite(p: Pte) { Has(p.perm, PTE_COW) }

  const RW := 7        // PTE_P | PTE_U | PTE_W
  const RO := 5        // PTE_P | PTE_U
  const COW := 0x805   // PTE_P | PTE_U | PTE_COW

  ghost predicate Mapped(maps: map<Slot, Pte>, f: nat) {
    exists k :: k in maps && maps[k].frame == f
  }

  function Tmp(e: nat): Slot { (e, PFTEMP_PAGE) }

  // The pages a program works with: not the handler's scratch page, and not the exception stack,
  // where every fault leaves a frame.
  predicate Seen(k: Slot) { k.1 != PFTEMP_PAGE && k.1 != UXSTACK_PAGE }

  // -------------------------------------------------------------------- invariant

  // A frame mapped writable is mapped at that one place, the handlers' scratch pages aside.
  ghost predicate Exclusive(maps: map<Slot, Pte>) {
    forall k, k' :: (k in maps && k' in maps && k != k' && k.1 != PFTEMP_PAGE && k'.1 != PFTEMP_PAGE
                     && maps[k].frame == maps[k'].frame) ==> !Writable(maps[k])
  }

  // Mapped frames exist and are whole.
  ghost predicate Whole(vm: Vm) {
    forall k :: k in vm.maps ==> vm.maps[k].frame < |vm.mem| && |vm.mem[vm.maps[k].frame]| == NPTENTRIES
  }

  // The scratch page of a handler: its frame is private, except that it has two names in one
  // environment once it has been mapped at the faulting page; so far as copied it holds that page.
  ghost predicate Temp(vm: Vm, e: nat, ph: Phase) {
    && Tmp(e) in vm.maps && (e, ph.v) in vm.maps && Seen((e, ph.v))
    && (forall k :: k in vm.maps && vm.maps[k].frame == vm.maps[Tmp(e)].frame ==>
         k == Tmp(e) || (ph.Moved? && k == (e, ph.v)))
    && match ph
       case Copying(v, n) =>
         && n <= NPTENTRIES && CopyOnWrite(vm.maps[(e, v)])
         && vm.maps[Tmp(e)].frame < |vm.mem| && vm.maps[(e, v)].frame < |vm.mem|
         && n <= |vm.mem[vm.maps[Tmp(e)].frame]| && n <= |vm.mem[vm.maps[(e, v)].frame]|
         && vm.mem[vm.maps[Tmp(e)].frame][..n] == vm.mem[vm.maps[(e, v)].frame][..n]
       case Moved(v) => vm.maps[(e, v)] == Pte(vm.maps[Tmp(e)].frame, RW)
  }

  // The scratch pages are those of the environments inside pgfault.
  ghost predicate Temps(st: State) {
    && (forall e: nat :: Tmp(e) in st.vm.maps <==> e in st.faults)
    && (forall e :: e in st.faults ==> Temp(st.vm, e, st.faults[e]))
  }

  ghost predicate Inv(st: State) {
    Exclusive(st.vm.maps) && Whole(st.vm) && Temps(st)
  }

  // ------------------------------------------------------------- steps on the memory

  // Every frame that was mapped keeps its contents.
  ghost predicate SameData(vm: Vm, mem: seq<Page>) {
    |mem| == |vm.mem| && forall k :: k in vm.maps && vm.maps[k].frame < |mem| ==>
      mem[vm.maps[k].frame] == vm.mem[vm.maps[k].frame]
  }

  // Page k is backed by a frame nobody maps, holding `page`; writable by its owner.
  ghost predicate FreshStep(vm: Vm, vm': Vm, k: Slot, page: Page) {
    && k in vm'.maps
    && var f := vm'.maps[k].frame;
       !Mapped(vm.maps, f) && vm'.maps == vm.maps[k := Pte(f, RW)]
       && SameData(Vm(vm.maps - {k}, vm.mem), vm'.mem) && f < |vm'.mem| && vm'.mem[f] == page
  }

  // One word of the memmove of page v to PFTEMP.
  ghost predicate CopyStep(vm: Vm, vm': Vm, e: nat, v: nat, n: nat) {
    && Tmp(e) in vm.maps && (e, v) in vm.maps
    && var t, s := vm.maps[Tmp(e)].frame, vm.maps[(e, v)].frame;
       && t < |vm.mem| && s < |vm.mem| && n < |vm.mem[t]| && n < |vm.mem[s]|
       && var page: Page := vm.mem[t][n := vm.mem[s][n]];
          vm' == vm.(mem := vm.mem[t := page])
  }

  // The page at PFTEMP mapped at v.
  ghost predicate RemapStep(vm: Vm, vm': Vm, e: nat, v: nat) {
    && Tmp(e) in vm.maps && vm'.maps == vm.maps[(e, v) := Pte(vm.maps[Tmp(e)].frame, RW)]
    && SameData(Vm(vm.maps - {(e, v)}, vm.mem), vm'.mem)
  }

  // PFTEMP unmapped.
  ghost predicate DropStep(vm: Vm, vm': Vm, e: nat) {
    vm'.maps == vm.maps - {Tmp(e)} && SameData(Vm(vm.maps - {Tmp(e)}, vm.mem), vm'.mem)
  }

  // A store that the page permissions allow.
  ghost predicate StoreStep(vm: Vm, vm': Vm, k: Slot, i: nat, w: Word) {
    && k in vm.maps && Writable(vm.maps[k])
    && vm.maps[k].frame < |vm.mem| && i < |vm.mem[vm.maps[k].frame]|
    && var page: Page := vm.mem[vm.maps[k].frame][i := w];
       vm' == vm.(mem := vm.mem[vm.maps[k].frame := page])
  }

  // The permission duppage gives to both mappings.
  function DupPerm(perm: nat): nat {
    if Has(perm, PTE_W) || Has(perm, PTE_COW) then COW else RO
  }

  function DupPte(p: Pte): Pte { Pte(p.frame, DupPerm(p.perm)) }

  // duppage: c maps the frame of e's page v too, and neither may write it.
  function DupMaps(maps: map<Slot, Pte>, e: nat, c: nat, v: nat): map<Slot, Pte> {
    if (e, v) in maps then maps[(c, v) := DupPte(maps[(e, v)])][(e, v) := DupPte(maps[(e, v)])] else maps
  }

  // The mappings after fork's loop has passed the pages below n.
  function ForkMaps(maps: map<Slot, Pte>, e: nat, c: nat, n: nat): map<Slot, Pte> {
    if n == 0 then maps
    else if n - 1 == UXSTACK_PAGE then ForkMaps(maps, e, c, n - 1)
    else DupMaps(ForkMaps(maps, e, c, n - 1), e, c, n - 1)
  }

  // fork: e's pages shared with the space c, which gets an exception stack of its own, `page`.
  ghost predicate ForkStep(vm: Vm, vm': Vm, e: nat, c: nat, page: Page) {
    FreshStep(Vm(ForkMaps(vm.maps, e, c, UPAGES_TOTAL), vm.mem), vm', (c, UXSTACK_PAGE), page)
  }

  // ------------------------------------------------------------------ the two machines

  // What environments do.  Load, Store and the calls Dup (one duppage of a fork), Alloc, Unmap and
  // Exit are the program's.  Begin, CopyWord, Remap and Drop are pgfault's, Frame is any change of the
  // exception stack by a fault or its handler, and Scratch is the upcall's store below the stack
  // pointer of the program.  Elsewhere is any change of frames that nobody maps: page tables and
  // directories, which the other calls write too.
  datatype Act =
    | Load(k: Slot, i: nat)
    | Store(k: Slot, i: nat, w: Word)
    | Dup(e: nat, c: nat, v: nat)
    | Alloc(k: Slot, page: Page)
    | Unmap(k: Slot)
    | Exit(e: nat)
    | Begin(k: Slot)
    | CopyWord(e: nat)
    | Remap(e: nat)
    | Drop(e: nat)
    | Frame(e: nat, page: Page)
    | Scratch(k: Slot, i: nat, w: Word)
    | Elsewhere

  datatype Out = Value(w: Word) | Fine | Trap | Silent

  // An environment inside pgfault does nothing else, and nobody changes its pages, but it may be
  // destroyed.  A program leaves PFTEMP alone and does not look at its exception stack.
  predicate Enabled(st: State, act: Act) {
    match act
    case Load(k, i) => k.0 !in st.faults && Seen(k) && i < NPTENTRIES
    case Store(k, i, w) => k.0 !in st.faults && Seen(k) && i < NPTENTRIES
    case Scratch(k, i, w) => k.0 !in st.faults && Seen(k) && i < NPTENTRIES
    case Dup(e, c, v) => e !in st.faults && c !in st.faults && e != c && Seen((e, v))
    case Alloc(k, page) => k.0 !in st.faults && k.1 != PFTEMP_PAGE && |page| == NPTENTRIES
    case Unmap(k) => k.0 !in st.faults && k.1 != PFTEMP_PAGE
    case Exit(e) => true
    case Begin(k) => k.0 !in st.faults && Seen(k) && k in st.vm.maps && CopyOnWrite(st.vm.maps[k])
    case CopyWord(e) => e in st.faults && st.faults[e].Copying? && st.faults[e].n < NPTENTRIES
    case Remap(e) => e in st.faults && st.faults[e].Copying? && st.faults[e].n == NPTENTRIES
    case Drop(e) => e in st.faults && st.faults[e].Moved?
    case Frame(e, page) => (e, UXSTACK_PAGE) in st.vm.maps && Writable(st.vm.maps[(e, UXSTACK_PAGE)])
                           && |page| == NPTENTRIES
    case Elsewhere => true
  }

  // New mappings, with the data of all pages kept.
  ghost predicate MapsStep(vm: Vm, vm': Vm, maps: map<Slot, Pte>) {
    vm'.maps == maps && SameData(vm, vm'.mem)
  }

  function WithoutEnv(maps: map<Slot, Pte>, e: nat): map<Slot, Pte> {
    map k | k in maps && k.0 != e :: maps[k]
  }

  ghost predicate FreshTemp(vm: Vm, vm': Vm, e: nat) {
    && Tmp(e) in vm'.maps && vm'.maps[Tmp(e)].frame < |vm'.mem| && |vm'.mem[vm'.maps[Tmp(e)].frame]| == NPTENTRIES
    && FreshStep(vm, vm', Tmp(e), vm'.mem[vm'.maps[Tmp(e)].frame])
  }

  // The copy-on-write machine.  A store to a copy-on-write page is possible only after the fault.
  ghost predicate CStep(st: State, act: Act, st': State, out: Out) {
    var vm, vm' := st.vm, st'.vm;
    Enabled(st, act) &&
    match act
    case Load(k, i) =>
      st' == st && out == (if k in vm.maps && vm.maps[k].frame < |vm.mem| && i < |vm.mem[vm.maps[k].frame]|
                           then Value(vm.mem[vm.maps[k].frame][i]) else Trap)
    case Store(k, i, w) =>
      if k in vm.maps && Writable(vm.maps[k]) then StoreStep(vm, vm', k, i, w) && st'.faults == st.faults && out == Fine
      else !(k in vm.maps && CopyOnWrite(vm.maps[k])) && st' == st && out == Trap
    case Scratch(k, i, w) => StoreStep(vm, vm', k, i, w) && st'.faults == st.faults && out == Silent
    case Dup(e, c, v) => MapsStep(vm, vm', DupMaps(vm.maps, e, c, v)) && st'.faults == st.faults && out == Fine
    case Alloc(k, page) => FreshStep(vm, vm', k, page) && st'.faults == st.faults && out == Fine
    case Unmap(k) => MapsStep(vm, vm', vm.maps - {k}) && st'.faults == st.faults && out == Fine
    case Exit(e) => MapsStep(vm, vm', WithoutEnv(vm.maps, e)) && st'.faults == st.faults - {e} && out == Fine
    case Begin(k) => FreshTemp(vm, vm', k.0) && st'.faults == st.faults[k.0 := Copying(k.1, 0)] && out == Silent
    case CopyWord(e) =>
      var ph := st.faults[e];
      CopyStep(vm, vm', e, ph.v, ph.n) && st'.faults == st.faults[e := Copying(ph.v, ph.n + 1)] && out == Silent
    case Remap(e) => RemapStep(vm, vm', e, st.faults[e].v) && st'.faults == st.faults[e := Moved(st.faults[e].v)]
                     && out == Silent
    case Drop(e) => DropStep(vm, vm', e) && st'.faults == st.faults - {e} && out == Silent
    case Frame(e, page) =>
      vm.maps[(e, UXSTACK_PAGE)].frame < |vm.mem| &&
      st' == st.(vm := vm.(mem := vm.mem[vm.maps[(e, UXSTACK_PAGE)].frame := page])) && out == Silent
    case Elsewhere => MapsStep(vm, vm', vm.maps) && st'.faults == st.faults && out == Silent
  }

  datatype EPage = EPage(data: Page, writable: bool)

  // What each environment sees: its own copy of every page.
  function View(vm: Vm): map<Slot, EPage> {
    map k | k in vm.maps && Seen(k) && vm.maps[k].frame < |vm.mem| ::
      EPage(vm.mem[vm.maps[k].frame], Writable(vm.maps[k]) || CopyOnWrite(vm.maps[k]))
  }

  // One page copied.
  function CopyPage(ev: map<Slot, EPage>, e: nat, c: nat, v: nat): map<Slot, EPage> {
    if (e, v) in ev then ev[(c, v) := ev[(e, v)]] else ev
  }

  function PutWord(ev: map<Slot, EPage>, k: Slot, i: nat, w: Word): map<Slot, EPage> {
    if k in ev && ev[k].writable && i < |ev[k].data| then
      var page: Page := ev[k].data[i := w];
      ev[k := EPage(page, true)]
    else ev
  }

  // The machine in which every environment has its own copy of everything, and pgfault nothing to do.
  function EStep(ev: map<Slot, EPage>, act: Act): (map<Slot, EPage>, Out) {
    match act
    case Load(k, i) => (ev, if k in ev && i < |ev[k].data| then Value(ev[k].data[i]) else Trap)
    case Store(k, i, w) => (PutWord(ev, k, i, w), if k in ev && ev[k].writable && i < |ev[k].data| then Fine else Trap)
    case Dup(e, c, v) => (CopyPage(ev, e, c, v), Fine)
    case Alloc(k, page) => (if Seen(k) then ev[k := EPage(page, true)] else ev, Fine)
    case Unmap(k) => (ev - {k}, Fine)
    case Exit(e) => (map k | k in ev && k.0 != e :: ev[k], Fine)
    case Scratch(k, i, w) => (PutWord(ev, k, i, w), Silent)
    case _ => (ev, Silent)
  }

  // -------------------------------------------------------- each step, seen eagerly

  lemma ViewAt(vm: Vm, k: Slot)
    requires Whole(vm)
    ensures k in View(vm) <==> k in vm.maps && Seen(k)
    ensures k in View(vm) ==>
              View(vm)[k] == EPage(vm.mem[vm.maps[k].frame], Writable(vm.maps[k]) || CopyOnWrite(vm.maps[k]))
  {}

  // A view is known by its pages.
  lemma ViewIs(vm: Vm, ev: map<Slot, EPage>)
    requires Whole(vm)
    requires forall k: Slot :: k in ev <==> k in vm.maps && Seen(k)
    requires forall k: Slot :: k in ev ==>
               ev[k] == EPage(vm.mem[vm.maps[k].frame], Writable(vm.maps[k]) || CopyOnWrite(vm.maps[k]))
    ensures View(vm) == ev
  {}

  // The frames of mapped pages before and after a step in which their data stay.
  ghost predicate Kept(vm: Vm, vm': Vm, k: Slot) {
    && k in vm.maps && k in vm'.maps && vm'.maps[k] == vm.maps[k]
    && vm.maps[k].frame < |vm.mem| && vm.maps[k].frame < |vm'.mem|
    && vm'.mem[vm.maps[k].frame] == vm.mem[vm.maps[k].frame]
  }

  // A handler's scratch page outlives a step that keeps its two pages and maps its frame nowhere.
  lemma TempKept(vm: Vm, vm': Vm, e: nat, ph: Phase)
    requires Temp(vm, e, ph) && Kept(vm, vm', Tmp(e)) && Kept(vm, vm', (e, ph.v))
    requires forall k :: k in vm'.maps && vm'.maps[k].frame == vm.maps[Tmp(e)].frame ==>
               (k in vm.maps && vm'.maps[k].frame == vm.maps[k].frame)
    ensures Temp(vm', e, ph)
  {}

  // ---- a page on a fresh frame

  lemma FreshKept(vm: Vm, vm': Vm, k: Slot, page: Page, j: Slot)
    requires Whole(vm) && FreshStep(vm, vm', k, page) && j in vm.maps && j != k
    ensures Kept(vm, vm', j) && vm.maps[j].frame != vm'.maps[k].frame
  {
    var others := vm.maps - {k};
    assert j in others && others[j] == vm.maps[j];
    assert Mapped(vm.maps, vm.maps[j].frame);
  }

  // The invariant but for the entry of k.0 itself.
  lemma FreshInv(st: State, vm': Vm, k: Slot, page: Page)
    requires Inv(st) && FreshStep(st.vm, vm', k, page) && |page| == NPTENTRIES && k.0 !in st.faults
    ensures Exclusive(vm'.maps) && Whole(vm')
    ensures forall e :: e in st.faults ==> Temp(vm', e, st.faults[e])
    ensures forall j :: j in st.vm.maps && j != k ==> Kept(st.vm, vm', j)
  {
    var vm := st.vm;
    forall j | j in vm.maps && j != k
      ensures Kept(vm, vm', j) && vm.maps[j].frame != vm'.maps[k].frame
    {
      FreshKept(vm, vm', k, page, j);
    }
    forall e | e in st.faults ensures Temp(vm', e, st.faults[e]) {
      assert Temp(vm, e, st.faults[e]);
      hide Exclusive, Whole, Temps, Mapped;
      TempKept(vm, vm', e, st.faults[e]);
    }
  }

  // Seen pages kept: the same view.
  lemma SameView(vm: Vm, vm': Vm)
    requires Whole(vm) && Whole(vm')
    requires forall k: Slot :: Seen(k) ==> (k in vm.maps <==> k in vm'.maps)
    requires forall k: Slot :: Seen(k) && k in vm.maps ==> Kept(vm, vm', k)
    ensures View(vm') == View(vm)
  {}

  // All but one kept: the view with one page changed.
  lemma OneView(vm: Vm, vm': Vm, k: Slot, page: Page)
    requires Whole(vm) && Whole(vm') && Seen(k) && k in vm'.maps && vm'.mem[vm'.maps[k].frame] == page
    requires Writable(vm'.maps[k]) || CopyOnWrite(vm'.maps[k])
    requires forall j: Slot :: j != k ==> (j in vm.maps <==> j in vm'.maps)
    requires forall j: Slot :: j != k && j in vm.maps ==> Kept(vm, vm', j)
    ensures View(vm') == View(vm)[k := EPage(page, true)]
  {
    var ev := View(vm)[k := EPage(page, true)];
    forall j: Slot
      ensures j in ev <==> j in vm'.maps && Seen(j)
      ensures j in ev ==> ev[j] == EPage(vm'.mem[vm'.maps[j].frame], Writable(vm'.maps[j]) || CopyOnWrite(vm'.maps[j]))
    {
      ViewAt(vm, j);
    }
    hide View;
    ViewIs(vm', ev);
  }

  lemma AllocInv(st: State, st': State, k: Slot, page: Page)
    requires Inv(st) && Enabled(st, Alloc(k, page)) && FreshStep(st.vm, st'.vm, k, page) && st'.faults == st.faults
    ensures Inv(st') && forall j :: j in st.vm.maps && j != k ==> Kept(st.vm, st'.vm, j)
  {
    FreshInv(st, st'.vm, k, page);
    hide Exclusive, Whole, Temp, Kept, SameData, Mapped;
    assert Temps(st');
  }

  lemma AllocRefines(st: State, act: Act, st': State, out: Out)
    requires Inv(st) && act.Alloc? && CStep(st, act, st', out)
    ensures Inv(st') && (View(st'.vm), out) == EStep(View(st.vm), act)
  {
    AllocInv(st, st', act.k, act.page);
    hide Exclusive, Temps, View, Kept, SameData, Mapped;
    if Seen(act.k) { OneView(st.vm, st'.vm, act.k, act.page); } else { SameView(st.vm, st'.vm); }
  }

  // ---- pgfault

  lemma BeginTemp(st: State, vm': Vm, k: Slot)
    requires Inv(st) && Enabled(st, Begin(k)) && FreshTemp(st.vm, vm', k.0)
    ensures Temp(vm', k.0, Copying(k.1, 0))
  {
    var vm, tmp := st.vm, Tmp(k.0);
    forall j | j in vm.maps && j != tmp ensures Kept(vm, vm', j) && vm.maps[j].frame != vm'.maps[tmp].frame {
      FreshKept(vm, vm', tmp, vm'.mem[vm'.maps[tmp].frame], j);
    }
    assert Kept(vm, vm', k);
  }

  lemma BeginInv(st: State, st': State, k: Slot)
    requires Inv(st) && Enabled(st, Begin(k)) && FreshTemp(st.vm, st'.vm, k.0)
    requires st'.faults == st.faults[k.0 := Copying(k.1, 0)]
    ensures Inv(st')
    ensures forall j :: j in st.vm.maps && j != Tmp(k.0) ==> Kept(st.vm, st'.vm, j)
  {
    FreshInv(st, st'.vm, Tmp(k.0), st'.vm.mem[st'.vm.maps[Tmp(k.0)].frame]);
    BeginTemp(st, st'.vm, k);
    hide Exclusive, Whole, Temp, Temps, Kept, Mapped, SameData;
    BeginTemps(st, st', k);
  }

  lemma BeginTemps(st: State, st': State, k: Slot)
    requires Temps(st) && Tmp(k.0) in st'.vm.maps && st'.vm.maps == st.vm.maps[Tmp(k.0) := st'.vm.maps[Tmp(k.0)]]
    requires st'.faults == st.faults[k.0 := Copying(k.1, 0)] && Temp(st'.vm, k.0, Copying(k.1, 0))
    requires forall e :: e in st.faults ==> Temp(st'.vm, e, st.faults[e])
    ensures Temps(st')
  {
    hide Temp;
  }

  lemma BeginRefines(st: State, act: Act, st': State, out: Out)
    requires Inv(st) && act.Begin? && CStep(st, act, st', out)
    ensures Inv(st') && (View(st'.vm), out) == EStep(View(st.vm), act)
  {
    BeginInv(st, st', act.k);
    hide Exclusive, Temps, Temp, View, Kept, Mapped, SameData;
    SameView(st.vm, st'.vm);
  }

  // The frames a handler copies from and to are two, and no other handler's.
  lemma CopyApart(st: State, e: nat)
    requires Inv(st) && e in st.faults && st.faults[e].Copying?
    ensures var maps := st.vm.maps; var v := st.faults[e].v; var t := maps[Tmp(e)].frame;
            && Tmp(e) in maps && (e, v) in maps && Seen((e, v)) && CopyOnWrite(maps[(e, v)])
            && (forall k :: k in maps && maps[k].frame == t ==> k == Tmp(e))
            && (forall d :: d in st.faults && d != e ==> Tmp(d) in maps && (d, st.faults[d].v) in maps)
  {
    assert Temp(st.vm, e, st.faults[e]);
    forall d | d in st.faults
      ensures Tmp(d) in st.vm.maps && (d, st.faults[d].v) in st.vm.maps
    {
      assert Temp(st.vm, d, st.faults[d]);
    }
  }

  lemma CopyTemps(st: State, st': State, e: nat)
    requires Inv(st) && Enabled(st, CopyWord(e)) && CopyStep(st.vm, st'.vm, e, st.faults[e].v, st.faults[e].n)
    requires st'.faults == st.faults[e := Copying(st.faults[e].v, st.faults[e].n + 1)]
    requires forall k :: k in st.vm.maps && k != Tmp(e) ==> Kept(st.vm, st'.vm, k)
    ensures Temps(st')
  {
    CopyApart(st, e);
    forall d | d in st'.faults ensures Temp(st'.vm, d, st'.faults[d]) {
      assert Temp(st.vm, d, st.faults[d]);
      if d == e {
        CopyGrows(st.vm, st'.vm, e, st.faults[e].v, st.faults[e].n);
      } else {
        TempKept(st.vm, st'.vm, d, st.faults[d]);
      }
    }
  }

  lemma CopyKeeps(st: State, vm': Vm, e: nat)
    requires Inv(st) && Enabled(st, CopyWord(e)) && CopyStep(st.vm, vm', e, st.faults[e].v, st.faults[e].n)
    ensures Whole(vm') && vm'.maps == st.vm.maps && forall k :: k in st.vm.maps && k != Tmp(e) ==> Kept(st.vm, vm', k)
  {
    CopyApart(st, e);
    hide Exclusive, Temps, Temp;
  }

  lemma CopyWordRefines(st: State, act: Act, st': State, out: Out)
    requires Inv(st) && act.CopyWord? && CStep(st, act, st', out)
    ensures Inv(st') && (View(st'.vm), out) == EStep(View(st.vm), act)
  {
    CopyKeeps(st, st'.vm, act.e);
    CopyTemps(st, st', act.e);
    hide Temps, View, Temp, Kept, Exclusive;
    SameView(st.vm, st'.vm);
  }

  lemma CopyGrows(vm: Vm, vm': Vm, e: nat, v: nat, n: nat)
    requires Whole(vm) && Temp(vm, e, Copying(v, n)) && CopyStep(vm, vm', e, v, n)
    requires vm.maps[Tmp(e)].frame != vm.maps[(e, v)].frame
    ensures Temp(vm', e, Copying(v, n + 1))
  {
    var t, s := vm.maps[Tmp(e)].frame, vm.maps[(e, v)].frame;
    assert vm'.mem[t][..n + 1] == vm.mem[t][..n] + [vm.mem[s][n]];
    assert vm'.mem[s][..n + 1] == vm.mem[s][..n] + [vm.mem[s][n]];
  }

  lemma KeptButOne(vm: Vm, vm': Vm, k: Slot, j: Slot)
    requires Whole(vm) && SameData(Vm(vm.maps - {k}, vm.mem), vm'.mem) && j in vm.maps && j != k && j in vm'.maps
    requires vm'.maps[j] == vm.maps[j]
    ensures Kept(vm, vm', j)
  {
    var others := vm.maps - {k};
    assert j in others && others[j] == vm.maps[j];
  }

  // What Remap does to the two pages it concerns, and to all others.
  lemma RemapPages(st: State, vm': Vm, e: nat)
    requires Inv(st) && e in st.faults && st.faults[e].Copying? && st.faults[e].n == NPTENTRIES
    requires RemapStep(st.vm, vm', e, st.faults[e].v)
    ensures forall k :: k in st.vm.maps && k != (e, st.faults[e].v) ==> Kept(st.vm, vm', k)
    ensures var at := (e, st.faults[e].v);
            && at in st.vm.maps && at in vm'.maps && Seen(at) && vm'.maps[at].perm == RW && CopyOnWrite(st.vm.maps[at])
            && vm'.maps[at].frame < |vm'.mem| && st.vm.maps[at].frame < |st.vm.mem|
            && vm'.mem[vm'.maps[at].frame] == st.vm.mem[st.vm.maps[at].frame]
            && (forall k :: k in st.vm.maps ==> k in vm'.maps) && (forall k :: k in vm'.maps ==> k in st.vm.maps)
  {
    var vm := st.vm;
    var at: Slot := (e, st.faults[e].v);
    CopyApart(st, e);
    var t, s := vm.maps[Tmp(e)].frame, vm.maps[at].frame;
    forall k | k in vm.maps && k != at ensures Kept(vm, vm', k) { KeptButOne(vm, vm', at, k); }
    assert Kept(vm, vm', Tmp(e));
    assert vm.mem[t] == vm.mem[s] by {
      assert Temp(vm, e, st.faults[e]);
      assert vm.mem[t][..NPTENTRIES] == vm.mem[t] && vm.mem[s][..NPTENTRIES] == vm.mem[s];
    }
  }

  lemma RemapExclusive(st: State, vm': Vm, e: nat)
    requires Inv(st) && e in st.faults && st.faults[e].Copying? && RemapStep(st.vm, vm', e, st.faults[e].v)
    ensures Exclusive(vm'.maps)
  {
    CopyApart(st, e);
    hide Temps, Temp, Whole;
  }

  lemma RemapRefines(st: State, act: Act, st': State, out: Out)
    requires Inv(st) && act.Remap? && CStep(st, act, st', out)
    ensures Inv(st') && (View(st'.vm), out) == EStep(View(st.vm), act)
  {
    var vm, vm', e := st.vm, st'.vm, act.e;
    var at: Slot := (e, st.faults[e].v);
    RemapPages(st, vm', e);
    RemapExclusive(st, vm', e);
    RemapTemps(st, st', e);
    hide Temps, Exclusive;
    RemapView(vm, vm', at);
  }

  lemma RemapView(vm: Vm, vm': Vm, at: Slot)
    requires Whole(vm) && at in vm.maps && at in vm'.maps && Seen(at) && vm'.maps[at].perm == RW
    requires CopyOnWrite(vm.maps[at])
    requires forall k :: k in vm.maps && k != at ==> Kept(vm, vm', k)
    requires vm'.maps[at].frame < |vm'.mem| && vm'.mem[vm'.maps[at].frame] == vm.mem[vm.maps[at].frame]
    requires (forall k :: k in vm.maps ==> k in vm'.maps) && (forall k :: k in vm'.maps ==> k in vm.maps)
    ensures Whole(vm') && View(vm') == View(vm)
  {
    forall k | k in vm'.maps ensures vm'.maps[k].frame < |vm'.mem| && |vm'.mem[vm'.maps[k].frame]| == NPTENTRIES {
      if k != at { assert Kept(vm, vm', k); }
    }
    ViewAt(vm, at);
    OneView(vm, vm', at, vm.mem[vm.maps[at].frame]);
  }

  lemma RemapTemps(st: State, st': State, e: nat)
    requires Inv(st) && e in st.faults && st.faults[e].Copying? && RemapStep(st.vm, st'.vm, e, st.faults[e].v)
    requires st'.faults == st.faults[e := Moved(st.faults[e].v)]
    requires forall k :: k in st.vm.maps && k != (e, st.faults[e].v) ==> Kept(st.vm, st'.vm, k)
    ensures Temps(st')
  {
    CopyApart(st, e);
    forall d | d in st'.faults ensures Temp(st'.vm, d, st'.faults[d]) {
      assert Temp(st.vm, d, st.faults[d]);
      if d != e { TempKept(st.vm, st'.vm, d, st.faults[d]); }
    }
  }

  lemma DropTemp(st: State, st': State, e: nat, d: nat)
    requires Temps(st) && d in st.faults && d != e && st'.vm.maps == st.vm.maps - {Tmp(e)}
    requires forall k :: k in st'.vm.maps ==> Kept(st.vm, st'.vm, k)
    ensures Temp(st'.vm, d, st.faults[d])
  {
    HandlerPages(st, d);
    assert Temp(st.vm, d, st.faults[d]);
    assert Seen((d, st.faults[d].v));
    hide Kept, Temp, Temps;
    TempKept(st.vm, st'.vm, d, st.faults[d]);
  }

  lemma DropTemps(st: State, st': State, e: nat)
    requires Temps(st) && e in st.faults && DropStep(st.vm, st'.vm, e) && st'.faults == st.faults - {e}
    requires forall k :: k in st'.vm.maps ==> Kept(st.vm, st'.vm, k)
    ensures Temps(st')
  {
    hide Kept, Temp, SameData;
    forall d | d in st'.faults ensures Temp(st'.vm, d, st'.faults[d]) { hide Temps; DropTemp(st, st', e, d); }
  }

  lemma DropRefines(st: State, act: Act, st': State, out: Out)
    requires Inv(st) && act.Drop? && CStep(st, act, st', out)
    ensures Inv(st') && (View(st'.vm), out) == EStep(View(st.vm), act)
  {
    var vm, vm', e := st.vm, st'.vm, act.e;
    forall k | k in vm'.maps ensures Kept(vm, vm', k) { KeptButOne(vm, vm', Tmp(e), k); }
    DropTemps(st, st', e);
    hide Temps, View;
    SameView(vm, vm');
  }

  // ---- stores

  // The frame of a page its owner may write has no other name.
  lemma WriteApart(st: State, k: Slot)
    requires Inv(st) && k in st.vm.maps && Writable(st.vm.maps[k]) && k.1 != PFTEMP_PAGE
    requires (k.0 !in st.faults || k.1 == UXSTACK_PAGE)
    ensures forall j :: j in st.vm.maps && j != k ==> st.vm.maps[j].frame != st.vm.maps[k].frame
  {
    forall j | j in st.vm.maps && j != k ensures st.vm.maps[j].frame != st.vm.maps[k].frame {
      if j.1 == PFTEMP_PAGE {
        assert j == Tmp(j.0);
        assert Temp(st.vm, j.0, st.faults[j.0]);
      }
    }
  }

  // Its contents replaced.
  lemma WriteInv(st: State, k: Slot, page: Page)
    requires Inv(st) && k in st.vm.maps && Writable(st.vm.maps[k]) && k.1 != PFTEMP_PAGE
    requires (k.0 !in st.faults || k.1 == UXSTACK_PAGE)
    requires |page| == NPTENTRIES && st.vm.maps[k].frame < |st.vm.mem|
    ensures var st' := st.(vm := st.vm.(mem := st.vm.mem[st.vm.maps[k].frame := page]));
            Inv(st') && forall j :: j in st.vm.maps && j != k ==> Kept(st.vm, st'.vm, j)
  {
    var st' := st.(vm := st.vm.(mem := st.vm.mem[st.vm.maps[k].frame := page]));
    WriteApart(st, k);
    forall j | j in st.vm.maps && j != k ensures Kept(st.vm, st'.vm, j) {}
    forall e | e in st.faults ensures Temp(st'.vm, e, st.faults[e]) {
      assert Temp(st.vm, e, st.faults[e]);
      TempKept(st.vm, st'.vm, e, st.faults[e]);
    }
  }

  lemma StoreRefines(st: State, act: Act, st': State, out: Out)
    requires Inv(st) && (act.Store? || act.Scratch?) && CStep(st, act, st', out)
    ensures Inv(st') && (View(st'.vm), out) == EStep(View(st.vm), act)
  {
    var vm, vm', k := st.vm, st'.vm, act.k;
    ViewAt(vm, k);
    if k in vm.maps && Writable(vm.maps[k]) {
      var page: Page := vm.mem[vm.maps[k].frame][act.i := act.w];
      WriteInv(st, k, page);
      assert st' == st.(vm := vm.(mem := vm.mem[vm.maps[k].frame := page]));
      hide Inv, View, Kept;
      OneView(vm, vm', k, page);
    }
  }

  lemma FrameRefines(st: State, act: Act, st': State, out: Out)
    requires Inv(st) && act.Frame? && CStep(st, act, st', out)
    ensures Inv(st') && (View(st'.vm), out) == EStep(View(st.vm), act)
  {
    WriteInv(st, (act.e, UXSTACK_PAGE), act.page);
    hide Temps, Exclusive, View;
    SameView(st.vm, st'.vm);
  }

  // ---- calls

  // Frames that nobody maps do not matter.
  lemma ElsewhereKeeps(st: State, mem: seq<Page>)
    requires Inv(st) && SameData(st.vm, mem)
    ensures Inv(st.(vm := st.vm.(mem := mem))) && View(st.vm.(mem := mem)) == View(st.vm)
  {
    var vm, vm' := st.vm, st.vm.(mem := mem);
    forall k | k in vm.maps ensures Kept(vm, vm', k) {}
    assert Whole(vm');
    forall e | e in st.faults ensures Temp(vm', e, st.faults[e]) {
      HandlerPages(st, e);
      TempKept(vm, vm', e, st.faults[e]);
    }
    hide Temp, View, Kept;
    SameView(vm, vm');
  }

  // A step on the mappings whose result is known for unchanged memory.
  lemma MapsRefine(st: State, st': State)
    requires Inv(State(st'.vm.(mem := st.vm.mem), st'.faults)) && SameData(st'.vm.(mem := st.vm.mem), st'.vm.mem)
    ensures Inv(st') && View(st'.vm) == View(st'.vm.(mem := st.vm.mem))
  {
    ElsewhereKeeps(State(st'.vm.(mem := st.vm.mem), st'.faults), st'.vm.mem);
  }

  // Pages of mappings that come from the mappings before keep their data.
  lemma SameDataFrom(vm: Vm, maps: map<Slot, Pte>, mem: seq<Page>)
    requires SameData(vm, mem) && forall k :: k in maps ==> Mapped(vm.maps, maps[k].frame)
    ensures SameData(Vm(maps, vm.mem), mem)
  {}

  lemma DupPermBits(perm: nat)
    ensures !Has(DupPerm(perm), PTE_W)
    ensures Has(DupPerm(perm), PTE_COW) <==> Has(perm, PTE_W) || Has(perm, PTE_COW)
  {}

  lemma DupExclusive(maps: map<Slot, Pte>, e: nat, c: nat, v: nat)
    requires Exclusive(maps) && e != c && v != PFTEMP_PAGE
    ensures Exclusive(DupMaps(maps, e, c, v))
  {
    if (e, v) in maps {
      DupPermBits(maps[(e, v)].perm);
      var maps' := DupMaps(maps, e, c, v);
      forall k, k' | k in maps' && k' in maps' && k != k' && k.1 != PFTEMP_PAGE && k'.1 != PFTEMP_PAGE
                     && maps'[k].frame == maps'[k'].frame
        ensures !Writable(maps'[k]) {
        if k != (e, v) && k != (c, v) {
          assert k in maps && maps'[k] == maps[k];
          var o := if k' == (c, v) then (e, v) else k';
          assert o in maps && maps[o].frame == maps'[k'].frame;
        }
      }
    }
  }

  // duppage's two pages are no handler's, and its frame is no handler's scratch page.
  lemma DupApart(st: State, e: nat, c: nat, v: nat, d: nat)
    requires Inv(st) && Enabled(st, Dup(e, c, v)) && d in st.faults
    ensures Temp(st.vm, d, st.faults[d]) && d != e && d != c && v != PFTEMP_PAGE
    ensures (e, v) in st.vm.maps ==> st.vm.maps[(e, v)].frame != st.vm.maps[Tmp(d)].frame
    ensures Kept(st.vm, st.vm, Tmp(d)) && Kept(st.vm, st.vm, (d, st.faults[d].v))
  {
    assert Temp(st.vm, d, st.faults[d]);
  }

  lemma DupTemp(st: State, e: nat, c: nat, v: nat, d: nat)
    requires Inv(st) && Enabled(st, Dup(e, c, v)) && d in st.faults
    ensures Temp(st.vm.(maps := DupMaps(st.vm.maps, e, c, v)), d, st.faults[d])
  {
    DupApart(st, e, c, v, d);
    hide Inv, Exclusive, Temps, Temp, Whole;
    if (e, v) in st.vm.maps { TempKept(st.vm, st.vm.(maps := DupMaps(st.vm.maps, e, c, v)), d, st.faults[d]); }
  }

  lemma DupInv(st: State, e: nat, c: nat, v: nat)
    requires Inv(st) && Enabled(st, Dup(e, c, v))
    ensures Inv(st.(vm := st.vm.(maps := DupMaps(st.vm.maps, e, c, v))))
  {
    var vm' := st.vm.(maps := DupMaps(st.vm.maps, e, c, v));
    DupExclusive(st.vm.maps, e, c, v);
    forall d | d in st.faults ensures Temp(vm', d, st.faults[d]) { DupTemp(st, e, c, v, d); }
    hide Exclusive, Temp, DupPte;
    assert Whole(vm') by { hide Temps; }
    assert Temps(st.(vm := vm')) by { hide Whole; }
  }

  // Sharing a page copy-on-write looks like copying it.
  lemma DupRefines(st: State, act: Act, st': State, out: Out)
    requires Inv(st) && act.Dup? && CStep(st, act, st', out)
    ensures Inv(st') && (View(st'.vm), out) == EStep(View(st.vm), act)
  {
    var vm, vm', e, c, v := st.vm, st'.vm, act.e, act.c, act.v;
    DupInv(st, e, c, v);
    DupFrames(vm.maps, e, c, v);
    SameDataFrom(vm, vm'.maps, vm'.mem);
    hide Exclusive, Temps, SameData, Mapped;
    MapsRefine(st, st');
    ViewAt(vm, (e, v));
    if (e, v) in vm.maps {
      hide DupPerm, Writable, CopyOnWrite;
      DupView(vm, vm'.(mem := vm.mem), e, c, v);
    }
  }

  lemma DupFrames(maps: map<Slot, Pte>, e: nat, c: nat, v: nat)
    ensures forall k :: k in DupMaps(maps, e, c, v) ==> Mapped(maps, DupMaps(maps, e, c, v)[k].frame)
  {
    forall k | k in DupMaps(maps, e, c, v) ensures Mapped(maps, DupMaps(maps, e, c, v)[k].frame) {
      if (e, v) in maps { assert maps[(e, v)].frame == maps[(e, v)].frame; }
    }
  }

  lemma DupView(vm: Vm, vm': Vm, e: nat, c: nat, v: nat)
    requires Whole(vm) && Whole(vm') && vm' == vm.(maps := DupMaps(vm.maps, e, c, v)) && (e, v) in vm.maps
    requires Seen((e, v)) && e != c
    ensures View(vm') == CopyPage(View(vm), e, c, v)
  {
    DupPermBits(vm.maps[(e, v)].perm);
    hide DupPerm;
    var ev := CopyPage(View(vm), e, c, v);
    forall k: Slot
      ensures k in ev <==> k in vm'.maps && Seen(k)
      ensures k in ev ==> ev[k] == EPage(vm'.mem[vm'.maps[k].frame], Writable(vm'.maps[k]) || CopyOnWrite(vm'.maps[k]))
    {
      ViewAt(vm, k);
      ViewAt(vm, (e, v));
    }
    hide View;
    ViewIs(vm', ev);
  }

  // Mappings that go away take nothing else with them.
  lemma LessInv(st: State, st': State, kept: set<Slot>)
    requires Inv(st) && st'.vm.mem == st.vm.mem && kept <= st.vm.maps.Keys
            && st'.vm.maps == map k | k in kept :: st.vm.maps[k]
    requires forall e :: e in st'.faults <==> e in st.faults && Tmp(e) in kept
    requires forall e :: e in st'.faults ==> st'.faults[e] == st.faults[e] && (e, st.faults[e].v) in kept
    ensures Inv(st')
  {
    forall e | e in st'.faults ensures Temp(st'.vm, e, st'.faults[e]) {
      assert Temp(st.vm, e, st.faults[e]);
      TempKept(st.vm, st'.vm, e, st.faults[e]);
    }
  }

  lemma LessView(vm: Vm, vm': Vm, kept: set<Slot>)
    requires Whole(vm) && vm'.mem == vm.mem && kept <= vm.maps.Keys && vm'.maps == map k | k in kept :: vm.maps[k]
    ensures forall k: Slot :: k in View(vm') <==> k in View(vm) && k in kept
    ensures forall k: Slot :: k in View(vm') ==> View(vm')[k] == View(vm)[k]
  {}

  lemma HandlerPages(st: State, e: nat)
    requires Temps(st) && e in st.faults
    ensures Tmp(e) in st.vm.maps && (e, st.faults[e].v) in st.vm.maps
  {
    assert Temp(st.vm, e, st.faults[e]);
  }

  // Fewer mappings, all of them from before.
  lemma FewerData(vm: Vm, maps: map<Slot, Pte>, mem: seq<Page>)
    requires SameData(vm, mem) && forall k :: k in maps ==> k in vm.maps && maps[k] == vm.maps[k]
    ensures SameData(Vm(maps, vm.mem), mem)
  {}

  lemma GoneInv(st: State, act: Act, st': State, out: Out)
    requires Inv(st) && (act.Unmap? || act.Exit?) && CStep(st, act, st', out)
    ensures Inv(State(st'.vm.(mem := st.vm.mem), st'.faults)) && Inv(st')
    ensures View(st'.vm) == View(st'.vm.(mem := st.vm.mem))
  {
    FewerData(st.vm, st'.vm.maps, st'.vm.mem);
    GoneTemps(st);
    hide Inv, Temps, SameData, View;
    LessInv(st, State(st'.vm.(mem := st.vm.mem), st'.faults), st'.vm.maps.Keys);
    MapsRefine(st, st');
  }

  lemma GoneTemps(st: State)
    requires Inv(st)
    ensures forall e :: e in st.faults ==> Tmp(e) in st.vm.maps && (e, st.faults[e].v) in st.vm.maps
  {
    forall e | e in st.faults ensures Tmp(e) in st.vm.maps && (e, st.faults[e].v) in st.vm.maps { HandlerPages(st, e); }
  }

  lemma UnmapRefines(st: State, act: Act, st': State, out: Out)
    requires Inv(st) && act.Unmap? && CStep(st, act, st', out)
    ensures Inv(st') && (View(st'.vm), out) == EStep(View(st.vm), act)
  {
    GoneInv(st, act, st', out);
    LessView(st.vm, st'.vm.(mem := st.vm.mem), st'.vm.maps.Keys);
    hide View, Inv, SameData;
    assert View(st'.vm) == View(st.vm) - {act.k};
  }

  lemma ExitRefines(st: State, act: Act, st': State, out: Out)
    requires Inv(st) && act.Exit? && CStep(st, act, st', out)
    ensures Inv(st') && (View(st'.vm), out) == EStep(View(st.vm), act)
  {
    GoneInv(st, act, st', out);
    LessView(st.vm, st'.vm.(mem := st.vm.mem), st'.vm.maps.Keys);
    hide View, Inv, SameData;
    assert View(st'.vm) == map k | k in View(st.vm) && k.0 != act.e :: View(st.vm)[k];
  }

  lemma ElsewhereRefines(st: State, act: Act, st': State, out: Out)
    requires Inv(st) && act.Elsewhere? && CStep(st, act, st', out)
    ensures Inv(st') && (View(st'.vm), out) == EStep(View(st.vm), act)
  {
    ElsewhereKeeps(st, st'.vm.mem);
  }

  // Every step of the copy-on-write machine is the same step of the eager one.
  lemma StepRefines(st: State, act: Act, st': State, out: Out)
    requires Inv(st) && CStep(st, act, st', out)
    ensures Inv(st') && (View(st'.vm), out) == EStep(View(st.vm), act)
  {
    hide Inv, View, CStep, EStep;
    match act
    case Load(k, i) => LoadRefines(st, act, st', out);
    case Store(_, _, _) => StoreRefines(st, act, st', out);
    case Scratch(_, _, _) => StoreRefines(st, act, st', out);
    case Dup(_, _, _) => DupRefines(st, act, st', out);
    case Alloc(_, _) => AllocRefines(st, act, st', out);
    case Unmap(_) => UnmapRefines(st, act, st', out);
    case Exit(_) => ExitRefines(st, act, st', out);
    case Begin(_) => BeginRefines(st, act, st', out);
    case CopyWord(_) => CopyWordRefines(st, act, st', out);
    case Remap(_) => RemapRefines(st, act, st', out);
    case Drop(_) => DropRefines(st, act, st', out);
    case Frame(_, _) => FrameRefines(st, act, st', out);
    case Elsewhere => ElsewhereRefines(st, act, st', out);
  }

  lemma LoadRefines(st: State, act: Act, st': State, out: Out)
    requires Inv(st) && act.Load? && CStep(st, act, st', out)
    ensures Inv(st') && (View(st'.vm), out) == EStep(View(st.vm), act)
  {
    ViewAt(st.vm, act.k);
  }

  // ---------------------------------------------------------------------- all runs

  // A run of the copy-on-write machine and what it outputs.
  ghost predicate Run(st: State, acts: seq<Act>, outs: seq<Out>, st': State)
    decreases |acts|
  {
    |outs| == |acts| &&
    if acts == [] then st' == st
    else
      var n := |acts| - 1;
      exists mid: State :: Run(st, acts[..n], outs[..n], mid) && CStep(mid, acts[n], st', outs[n])
  }

  lemma RunOneMore(st: State, acts: seq<Act>, outs: seq<Out>, mid: State, act: Act, out: Out, st': State)
    requires Run(st, acts, outs, mid) && CStep(mid, act, st', out)
    ensures Run(st, acts + [act], outs + [out], st')
  {
    assert (acts + [act])[..|acts|] == acts && (outs + [out])[..|outs|] == outs;
  }

  lemma {:induction false} RunJoin(st: State, a: seq<Act>, oa: seq<Out>, mid: State, b: seq<Act>, ob: seq<Out>,
                                   st': State)
    requires Run(st, a, oa, mid) && Run(mid, b, ob, st')
    ensures Run(st, a + b, oa + ob, st')
    decreases |b|
  {
    hide CStep;
    if b == [] {
      assert a + b == a && oa + ob == oa;
    } else {
      var n := |b| - 1;
      var last: State :| Run(mid, b[..n], ob[..n], last) && CStep(last, b[n], st', ob[n]);
      RunJoin(st, a, oa, mid, b[..n], ob[..n], last);
      hide Run;
      RunOneMore(st, a + b[..n], oa + ob[..n], last, b[n], ob[n], st');
      JoinLast(a, b);
      JoinLast(oa, ob);
    }
  }

  lemma JoinLast<T>(a: seq<T>, b: seq<T>)
    requires b != []
    ensures a + b[..|b| - 1] + [b[|b| - 1]] == a + b
  {}

  function EEnd(ev: map<Slot, EPage>, acts: seq<Act>): map<Slot, EPage> {
    if acts == [] then ev else EStep(EEnd(ev, acts[..|acts| - 1]), acts[|acts| - 1]).0
  }

  function EOuts(ev: map<Slot, EPage>, acts: seq<Act>): seq<Out> {
    if acts == [] then [] else EOuts(ev, acts[..|acts| - 1]) + [EStep(EEnd(ev, acts[..|acts| - 1]), acts[|acts| - 1]).1]
  }

  // Whatever the environments do and however they interleave, inside a fork and inside a fault too,
  // every load returns and every access traps exactly as if each fork had copied.
  lemma {:induction false} RunRefines(st: State, acts: seq<Act>, outs: seq<Out>, st': State)
    requires Inv(st) && Run(st, acts, outs, st')
    ensures Inv(st') && View(st'.vm) == EEnd(View(st.vm), acts) && outs == EOuts(View(st.vm), acts)
    decreases |acts|
  {
    hide Inv, View, CStep, EStep;
    if acts != [] {
      var n := |acts| - 1;
      var mid: State :| Run(st, acts[..n], outs[..n], mid) && CStep(mid, acts[n], st', outs[n]);
      RunRefines(st, acts[..n], outs[..n], mid);
      StepRefines(mid, acts[n], st', outs[n]);
      assert outs == outs[..n] + [outs[n]];
    }
  }

  // -------------------------------------------------------------------- a whole fault

  function Copies(e: nat, n: nat): seq<Act> {
    if n == 0 then [] else Copies(e, n - 1) + [CopyWord(e)]
  }

  // pgfault from its first system call to its last.
  function FaultActs(k: Slot): seq<Act> {
    [Begin(k)] + Copies(k.0, NPTENTRIES) + [Remap(k.0)] + [Drop(k.0)]
  }

  function AllSilent(n: nat): (outs: seq<Out>)
    ensures |outs| == n
  {
    if n == 0 then [] else AllSilent(n - 1) + [Silent]
  }

  // One more silent act.
  lemma SilentStep(st: State, acts: seq<Act>, mid: State, act: Act, st': State)
    requires Run(st, acts, AllSilent(|acts|), mid) && CStep(mid, act, st', Silent)
    ensures Run(st, acts + [act], AllSilent(|acts + [act]|), st')
  {
    hide Run, CStep;
    assert AllSilent(|acts| + 1) == AllSilent(|acts|) + [Silent];
    RunOneMore(st, acts, AllSilent(|acts|), mid, act, Silent, st');
  }

  lemma NoActs(st: State)
    ensures Run(st, [], AllSilent(0), st)
  {}

  // The result of a fault that nobody came in between of: a private writable copy of the page.
  ghost predicate FaultStep(vm: Vm, vm': Vm, k: Slot) {
    k in vm.maps && CopyOnWrite(vm.maps[k]) && vm.maps[k].frame < |vm.mem|
    && FreshStep(vm, vm', k, vm.mem[vm.maps[k].frame])
  }

  // ------------------------------------------------------------------ the whole fork

  // The calls of fork's loop up to page n.
  function ForkActs(e: nat, c: nat, n: nat): seq<Act> {
    if n == 0 then []
    else if n - 1 == UXSTACK_PAGE || n - 1 == PFTEMP_PAGE then ForkActs(e, c, n - 1)
    else ForkActs(e, c, n - 1) + [Dup(e, c, n - 1)]
  }

  function AllFine(n: nat): (outs: seq<Out>)
    ensures |outs| == n
  {
    if n == 0 then [] else AllFine(n - 1) + [Fine]
  }

  lemma DupIsStep(st: State, st': State, e: nat, c: nat, v: nat)
    requires e != c && e !in st.faults && c !in st.faults && Seen((e, v))
    requires MapsStep(st.vm, st'.vm, DupMaps(st.vm.maps, e, c, v)) && st'.faults == st.faults
    ensures CStep(st, Dup(e, c, v), st', Fine)
  {}

  // Calls that change only frames nobody maps.
  lemma ElsewhereIsStep(st: State, st': State)
    requires MapsStep(st.vm, st'.vm, st.vm.maps) && st'.faults == st.faults
    ensures CStep(st, Elsewhere, st', Silent)
  {}

  lemma EEndOneMore(ev: map<Slot, EPage>, acts: seq<Act>, act: Act)
    ensures EEnd(ev, acts + [act]) == EStep(EEnd(ev, acts), act).0
  {
    assert (acts + [act])[..|acts|] == acts;
  }

  predicate Skipped(v: nat) { v == UXSTACK_PAGE || v == PFTEMP_PAGE }

  lemma ForkNext(maps: map<Slot, Pte>, e: nat, c: nat, v: nat)
    ensures ForkActs(e, c, 0) == [] && ForkMaps(maps, e, c, 0) == maps
    ensures ForkActs(e, c, v + 1) == if Skipped(v) then ForkActs(e, c, v) else ForkActs(e, c, v) + [Dup(e, c, v)]
    ensures ForkMaps(maps, e, c, v + 1) ==
            if v == UXSTACK_PAGE then ForkMaps(maps, e, c, v) else DupMaps(ForkMaps(maps, e, c, v), e, c, v)
  {}

  lemma DupKeepsTmp(maps: map<Slot, Pte>, e: nat, c: nat, v: nat)
    requires e != c && Tmp(e) !in maps
    ensures Tmp(e) !in DupMaps(maps, e, c, v) && DupMaps(maps, e, c, PFTEMP_PAGE) == maps
  {}

  lemma RunNothing(st: State)
    ensures Run(st, [], AllFine(0), st)
  {}

  lemma FineNext(n: nat)
    ensures AllFine(n + 1) == AllFine(n) + [Fine]
  {}

  lemma {:induction false} ForkLoopRun(st: State, e: nat, c: nat, n: nat)
    requires e != c && e !in st.faults && c !in st.faults && Tmp(e) !in st.vm.maps
    ensures Tmp(e) !in ForkMaps(st.vm.maps, e, c, n)
    ensures Run(st, ForkActs(e, c, n), AllFine(|ForkActs(e, c, n)|),
                st.(vm := st.vm.(maps := ForkMaps(st.vm.maps, e, c, n))))
  {
    hide Run, CStep, ForkActs, ForkMaps, DupMaps, AllFine;
    ForkNext(st.vm.maps, e, c, if n == 0 then 0 else n - 1);
    if n == 0 {
      RunNothing(st);
    } else {
      var v := n - 1;
      ForkLoopRun(st, e, c, v);
      var mid := st.(vm := st.vm.(maps := ForkMaps(st.vm.maps, e, c, v)));
      DupKeepsTmp(mid.vm.maps, e, c, v);
      if !Skipped(v) {
        var st' := st.(vm := st.vm.(maps := ForkMaps(st.vm.maps, e, c, n)));
        DupIsStep(mid, st', e, c, v);
        FineNext(|ForkActs(e, c, v)|);
        RunOneMore(st, ForkActs(e, c, v), AllFine(|ForkActs(e, c, v)|), mid, Dup(e, c, v), Fine, st');
      }
    }
  }

  // A fork is a run of one Dup for every page, and an Alloc of the child's exception stack.
  lemma ForkIsRun(st: State, st': State, e: nat, c: nat, page: Page)
    requires Inv(st) && e != c && e !in st.faults && c !in st.faults && |page| == NPTENTRIES
    requires ForkStep(st.vm, st'.vm, e, c, page) && st'.faults == st.faults
    ensures var acts := ForkActs(e, c, UPAGES_TOTAL) + [Alloc((c, UXSTACK_PAGE), page)];
            Run(st, acts, AllFine(|acts|), st')
  {
    ForkLoopRun(st, e, c, UPAGES_TOTAL);
    hide Run, ForkActs, ForkMaps, FreshStep, Inv;
    var mid := st.(vm := st.vm.(maps := ForkMaps(st.vm.maps, e, c, UPAGES_TOTAL)));
    RunOneMore(st, ForkActs(e, c, UPAGES_TOTAL), AllFine(|ForkActs(e, c, UPAGES_TOTAL)|), mid,
               Alloc((c, UXSTACK_PAGE), page), Fine, st');
  }

  // All pages of e copied to c.
  function EagerFork(ev: map<Slot, EPage>, e: nat, c: nat): map<Slot, EPage> {
    map k | k in ev.Keys + (set j | j in ev && j.0 == e :: (c, j.1)) ::
      if k.0 == c && (e, k.1) in ev then ev[(e, k.1)] else ev[k]
  }

  lemma EEndForkNext(ev: map<Slot, EPage>, e: nat, c: nat, v: nat)
    ensures EEnd(ev, ForkActs(e, c, 0)) == ev
    ensures EEnd(ev, ForkActs(e, c, v + 1)) ==
            if Skipped(v) then EEnd(ev, ForkActs(e, c, v)) else CopyPage(EEnd(ev, ForkActs(e, c, v)), e, c, v)
  {
    if !Skipped(v) { EEndOneMore(ev, ForkActs(e, c, v), Dup(e, c, v)); }
  }

  lemma {:induction false} EEndForkAt(ev: map<Slot, EPage>, e: nat, c: nat, n: nat, k: Slot)
    requires e != c && forall j: Slot :: j in ev ==> Seen(j)
    ensures var copied := k.0 == c && (e, k.1) in ev && k.1 < n; var ev' := EEnd(ev, ForkActs(e, c, n));
            (k in ev' <==> k in ev || copied) && (k in ev' ==> ev'[k] == if copied then ev[(e, k.1)] else ev[k])
  {
    hide EEnd, ForkActs;
    EEndForkNext(ev, e, c, if n == 0 then 0 else n - 1);
    if n > 0 {
      EEndForkAt(ev, e, c, n - 1, k);
      EEndForkAt(ev, e, c, n - 1, (e, n - 1));
      if Skipped(n - 1) { assert !Seen((e, n - 1)); }
    }
  }

  lemma EEndFork(ev: map<Slot, EPage>, e: nat, c: nat, page: Page)
    requires e != c && forall j: Slot :: j in ev ==> Seen(j) && j.1 < UPAGES_TOTAL
    ensures EEnd(ev, ForkActs(e, c, UPAGES_TOTAL) + [Alloc((c, UXSTACK_PAGE), page)]) == EagerFork(ev, e, c)
  {
    var loop := ForkActs(e, c, UPAGES_TOTAL);
    EEndOneMore(ev, loop, Alloc((c, UXSTACK_PAGE), page));
    var copied, eager := EEnd(ev, loop), EagerFork(ev, e, c);
    hide ForkActs;
    forall k: Slot
      ensures k in copied <==> k in eager
      ensures k in copied ==> copied[k] == eager[k]
    {
      EEndForkAt(ev, e, c, UPAGES_TOTAL, k);
    }
    assert copied == eager;
  }

  // fork is the eager copy of every page but the exception stack.
  lemma ForkRefines(st: State, st': State, e: nat, c: nat, page: Page)
    requires Inv(st) && e != c && e !in st.faults && c !in st.faults && |page| == NPTENTRIES
    requires ForkStep(st.vm, st'.vm, e, c, page) && st'.faults == st.faults
    requires forall k :: k in st.vm.maps ==> k.1 < UPAGES_TOTAL
    ensures Inv(st') && View(st'.vm) == EagerFork(View(st.vm), e, c)
  {
    ForkIsRun(st, st', e, c, page);
    var acts := ForkActs(e, c, UPAGES_TOTAL) + [Alloc((c, UXSTACK_PAGE), page)];
    RunRefines(st, acts, AllFine(|acts|), st');
    EEndFork(View(st.vm), e, c, page);
  }

  // ------------------------------------------- forgetting what lies below the stack pointer

  // The machine in which pgfault has nothing to do and no upcall ever runs.
  function PStep(pv: map<Slot, EPage>, act: Act): (map<Slot, EPage>, Out) {
    if act.Scratch? then (pv, Silent) else EStep(pv, act)
  }

  function PEnd(pv: map<Slot, EPage>, acts: seq<Act>): map<Slot, EPage> {
    if acts == [] then pv else PStep(PEnd(pv, acts[..|acts| - 1]), acts[|acts| - 1]).0
  }

  function POuts(pv: map<Slot, EPage>, acts: seq<Act>): seq<Out> {
    if acts == [] then [] else POuts(pv, acts[..|acts| - 1]) + [PStep(PEnd(pv, acts[..|acts| - 1]), acts[|acts| - 1]).1]
  }

  type Place = (Slot, nat)

  // The words an upcall has written below a stack pointer and nothing has been stored in since,
  // in the state pv of that machine.
  function DeadStep(pv: map<Slot, EPage>, dead: set<Place>, act: Act): set<Place> {
    match act
    case Scratch(k, i, _) => dead + {(k, i)}
    case Store(k, i, _) => if k in pv && pv[k].writable then dead - {(k, i)} else dead
    case Alloc(k, _) => if Seen(k) then (set x | x in dead && x.0 != k) else dead
    case Dup(e, c, v) =>
      if (e, v) in pv then (set x | x in dead && x.0 != (c, v)) + (set x | x in dead && x.0 == (e, v) :: ((c, v), x.1))
      else dead
    case _ => dead
  }

  function Dead(pv: map<Slot, EPage>, acts: seq<Act>): set<Place> {
    if acts == [] then {} else DeadStep(PEnd(pv, acts[..|acts| - 1]), Dead(pv, acts[..|acts| - 1]), acts[|acts| - 1])
  }

  // No program loads such a word.
  predicate LoadsLive(pv: map<Slot, EPage>, acts: seq<Act>) {
    forall n :: 0 <= n < |acts| && acts[n].Load? ==> (acts[n].k, acts[n].i) !in Dead(pv, acts[..n])
  }

  predicate AgreeAt(ev: map<Slot, EPage>, pv: map<Slot, EPage>, dead: set<Place>, k: Slot) {
    && (k in ev <==> k in pv)
    && (k in ev ==> ev[k].writable == pv[k].writable && |ev[k].data| == |pv[k].data|)
    && (k in ev ==> forall i :: 0 <= i < |ev[k].data| && (k, i) !in dead ==> ev[k].data[i] == pv[k].data[i])
  }

  ghost predicate Agree(ev: map<Slot, EPage>, pv: map<Slot, EPage>, dead: set<Place>) {
    forall k: Slot :: AgreeAt(ev, pv, dead, k)
  }

  lemma PutAgrees(ev: map<Slot, EPage>, pv: map<Slot, EPage>, dead: set<Place>, k: Slot, i: nat, w: Word)
    requires Agree(ev, pv, dead)
    ensures Agree(PutWord(ev, k, i, w), PutWord(pv, k, i, w),
                  if k in pv && pv[k].writable then dead - {(k, i)} else dead)
    ensures Agree(PutWord(ev, k, i, w), pv, dead + {(k, i)})
  {
    var ev', pv' := PutWord(ev, k, i, w), PutWord(pv, k, i, w);
    var less, more := if k in pv && pv[k].writable then dead - {(k, i)} else dead, dead + {(k, i)};
    assert AgreeAt(ev, pv, dead, k);
    forall j: Slot ensures AgreeAt(ev', pv', less, j) && AgreeAt(ev', pv, more, j) {
      assert AgreeAt(ev, pv, dead, j);
    }
  }

  lemma CopyAgrees(ev: map<Slot, EPage>, pv: map<Slot, EPage>, dead: set<Place>, act: Act)
    requires Agree(ev, pv, dead) && act.Dup?
    ensures Agree(EStep(ev, act).0, PStep(pv, act).0, DeadStep(pv, dead, act))
  {
    var from: Slot, to: Slot := (act.e, act.v), (act.c, act.v);
    var ev', pv', dead' := EStep(ev, act).0, PStep(pv, act).0, DeadStep(pv, dead, act);
    assert AgreeAt(ev, pv, dead, from);
    if from in pv {
      forall i: nat | (from, i) in dead ensures (to, i) in dead' {
        var x: Place := (from, i);
        assert x in dead && x.0 == from;
      }
    }
    forall k: Slot ensures AgreeAt(ev', pv', dead', k) {
      assert AgreeAt(ev, pv, dead, k);
      if k != to {
        forall i: nat | (k, i) in dead ensures (k, i) in dead' {
          var x: Place := (k, i);
          assert x in dead && x.0 != to;
        }
      }
    }
  }

  lemma AllocAgrees(ev: map<Slot, EPage>, pv: map<Slot, EPage>, dead: set<Place>, act: Act)
    requires Agree(ev, pv, dead) && act.Alloc?
    ensures Agree(EStep(ev, act).0, PStep(pv, act).0, DeadStep(pv, dead, act))
  {
    var ev', pv', dead' := EStep(ev, act).0, PStep(pv, act).0, DeadStep(pv, dead, act);
    forall k: Slot ensures AgreeAt(ev', pv', dead', k) {
      assert AgreeAt(ev, pv, dead, k);
      if k != act.k {
        forall i: nat | (k, i) in dead ensures (k, i) in dead' {
          var x: Place := (k, i);
          assert x in dead && x.0 != act.k;
        }
      }
    }
  }

  lemma StepAgrees(ev: map<Slot, EPage>, pv: map<Slot, EPage>, dead: set<Place>, act: Act)
    requires Agree(ev, pv, dead)
    ensures Agree(EStep(ev, act).0, PStep(pv, act).0, DeadStep(pv, dead, act))
    ensures (act.Load? ==> (act.k, act.i) !in dead) ==> EStep(ev, act).1 == PStep(pv, act).1
  {
    match act
    case Load(k, i) => assert AgreeAt(ev, pv, dead, k);
    case Store(k, i, w) =>
      assert AgreeAt(ev, pv, dead, k);
      PutAgrees(ev, pv, dead, k, i, w);
    case Scratch(k, i, w) => PutAgrees(ev, pv, dead, k, i, w);
    case Dup(_, _, _) => CopyAgrees(ev, pv, dead, act);
    case Alloc(_, _) => AllocAgrees(ev, pv, dead, act);
    case Unmap(_) => LessAgrees(ev, pv, dead, act);
    case Exit(_) => LessAgrees(ev, pv, dead, act);
    case _ => {}
  }

  lemma LessAgrees(ev: map<Slot, EPage>, pv: map<Slot, EPage>, dead: set<Place>, act: Act)
    requires Agree(ev, pv, dead) && (act.Unmap? || act.Exit?)
    ensures Agree(EStep(ev, act).0, PStep(pv, act).0, dead)
  {
    var ev', pv' := EStep(ev, act).0, PStep(pv, act).0;
    forall k: Slot ensures AgreeAt(ev', pv', dead, k) { assert AgreeAt(ev, pv, dead, k); }
  }

  lemma {:induction false} RunAgrees(ev: map<Slot, EPage>, acts: seq<Act>)
    requires LoadsLive(ev, acts)
    ensures Agree(EEnd(ev, acts), PEnd(ev, acts), Dead(ev, acts)) && EOuts(ev, acts) == POuts(ev, acts)
    decreases |acts|
  {
    if acts != [] {
      var n := |acts| - 1;
      assert forall m :: 0 <= m < n ==> acts[..n][m] == acts[m] && acts[..n][..m] == acts[..m];
      RunAgrees(ev, acts[..n]);
      hide EStep, PStep, DeadStep, Agree;
      StepAgrees(EEnd(ev, acts[..n]), PEnd(ev, acts[..n]), Dead(ev, acts[..n]), acts[n]);
    }
  }

  // Programs that do not load dead words cannot tell copy-on-write from copying at all.
  lemma ProgramSees(st: State, acts: seq<Act>, outs: seq<Out>, st': State)
    requires Inv(st) && Run(st, acts, outs, st') && LoadsLive(View(st.vm), acts)
    ensures outs == POuts(View(st.vm), acts)
  {
    RunRefines(st, acts, outs, st');
    RunAgrees(View(st.vm), acts);
  }
}
