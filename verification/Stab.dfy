// stab_binsearch of kern/kdebug.c: a binary search over the entries of one type, which lie
// scattered among others.
module Stabs {

  datatype Stab = Stab(ty: int, value: nat)

  const M32 := 0x1_0000_0000

  predicate Region(st: seq<Stab>, left: int, right: int) {
    0 <= left && right < |st| && left <= right + 1 && forall i :: 0 <= i < |st| ==> st[i].value < M32
  }

  // The last entry of the type in [l, m], or l - 1.
  function Probe(st: seq<Stab>, ty: int, l: int, m: int): (p: int)
    requires 0 <= l <= m + 1 <= |st|
    ensures l - 1 <= p <= m && (p >= l ==> st[p].ty == ty) && forall i :: p < i <= m ==> st[i].ty != ty
    decreases m + 1 - l
  {
    if m >= l && st[m].ty != ty then Probe(st, ty, l, m - 1) else m
  }

  // The entry the search looks at next.
  function Mid(st: seq<Stab>, ty: int, l: int, r: int): (p: int)
    requires 0 <= l <= r < |st|
    ensures l - 1 <= p <= (l + r) / 2 && (p >= l ==> Of(st, ty, p)) && forall i :: p < i <= (l + r) / 2 ==>
              !Of(st, ty, i)
  {
    Probe(st, ty, l, (l + r) / 2)
  }

  // left and right are the two results so far, any tells whether an entry of the type was seen.
  datatype Found = Found(left: int, right: int, any: bool)

  // The variables of the loop: [l, r] remains to be searched for the address a.
  datatype Pos = Pos(l: int, r: int, f: Found, a: nat)

  predicate Good(st: seq<Stab>, p: Pos) {
    Region(st, p.l, p.r) && 0 <= p.f.left && p.f.right < |st|
  }

  // addr++
  function Bump(a: nat): nat { (a + 1) % M32 }

  // One turn of the loop.
  function Turn(st: seq<Stab>, ty: int, p: Pos): (q: Pos)
    requires Good(st, p) && p.l <= p.r
    ensures Good(st, q)
  {
    var m := Mid(st, ty, p.l, p.r);
    if m < p.l then p.(l := (p.l + p.r) / 2 + 1)
    else if st[m].value < p.a then p.(l := (p.l + p.r) / 2 + 1, f := Found(m, p.f.right, true))
    else if st[m].value > p.a then p.(r := m - 1, f := Found(p.f.left, m - 1, true))
    else Pos(m, p.r, Found(m, p.f.right, true), Bump(p.a))
  }

  // An exact match may move neither end; the next look at the same entry will.
  function Exact(st: seq<Stab>, ty: int, p: Pos): nat
    requires Good(st, p)
  {
    if p.l <= p.r && Mid(st, ty, p.l, p.r) >= p.l && st[Mid(st, ty, p.l, p.r)].value == p.a then 1 else 0
  }

  // Every turn makes progress, on any table and for any address.
  lemma TurnProgress(st: seq<Stab>, ty: int, p: Pos)
    requires Good(st, p) && p.l <= p.r
    ensures var q := Turn(st, ty, p);
            q.r - q.l < p.r - p.l || (q.r - q.l == p.r - p.l && Exact(st, ty, q) < Exact(st, ty, p))
    ensures var q := Turn(st, ty, p); q.l <= q.r + 1
  {}

  function Search(st: seq<Stab>, ty: int, p: Pos): (g: Found)
    requires Good(st, p)
    ensures 0 <= g.left && g.right < |st|
    decreases p.r + 1 - p.l, Exact(st, ty, p)
  {
    if p.l > p.r then p.f
    else
      TurnProgress(st, ty, p);
      Search(st, ty, Turn(st, ty, p))
  }

  // The scan back from the right end to the rightmost entry of the type.
  function Settle(st: seq<Stab>, ty: int, l: int, left: int): int
    requires 0 <= left && l < |st|
    decreases l - left
  {
    if l > left && st[l].ty != ty then Settle(st, ty, l - 1, left) else l
  }

  // The two results: left, right.
  function BinSearch(st: seq<Stab>, left: int, right: int, ty: int, addr: nat): (int, int)
    requires Region(st, left, right)
  {
    var f := Search(st, ty, Pos(left, right, Found(left, right, false), addr));
    if f.any then (Settle(st, ty, f.right, f.left), f.right) else (f.left, f.left - 1)
  }

  // ------------------------------------------------------------------------ the code

  method StabBinsearch(st: seq<Stab>, regionLeft: int, regionRight: int, ty: int, addr0: nat)
      returns (left: int, right: int)
    requires Region(st, regionLeft, regionRight)
    ensures (left, right) == BinSearch(st, regionLeft, regionRight, ty, addr0)
  {
    hide Probe, Search, Settle;
    var l, r, any, addr: nat := regionLeft, regionRight, false, addr0;
    left, right := regionLeft, regionRight;
    while l <= r
      invariant Good(st, Pos(l, r, Found(left, right, any), addr))
      invariant Search(st, ty, Pos(regionLeft, regionRight, Found(regionLeft, regionRight, false), addr0))
             == Search(st, ty, Pos(l, r, Found(left, right, any), addr))
      decreases r + 1 - l, Exact(st, ty, Pos(l, r, Found(left, right, any), addr))
    {
      ghost var p := Pos(l, r, Found(left, right, any), addr);
      SearchTurn(st, ty, p);
      TurnProgress(st, ty, p);
      var true_m := (l + r) / 2;
      var m := ScanBack(st, ty, l, true_m);
      assert m == Mid(st, ty, l, r);
      hide Mid, Exact;
      if m < l {
        l := true_m + 1;
        continue;
      }
      any := true;
      if st[m].value < addr {
        left := m;
        l := true_m + 1;
      } else if st[m].value > addr {
        right := m - 1;
        r := m - 1;
      } else {
        left := m;
        l := m;
        addr := Bump(addr);
      }
    }
    SearchEnd(st, ty, Pos(l, r, Found(left, right, any), addr));
    if !any {
      right := left - 1;
    } else {
      left := SettleDown(st, ty, right, left);
    }
  }

  lemma SearchTurn(st: seq<Stab>, ty: int, p: Pos)
    requires Good(st, p) && p.l <= p.r
    ensures Search(st, ty, p) == Search(st, ty, Turn(st, ty, p))
  {}

  lemma SearchEnd(st: seq<Stab>, ty: int, p: Pos)
    requires Good(st, p) && p.l > p.r
    ensures Search(st, ty, p) == p.f
  {}

  // The last loop.
  method SettleDown(st: seq<Stab>, ty: int, right: int, left: int) returns (l: int)
    requires 0 <= left && right < |st|
    ensures l == Settle(st, ty, right, left)
  {
    l := right;
    while l > left && st[l].ty != ty
      invariant l < |st| && Settle(st, ty, l, left) == Settle(st, ty, right, left)
      decreases l - left
    {
      l := l - 1;
    }
  }

  // The inner loop, from m down to l.
  method ScanBack(st: seq<Stab>, ty: int, l: int, m0: int) returns (m: int)
    requires 0 <= l <= m0 < |st|
    ensures m == Probe(st, ty, l, m0)
  {
    m := m0;
    while m >= l && st[m].ty != ty
      invariant l - 1 <= m <= m0 && Probe(st, ty, l, m) == Probe(st, ty, l, m0)
    {
      m := m - 1;
    }
  }

  // --------------------------------------------------------------- what it is for

  predicate Of(st: seq<Stab>, ty: int, i: int) {
    0 <= i < |st| && st[i].ty == ty
  }

  // Entries of the type are in increasing order of address, repetitions allowed.
  predicate Sorted(st: seq<Stab>, ty: int, left: int, right: int) {
    forall i, j :: left <= i < j <= right && Of(st, ty, i) && Of(st, ty, j) ==> st[i].value <= st[j].value
  }

  predicate Covers(st: seq<Stab>, ty: int, left: int, right: int, addr: nat) {
    exists i :: left <= i <= right && Of(st, ty, i) && st[i].value <= addr
  }

  predicate Present(st: seq<Stab>, ty: int, left: int, right: int, addr: nat) {
    exists i :: left <= i <= right && Of(st, ty, i) && st[i].value == addr
  }

  // l is the last entry at or below addr, and r the place before the next entry (or the end).
  predicate Bracket(st: seq<Stab>, ty: int, left: int, right: int, addr: nat, l: int, r: int) {
    && left <= l <= r <= right && Of(st, ty, l) && st[l].value <= addr
    && (forall i :: l < i <= right && Of(st, ty, i) ==> st[i].value > addr)
    && (forall i :: l < i <= r ==> !Of(st, ty, i))
    && (r < right ==> Of(st, ty, r + 1))
  }

  // The addresses the search cannot cope with: present themselves, and the next one is present
  // too, or is no 32-bit number.
  predicate Trouble(st: seq<Stab>, ty: int, left: int, right: int, addr: nat) {
    Present(st, ty, left, right, addr) && (addr == M32 - 1 || Present(st, ty, left, right, addr + 1))
  }

  // What holds of the two ends and the results in the search for addr, while p.a is looked for.
  ghost predicate Narrowed(st: seq<Stab>, ty: int, left: int, right: int, addr: nat, p: Pos) {
    && left <= p.l <= p.r + 1 && p.r <= right && p.f.right == p.r && left <= p.f.left
    && (p.a == addr || p.a == addr + 1)
    && (p.f.left == left || (p.f.left <= p.r && Of(st, ty, p.f.left) && st[p.f.left].value < p.a))
    && (forall i :: left <= i < p.l && Of(st, ty, i) ==> st[i].value < p.a)
    && (forall i :: p.r < i <= right && Of(st, ty, i) ==> st[i].value > addr)
    && (p.r < right ==> Of(st, ty, p.r + 1))
    && (!p.f.any ==> p.r == right && forall i :: left <= i < p.l ==> !Of(st, ty, i))
  }

  // The search ends with everything up to its right end at or below addr, everything after it above.
  ghost predicate Split(st: seq<Stab>, ty: int, left: int, right: int, addr: nat, f: Found) {
    && left - 1 <= f.right <= right
    && left <= f.left && (f.left == left || (f.left <= f.right && Of(st, ty, f.left)))
    && (forall i :: left <= i <= f.right && Of(st, ty, i) ==> st[i].value <= addr)
    && (forall i :: f.right < i <= right && Of(st, ty, i) ==> st[i].value > addr)
    && (f.right < right ==> Of(st, ty, f.right + 1))
    && (!f.any ==> f.right == right && forall i :: left <= i <= right ==> !Of(st, ty, i))
  }

  lemma NarrowUp(st: seq<Stab>, ty: int, left: int, right: int, addr: nat, p: Pos, m: int)
    requires Region(st, left, right) && Sorted(st, ty, left, right) && Narrowed(st, ty, left, right, addr, p)
    requires Good(st, p)
    requires p.l <= p.r && m == Mid(st, ty, p.l, p.r) && (m < p.l || st[m].value < p.a)
    ensures Narrowed(st, ty, left, right, addr, Turn(st, ty, p))
  {
    hide Mid;
    if m >= p.l {
      forall i | left <= i < (p.l + p.r) / 2 + 1 && Of(st, ty, i) ensures st[i].value < p.a {
        if i < m { assert st[i].value <= st[m].value; }
      }
    }
  }

  lemma NarrowDown(st: seq<Stab>, ty: int, left: int, right: int, addr: nat, p: Pos, m: int)
    requires Region(st, left, right) && Sorted(st, ty, left, right) && Narrowed(st, ty, left, right, addr, p)
    requires Good(st, p)
    requires p.l <= p.r && m == Mid(st, ty, p.l, p.r) && m >= p.l && st[m].value > p.a
    ensures Narrowed(st, ty, left, right, addr, Turn(st, ty, p))
  {
    hide Mid;
    forall i | m - 1 < i <= right && Of(st, ty, i) ensures st[i].value > addr {
      if i > m { assert st[m].value <= st[i].value; }
    }
  }

  lemma NarrowExact(st: seq<Stab>, ty: int, left: int, right: int, addr: nat, p: Pos, m: int)
    requires Region(st, left, right) && Sorted(st, ty, left, right) && Narrowed(st, ty, left, right, addr, p)
    requires Good(st, p)
    requires p.l <= p.r && m == Mid(st, ty, p.l, p.r) && m >= p.l && st[m].value == p.a == addr
    requires Bump(addr) == addr + 1
    ensures Narrowed(st, ty, left, right, addr, Turn(st, ty, p))
  {
    hide Mid, Bump;
    forall i | left <= i < m && Of(st, ty, i) ensures st[i].value < addr + 1 { assert st[i].value <= st[m].value; }
  }

  // Every turn that does not match addr + 1 narrows the search.
  lemma TurnNarrows(st: seq<Stab>, ty: int, left: int, right: int, addr: nat, p: Pos, m: int)
    requires Region(st, left, right) && Sorted(st, ty, left, right) && Narrowed(st, ty, left, right, addr, p)
    requires Good(st, p)
    requires p.l <= p.r && m == Mid(st, ty, p.l, p.r) && addr < M32
    requires m >= p.l && st[m].value == p.a ==> p.a == addr < M32 - 1
    ensures Narrowed(st, ty, left, right, addr, Turn(st, ty, p))
  {
    assert addr < M32 - 1 ==> Bump(addr) == addr + 1;
    hide Mid, Narrowed, Bump, Sorted;
    if m >= p.l && st[m].value == p.a { NarrowExact(st, ty, left, right, addr, p, m); }
    else if m >= p.l && st[m].value > p.a { NarrowDown(st, ty, left, right, addr, p, m); }
    else { NarrowUp(st, ty, left, right, addr, p, m); }
  }

  // Without trouble only the address itself is ever matched exactly.
  ghost predicate Aimed(st: seq<Stab>, ty: int, left: int, right: int, addr: nat, a: nat) {
    a == addr || (a == addr + 1 && Present(st, ty, left, right, addr))
  }

  lemma OneMatch(st: seq<Stab>, ty: int, left: int, right: int, addr: nat, p: Pos, m: int)
    requires Narrowed(st, ty, left, right, addr, p) && Good(st, p) && Region(st, left, right) && p.l <= p.r
    requires m == Mid(st, ty, p.l, p.r)
    requires !Trouble(st, ty, left, right, addr) && addr < M32 && Aimed(st, ty, left, right, addr, p.a)
    ensures m >= p.l && st[m].value == p.a ==> p.a == addr < M32 - 1
    ensures Aimed(st, ty, left, right, addr, Turn(st, ty, p).a)
  {
    if m >= p.l { assert left <= m <= right && Of(st, ty, m); }
  }

  lemma {:induction false} SearchSplits(st: seq<Stab>, ty: int, left: int, right: int, addr: nat, p: Pos)
    requires Region(st, left, right) && Sorted(st, ty, left, right) && Narrowed(st, ty, left, right, addr, p)
    requires Good(st, p)
    requires !Trouble(st, ty, left, right, addr) && addr < M32 && Aimed(st, ty, left, right, addr, p.a)
    ensures Split(st, ty, left, right, addr, Search(st, ty, p))
    decreases p.r + 1 - p.l, Exact(st, ty, p)
  {
    if p.l <= p.r {
      var m := Mid(st, ty, p.l, p.r);
      OneMatch(st, ty, left, right, addr, p, m);
      TurnProgress(st, ty, p);
      SearchTurn(st, ty, p);
      hide Turn, Search, Exact, Narrowed, Split, Trouble, Aimed, Sorted;
      TurnNarrows(st, ty, left, right, addr, p, m);
      SearchSplits(st, ty, left, right, addr, Turn(st, ty, p));
    } else {
      Ends(st, ty, left, right, addr, p);
    }
  }

  lemma Ends(st: seq<Stab>, ty: int, left: int, right: int, addr: nat, p: Pos)
    requires Region(st, left, right) && Narrowed(st, ty, left, right, addr, p) && p.l > p.r
    ensures Split(st, ty, left, right, addr, p.f)
  {}

  lemma {:induction false} SettleIs(st: seq<Stab>, ty: int, l: int, left: int)
    requires 0 <= left && l < |st|
    ensures var s := Settle(st, ty, l, left);
            && (left <= l ==> left <= s <= l) && (s > left ==> Of(st, ty, s)) && (l < left ==> s == l)
            && forall i :: s < i <= l ==> !Of(st, ty, i)
    decreases l - left
  {
    if l > left && st[l].ty != ty { SettleIs(st, ty, l - 1, left); }
  }

  // The search is right unless addr is present together with its successor.
  lemma BracketsUnlessTrouble(st: seq<Stab>, ty: int, left: int, right: int, addr: nat)
    requires Region(st, left, right) && Sorted(st, ty, left, right) && Covers(st, ty, left, right, addr) && addr < M32
    requires !Trouble(st, ty, left, right, addr)
    ensures var (l, r) := BinSearch(st, left, right, ty, addr); Bracket(st, ty, left, right, addr, l, r)
  {
    var p := Pos(left, right, Found(left, right, false), addr);
    SearchSplits(st, ty, left, right, addr, p);
    hide Search, Trouble, Settle;
    SplitBrackets(st, ty, left, right, addr, Search(st, ty, p));
  }

  lemma SplitBrackets(st: seq<Stab>, ty: int, left: int, right: int, addr: nat, f: Found)
    requires Region(st, left, right) && Covers(st, ty, left, right, addr) && Split(st, ty, left, right, addr, f)
    ensures f.any && 0 <= f.left && f.right < |st|
    ensures Bracket(st, ty, left, right, addr, Settle(st, ty, f.right, f.left), f.right)
  {
    SettleIs(st, ty, f.right, f.left);
    hide Settle;
    var i :| left <= i <= right && Of(st, ty, i) && st[i].value <= addr;
    assert f.any && i <= f.right;
  }

  // ------------------------------------------------------- addresses before the first entry

  // A match is claimed only where there is an entry of the type.
  lemma {:induction false} AnySeen(st: seq<Stab>, ty: int, p: Pos)
    requires Good(st, p) && Search(st, ty, p).any && !p.f.any
    ensures exists i :: p.l <= i <= p.r && Of(st, ty, i)
    decreases p.r + 1 - p.l, Exact(st, ty, p)
  {
    if p.l <= p.r {
      SearchTurn(st, ty, p);
      TurnProgress(st, ty, p);
      var m := Mid(st, ty, p.l, p.r);
      if m < p.l {
        AnySeen(st, ty, Turn(st, ty, p));
        var i :| Turn(st, ty, p).l <= i <= Turn(st, ty, p).r && Of(st, ty, i);
        assert p.l <= i <= p.r;
      } else {
        assert p.l <= m <= p.r && Of(st, ty, m);
      }
    } else {
      SearchEnd(st, ty, p);
    }
  }

  // Nothing of the type lies at or below the address, and k is the first entry above it.
  predicate FirstAbove(st: seq<Stab>, ty: int, left: int, right: int, addr: nat, k: int) {
    left <= k <= right && Of(st, ty, k) && st[k].value > addr && forall i :: left <= i < k ==> !Of(st, ty, i)
  }

  // Left exceeds right, the sign that the address is in no entry, only where the part has no entry of the type
  // at all.  Before the first entry the two results are an interval that ends just before it.
  lemma NotContained(st: seq<Stab>, ty: int, left: int, right: int, addr: nat)
    requires Region(st, left, right) && Sorted(st, ty, left, right) && addr < M32 && !Covers(st, ty, left, right, addr)
    ensures var (l, r) := BinSearch(st, left, right, ty, addr);
            && (l > r <==> forall i :: left <= i <= right ==> !Of(st, ty, i))
            && (l > r ==> (l, r) == (left, left - 1))
            && (forall k :: FirstAbove(st, ty, left, right, addr, k) ==>
                  r == k - 1 && l == if k == left then k - 1 else left)
  {
    var p := Pos(left, right, Found(left, right, false), addr);
    SearchSplits(st, ty, left, right, addr, p);
    var f := Search(st, ty, p);
    if f.any { AnySeen(st, ty, p); }
    hide Search, Settle, Narrowed, Sorted;
    if f.any {
      EndsBelow(st, ty, left, right, addr, f);
      forall k | FirstAbove(st, ty, left, right, addr, k)
        ensures k == f.right + 1
      {
        FirstIs(st, ty, left, right, addr, f, k);
      }
    }
  }

  lemma FirstIs(st: seq<Stab>, ty: int, left: int, right: int, addr: nat, f: Found, k: int)
    requires Region(st, left, right) && Split(st, ty, left, right, addr, f) && f.right >= left - 1
    requires FirstAbove(st, ty, left, right, addr, k)
    ensures k == f.right + 1
  {}

  lemma EndsBelow(st: seq<Stab>, ty: int, left: int, right: int, addr: nat, f: Found)
    requires Region(st, left, right) && Split(st, ty, left, right, addr, f) && !Covers(st, ty, left, right, addr)
    requires f.any && exists i :: left <= i <= right && Of(st, ty, i)
    ensures 0 <= f.left && f.right < |st| && f.left == left && left - 1 <= f.right < right && Of(st, ty, f.right + 1)
    ensures Settle(st, ty, f.right, f.left) == if f.right < left then f.right else left
  {
    var i :| left <= i <= right && Of(st, ty, i);
    assert i > f.right;
    SettleIs(st, ty, f.right, left);
    hide Settle;
  }

  // --------------------------------------------------------------- and no further

  // BinSearch is right on every part of the table.
  ghost predicate RightOn(st: seq<Stab>, ty: int, l: int, r: int, addr: nat)
    requires Region(st, l, r)
  {
    Covers(st, ty, l, r, addr) ==>
      var (i, j) := BinSearch(st, l, r, ty, addr); Bracket(st, ty, l, r, addr, i, j)
  }

  ghost predicate RightEverywhere(st: seq<Stab>, ty: int, left: int, right: int, addr: nat)
    requires Region(st, left, right)
  {
    forall l, r :: left <= l <= r <= right ==> RightOn(st, ty, l, r, addr)
  }

  // The address 2^32 - 1 wraps to 0 when it is matched.
  lemma WrongAtTop(st: seq<Stab>, ty: int, i: int)
    requires Region(st, i, i) && Of(st, ty, i) && st[i].value == M32 - 1
    ensures !RightOn(st, ty, i, i, M32 - 1)
  {
    var p := Pos(i, i, Found(i, i, false), M32 - 1);
    var q := Pos(i, i, Found(i, i, true), 0);
    SearchTurn(st, ty, p);
    assert Turn(st, ty, p) == q;
    SearchTurn(st, ty, q);
    assert Turn(st, ty, q) == Pos(i, i - 1, Found(i, i - 1, true), 0);
    SearchEnd(st, ty, Turn(st, ty, q));
    assert BinSearch(st, i, i, ty, M32 - 1) == (i - 1, i - 1);
  }

  // With nothing of the type between l and j, the search for the value at j ends there.
  lemma {:induction false} ReachesEnd(st: seq<Stab>, ty: int, i: int, l: int, j: int, a: nat)
    requires Region(st, l, j) && 0 <= i && l <= j && Of(st, ty, j) && st[j].value == a < M32 - 1
    requires forall k :: l <= k < j ==> !Of(st, ty, k)
    ensures Search(st, ty, Pos(l, j, Found(i, j, true), a)) == Found(j, j, true)
    decreases j - l
  {
    hide Search, Turn, Mid;
    if l < j {
      var next := (l + j) / 2 + 1;
      assert l < next <= j;
      SkipsEmpty(st, ty, i, l, j, a);
      ReachesEnd(st, ty, i, next, j, a);
    } else {
      MatchesEnd(st, ty, i, j, a);
    }
  }

  lemma SkipsEmpty(st: seq<Stab>, ty: int, i: int, l: int, j: int, a: nat)
    requires Region(st, l, j) && 0 <= i && l < j && forall k :: l <= k < j ==> !Of(st, ty, k)
    ensures Search(st, ty, Pos(l, j, Found(i, j, true), a)) ==
              Search(st, ty, Pos((l + j) / 2 + 1, j, Found(i, j, true), a))
  {
    SearchTurn(st, ty, Pos(l, j, Found(i, j, true), a));
    hide Search;
    assert Mid(st, ty, l, j) == l - 1;
  }

  lemma MatchesEnd(st: seq<Stab>, ty: int, i: int, j: int, a: nat)
    requires Region(st, j, j) && 0 <= i && Of(st, ty, j) && st[j].value == a < M32 - 1
    ensures Search(st, ty, Pos(j, j, Found(i, j, true), a)) == Found(j, j, true)
  {
    hide Search;
    var p, q := Pos(j, j, Found(i, j, true), a), Pos(j, j, Found(j, j, true), a + 1);
    SearchTurn(st, ty, p);
    SearchTurn(st, ty, q);
    assert Mid(st, ty, j, j) == j;
    hide Mid;
    assert Turn(st, ty, p) == q;
    assert Turn(st, ty, q) == Pos(j + 1, j, Found(j, j, true), a + 1);
    SearchEnd(st, ty, Turn(st, ty, q));
  }

  // addr at i, addr + 1 at j and nothing of the type between: the search of [i, j] ends at j.
  lemma WrongBetween(st: seq<Stab>, ty: int, i: int, j: int, addr: nat)
    requires Region(st, i, j) && i < j && Of(st, ty, i) && Of(st, ty, j) && (forall k :: i < k < j ==> !Of(st, ty, k))
    requires st[i].value == addr && st[j].value == addr + 1 < M32 - 1
    ensures !RightOn(st, ty, i, j, addr)
  {
    var p := Pos(i, j, Found(i, j, false), addr);
    var q := Pos(i, j, Found(i, j, true), addr + 1);
    var next := (i + j) / 2 + 1;
    SearchTurn(st, ty, p);
    hide Search;
    assert Mid(st, ty, i, j) == i;
    assert Turn(st, ty, p) == q;
    SearchTurn(st, ty, q);
    assert Turn(st, ty, q) == Pos(next, j, Found(i, j, true), addr + 1);
    ReachesEnd(st, ty, i, next, j, addr + 1);
    assert BinSearch(st, i, j, ty, addr) == (j, j);
    assert Covers(st, ty, i, j, addr);
  }

  // Between an entry at addr and one at addr + 1 there is an adjacent pair of such entries.
  lemma {:induction false} AdjacentPair(st: seq<Stab>, ty: int, i: int, j: int, addr: nat) returns (i': int, j': int)
    requires Region(st, i, j) && Sorted(st, ty, i, j) && i < j && Of(st, ty, i) && Of(st, ty, j)
    requires st[i].value == addr && st[j].value == addr + 1
    ensures i <= i' < j' <= j && Of(st, ty, i') && Of(st, ty, j') && forall k :: i' < k < j' ==> !Of(st, ty, k)
    ensures st[i'].value == addr && st[j'].value == addr + 1
    decreases j - i
  {
    if k :| i < k < j && Of(st, ty, k) {
      assert st[i].value <= st[k].value <= st[j].value;
      if st[k].value == addr {
        i', j' := AdjacentPair(st, ty, k, j, addr);
      } else {
        i', j' := AdjacentPair(st, ty, i, k, addr);
      }
    } else {
      i', j' := i, j;
    }
  }

  // On a sorted table the search is right for every part of it exactly when addr and its
  // successor are not both there.  (For 2^32 - 2 see RightIffBeforeTop.)
  lemma RightIff(st: seq<Stab>, ty: int, left: int, right: int, addr: nat)
    requires Region(st, left, right) && Sorted(st, ty, left, right) && addr < M32 && addr != M32 - 2
    ensures RightEverywhere(st, ty, left, right, addr) <==> !Trouble(st, ty, left, right, addr)
  {
    hide BinSearch;
    if !Trouble(st, ty, left, right, addr) {
      forall l, r | left <= l <= r <= right ensures RightOn(st, ty, l, r, addr) {
        if Covers(st, ty, l, r, addr) { BracketsUnlessTrouble(st, ty, l, r, addr); }
      }
    } else {
      var i :| left <= i <= right && Of(st, ty, i) && st[i].value == addr;
      if addr == M32 - 1 {
        WrongAtTop(st, ty, i);
      } else {
        var j :| left <= j <= right && Of(st, ty, j) && st[j].value == addr + 1;
        var i', j' := AdjacentPair(st, ty, i, j, addr);
        WrongBetween(st, ty, i', j', addr);
      }
    }
  }

  // ------------------------------------------------------ the address before the last

  const TOP := M32 - 1

  // At most one entry has the last address.
  predicate OneTop(st: seq<Stab>, ty: int, left: int, right: int) {
    forall i, j ::
      (left <= i <= right && left <= j <= right && Of(st, ty, i) && Of(st, ty, j)
       && st[i].value == TOP && st[j].value == TOP) ==> i == j
  }

  // An entry of the address before the last stands right before the entry of the last.
  predicate SideBySide(st: seq<Stab>, ty: int, left: int, right: int) {
    exists j :: left < j <= right && Pair(st, ty, j)
  }

  predicate Pair(st: seq<Stab>, ty: int, j: int) {
    Of(st, ty, j - 1) && Of(st, ty, j) && st[j - 1].value == TOP - 1 && st[j].value == TOP
  }

  // Once the last address is matched and wraps, the search ends before its entry.
  lemma WrapsEnd(st: seq<Stab>, ty: int, j: int, r: int, any: bool)
    requires Region(st, j, r) && j <= r && Of(st, ty, j) && st[j].value == TOP && forall k :: j < k <= r ==>
              !Of(st, ty, k)
    ensures Search(st, ty, Pos(j, r, Found(j, r, any), 0)) == Found(j, j - 1, true)
  {
    var q := Pos(j, r, Found(j, r, any), 0);
    SearchTurn(st, ty, q);
    hide Search;
    assert Mid(st, ty, j, r) == j;
    assert Turn(st, ty, q) == Pos(j, j - 1, Found(j, j - 1, true), 0);
    SearchEnd(st, ty, Turn(st, ty, q));
  }

  lemma {:induction false} ReachesTop(st: seq<Stab>, ty: int, i: int, l: int, j: int)
    requires Region(st, l, j) && 0 <= i && l <= j && Of(st, ty, j) && st[j].value == TOP
    requires forall k :: l <= k < j ==> !Of(st, ty, k)
    ensures Search(st, ty, Pos(l, j, Found(i, j, true), TOP)) == Found(j, j - 1, true)
    decreases j - l
  {
    hide Search, Turn, Mid;
    if l < j {
      var next := (l + j) / 2 + 1;
      assert l < next <= j;
      SkipsEmpty(st, ty, i, l, j, TOP);
      ReachesTop(st, ty, i, next, j);
    } else {
      MatchesTop(st, ty, i, j);
    }
  }

  lemma MatchesTop(st: seq<Stab>, ty: int, i: int, j: int)
    requires Region(st, j, j) && 0 <= i && Of(st, ty, j) && st[j].value == TOP
    ensures Search(st, ty, Pos(j, j, Found(i, j, true), TOP)) == Found(j, j - 1, true)
  {
    var p := Pos(j, j, Found(i, j, true), TOP);
    SearchTurn(st, ty, p);
    WrapsEnd(st, ty, j, j, true);
    hide Search;
    assert Turn(st, ty, p) == Pos(j, j, Found(j, j, true), 0);
  }

  // With other entries between the two, the search of [i, j] ends on one of those.
  lemma WrongBeforeTop(st: seq<Stab>, ty: int, i: int, j: int)
    requires Region(st, i, j) && i + 1 < j && Of(st, ty, i) && Of(st, ty, j)
    requires (forall k :: i < k < j ==> !Of(st, ty, k))
    requires st[i].value == TOP - 1 && st[j].value == TOP
    ensures !RightOn(st, ty, i, j, TOP - 1)
  {
    var p := Pos(i, j, Found(i, j, false), TOP - 1);
    var q := Pos(i, j, Found(i, j, true), TOP);
    var next := (i + j) / 2 + 1;
    SearchTurn(st, ty, p);
    hide Search;
    assert Mid(st, ty, i, j) == i;
    assert Turn(st, ty, p) == q;
    SearchTurn(st, ty, q);
    assert Turn(st, ty, q) == Pos(next, j, Found(i, j, true), TOP);
    ReachesTop(st, ty, i, next, j);
    assert BinSearch(st, i, j, ty, TOP - 1) == (j - 1, j - 1);
    assert Covers(st, ty, i, j, TOP - 1);
  }

  // The search for the address before the last splits the table, or ends before the last entry.
  lemma {:induction false} SearchTop(st: seq<Stab>, ty: int, left: int, right: int, p: Pos, j: int)
    requires Region(st, left, right) && Sorted(st, ty, left, right) && Narrowed(st, ty, left, right, TOP - 1, p)
    requires Good(st, p)
    requires OneTop(st, ty, left, right) && left <= j <= right && Of(st, ty, j) && st[j].value == TOP
    ensures var f := Search(st, ty, p); Split(st, ty, left, right, TOP - 1, f) || f == Found(j, j - 1, true)
    decreases p.r + 1 - p.l, Exact(st, ty, p)
  {
    if p.l > p.r {
      Ends(st, ty, left, right, TOP - 1, p);
    } else {
      SearchTurn(st, ty, p);
      TurnProgress(st, ty, p);
      var m := Mid(st, ty, p.l, p.r);
      if m >= p.l && st[m].value == p.a == TOP {
        MatchesLast(st, ty, left, right, p, m, j);
      } else {
        hide Turn, Search, Exact, Split, Sorted, OneTop;
        TurnNarrows(st, ty, left, right, TOP - 1, p, m);
        SearchTop(st, ty, left, right, Turn(st, ty, p), j);
      }
    }
  }

  lemma MatchesLast(st: seq<Stab>, ty: int, left: int, right: int, p: Pos, m: int, j: int)
    requires Region(st, left, right) && Sorted(st, ty, left, right) && Narrowed(st, ty, left, right, TOP - 1, p)
    requires Good(st, p)
    requires OneTop(st, ty, left, right) && left <= j <= right && Of(st, ty, j) && st[j].value == TOP
    requires p.l <= p.r && m == Mid(st, ty, p.l, p.r) && m >= p.l && st[m].value == p.a == TOP
    ensures Search(st, ty, p) == Found(j, j - 1, true)
  {
    SearchTurn(st, ty, p);
    assert Of(st, ty, m) && left <= m <= right;
    assert Turn(st, ty, p) == Pos(j, p.r, Found(j, p.r, true), 0);
    hide Search, Turn, Mid;
    forall k | j < k <= p.r ensures !Of(st, ty, k) {}
    WrapsEnd(st, ty, j, p.r, true);
  }

  // Side by side with the last, the address before it is bracketed all the same.
  lemma BracketsBeforeTop(st: seq<Stab>, ty: int, left: int, right: int, j: int)
    requires Region(st, left, right) && Sorted(st, ty, left, right) && OneTop(st, ty, left, right) && left < j <= right
    requires Pair(st, ty, j)
    ensures RightOn(st, ty, left, right, TOP - 1)
  {
    var p := Pos(left, right, Found(left, right, false), TOP - 1);
    SearchTop(st, ty, left, right, p, j);
    hide Search;
    if Covers(st, ty, left, right, TOP - 1) {
      if Split(st, ty, left, right, TOP - 1, Search(st, ty, p)) {
        hide Settle;
        SplitBrackets(st, ty, left, right, TOP - 1, Search(st, ty, p));
      } else {
        assert Settle(st, ty, j - 1, j) == j - 1;
        forall i | j - 1 < i <= right && Of(st, ty, i) ensures st[i].value > TOP - 1 {}
      }
    }
  }

  // With one entry at 2^32 - 1 at most, the search for 2^32 - 2 is right for every part of the
  // table exactly when the two addresses are not both there, or stand side by side.
  lemma RightIffBeforeTop(st: seq<Stab>, ty: int, left: int, right: int)
    requires Region(st, left, right) && Sorted(st, ty, left, right) && OneTop(st, ty, left, right)
    ensures RightEverywhere(st, ty, left, right, TOP - 1) <==>
              (!Trouble(st, ty, left, right, TOP - 1) || SideBySide(st, ty, left, right))
  {
    hide BinSearch;
    var addr: nat := TOP - 1;
    if !Trouble(st, ty, left, right, addr) || SideBySide(st, ty, left, right) {
      forall l, r | left <= l <= r <= right
        ensures RightOn(st, ty, l, r, addr)
      {
        RightBeforeTop(st, ty, left, right, l, r);
      }
    } else {
      var i :| left <= i <= right && Of(st, ty, i) && st[i].value == TOP - 1;
      var j :| left <= j <= right && Of(st, ty, j) && st[j].value == TOP;
      var i', j' := AdjacentPair(st, ty, i, j, TOP - 1);
      assert !Pair(st, ty, j');
      WrongBeforeTop(st, ty, i', j');
    }
  }

  lemma RightBeforeTop(st: seq<Stab>, ty: int, left: int, right: int, l: int, r: int)
    requires Region(st, left, right) && Sorted(st, ty, left, right) && OneTop(st, ty, left, right)
    requires left <= l <= r <= right
    requires !Trouble(st, ty, left, right, TOP - 1) || SideBySide(st, ty, left, right)
    ensures RightOn(st, ty, l, r, TOP - 1)
  {
    hide BinSearch, Bracket;
    if Trouble(st, ty, l, r, TOP - 1) {
      PairInside(st, ty, left, right, l, r);
      var j :| l < j <= r && Pair(st, ty, j);
      BracketsBeforeTop(st, ty, l, r, j);
    } else if Covers(st, ty, l, r, TOP - 1) {
      BracketsUnlessTrouble(st, ty, l, r, TOP - 1);
    }
  }

  // The pair lies inside every part of the table that has both addresses.
  lemma PairInside(st: seq<Stab>, ty: int, left: int, right: int, l: int, r: int)
    requires Region(st, left, right) && Sorted(st, ty, left, right) && OneTop(st, ty, left, right)
    requires left <= l <= r <= right
    requires !Trouble(st, ty, left, right, TOP - 1) || SideBySide(st, ty, left, right)
    requires Trouble(st, ty, l, r, TOP - 1)
    ensures SideBySide(st, ty, l, r)
  {
    var i :| l <= i <= r && Of(st, ty, i) && st[i].value == TOP - 1;
    var k :| l <= k <= r && Of(st, ty, k) && st[k].value == TOP;
    assert left <= i <= right && left <= k <= right;
    var j :| left < j <= right && Pair(st, ty, j);
    assert k == j && i < j;
  }
}
