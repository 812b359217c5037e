// printnum of lib/printfmt.c and strtol of lib/string.c, which reads back what printnum wrote.
module Numbers {
  import opened Basics

  // ------------------------------------------------------------------------ printnum

  const DIGITS := "0123456789abcdef"

  // The digits of num, most significant first.
  function Digits(num: nat, base: nat): (ds: string)
    requires 2 <= base <= 16
    ensures |ds| >= 1
  {
    if num < base then [DIGITS[num]]
    else
      DivLess(num, base);
      Digits(num / base, base) + [DIGITS[num % base]]
  }

  function Repeat(c: char, n: int): (s: string)
    ensures |s| == if n > 0 then n else 0
  {
    if n <= 0 then [] else [c] + Repeat(c, n - 1)
  }

  // Pad characters up to the width, then the digits.
  function Printed(num: nat, base: nat, width: int, padc: char): string
    requires 2 <= base <= 16
  {
    Repeat(padc, width - |Digits(num, base)|) + Digits(num, base)
  }

  // The last digit, and what comes before it.
  lemma PrintedSplit(num: nat, base: nat, width: int, padc: char)
    requires 2 <= base <= 16
    ensures Printed(num, base, width, padc) ==
            (if num >= base then Printed(num / base, base, width - 1, padc) else Repeat(padc, width - 1)) +
              [DIGITS[num % base]]
    ensures num >= base ==> num / base < num
  {
    DigitsSplit(num, base);
    hide Digits, Repeat;
    if num >= base {
      var rest := Digits(num / base, base);
      var d := [DIGITS[num % base]];
      assert Digits(num, base) == rest + d;
      assert Repeat(padc, width - |rest| - 1) + (rest + d) == (Repeat(padc, width - |rest| - 1) + rest) + d;
    }
  }

  lemma DigitsSplit(num: nat, base: nat)
    requires 2 <= base <= 16
    ensures Digits(num, base) == (if num >= base then Digits(num / base, base) else []) + [DIGITS[num % base]]
    ensures num >= base ==> num / base < num
  {
    if num < base {
      SmallMod(num, base);
      hide DIGITS;
    } else {
      DivLess(num, base);
      hide DIGITS;
    }
  }

  lemma SmallMod(a: nat, b: nat)
    requires a < b
    ensures a % b == a
  {}

  lemma DivLess(a: nat, b: nat)
    requires a >= b >= 2
    ensures a / b < a
  {
    assert a == b * (a / b) + a % b;
    TimesAtLeast(b, a / b);
  }

  lemma TimesAtLeast(b: int, q: int)
    requires b >= 2 && q >= 0
    ensures b * q >= 2 * q
  {}

  function Least(a: int, b: int): int { if a < b then a else b }

  // struct sprintbuf: room for `limit` characters; `out` is everything that was put.
  class Sink {
    const buf: array<char>
    const limit: nat
    var pos: nat
    var cnt: nat
    ghost var out: string

    ghost predicate Valid()
      reads this, buf
    {
      limit < buf.Length && cnt == |out| && pos == Least(cnt, limit) && buf[..pos] == out[..pos]
    }

    constructor (buf: array<char>, limit: nat)
      requires limit < buf.Length
      ensures Valid() && this.buf == buf && this.limit == limit && out == []
    {
      this.buf, this.limit := buf, limit;
      pos, cnt, out := 0, 0, [];
    }

    // sprintputch
    method Putch(c: char)
      requires Valid()
      modifies this, buf
      ensures Valid() && out == old(out) + [c]
    {
      cnt := cnt + 1;
      out := out + [c];
      if pos < limit {
        buf[pos] := c;
        pos := pos + 1;
      }
    }

    // printnum
    method PrintNum(num: nat, base: nat, width: int, padc: char)
      requires Valid() && 2 <= base <= 16
      modifies this, buf
      ensures Valid() && out == old(out) + Printed(num, base, width, padc)
      decreases num
    {
      hide Printed, Repeat;
      PrintedSplit(num, base, width, padc);
      if num >= base {
        PrintNum(num / base, base, width - 1, padc);
      } else {
        Pad(padc, width - 1);
      }
      Putch(DIGITS[num % base]);
    }

    method Pad(padc: char, n: int)
      requires Valid()
      modifies this, buf
      ensures Valid() && out == old(out) + Repeat(padc, n)
    {
      var w := n;
      while w > 0
        invariant Valid() && out + Repeat(padc, w) == old(out) + Repeat(padc, n)
      {
        Putch(padc);
        w := w - 1;
      }
    }

    // The characters of a constant string.
    method Puts(s: string)
      requires Valid()
      modifies this, buf
      ensures Valid() && out == old(out) + s
    {
      for i := 0 to |s|
        invariant Valid() && out == old(out) + s[..i]
      {
        Putch(s[i]);
      }
    }
  }

  // -------------------------------------------------------------------------- strtol

  // The string is s with a NUL behind it.
  function At(s: string, i: nat): char
    requires i <= |s|
  {
    if i < |s| then s[i] else '\0'
  }

  // The value of a character as a digit, or -1.
  function DigitOf(c: char): int {
    if '0' <= c <= '9' then c as int - '0' as int
    else if 'a' <= c <= 'z' then c as int - 'a' as int + 10
    else if 'A' <= c <= 'Z' then c as int - 'A' as int + 10
    else -1
  }

  function SkipBlanks(s: string, i: nat): (j: nat)
    requires i <= |s|
    ensures i <= j <= |s|
    decreases |s| - i
  {
    if i < |s| && (s[i] == ' ' || s[i] == '\t') then SkipBlanks(s, i + 1) else i
  }

  predicate IsDigit(c: char, base: int) {
    0 <= DigitOf(c) < base
  }

  // The digit loop from position i with the value so far: the value and where it stops.
  function Loop(s: string, i: nat, base: int, val: int): (r: (int, nat))
    requires i <= |s|
    ensures i <= r.1 <= |s|
    decreases |s| - i
  {
    if i < |s| && IsDigit(s[i], base) then Loop(s, i + 1, base, Wrap(val * base + DigitOf(s[i]))) else (val, i)
  }

  // The base prefix: where the digits start, and the base.
  function Prefix(s: string, i: nat, base: int): (r: (nat, int))
    requires i <= |s|
    ensures i <= r.0 <= |s|
  {
    if (base == 0 || base == 16) && At(s, i) == '0' && At(s, i + 1) == 'x' then (i + 2, 16)
    else if base == 0 && At(s, i) == '0' then (i + 1, 8)
    else if base == 0 then (i, 10)
    else (i, base)
  }

  // The value and the end position.
  function Strtol(s: string, base: int): (int, nat) {
    var i := SkipBlanks(s, 0);
    var neg := At(s, i) == '-';
    var j := if At(s, i) == '+' || neg then i + 1 else i;
    var (start, b) := Prefix(s, j, base);
    var (val, end) := Loop(s, start, b, 0);
    (if neg then Wrap(-val) else val, end)
  }

  method StrtolMethod(s: string, base0: int) returns (r: int, end: nat)
    ensures (r, end) == Strtol(s, base0)
  {
    hide Wrap, Loop;
    var i, neg, val, base := 0, false, 0, base0;
    while At(s, i) == ' ' || At(s, i) == '\t'
      invariant i <= |s| && SkipBlanks(s, i) == SkipBlanks(s, 0)
      decreases |s| - i
    {
      i := i + 1;
    }
    if At(s, i) == '+' {
      i := i + 1;
    } else if At(s, i) == '-' {
      i, neg := i + 1, true;
    }
    if (base == 0 || base == 16) && At(s, i) == '0' && At(s, i + 1) == 'x' {
      i, base := i + 2, 16;
    } else if base == 0 && At(s, i) == '0' {
      i, base := i + 1, 8;
    } else if base == 0 {
      base := 10;
    }
    val, i := DigitLoop(s, i, base);
    r, end := if neg then Wrap(-val) else val, i;
  }

  method DigitLoop(s: string, start: nat, base: int) returns (val: int, i: nat)
    requires start <= |s|
    ensures (val, i) == Loop(s, start, base, 0)
  {
    hide Wrap;
    i, val := start, 0;
    while true
      invariant i <= |s| && Loop(s, i, base, val) == Loop(s, start, base, 0)
      decreases |s| - i
    {
      var dig;
      if '0' <= At(s, i) <= '9' { dig := At(s, i) as int - '0' as int; }
      else if 'a' <= At(s, i) <= 'z' { dig := At(s, i) as int - 'a' as int + 10; }
      else if 'A' <= At(s, i) <= 'Z' { dig := At(s, i) as int - 'A' as int + 10; }
      else { break; }
      if dig >= base { break; }
      i, val := i + 1, Wrap(val * base + dig);
    }
  }

  // -------------------------------------------------------------------- the round trip

  // The number a string of digits spells.
  function Value(ds: string, base: int): int {
    if ds == [] then 0 else Value(ds[..|ds| - 1], base) * base + DigitOf(ds[|ds| - 1])
  }

  predicate AllDigits(ds: string, base: int) {
    forall i :: 0 <= i < |ds| ==> IsDigit(ds[i], base)
  }

  lemma HexDigit(d: nat)
    requires d < 16
    ensures DigitOf(DIGITS[d]) == d
  {}

  lemma ValueOfOneMore(ds: string, c: char, base: int)
    ensures Value(ds + [c], base) == Value(ds, base) * base + DigitOf(c)
  {
    assert (ds + [c])[..|ds|] == ds;
  }

  lemma DivMod(a: nat, b: nat)
    requires b > 0
    ensures a / b * b + a % b == a && a % b < b
  {}

  // Digits spells its number, in digits of the base, without a leading zero.
  lemma {:induction false} DigitsSpell(num: nat, base: nat)
    requires 2 <= base <= 16
    ensures AllDigits(Digits(num, base), base) && Value(Digits(num, base), base) == num
    ensures num > 0 ==> Digits(num, base)[0] != '0'
  {
    DigitsSplit(num, base);
    DivMod(num, base);
    HexDigit(num % base);
    hide Digits, Value, DIGITS, DigitOf;
    if num >= base {
      DigitsSpell(num / base, base);
      ValueOfOneMore(Digits(num / base, base), DIGITS[num % base], base);
      Quotient(num, base);
    } else {
      SmallMod(num, base);
      OneDigit(num, base);
    }
  }

  lemma OneDigit(d: nat, base: nat)
    requires d < base <= 16
    ensures Value([DIGITS[d]], base) == d && (d > 0 ==> DIGITS[d] != '0')
  {
    HexDigit(d);
    ValueOfOneMore([], DIGITS[d], base);
    assert [] + [DIGITS[d]] == [DIGITS[d]];
  }

  lemma Quotient(a: nat, b: nat)
    requires a >= b > 0
    ensures a / b > 0
  {}

  // A prefix of the digits is a smaller number.
  lemma {:induction false} ValueGrows(ds: string, base: int, k: nat)
    requires AllDigits(ds, base) && base >= 2 && k <= |ds|
    ensures 0 <= Value(ds[..k], base) <= Value(ds, base)
    decreases |ds|
  {
    if k < |ds| {
      var front := ds[..|ds| - 1];
      ValueGrows(front, base, k);
      assert front[..k] == ds[..k];
      TimesAtLeast(base, Value(front, base));
    } else {
      assert ds[..k] == ds;
      if ds != [] {
        ValueGrows(ds[..|ds| - 1], base, 0);
        TimesAtLeast(base, Value(ds[..|ds| - 1], base));
      }
    }
  }

  // The digit loop reads to the end of the digits, and computes their value.
  lemma {:induction false} LoopReads(s: string, start: nat, i: nat, base: int)
    requires start <= i <= |s| && AllDigits(s[start..], base) && 2 <= base && Value(s[start..], base) < 0x8000_0000
    ensures Loop(s, i, base, Value(s[start..i], base)) == (Value(s[start..], base), |s|)
    decreases |s| - i
  {
    var ds := s[start..];
    if i < |s| {
      assert IsDigit(ds[i - start], base);
      ValueGrows(ds, base, i + 1 - start);
      assert ds[..i + 1 - start] == s[start..i + 1];
      assert s[start..i + 1][..i - start] == s[start..i];
      NoWrap(Value(s[start..i + 1], base));
      LoopReads(s, start, i + 1, base);
    } else {
      assert s[start..i] == ds;
    }
  }

  lemma NoWrap(x: int)
    requires -0x8000_0000 <= x < 0x8000_0000
    ensures Wrap(x) == x
  {}

  lemma {:induction false} ZerosAdd(n: int, ds: string, base: int)
    requires base >= 2
    ensures Value(Repeat('0', n) + ds, base) == Value(ds, base)
    decreases |ds|, n
  {
    if ds != [] {
      ZerosAdd(n, ds[..|ds| - 1], base);
      var all := Repeat('0', n) + ds;
      assert all[..|all| - 1] == Repeat('0', n) + ds[..|ds| - 1];
    } else if n > 0 {
      ZerosAdd(n - 1, [], base);
      RepeatEnd('0', n);
      var all := Repeat('0', n) + ds;
      assert all[..|all| - 1] == Repeat('0', n - 1) + [];
    } else {
      assert Repeat('0', n) + ds == [];
    }
  }

  lemma {:induction false} RepeatEnd(c: char, n: int)
    requires n > 0
    ensures Repeat(c, n) == Repeat(c, n - 1) + [c]
  {
    if n > 1 { RepeatEnd(c, n - 1); }
  }

  lemma {:induction false} RepeatAt(c: char, n: int, i: nat)
    requires i < n
    ensures Repeat(c, n)[i] == c
  {
    if i > 0 { RepeatAt(c, n - 1, i - 1); }
  }

  lemma {:induction false} BlanksSkipped(s: string, i: nat, n: nat)
    requires i <= n <= |s| && (forall k :: i <= k < n ==> s[k] == ' ') && At(s, n) != ' ' && At(s, n) != '\t'
    ensures SkipBlanks(s, i) == n
    decreases n - i
  {
    if i < n { BlanksSkipped(s, i + 1, n); }
  }

  // Digits from position i on, of a base from 2 to 16, are read as they stand.
  lemma StrtolDigits(s: string, i: nat, base: int)
    requires i < |s| && AllDigits(s[i..], base) && 2 <= base <= 16 && Value(s[i..], base) < 0x8000_0000
    ensures Prefix(s, i, base) == (i, base) && Loop(s, i, base, 0) == (Value(s[i..], base), |s|)
    ensures At(s, i) != ' ' && At(s, i) != '\t' && At(s, i) != '+' && At(s, i) != '-'
  {
    assert IsDigit(s[i..][0], base);
    if i + 1 < |s| { assert IsDigit(s[i..][1], base); }
    LoopReads(s, i, i, base);
    assert s[i..i] == [];
  }

  // Blanks and digits, or digits alone.
  lemma StrtolPlain(s: string, n: nat, base: int)
    requires n < |s| && AllDigits(s[n..], base) && 2 <= base <= 16 && Value(s[n..], base) < 0x8000_0000
    requires forall k :: 0 <= k < n ==> s[k] == ' '
    ensures Strtol(s, base) == (Value(s[n..], base), |s|)
  {
    StrtolDigits(s, n, base);
    BlanksSkipped(s, 0, n);
  }

  // One minus sign negates, and after two there is no number.
  lemma StrtolMinus(s: string, n: nat, base: int)
    requires 0 < n < |s| && AllDigits(s[n..], base) && 2 <= base <= 16 && Value(s[n..], base) < 0x8000_0000
    requires forall k :: 0 <= k < n ==> s[k] == '-'
    ensures Strtol(s, base).0 == if n == 1 then -Value(s[n..], base) else 0
  {
    StrtolDigits(s, n, base);
    ValueGrows(s[n..], base, 0);
    NoWrap(-Value(s[n..], base));
  }

  predicate Spells(ds: string, base: int) {
    ds != [] && AllDigits(ds, base) && 2 <= base <= 16 && Value(ds, base) < 0x8000_0000
  }

  lemma ReadZeros(ds: string, n: int, base: int)
    requires Spells(ds, base)
    ensures var s := Repeat('0', n) + ds; Strtol(s, base) == (Value(ds, base), |s|)
  {
    var s := Repeat('0', n) + ds;
    ZerosAdd(n, ds, base);
    forall i | 0 <= i < |s| ensures IsDigit(s[i], base) {
      if i < |s| - |ds| { RepeatAt('0', n, i); } else { assert s[i] == ds[i - (|s| - |ds|)]; }
    }
    assert s[0..] == s;
    StrtolPlain(s, 0, base);
  }

  lemma ReadBlanks(ds: string, n: int, base: int)
    requires Spells(ds, base)
    ensures var s := Repeat(' ', n) + ds; Strtol(s, base) == (Value(ds, base), |s|)
  {
    var pads := Repeat(' ', n);
    var s := pads + ds;
    forall k: nat | k < |pads| ensures s[k] == ' ' { RepeatAt(' ', n, k); }
    assert s[|pads|..] == ds;
    StrtolPlain(s, |pads|, base);
  }

  lemma ReadMinus(ds: string, n: int, base: int)
    requires Spells(ds, base)
    ensures Strtol(Repeat('-', n) + ds, base).0 ==
            if n <= 0 then Value(ds, base) else if n == 1 then -Value(ds, base) else 0
  {
    var pads := Repeat('-', n);
    var s := pads + ds;
    forall k: nat | k < |pads| ensures s[k] == '-' { RepeatAt('-', n, k); }
    assert s[|pads|..] == ds;
    if n <= 0 { StrtolPlain(s, 0, base); } else { StrtolMinus(s, |pads|, base); }
  }

  // strtol reads back what printnum wrote, except where a '-' was used to pad a nonzero number.
  lemma ReadBack(num: nat, base: nat, width: int, padc: char)
    requires num < 0x8000_0000 && 2 <= base <= 16 && padc in {' ', '0', '-'}
    ensures var s := Printed(num, base, width, padc); var ds := |Digits(num, base)|;
            && |s| == (if width > ds then width else ds)
            && (Strtol(s, base).0 == num <==> (padc != '-' || width <= ds || num == 0))
            && (padc != '-' ==> Strtol(s, base).1 == |s|)
  {
    var ds, n := Digits(num, base), width - |Digits(num, base)|;
    DigitsSpell(num, base);
    hide Digits, Repeat, Strtol, Value, AllDigits;
    if padc == '0' { ReadZeros(ds, n, base); } else if padc == ' ' {
      ReadBlanks(ds, n, base);
    } else {
      ReadMinus(ds, n, base);
    }
  }

  // ------------------------------------------------------------- strtol on any string

  const LOWER := "0123456789abcdefghijklmnopqrstuvwxyz"
  const UPPER := "0123456789ABCDEFGHIJKLMNOPQRSTUVWXYZ"

  // The digits are these, and no other character is one.
  lemma DigitChars(c: char, d: nat)
    requires d < 36
    ensures DigitOf(c) == d <==> c == LOWER[d] || c == UPPER[d]
  {
    LowerAt(d);
    UpperAt(d);
    hide LOWER, UPPER;
  }

  // Those below the base are the first ones.
  lemma BaseDigits(c: char, base: nat)
    requires base <= 36
    ensures IsDigit(c, base) <==> c in LOWER[..base] || c in UPPER[..base]
  {
    forall d: nat | d < 36 ensures DigitOf(c) == d <==> c == LOWER[d] || c == UPPER[d] { DigitChars(c, d); }
    if IsDigit(c, base) {
      var d := DigitOf(c);
      assert c == LOWER[..base][d] || c == UPPER[..base][d];
    }
    if c in LOWER[..base] || c in UPPER[..base] {
      var d :| 0 <= d < base && (c == LOWER[..base][d] || c == UPPER[..base][d]);
      assert c == LOWER[d] || c == UPPER[d];
    }
  }

  lemma LowerAt(d: nat)
    requires d < 36
    ensures LOWER[d] as int == d + (if d < 10 then '0' as int else 'a' as int - 10)
  {}

  lemma UpperAt(d: nat)
    requires d < 36
    ensures UPPER[d] as int == d + (if d < 10 then '0' as int else 'A' as int - 10)
  {}

  // Equal in 32 bits.
  ghost predicate Same32(a: int, b: int) { exists q: int :: a == b + q * 0x1_0000_0000 }

  // A 32-bit integer with the same bits as x.
  ghost predicate Is32(v: int, x: int) { -0x8000_0000 <= v < 0x8000_0000 && Same32(v, x) }

  lemma WrapIs(x: int)
    ensures Is32(Wrap(x), x)
  {
    var q := -((x + 0x8000_0000) / 0x1_0000_0000);
    assert Wrap(x) == x + q * 0x1_0000_0000;
  }

  lemma StepSame(a: int, b: int, v: int, base: int, d: int)
    requires Same32(a, b) && Same32(v, a * base + d)
    ensures Same32(v, b * base + d)
  {
    var q :| a == b + q * 0x1_0000_0000;
    var p :| v == a * base + d + p * 0x1_0000_0000;
    Expand32(b, q, base);
    assert v == b * base + d + (q * base + p) * 0x1_0000_0000;
  }

  lemma Expand32(b: int, q: int, base: int)
    ensures (b + q * 0x1_0000_0000) * base == b * base + q * base * 0x1_0000_0000
  {}

  // The digit loop stops at the first character that is no digit, with the value in 32 bits.
  lemma {:induction false} LoopExact(s: string, start: nat, i: nat, e: nat, base: int, val: int)
    requires start <= i <= e <= |s| && AllDigits(s[start..e], base) && (e == |s| || !IsDigit(s[e], base))
    requires Is32(val, Value(s[start..i], base))
    ensures Loop(s, i, base, val).1 == e && Is32(Loop(s, i, base, val).0, Value(s[start..e], base))
    decreases e - i
  {
    hide Is32, Same32, Value, DigitOf, Wrap;
    if i < e {
      assert s[start..e][i - start] == s[i];
      assert s[start..i + 1] == s[start..i] + [s[i]];
      ValueOfOneMore(s[start..i], s[i], base);
      var next := Wrap(val * base + DigitOf(s[i]));
      NextIs(val, Value(s[start..i], base), base, DigitOf(s[i]));
      LoopExact(s, start, i + 1, e, base, next);
    }
  }

  lemma NextIs(val: int, was: int, base: int, d: int)
    requires Is32(val, was)
    ensures Is32(Wrap(val * base + d), was * base + d)
  {
    WrapIs(val * base + d);
    StepSame(val, was, Wrap(val * base + d), base, d);
  }

  // Where the digits begin after the sign, and their base b: 0x before them makes it 16 if base is 16 or
  // open, a 0 makes an open base 8, and otherwise it is 10.
  predicate PrefixIs(s: string, j: nat, start: nat, base: int, b: int)
    requires j <= start <= |s|
  {
    || (s[j..start] == "0x" && (base == 0 || base == 16) && b == 16)
    || (s[j..start] == "0" && base == 0 && b == 8 && At(s, start) != 'x')
    || (start == j && base == 0 && b == 10 && At(s, j) != '0')
    || (start == j && base != 0 && b == base && !(base == 16 && "0x" <= s[j..]))
  }

  // Blanks up to i, a sign or none up to j, a prefix or none up to start, digits up to e: the number they
  // spell in 32 bits, negated after a minus sign, and the end of the digits.
  lemma StrtolExact(s: string, i: nat, j: nat, start: nat, e: nat, base: int, b: int)
    requires i <= j <= start <= e <= |s| && PrefixIs(s, j, start, base, b)
    requires (forall k :: 0 <= k < i ==> s[k] == ' ' || s[k] == '\t') && At(s, i) != ' ' && At(s, i) != '\t'
    requires if j == i then At(s, i) != '+' && At(s, i) != '-' else j == i + 1 && (s[i] == '+' || s[i] == '-')
    requires AllDigits(s[start..e], b) && (e == |s| || !IsDigit(s[e], b))
    ensures var n := Value(s[start..e], b); var (r, end) := Strtol(s, base);
            end == e && Is32(r, if j > i && s[i] == '-' then -n else n)
  {
    var n := Value(s[start..e], b);
    AllBlanks(s, 0, i);
    PrefixRead(s, j, start, base, b);
    assert s[start..start] == [];
    assert 0 == 0 + 0 * 0x1_0000_0000;
    LoopExact(s, start, start, e, b, 0);
    hide Loop, Prefix, SkipBlanks, Value, Is32, Wrap;
    Negated(Loop(s, start, b, 0).0, n);
  }

  lemma Negated(v: int, n: int)
    requires Is32(v, n)
    ensures Is32(Wrap(-v), -n)
  {
    WrapIs(-v);
    var q :| v == n + q * 0x1_0000_0000;
    var p :| Wrap(-v) == -v + p * 0x1_0000_0000;
    assert Wrap(-v) == -n + (p - q) * 0x1_0000_0000;
  }

  lemma {:induction false} AllBlanks(s: string, k: nat, i: nat)
    requires k <= i <= |s| && forall n :: k <= n < i ==> s[n] == ' ' || s[n] == '\t'
    requires At(s, i) != ' ' && At(s, i) != '\t'
    ensures SkipBlanks(s, k) == i
    decreases i - k
  {
    if k < i { AllBlanks(s, k + 1, i); }
  }

  lemma PrefixRead(s: string, j: nat, start: nat, base: int, b: int)
    requires j <= start <= |s| && PrefixIs(s, j, start, base, b)
    ensures Prefix(s, j, base) == (start, b)
  {
    var p := s[j..start];
    if p == "0x" || p == "0" { assert s[j] == p[0]; }
    if p == "0x" { assert s[j + 1] == p[1]; }
    if base == 16 && At(s, j) == '0' && At(s, j + 1) == 'x' { assert "0x" <= s[j..]; }
  }
}
