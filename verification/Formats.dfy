// What printf shows for each conversion, told by what can be read back from it, and how an escape
// is read.
module Formats {
  import opened Basics
  import opened Numbers
  import opened Printf
  import EnvTable

  const HEX := "0123456789abcdef"

  // From position n on s spells num in the base, in lower case and without a leading zero; before that there
  // is padding, as much as the width asks for.
  predicate ShowsFrom(s: string, n: nat, num: nat, base: int, width: int, padc: char) {
    && n < |s| && (forall i :: 0 <= i < n ==> s[i] == padc)
    && (forall i :: n <= i < |s| ==> s[i] in HEX) && AllDigits(s[n..], base) && Value(s[n..], base) == num
    && (if num == 0 then n + 1 == |s| else s[n] != '0')
    && |s| >= width && (n > 0 ==> |s| == width)
  }

  ghost predicate Shows(s: string, num: nat, base: int, width: int, padc: char) {
    exists n: nat :: ShowsFrom(s, n, num, base, width, padc)
  }

  lemma {:induction false} DigitsLower(num: nat, base: nat)
    requires 2 <= base <= 16
    ensures forall i :: 0 <= i < |Digits(num, base)| ==> Digits(num, base)[i] in HEX
    ensures num == 0 ==> |Digits(num, base)| == 1
  {
    DigitsSplit(num, base);
    DivMod(num, base);
    assert DIGITS[num % base] in HEX;
    hide Digits, DIGITS, HEX;
    if num >= base {
      var q := num / base;
      assert q < num;
      DigitsLower(q, base);
    }
  }

  lemma PrintedShows(num: nat, base: nat, width: int, padc: char)
    requires 2 <= base <= 16
    ensures Shows(Printed(num, base, width, padc), num, base, width, padc)
  {
    var ds := Digits(num, base);
    var pads := Repeat(padc, width - |ds|);
    var s := pads + ds;
    DigitsSpell(num, base);
    DigitsLower(num, base);
    forall i: nat | i < |pads| ensures s[i] == padc { RepeatAt(padc, width - |ds|, i); }
    assert s[|pads|..] == ds;
    hide Digits, Repeat, Value, AllDigits, HEX;
    assert ShowsFrom(s, |pads|, num, base, width, padc);
  }

  // The width of the argument: two l's make it 64 bits.
  function Range(lflag: nat): int { if lflag < 2 then 0x1_0000_0000 else 0x1_0000_0000_0000_0000 }

  // %u, %o and %x show the argument as an unsigned number in base 10, 8 and 16.
  lemma UnsignedShows(c: char, sp: Spec, args: Args)
    requires c in {'u', 'o', 'x'} && args(sp.k).Int?
    ensures Shows(Conv(c, sp, args), args(sp.k).v % Range(sp.lflag),
                  if c == 'u' then 10 else if c == 'o' then 8 else 16, sp.width, sp.padc)
  {
    hide Shows, Printed;
    var num: nat, base: nat := GetUint(args(sp.k).v, sp.lflag), if c == 'u' then 10 else if c == 'o' then 8 else 16;
    UintIs(args(sp.k).v, sp.lflag);
    hide GetUint, Range;
    PrintedShows(num, base, sp.width, sp.padc);
  }

  lemma UintIs(v: int, lflag: nat)
    ensures GetUint(v, lflag) == v % Range(lflag)
  {}

  // %p is 0x and 32 bits in base 16, padded behind the 0x.
  lemma PointerShows(sp: Spec, args: Args)
    requires args(sp.k).Int?
    ensures var s := Conv('p', sp, args);
            |s| >= 2 && s[..2] == "0x" && Shows(s[2..], args(sp.k).v % 0x1_0000_0000, 16, sp.width, sp.padc)
  {
    hide Shows, Printed;
    var v := GetUint(args(sp.k).v, 0);
    UintIs(args(sp.k).v, 0);
    hide GetUint;
    PrintedShows(v, 16, sp.width, sp.padc);
    assert Conv('p', sp, args)[2..] == Printed(v, 16, sp.width, sp.padc);
  }

  // %d shows the sign and the size of the signed number n that the argument's bits mean.
  lemma SignedShows(sp: Spec, args: Args, n: int)
    requires args(sp.k).Int? && -Range(sp.lflag) / 2 <= n < Range(sp.lflag) / 2
    requires (args(sp.k).v - n) % Range(sp.lflag) == 0
    ensures var s := Conv('d', sp, args);
            if n >= 0 then Shows(s, n, 10, sp.width, sp.padc)
            else s != [] && s[0] == '-' && Shows(s[1..], -n, 10, sp.width, sp.padc)
  {
    SignedBits(args(sp.k).v, n, sp.lflag);
    PrintedShows(Abs(n), 10, sp.width, sp.padc);
    hide GetInt;
    var t := Printed(Abs(n), 10, sp.width, sp.padc);
    assert n >= 0 ==> "" + t == t;
    assert ("-" + t)[1..] == t;
    hide Shows, Printed;
  }

  lemma SignedBits(v: int, n: int, lflag: nat)
    requires -Range(lflag) / 2 <= n < Range(lflag) / 2 && (v - n) % Range(lflag) == 0
    ensures GetInt(v, lflag) == n
  {}

  // The bases that strtol reads them back in.
  lemma UnsignedReadBack(c: char, sp: Spec, args: Args)
    requires c in {'u', 'o', 'x'} && args(sp.k).Int? && 0 <= args(sp.k).v < 0x8000_0000 && sp.padc in {' ', '0', '-'}
    ensures var v := args(sp.k).v; var base := if c == 'u' then 10 else if c == 'o' then 8 else 16;
            Strtol(Conv(c, sp, args), base).0 == v <==> (sp.padc != '-' || v == 0 || sp.width <= |Digits(v, base)|)
  {
    var v, base: nat := args(sp.k).v, if c == 'u' then 10 else if c == 'o' then 8 else 16;
    hide Strtol, Printed, Digits;
    UintKept(v, sp.lflag);
    hide GetUint;
    ReadBack(v, base, sp.width, sp.padc);
  }

  lemma UintKept(v: int, lflag: nat)
    requires 0 <= v < 0x1_0000_0000
    ensures GetUint(v, lflag) == v
  {}

  // A pointer below 2^31 is read back in base 16, or with the base left open, unless padding
  // other than zeros came between the 0x and a number that is not 0.
  lemma PointerReadBack(sp: Spec, args: Args, base: int)
    requires args(sp.k).Int? && 0 <= args(sp.k).v < 0x8000_0000 && sp.padc in {' ', '0', '-'} && base in {0, 16}
    ensures var v := args(sp.k).v;
            Strtol(Conv('p', sp, args), base).0 == v <==> (sp.padc == '0' || v == 0 || sp.width <= |Digits(v, 16)|)
  {
    var v: nat := args(sp.k).v;
    var ds, n := Digits(v, 16), sp.width - |Digits(v, 16)|;
    UintKept(v, 0);
    DigitsSpell(v, 16);
    hide GetUint, Strtol, Digits, Value, AllDigits;
    if sp.padc == '0' || n <= 0 {
      assert Repeat(sp.padc, n) == Repeat('0', n);
      ReadPointer(ds, n, base);
    } else {
      RepeatAt(sp.padc, n, 0);
      ReadBrokenPointer(Repeat(sp.padc, n) + ds, base);
    }
  }

  // 0x, zeros and digits.
  lemma ReadPointer(ds: string, n: int, base: int)
    requires Spells(ds, 16) && base in {0, 16}
    ensures Strtol("0x" + (Repeat('0', n) + ds), base).0 == Value(ds, 16)
  {
    var t := Repeat('0', n) + ds;
    ZerosAdd(n, ds, 16);
    forall i | 0 <= i < |t| ensures IsDigit(t[i], 16) {
      if i < |t| - |ds| { RepeatAt('0', n, i); } else { assert t[i] == ds[i - (|t| - |ds|)]; }
    }
    hide Repeat, IsDigit, Value, Strtol;
    ReadHex(t, base);
  }

  // The prefix 0x makes base 16, and is not needed in it.
  lemma ReadHex(t: string, base: int)
    requires AllDigits(t, 16) && Value(t, 16) < 0x8000_0000 && base in {0, 16}
    ensures Strtol("0x" + t, base) == (Value(t, 16), |t| + 2)
  {
    var s := "0x" + t;
    assert s[2..] == t && s[2..2] == [];
    hide IsDigit;
    LoopReads(s, 2, 2, 16);
  }

  lemma ReadBrokenPointer(t: string, base: int)
    requires t != [] && t[0] in {' ', '-'} && base in {0, 16}
    ensures Strtol("0x" + t, base).0 == 0
  {
    var s := "0x" + t;
    assert s[0] == '0' && s[1] == 'x' && s[2] == t[0];
  }

  // %c
  lemma CharShows(sp: Spec, args: Args)
    requires args(sp.k).Int?
    ensures var s := Conv('c', sp, args); |s| == 1 && (s[0] as int - args(sp.k).v) % 256 == 0
  {}

  // %e takes an error code of either sign,
  lemma ErrorShows(sp: Spec, args: Args, err: nat)
    requires args(sp.k).Int? && (args(sp.k).v == err || args(sp.k).v + err == 0) && err < 0x8000_0000
    ensures Conv('e', sp, args) == ErrorText(err)
  {
    hide ErrorText;
    SignedBits(args(sp.k).v, args(sp.k).v, 0);
    hide GetInt;
  }

  // and prints the kernel's message for it,
  lemma ErrorMessages()
    ensures ErrorText(1) == "unspecified error" && ErrorText(2) == "bad environment"
    ensures ErrorText(3) == "invalid parameter" && ErrorText(4) == "out of memory"
    ensures ErrorText(5) == "out of environments" && ErrorText(6) == "segmentation fault"
    ensures ErrorText(8) == "env is not recving" && ErrorText(9) == "unexpected end of file"
  {
    hide Printed;
  }

  // or its number where there is none.
  lemma ErrorNumbers(err: nat)
    requires err == 0 || err == 7 || err > 9
    ensures var s := ErrorText(err); |s| > 6 && s[..6] == "error " && Shows(s[6..], err, 10, -1, ' ')
  {
    hide Shows, Printed;
    PrintedShows(err, 10, -1, ' ');
    PrintedNotEmpty(err);
    var n := Printed(err, 10, -1, ' ');
    assert ErrorText(err) == "error " + n;
    hide ErrorText;
    assert ("error " + n)[6..] == n;
  }

  // The errors of the system calls by name.
  lemma CallErrors()
    ensures ErrorText(EnvTable.E_BAD_ENV) == "bad environment" && ErrorText(EnvTable.E_INVAL) == "invalid parameter"
    ensures ErrorText(EnvTable.E_NO_MEM) == "out of memory"
    ensures ErrorText(EnvTable.E_NO_FREE_ENV) == "out of environments"
    ensures ErrorText(EnvTable.E_IPC_NOT_RECV) == "env is not recving"
  {
    ErrorMessages();
    hide ErrorText;
  }

  lemma PrintedNotEmpty(err: nat)
    ensures Printed(err, 10, -1, ' ') != ""
  {}

  // ------------------------------------------------------------------------------- %s

  // n is the length printed of s: up to its NUL, and no more than a precision that is not negative.
  predicate Length(s: string, precision: int, n: nat) {
    && n <= |s| && (forall i :: 0 <= i < n ==> s[i] != '\0') && (precision >= 0 ==> n <= precision)
    && (n == |s| || s[n] == '\0' || n == precision)
  }

  lemma {:induction false} StrnlenIs(s: string, max: int)
    ensures Length(s, max, Strnlen(s, max))
  {
    if s != [] && s[0] != '\0' && max != 0 {
      StrnlenIs(s[1..], max - 1);
      var n := Strnlen(s, max);
      forall i | 0 <= i < n ensures s[i] != '\0' { if i > 0 { assert s[i] == s[1..][i - 1]; } }
      if n < |s| { assert n >= 1 && s[n] == s[1..][n - 1]; }
    }
  }

  // The n characters, with '?' for those that are not printable if asked for, in a field of the width: with
  // '-' at its left end and blanks behind, otherwise at its right end and the padding before.
  lemma StringShows(s: string, sp: Spec, n: nat)
    requires Length(s, sp.precision, n)
    ensures var r := Field(s, sp); var from := if sp.padc == '-' then 0 else |r| - n;
            && |r| == (if sp.width > n then sp.width else n)
            && (forall i :: 0 <= i < n ==> r[from + i] == if sp.alt && !(' ' <= s[i] <= '~') then '?' else s[i])
            && (forall i :: 0 <= i < |r| && !(from <= i < from + n) ==> r[i] == if sp.padc == '-' then ' ' else sp.padc)
  {
    StrnlenIs(s, sp.precision);
    OneLength(s, sp.precision, n, Strnlen(s, sp.precision));
    var r, pad := Field(s, sp), if sp.padc == '-' then ' ' else sp.padc;
    var pads := Repeat(pad, sp.width - n);
    forall i: nat | i < |pads| ensures pads[i] == pad { RepeatAt(pad, sp.width - n, i); }
    hide Strnlen, Repeat, Length;
  }

  lemma OneLength(s: string, precision: int, n: nat, m: nat)
    requires Length(s, precision, n) && Length(s, precision, m)
    ensures n == m
  {}

  // A null pointer prints as (null).
  lemma NullShows(sp: Spec, args: Args)
    requires args(sp.k).Null?
    ensures Conv('s', sp, args) == Field("(null)", sp)
  {}

  // ------------------------------------------------------------------ reading an escape

  predicate Numeral(w: string) {
    w != [] && w[0] != '0' && forall i :: 0 <= i < |w| ==> '0' <= w[i] <= '9'
  }

  // A run of digits is read as the number it spells.
  lemma {:induction false} NumberReads(fmt: string, start: nat, i: nat, j: nat)
    requires start < i <= j <= |fmt| && (forall n :: start <= n < j ==> IsNum(fmt[n])) && (j == |fmt| || !IsNum(fmt[j]))
    ensures Number(fmt, i, Value(fmt[start..i], 10)) == (j, Value(fmt[start..j], 10))
    decreases j - i
  {
    if i < j {
      NumberReads(fmt, start, i + 1, j);
      assert fmt[start..i + 1][..i - start] == fmt[start..i];
      assert IsNum(fmt[i]);
    }
  }

  // A numeral is the width, or the precision where there is a width already.
  lemma NumeralRead(fmt: string, i: nat, j: nat, sp: Spec, args: Args)
    requires i < j <= |fmt| && Numeral(fmt[i..j]) && (j == |fmt| || !IsNum(fmt[j]))
    ensures var n := Value(fmt[i..j], 10);
            Flags(fmt, i, sp, args) ==
            Flags(fmt, j, if sp.width < 0 then sp.(width := n, precision := -1) else sp.(precision := n), args)
  {
    forall n | i <= n < j ensures IsNum(fmt[n]) { assert fmt[n] == fmt[i..j][n - i]; }
    assert fmt[i] == fmt[i..j][0];
    NumberReads(fmt, i, i + 1, j);
    assert fmt[i..i + 1] == [fmt[i]];
    assert [fmt[i]][..0] == [];
    assert Value([fmt[i]], 10) == fmt[i] as int - '0' as int;
    hide Number, Value;
  }

  // A flag, '0' or '-', picks the padding.
  lemma PadRead(fmt: string, i: nat, sp: Spec, args: Args)
    requires i < |fmt| && fmt[i] in {'0', '-'}
    ensures Flags(fmt, i, sp, args) == Flags(fmt, i + 1, sp.(padc := fmt[i]), args)
  {}

  lemma LongRead(fmt: string, i: nat, sp: Spec, args: Args)
    requires i < |fmt| && fmt[i] == 'l'
    ensures Flags(fmt, i, sp, args) == Flags(fmt, i + 1, sp.(lflag := sp.lflag + 1), args)
  {}

  lemma ConvRead(fmt: string, i: nat, sp: Spec, args: Args)
    requires i < |fmt| && IsConv(fmt[i])
    ensures Flags(fmt, i, sp, args) == (i, sp)
  {}

  // A star takes the next argument for the numeral.
  lemma StarRead(fmt: string, i: nat, sp: Spec, args: Args)
    requires i < |fmt| && fmt[i] == '*' && args(sp.k).Int?
    ensures var n := args(sp.k).v;
            Flags(fmt, i, sp, args) ==
            Flags(fmt, i + 1, if sp.width < 0 then sp.(width := n, precision := -1, k := sp.k + 1)
                              else sp.(precision := n, k := sp.k + 1), args)
  {}

  // A point makes what follows the precision, and without a width before it the width is 0.
  lemma PointRead(fmt: string, i: nat, sp: Spec, args: Args)
    requires i < |fmt| && fmt[i] == '.'
    ensures Flags(fmt, i, sp, args) == Flags(fmt, i + 1, sp.(width := if sp.width < 0 then 0 else sp.width), args)
  {}

  lemma AltRead(fmt: string, i: nat, sp: Spec, args: Args)
    requires i < |fmt| && fmt[i] == '#'
    ensures Flags(fmt, i, sp, args) == Flags(fmt, i + 1, sp.(alt := true), args)
  {}

  // An escape with an optional '0' or '-', an optional width, and l's.
  function Escape(pad: string, w: string, l: nat, c: char): string {
    "%" + pad + w + seq(l, _ => 'l') + [c]
  }

  lemma {:induction false} LongsRead(fmt: string, i: nat, j: nat, sp: Spec, args: Args)
    requires i <= j <= |fmt| && forall n :: i <= n < j ==> fmt[n] == 'l'
    ensures Flags(fmt, i, sp, args) == Flags(fmt, j, sp.(lflag := sp.lflag + (j - i)), args)
    decreases j - i
  {
    hide Flags;
    if i < j {
      LongRead(fmt, i, sp, args);
      LongsRead(fmt, i + 1, j, sp.(lflag := sp.lflag + 1), args);
    }
  }

  // The parts of an escape in their places from position i on.
  predicate Parts(fmt: string, i: nat, pad: string, w: string, l: nat) {
    var a := i + 1 + |pad|;
    var b := a + |w|;
    && b + l < |fmt| && fmt[i] == '%' && fmt[i + 1..a] == pad && fmt[a..b] == w
    && (forall n :: b <= n < b + l ==> fmt[n] == 'l') && IsConv(fmt[b + l])
  }

  // What the flags say.
  function SpecOf(pad: string, w: string, l: nat, k: nat): Spec {
    Spec(if pad == "" then ' ' else pad[0], if w == [] then -1 else Value(w, 10), -1, l, false, k)
  }

  lemma FlagsRead(fmt: string, i: nat, pad: string, w: string, l: nat, k: nat, args: Args)
    requires Parts(fmt, i, pad, w, l) && pad in {"", "0", "-"} && (w == [] || Numeral(w))
    ensures Flags(fmt, i + 1, Start(k), args) == (i + 1 + |pad| + |w| + l, SpecOf(pad, w, l, k))
  {
    var a := i + 1 + |pad|;
    var b := a + |w|;
    var sp0 := Start(k);
    var sp1 := sp0.(padc := if pad == "" then ' ' else pad[0]);
    var sp2 := if w == [] then sp1 else sp1.(width := Value(w, 10), precision := -1);
    assert !IsNum(fmt[b]);
    hide Flags, Value, IsNum;
    if pad != "" {
      assert fmt[i + 1] == fmt[i + 1..a][0];
      PadRead(fmt, i + 1, sp0, args);
    }
    if w != [] { NumeralRead(fmt, a, b, sp1, args); }
    hide Numeral;
    LongsRead(fmt, b, b + l, sp2, args);
    ConvRead(fmt, b + l, sp2.(lflag := l), args);
  }

  // Wherever such an escape stands in a format, it prints its conversion of the next argument, with the width
  // the numeral spells, and what follows goes on with the argument after that; %% takes none.
  lemma EscapePrints(fmt: string, i: nat, pad: string, w: string, l: nat, k: nat, args: Args)
    requires Parts(fmt, i, pad, w, l) && pad in {"", "0", "-"} && (w == [] || Numeral(w))
    ensures var j := i + 1 + |pad| + |w| + l;
            Expand(fmt, i, k, args) ==
            Conv(fmt[j], SpecOf(pad, w, l, k), args) + Expand(fmt, j + 1, if fmt[j] == '%' then k else k + 1, args)
  {
    assert SpecOf(pad, w, l, k).k == k;
    hide Flags, Conv, SpecOf, Expand;
    FlagsRead(fmt, i, pad, w, l, k, args);
    ExpandEscape(fmt, i, k, i + 1 + |pad| + |w| + l, SpecOf(pad, w, l, k), args);
  }

  lemma ExpandEscape(fmt: string, i: nat, k: nat, j: nat, sp: Spec, args: Args)
    requires i < j < |fmt| && fmt[i] == '%' && IsConv(fmt[j]) && Flags(fmt, i + 1, Start(k), args) == (j, sp)
    ensures Expand(fmt, i, k, args) ==
            Conv(fmt[j], sp, args) + Expand(fmt, j + 1, if fmt[j] == '%' then sp.k else sp.k + 1, args)
  {
    hide Conv, Flags;
  }

  // Such an escape alone.
  lemma EscapeAlone(pad: string, w: string, l: nat, c: char, args: Args)
    requires pad in {"", "0", "-"} && (w == [] || Numeral(w)) && IsConv(c)
    ensures Expand(Escape(pad, w, l, c), 0, 0, args) == Conv(c, SpecOf(pad, w, l, 0), args)
  {
    var fmt := Escape(pad, w, l, c);
    EscapeParts(pad, w, l, c);
    hide Conv, Parts, SpecOf, Escape;
    EscapePrints(fmt, 0, pad, w, l, 0, args);
    hide Expand;
    NothingLeft(fmt, 0, args);
    NothingLeft(fmt, 1, args);
    assert Conv(c, SpecOf(pad, w, l, 0), args) + "" == Conv(c, SpecOf(pad, w, l, 0), args);
  }

  lemma NothingLeft(fmt: string, k: nat, args: Args)
    ensures Expand(fmt, |fmt|, k, args) == ""
  {}

  lemma EscapeParts(pad: string, w: string, l: nat, c: char)
    requires IsConv(c)
    ensures var fmt := Escape(pad, w, l, c);
            Parts(fmt, 0, pad, w, l) && |fmt| == 2 + |pad| + |w| + l && fmt[1 + |pad| + |w| + l] == c
  {
    var fmt := Escape(pad, w, l, c);
    var a := 1 + |pad|;
    var b := a + |w|;
    assert fmt[1..a] == pad && fmt[a..b] == w && fmt[b + l] == c;
  }

  // The kernel's way to print an environment id.
  lemma IdShows(args: Args)
    requires args(0).Int? && 0 <= args(0).v < 0x8000_0000
    ensures var s := Expand("%08x", 0, 0, args);
            Shows(s, args(0).v, 16, 8, '0') && |s| == 8 && Strtol(s, 16).0 == args(0).v
  {
    hide Expand, Shows, Strtol, Digits, Printed, Conv, Value;
    var sp := Spec('0', 8, -1, 0, false, 0);
    EightWide(args);
    UnsignedShows('x', sp, args);
    UnsignedReadBack('x', sp, args);
    EightDigits(args(0).v);
    HexLength(sp, args);
  }

  lemma HexLength(sp: Spec, args: Args)
    requires args(sp.k).Int? && 0 <= args(sp.k).v < 0x8000_0000 && sp.padc in {' ', '0', '-'}
    ensures var ds := |Digits(args(sp.k).v, 16)|; |Conv('x', sp, args)| == if sp.width > ds then sp.width else ds
  {
    UintKept(args(sp.k).v, sp.lflag);
    hide GetUint, Digits, Strtol, Printed;
    ReadBack(args(sp.k).v, 16, sp.width, sp.padc);
  }

  lemma EightWide(args: Args)
    ensures Expand("%08x", 0, 0, args) == Conv('x', Spec('0', 8, -1, 0, false, 0), args)
  {
    assert "8"[..0] == [] && Value("8", 10) == 8;
    hide Expand, Conv, Value;
    assert Escape("0", "8", 0, 'x') == "%08x";
    EscapeAlone("0", "8", 0, 'x', args);
  }

  lemma EightDigits(num: nat)
    requires num < 0x8000_0000
    ensures |Digits(num, 16)| <= 8
  {
    FewDigits(num, 8);
  }

  function Power16(n: nat): nat { if n == 0 then 1 else 16 * Power16(n - 1) }

  lemma {:induction false} FewDigits(num: nat, n: nat)
    requires n > 0 && num < Power16(n)
    ensures |Digits(num, 16)| <= n
  {
    if num >= 16 {
      assert n > 1;
      FewDigits(num / 16, n - 1);
    }
  }
}
