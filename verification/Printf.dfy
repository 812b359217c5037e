// vprintfmt and vsnprintf of lib/printfmt.c.
module Printf {
  import opened Numbers

  // What va_arg yields: an integer, a string up to its NUL, or a null pointer.
  datatype Arg = Int(v: int) | Str(s: string) | Null

  type Args = nat -> Arg

  function IntOf(a: Arg): int {
    match a
    case Int(v) => v
    case _ => 0
  }

  // A format is the string before its NUL.
  predicate CString(fmt: string) { forall i :: 0 <= i < |fmt| ==> fmt[i] != '\0' }

  // The state of an escape being read; k counts the arguments used.
  datatype Spec = Spec(padc: char, width: int, precision: int, lflag: nat, alt: bool, k: nat)

  function Start(k: nat): Spec { Spec(' ', -1, -1, 0, false, k) }

  // process_precision
  function Process(sp: Spec, n: int): Spec {
    if sp.width < 0 then sp.(width := n, precision := -1) else sp.(precision := n)
  }

  predicate IsNum(c: char) { '0' <= c <= '9' }

  // A decimal number from position i on: where it ends, and its value on top of acc.
  function Number(fmt: string, i: nat, acc: int): (r: (nat, int))
    requires i <= |fmt|
    ensures i <= r.0 <= |fmt|
    decreases |fmt| - i
  {
    if i < |fmt| && IsNum(fmt[i]) then Number(fmt, i + 1, acc * 10 + (fmt[i] as int - '0' as int)) else (i, acc)
  }

  predicate IsFlag(c: char) { c in {'-', '*', '.', '#', 'l'} || IsNum(c) }

  // The flags from position i on: where the conversion character is, and what they said.
  function Flags(fmt: string, i: nat, sp: Spec, args: Args): (r: (nat, Spec))
    requires i <= |fmt|
    ensures i <= r.0 <= |fmt|
    decreases |fmt| - i
  {
    if i == |fmt| || !IsFlag(fmt[i]) then (i, sp)
    else if fmt[i] == '-' then Flags(fmt, i + 1, sp.(padc := '-'), args)
    else if fmt[i] == '0' then Flags(fmt, i + 1, sp.(padc := '0'), args)
    else if fmt[i] == '*' then Flags(fmt, i + 1, Process(sp.(k := sp.k + 1), IntOf(args(sp.k))), args)
    else if fmt[i] == '.' then Flags(fmt, i + 1, if sp.width < 0 then sp.(width := 0) else sp, args)
    else if fmt[i] == '#' then Flags(fmt, i + 1, sp.(alt := true), args)
    else if fmt[i] == 'l' then Flags(fmt, i + 1, sp.(lflag := sp.lflag + 1), args)
    else
      var (j, n) := Number(fmt, i + 1, fmt[i] as int - '0' as int);
      Flags(fmt, j, Process(sp, n), args)
  }

  // ------------------------------------------------------------------- one conversion

  function Bits(lflag: nat): int { if lflag >= 2 then 0x1_0000_0000_0000_0000 else 0x1_0000_0000 }

  // getuint and getint: 32 bits wide, or 64 with two l's.
  function GetUint(v: int, lflag: nat): nat { v % Bits(lflag) }
  function GetInt(v: int, lflag: nat): int {
    (v + Bits(lflag) / 2) % Bits(lflag) - Bits(lflag) / 2
  }

  // strnlen; a negative precision is no limit.
  function Strnlen(s: string, max: int): (n: nat)
    ensures n <= |s|
  {
    if s == [] || s[0] == '\0' || max == 0 then 0 else 1 + Strnlen(s[1..], max - 1)
  }

  function Shown(c: char, alt: bool): char { if alt && (c < ' ' || c > '~') then '?' else c }

  function Text(s: string, sp: Spec): string {
    seq(Strnlen(s, sp.precision), i requires 0 <= i < |s| => Shown(s[i], sp.alt))
  }

  // %s: padded on the left, or with '-' on the right.
  function Field(s: string, sp: Spec): string {
    var t := Text(s, sp);
    if sp.padc == '-' then t + Repeat(' ', sp.width - |t|) else Repeat(sp.padc, sp.width - |t|) + t
  }

  function ErrorString(err: nat): string {
    match err
    case 1 => "unspecified error"
    case 2 => "bad environment"
    case 3 => "invalid parameter"
    case 4 => "out of memory"
    case 5 => "out of environments"
    case 6 => "segmentation fault"
    case 8 => "env is not recving"
    case 9 => "unexpected end of file"
    case _ => ""
  }

  function Abs(v: int): nat { if v < 0 then -v else v }

  function ErrorText(err: nat): string {
    if ErrorString(err) == "" then "error " + Printed(err, 10, -1, ' ') else ErrorString(err)
  }

  predicate IsConv(c: char) { c in {'c', 'e', 's', 'd', 'u', 'o', 'p', 'x', '%'} }

  // What a conversion prints.
  function Conv(c: char, sp: Spec, args: Args): string
    requires IsConv(c)
  {
    var v := IntOf(args(sp.k));
    match c
    case 'c' => [(v % 256) as char]
    case 'e' => ErrorText(Abs(GetInt(v, 0)))
    case 's' => Field(match args(sp.k) { case Str(s) => s case _ => "(null)" }, sp)
    case 'd' =>
      var n := GetInt(v, sp.lflag);
      (if n < 0 then "-" else "") + Printed(Abs(n), 10, sp.width, sp.padc)
    case 'u' => Printed(GetUint(v, sp.lflag), 10, sp.width, sp.padc)
    case 'o' => Printed(GetUint(v, sp.lflag), 8, sp.width, sp.padc)
    case 'p' => "0x" + Printed(GetUint(v, 0), 16, sp.width, sp.padc)
    case 'x' => Printed(GetUint(v, sp.lflag), 16, sp.width, sp.padc)
    case _ => "%"
  }

  function Used(c: char): nat { if c == '%' then 0 else 1 }

  // -------------------------------------------------------------------- the whole format

  // What the format prints from position i on, with k arguments used.  After an unknown escape
  // printing goes on right behind its '%'.
  function Expand(fmt: string, i: nat, k: nat, args: Args): string
    requires i <= |fmt|
    decreases |fmt| - i
  {
    if i == |fmt| then ""
    else if fmt[i] != '%' then [fmt[i]] + Expand(fmt, i + 1, k, args)
    else
      var (j, sp) := Flags(fmt, i + 1, Start(k), args);
      if j < |fmt| && IsConv(fmt[j]) then Conv(fmt[j], sp, args) + Expand(fmt, j + 1, sp.k + Used(fmt[j]), args)
      else "%" + Expand(fmt, i + 1, sp.k, args)
  }

  lemma {:induction false} FlagsAreFlags(fmt: string, i: nat, sp: Spec, args: Args)
    requires i <= |fmt|
    ensures var j := Flags(fmt, i, sp, args).0;
            (forall n :: i <= n < j ==> IsFlag(fmt[n])) && (j < |fmt| ==> !IsFlag(fmt[j]))
    decreases |fmt| - i
  {
    if i < |fmt| && IsFlag(fmt[i]) {
      if fmt[i] == '-' { FlagsAreFlags(fmt, i + 1, sp.(padc := '-'), args); }
      else if fmt[i] == '0' { FlagsAreFlags(fmt, i + 1, sp.(padc := '0'), args); }
      else if fmt[i] == '*' { FlagsAreFlags(fmt, i + 1, Process(sp.(k := sp.k + 1), IntOf(args(sp.k))), args); }
      else if fmt[i] == '.' { FlagsAreFlags(fmt, i + 1, if sp.width < 0 then sp.(width := 0) else sp, args); }
      else if fmt[i] == '#' { FlagsAreFlags(fmt, i + 1, sp.(alt := true), args); }
      else if fmt[i] == 'l' { FlagsAreFlags(fmt, i + 1, sp.(lflag := sp.lflag + 1), args); }
      else {
        var (j, n) := Number(fmt, i + 1, fmt[i] as int - '0' as int);
        NumberIsNum(fmt, i + 1, fmt[i] as int - '0' as int);
        FlagsAreFlags(fmt, j, Process(sp, n), args);
      }
    }
  }

  lemma {:induction false} NumberIsNum(fmt: string, i: nat, acc: int)
    requires i <= |fmt|
    ensures forall n :: i <= n < Number(fmt, i, acc).0 ==> IsNum(fmt[n])
    decreases |fmt| - i
  {
    if i < |fmt| && IsNum(fmt[i]) { NumberIsNum(fmt, i + 1, acc * 10 + (fmt[i] as int - '0' as int)); }
  }

  lemma ExpandChar(fmt: string, i: nat, k: nat, args: Args)
    requires i < |fmt| && fmt[i] != '%'
    ensures Expand(fmt, i, k, args) == [fmt[i]] + Expand(fmt, i + 1, k, args)
  {}

  // Text without a '%' prints itself.
  lemma {:induction false} LiteralRun(fmt: string, i: nat, j: nat, k: nat, args: Args)
    requires i <= j <= |fmt| && forall n :: i <= n < j ==> fmt[n] != '%'
    ensures Expand(fmt, i, k, args) == fmt[i..j] + Expand(fmt, j, k, args)
    decreases j - i
  {
    hide Expand;
    if i < j {
      ExpandChar(fmt, i, k, args);
      LiteralRun(fmt, i + 1, j, k, args);
      Rejoin(fmt, i, j, Expand(fmt, j, k, args));
    } else {
      assert fmt[i..j] == [];
    }
  }

  lemma Rejoin(fmt: string, i: nat, j: nat, rest: string)
    requires i < j <= |fmt|
    ensures [fmt[i]] + (fmt[i + 1..j] + rest) == fmt[i..j] + rest
  {
    assert fmt[i..j] == [fmt[i]] + fmt[i + 1..j];
  }

  // An unknown escape is reproduced literally, from its '%' to the character that is not known, or to the end.
  lemma UnknownEscape(fmt: string, i: nat, k: nat, args: Args)
    requires i < |fmt| && fmt[i] == '%'
    ensures var (j, sp) := Flags(fmt, i + 1, Start(k), args);
            var end := if j < |fmt| then j + 1 else j;
            j == |fmt| || !IsConv(fmt[j]) ==> Expand(fmt, i, k, args) == fmt[i..end] + Expand(fmt, end, sp.k, args)
  {
    var (j, sp) := Flags(fmt, i + 1, Start(k), args);
    var end := if j < |fmt| then j + 1 else j;
    FlagsAreFlags(fmt, i + 1, Start(k), args);
    if j == |fmt| || !IsConv(fmt[j]) {
      assert Expand(fmt, i, k, args) == ['%'] + Expand(fmt, i + 1, sp.k, args);
      hide Expand;
      LiteralRun(fmt, i + 1, end, sp.k, args);
      Rejoin(fmt, i, end, Expand(fmt, end, sp.k, args));
    }
  }

  // ------------------------------------------------------------------ reading back a %d

  lemma StrtolSigned(s: string)
    requires |s| > 1 && s[0] == '-' && AllDigits(s[1..], 10) && 0 <= Value(s[1..], 10) < 0x8000_0000
    ensures Strtol(s, 10).0 == -Value(s[1..], 10)
  {
    StrtolDigits(s, 1, 10);
    NoWrap(-Value(s[1..], 10));
  }

  // A minus sign, zeros and digits.
  lemma ReadNegative(ds: string, n: int)
    requires Spells(ds, 10) && Value(ds, 10) > 0
    ensures Strtol("-" + (Repeat('0', n) + ds), 10).0 == -Value(ds, 10)
  {
    var t := Repeat('0', n) + ds;
    ZerosAdd(n, ds, 10);
    forall i | 0 <= i < |t| ensures IsDigit(t[i], 10) {
      if i < |t| - |ds| { RepeatAt('0', n, i); } else { assert t[i] == ds[i - (|t| - |ds|)]; }
    }
    assert ("-" + t)[1..] == t;
    hide Strtol, Value, Repeat, IsDigit;
    StrtolSigned("-" + t);
  }

  // A minus sign and blanks are no number.
  lemma ReadBrokenNegative(t: string)
    requires t != [] && t[0] == ' '
    ensures Strtol("-" + t, 10).0 == 0
  {
    var s := "-" + t;
    assert s[1] == t[0];
    NoWrap(0);
  }

  // strtol reads back what %d printed, for every int but the smallest, unless blanks came
  // between the minus sign and the digits.
  lemma DecimalReadBack(sp: Spec, args: Args)
    requires args(sp.k).Int? && -0x8000_0000 < args(sp.k).v < 0x8000_0000 && sp.lflag < 2 && sp.padc in {' ', '0'}
    ensures var v := args(sp.k).v; var ds := |Digits(Abs(v), 10)|;
            Strtol(Conv('d', sp, args), 10).0 == v <==> (v >= 0 || sp.padc == '0' || sp.width <= ds)
  {
    var v := args(sp.k).v;
    IntKept(v, sp.lflag);
    hide GetInt, Strtol, Printed, Digits;
    if v >= 0 {
      ReadBack(v, 10, sp.width, sp.padc);
      assert "" + Printed(v, 10, sp.width, sp.padc) == Printed(v, 10, sp.width, sp.padc);
    } else {
      NegativeReadBack(-v, sp.width, sp.padc);
    }
  }

  lemma IntKept(v: int, lflag: nat)
    requires -0x8000_0000 <= v < 0x8000_0000
    ensures GetInt(v, lflag) == v
  {}

  lemma NegativeReadBack(num: int, width: int, padc: char)
    requires 0 < num < 0x8000_0000 && padc in {' ', '0'}
    ensures Strtol("-" + Printed(num, 10, width, padc), 10).0 == -num <==> (padc == '0' || width <= |Digits(num, 10)|)
  {
    var ds, n := Digits(num, 10), width - |Digits(num, 10)|;
    DigitsSpell(num, 10);
    hide Digits, Strtol, Value, AllDigits;
    if padc == '0' || n <= 0 {
      assert Repeat(padc, n) == Repeat('0', n);
      ReadNegative(ds, n);
    } else {
      RepeatAt(' ', n, 0);
      ReadBrokenNegative(Repeat(' ', n) + ds);
    }
  }

  // ------------------------------------------------------------------------- the code

  // The loop of the width and precision digits, entered behind the first one.
  method ReadNumber(fmt: string, start: nat, first: char) returns (i: nat, n: int)
    requires start <= |fmt| && IsNum(first)
    ensures (i, n) == Number(fmt, start, first as int - '0' as int)
  {
    i, n := start, first as int - '0' as int;
    while IsNum(At(fmt, i))
      invariant i <= |fmt| && Number(fmt, i, n) == Number(fmt, start, first as int - '0' as int)
      decreases |fmt| - i
    {
      n := n * 10 + (fmt[i] as int - '0' as int);
      i := i + 1;
    }
  }

  // The switch, as long as it meets flags.
  method ReadFlags(fmt: string, start: nat, k: nat, args: Args) returns (i: nat, sp: Spec)
    requires start <= |fmt|
    ensures (i, sp) == Flags(fmt, start, Start(k), args)
  {
    hide Number, Process;
    i, sp := start, Start(k);
    while IsFlag(At(fmt, i))
      invariant i <= |fmt| && Flags(fmt, i, sp, args) == Flags(fmt, start, Start(k), args)
      decreases |fmt| - i
    {
      var ch := fmt[i];
      i := i + 1;
      if ch == '-' { sp := sp.(padc := '-'); }
      else if ch == '0' { sp := sp.(padc := '0'); }
      else if ch == '*' { sp := Process(sp.(k := sp.k + 1), IntOf(args(sp.k))); }
      else if ch == '.' { sp := if sp.width < 0 then sp.(width := 0) else sp; }
      else if ch == '#' { sp := sp.(alt := true); }
      else if ch == 'l' { sp := sp.(lflag := sp.lflag + 1); }
      else {
        var n;
        i, n := ReadNumber(fmt, i, ch);
        sp := Process(sp, n);
      }
    }
  }

  // case 's'
  method PrintString(b: Sink, s: string, sp: Spec)
    requires b.Valid()
    modifies b, b.buf
    ensures b.Valid() && b.out == old(b.out) + Field(s, sp)
  {
    assert |Text(s, sp)| == Strnlen(s, sp.precision);
    hide Strnlen, Text;
    var width, precision := sp.width, sp.precision;
    if width > 0 && sp.padc != '-' {
      width := width - Strnlen(s, precision);
      b.Pad(sp.padc, width);
      if width > 0 { width := 0; }
    }
    width := PrintChars(b, s, sp, width);
    b.Pad(' ', width);
  }

  // The loop over the characters of %s; the width left over.
  method PrintChars(b: Sink, s: string, sp: Spec, w: int) returns (width: int)
    requires b.Valid()
    modifies b, b.buf
    ensures b.Valid() && b.out == old(b.out) + Text(s, sp) && width == w - |Text(s, sp)|
  {
    var i, precision := 0, sp.precision;
    width := w;
    while i < |s| && s[i] != '\0' && (precision < 0 || precision > 0)
      invariant b.Valid() && i <= |s| && width == w - i
      invariant i + Strnlen(s[i..], precision) == |Text(s, sp)|
      invariant i <= |Text(s, sp)| && b.out == old(b.out) + Text(s, sp)[..i]
    {
      StrnlenNext(s, i, precision);
      if precision > 0 { precision := precision - 1; }
      b.Putch(Shown(s[i], sp.alt));
      i := i + 1;
      width := width - 1;
    }
    assert Text(s, sp)[..i] == Text(s, sp);
  }

  lemma StrnlenNext(s: string, i: nat, max: int)
    requires i < |s| && s[i] != '\0' && max != 0
    ensures Strnlen(s[i..], max) == 1 + Strnlen(s[i + 1..], if max > 0 then max - 1 else max)
  {
    assert s[i..][1..] == s[i + 1..];
    if max < 0 { StrnlenNoLimit(s[i + 1..], max - 1, max); }
  }

  lemma {:induction false} StrnlenNoLimit(s: string, m: int, n: int)
    requires m < 0 && n < 0
    ensures Strnlen(s, m) == Strnlen(s, n)
  {
    if s != [] { StrnlenNoLimit(s[1..], m - 1, n - 1); }
  }

  // case 'e'
  method PrintError(b: Sink, err: nat)
    requires b.Valid()
    modifies b, b.buf
    ensures b.Valid() && b.out == old(b.out) + ErrorText(err)
  {
    hide Printed, ErrorString;
    if ErrorString(err) == "" {
      b.Puts("error ");
      b.PrintNum(err, 10, -1, ' ');
    } else {
      b.Puts(ErrorString(err));
    }
  }

  // The conversions.
  method Convert(b: Sink, c: char, sp: Spec, args: Args)
    requires b.Valid() && IsConv(c)
    modifies b, b.buf
    ensures b.Valid() && b.out == old(b.out) + Conv(c, sp, args)
  {
    hide Printed, Field, ErrorText, GetInt, GetUint;
    var v := IntOf(args(sp.k));
    match c
    case 'c' => b.Putch((v % 256) as char);
    case 'e' => PrintError(b, Abs(GetInt(v, 0)));
    case 's' => PrintString(b, match args(sp.k) { case Str(s) => s case _ => "(null)" }, sp);
    case 'd' =>
      var n := GetInt(v, sp.lflag);
      if n < 0 { b.Putch('-'); }
      b.PrintNum(Abs(n), 10, sp.width, sp.padc);
    case 'u' => b.PrintNum(GetUint(v, sp.lflag), 10, sp.width, sp.padc);
    case 'o' => b.PrintNum(GetUint(v, sp.lflag), 8, sp.width, sp.padc);
    case 'p' =>
      b.Putch('0');
      b.Putch('x');
      b.PrintNum(GetUint(v, 0), 16, sp.width, sp.padc);
    case 'x' => b.PrintNum(GetUint(v, sp.lflag), 16, sp.width, sp.padc);
    case _ => b.Putch('%');
  }

  // The rewind after an unknown escape: from behind its last character to behind its '%'.
  method Rewind(fmt: string, start: nat, j: nat) returns (i: nat)
    requires 0 < start <= j <= |fmt| && fmt[start - 1] == '%' && forall n :: start <= n < j ==> IsFlag(fmt[n])
    ensures i == start
  {
    i := j + 1;
    i := i - 1;
    while fmt[i - 1] != '%'
      invariant start <= i <= j
      decreases i
    {
      i := i - 1;
    }
  }

  // vprintfmt
  method Vprintfmt(b: Sink, fmt: string, args: Args)
    requires b.Valid() && CString(fmt)
    modifies b, b.buf
    ensures b.Valid() && b.out == old(b.out) + Expand(fmt, 0, 0, args)
  {
    hide Conv, Flags;
    var i: nat, k: nat := 0, 0;
    while true
      invariant b.Valid() && i <= |fmt| && b.out + Expand(fmt, i, k, args) == old(b.out) + Expand(fmt, 0, 0, args)
      decreases |fmt| - i
    {
      ghost var before, i0 := b.out, i;
      var ch := At(fmt, i);
      if ch == '\0' { return; }
      i := i + 1;
      if ch != '%' {
        b.Putch(ch);
        Joined(before, [ch], Expand(fmt, i, k, args));
        continue;
      }
      var j, sp := ReadFlags(fmt, i, k, args);
      if IsConv(At(fmt, j)) {
        Convert(b, fmt[j], sp, args);
        i, k := j + 1, sp.k + Used(fmt[j]);
        Joined(before, Conv(fmt[j], sp, args), Expand(fmt, i, k, args));
      } else {
        b.Putch('%');
        FlagsAreFlags(fmt, i, Start(k), args);
        i := Rewind(fmt, i, j);
        k := sp.k;
        Joined(before, "%", Expand(fmt, i, k, args));
      }
    }
  }

  lemma Joined(a: string, b: string, c: string)
    ensures a + (b + c) == a + b + c
  {}

  const E_INVAL := 3

  // vsnprintf: the length of the whole text; as much of it as there is room for, and a NUL.
  method Vsnprintf(buf: array?<char>, n: int, fmt: string, args: Args) returns (r: int)
    requires buf != null ==> n <= buf.Length
    requires CString(fmt)
    modifies if buf == null then {} else {buf}
    ensures buf == null || n < 1 ==> r == -E_INVAL && (buf != null ==> buf[..] == old(buf[..]))
    ensures buf != null && n >= 1 ==>
              var text := Expand(fmt, 0, 0, args); var kept := Least(|text|, n - 1);
              r == |text| && buf[..kept] == text[..kept] && buf[kept] == '\0'
  {
    if buf == null || n < 1 { return -E_INVAL; }
    var b := new Sink(buf, n - 1);
    Vprintfmt(b, fmt, args);
    b.buf[b.pos] := '\0';
    assert buf[..b.pos] == b.out[..b.pos];
    return b.cnt;
  }
}
