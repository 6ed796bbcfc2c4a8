/** kservice.c: rt_vsnprintf. The text a format stands for, and the bounded buffer that receives it. */
module Formatter {
  import opened Options
  import opened Arithmetic
  import opened NumberText

  /** An argument as va_arg finds it; a missing or mismatched one is read as zero or a null string. */
  datatype Arg = Num(n: int) | Str(text: string) | Null

  function Signed(n: int, width: nat): int
    requires width == 16 || width == 32
  {
    var m := if width == 16 then 0x1_0000 else WORD;
    if n % m < m / 2 then n % m else n % m - m
  }

  function IntArg(args: seq<Arg>): int {
    if args != [] && args[0].Num? then Signed(args[0].n, 32) else 0
  }

  function StringArg(args: seq<Arg>): string {
    if args != [] && args[0].Str? then args[0].text else "(NULL)"
  }

  function Rest(args: seq<Arg>): seq<Arg> {
    if args == [] then [] else args[1..]
  }

  // --------------------------------------------------------------- directives

  function At(fmt: string, i: nat): char {
    if i < |fmt| then fmt[i] else '\0'
  }

  predicate IsDigit(c: char) {
    '0' <= c <= '9'
  }

  const NO_FLAGS := Flags(false, false, false, false, false, false)

  function ReadFlags(fmt: string, i: nat, f: Flags): (r: (Flags, nat))
    requires i <= |fmt|
    ensures i <= r.1 <= |fmt|
    decreases |fmt| - i
  {
    var c := At(fmt, i);
    if i == |fmt| then (f, i)
    else if c == '-' then ReadFlags(fmt, i + 1, f.(left := true))
    else if c == '+' then ReadFlags(fmt, i + 1, f.(plus := true))
    else if c == ' ' then ReadFlags(fmt, i + 1, f.(space := true))
    else if c == '#' then ReadFlags(fmt, i + 1, f)
    else if c == '0' then ReadFlags(fmt, i + 1, f.(zeropad := true))
    else (f, i)
  }

  /** skip_atoi, with acc read so far */
  function ReadNumber(fmt: string, i: nat, acc: nat): (r: (nat, nat))
    requires i <= |fmt|
    ensures i <= r.1 <= |fmt|
    decreases |fmt| - i
  {
    if i < |fmt| && IsDigit(fmt[i]) then ReadNumber(fmt, i + 1, acc * 10 + DigitValue(fmt[i])) else (acc, i)
  }

  /** What stands between % and the conversion character, which is at place at. */
  datatype Directive = Directive(flags: Flags, width: int, precision: int, qualifier: char, at: nat, args: seq<Arg>)

  function ReadWidth(fmt: string, i: nat, f: Flags, args: seq<Arg>): (d: Directive)
    requires i <= |fmt|
    ensures i <= d.at <= |fmt|
  {
    if IsDigit(At(fmt, i)) then
      var (w, j) := ReadNumber(fmt, i, 0);
      Directive(f, w, -1, '\0', j, args)
    else if At(fmt, i) == '*' then
      var w := IntArg(args);
      Directive(if w < 0 then f.(left := true) else f, if w < 0 then -w else w, -1, '\0', i + 1, Rest(args))
    else Directive(f, -1, -1, '\0', i, args)
  }

  function ReadPrecision(fmt: string, d: Directive): (r: Directive)
    requires d.at <= |fmt|
    ensures d.at <= r.at <= |fmt|
  {
    if At(fmt, d.at) != '.' then d.(precision := -1)
    else
      var i := d.at + 1;
      if IsDigit(At(fmt, i)) then
        var (p, j) := ReadNumber(fmt, i, 0);
        d.(precision := p, at := j)
      else if At(fmt, i) == '*' then
        var p := IntArg(d.args);
        d.(precision := if p < 0 then 0 else p, at := i + 1, args := Rest(d.args))
      else d.(precision := 0, at := i)
  }

  function ReadQualifier(fmt: string, d: Directive): (r: Directive)
    requires d.at <= |fmt|
    ensures d.at <= r.at <= |fmt|
  {
    if At(fmt, d.at) == 'h' || At(fmt, d.at) == 'l' then d.(qualifier := At(fmt, d.at), at := d.at + 1) else d
  }

  function ReadDirective(fmt: string, i: nat, args: seq<Arg>): (d: Directive)
    requires i < |fmt|
    ensures i < d.at <= |fmt|
  {
    var (f, j) := ReadFlags(fmt, i + 1, NO_FLAGS);
    ReadQualifier(fmt, ReadPrecision(fmt, ReadWidth(fmt, j, f, args)))
  }

  /** The word an integer conversion prints */
  function IntValue(d: Directive, sign: bool): int {
    var n := IntArg(d.args);
    if d.qualifier == 'h' then (if sign then Signed(n, 16) else n % 0x1_0000) else n
  }

  predicate IsInteger(c: char) {
    c == 'o' || c == 'X' || c == 'x' || c == 'd' || c == 'i' || c == 'u'
  }

  predicate TakesArg(c: char) {
    c == 'c' || c == 's' || c == 'p' || IsInteger(c)
  }

  function BaseOf(c: char): nat {
    if c == 'o' then 8 else if c == 'X' || c == 'x' then 16 else 10
  }

  /** The text of a conversion */
  function Converted(c: char, d: Directive): string {
    if c == 'c' then
      var ch := [(IntArg(d.args) % 256) as char];
      if d.flags.left then ch + Fill(' ', d.width - 1) else Fill(' ', d.width - 1) + ch
    else if c == 's' then
      var s := StringArg(d.args);
      var shown := if 0 < d.precision < |s| then s[..d.precision] else s;
      if d.flags.left then shown + Fill(' ', d.width - |shown|) else Fill(' ', d.width - |shown|) + shown
    else if c == 'p' then
      if d.width == -1 then Text(IntArg(d.args), 16, 8, d.precision, d.flags.(zeropad := true))
      else Text(IntArg(d.args), 16, d.width, d.precision, d.flags)
    else if c == '%' then "%"
    else if IsInteger(c) then
      var f := d.flags.(sign := c == 'd' || c == 'i', large := c == 'X');
      Text(IntValue(d, f.sign), BaseOf(c), d.width, d.precision, f)
    else if c == '\0' then "%"
    else ['%', c]
  }

  /** Where the format goes on after a directive, and with which arguments */
  function Behind(fmt: string, d: Directive): (nat, seq<Arg>) {
    (if d.at < |fmt| then d.at + 1 else d.at, if TakesArg(At(fmt, d.at)) then Rest(d.args) else d.args)
  }

  /** The unbounded text of a format from place i on. */
  function Render(fmt: string, i: nat, args: seq<Arg>): string
    requires i <= |fmt|
    decreases |fmt| - i
  {
    if i == |fmt| then ""
    else if fmt[i] != '%' then [fmt[i]] + Render(fmt, i + 1, args)
    else
      var d := ReadDirective(fmt, i, args);
      var (j, rest) := Behind(fmt, d);
      Converted(At(fmt, d.at), d) + Render(fmt, j, rest)
  }

  // --------------------------------------------------------------- the buffer

  /** The buffer behind buf, str and end: what does not fit is only counted. */
  class Sink {
    const buf: array<char>
    const end: nat
    var str: nat
    ghost var text: string

    ghost predicate Valid()
      reads this, buf
    {
      end <= buf.Length && str == |text| && forall k :: 0 <= k < str && k < end ==> buf[k] == text[k]
    }

    constructor (buf: array<char>, size: nat)
      requires size <= buf.Length
      ensures Valid() && text == "" && this.buf == buf && end == size
    {
      this.buf, end, str, text := buf, size, 0, "";
    }

    ghost predicate Tail(was: seq<char>)
      reads this, buf
    {
      end <= buf.Length == |was| && buf[end..] == was[end..]
    }

    /** A character is stored while there is room, and counted in any case. */
    method Put(c: char)
      requires Valid()
      modifies this, buf
      ensures Valid() && text == old(text) + [c] && Tail(old(buf[..]))
    {
      if str < end { buf[str] := c; }
      str := str + 1;
      text := text + [c];
    }

    /** while (size-- > 0) puts c; the counter ends below zero. */
    method Repeat(c: char, size: int) returns (left: int)
      requires Valid()
      modifies this, buf
      ensures Valid() && text == old(text) + Fill(c, size) && Tail(old(buf[..]))
      ensures left == (if size > 0 then 0 else size) - 1
    {
      left := size;
      ghost var t := text;
      assert t + Fill(c, 0) == t;
      while left > 0
        invariant Valid() && Tail(old(buf[..]))
        invariant left == size || 0 <= left <= size
        invariant text == t + Fill(c, if size > 0 then size - left else 0)
        decreases left
      {
        left := left - 1;
        Put(c);
        assert Fill(c, size - left) == Fill(c, size - left - 1) + [c];
      }
      left := left - 1;
    }

    /** The last k characters of a text, taken from the buffer that holds it backwards */
    method PutFigures(tmp: array<char>, count: nat, ghost ds: string)
      requires Valid() && count == |ds| <= tmp.Length && tmp != buf
      requires forall k :: 0 <= k < count ==> tmp[k] == ds[count - 1 - k]
      modifies this, buf
      ensures Valid() && text == old(text) + ds && Tail(old(buf[..]))
    {
      var i: int := count;
      ghost var t := text;
      assert ds[..0] == "";
      while i > 0
        invariant 0 <= i <= count && Valid() && Tail(old(buf[..])) && text == t + ds[..count - i]
        invariant forall k :: 0 <= k < count ==> tmp[k] == ds[count - 1 - k]
      {
        i := i - 1;
        assert ds[..count - i] == ds[..count - i - 1] + [ds[count - i - 1]];
        Put(tmp[i]);
      }
      assert ds[..count] == ds;
    }

    /** Blanks before the sign, the sign, and fill characters behind it; the counter that is left is what
        has to follow the figures. */
    method PutLead(width: int, sign: string, zeropad: bool, left: bool) returns (size: int)
      requires Valid() && |sign| <= 1 && !(zeropad && left)
      modifies this, buf
      ensures Valid() && Tail(old(buf[..]))
      ensures var pad := width - |sign|;
              text == old(text) + Fill(' ', if zeropad || left then 0 else pad) + sign + Fill('0', if zeropad then
                  pad else 0)
      ensures if left then size == width - |sign| else size < 0
    {
      hide Fill;
      ghost var t, pad := text, width - |sign|;
      size := width;
      NothingFilled(' ', 0, t);
      if !(zeropad || left) {
        if sign != "" && size > 0 { size := size - 1; }
        FillSame(' ', size, pad);
        size := Repeat(' ', size);
      }
      ghost var t1 := t + Fill(' ', if zeropad || left then 0 else pad);
      assert text == t1;
      if sign != "" {
        Put(sign[0]);
        size := size - 1;
      }
      assert text == t1 + sign;
      NothingFilled('0', 0, text);
      if !left {
        NothingFilled(' ', size, text);
        size := Repeat(if zeropad then '0' else ' ', size);
      }
    }

    /** print_number */
    method PrintNumber(num: int, base: nat, s: int, precision: int, f: Flags)
      requires Valid() && -0x8000_0000 <= num < 0x8000_0000
      modifies this, buf
      ensures Valid() && text == old(text) + Text(num, base, s, precision, f) && Tail(old(buf[..]))
    {
      hide Figures, Text, Lay, Field, Padding, Magnitude, Sign, Fill, Digits;
      FiguresFit(num, base, f);
      NumberParts(num, base, s, precision, f);
      var sign := Sign(num, f);
      var tmp, i := Collect(Magnitude(num, f), Radix(base), f.large);
      var p := if i > precision then i else precision;
      var size := s - p;
      ghost var t, ds := text, Figures(num, base, f);
      ghost var pad := Padding(sign, ds, s, precision);
      LayParts(sign, ds, s, precision, f, t);
      size := PutLead(size, sign, f.zeropad && !f.left, f.left);
      PutPrecise(tmp, i, p - i, precision, ds);
      FillSame(' ', size, if f.left then pad else 0);
      var none := Repeat(' ', size);
    }

    /** The zeros that the precision asks for and the collected figures; precision 0 suppresses the figures. */
    method PutPrecise(tmp: array<char>, i: nat, zeros: int, precision: int, ghost ds: string)
      requires Valid() && i == |ds| <= tmp.Length && tmp != buf
      requires forall k :: 0 <= k < i ==> tmp[k] == ds[i - 1 - k]
      requires zeros == if i > precision then 0 else precision - i
      modifies this, buf
      ensures Valid() && Tail(old(buf[..]))
      ensures text == old(text) + Fill('0', precision - |ds|) + (if precision == 0 then "" else ds)
    {
      hide Fill;
      FillSame('0', zeros, precision - |ds|);
      var none := Repeat('0', zeros);
      if precision != 0 { PutFigures(tmp, i, ds); }
    }

    /** The case of the conversion character */
    method PutConverted(c: char, d: Directive)
      requires Valid()
      modifies this, buf
      ensures Valid() && text == old(text) + Converted(c, d) && Tail(old(buf[..]))
    {
      hide Text;
      WordRange(d, true);
      WordRange(d, false);
      ghost var t := text;
      if c == 'c' {
        PutChar((IntArg(d.args) % 256) as char, d);
      } else if c == 's' {
        PutString(StringArg(d.args), d);
      } else if c == 'p' {
        if d.width == -1 {
          PrintNumber(IntArg(d.args), 16, 8, d.precision, d.flags.(zeropad := true));
        } else {
          PrintNumber(IntArg(d.args), 16, d.width, d.precision, d.flags);
        }
      } else if IsInteger(c) {
        var f := d.flags.(sign := c == 'd' || c == 'i', large := c == 'X');
        PrintNumber(IntValue(d, f.sign), BaseOf(c), d.width, d.precision, f);
      } else {
        Put('%');
        if c != '%' && c != '\0' { Put(c); }
        assert text == t + Converted(c, d);
      }
    }

    method PutChar(ch: char, d: Directive)
      requires Valid()
      modifies this, buf
      ensures Valid() && Tail(old(buf[..]))
      ensures text == old(text) + if d.flags.left then [ch] + Fill(' ', d.width - 1) else Fill(' ', d.width - 1) + [ch]
    {
      hide Fill;
      var w := d.width - 1;
      NothingFilled(' ', -1, text + (Fill(' ', w) + [ch]));
      var left := w;
      if !d.flags.left { left := Repeat(' ', w); }
      Put(ch);
      if !d.flags.left {
        FillSame(' ', left, -1);
        assert text == old(text) + (Fill(' ', w) + [ch]);
      }
      left := Repeat(' ', left);
    }

    method PutString(s: string, d: Directive)
      requires Valid()
      modifies this, buf
      ensures Valid() && Tail(old(buf[..]))
      ensures var shown := if 0 < d.precision < |s| then s[..d.precision] else s;
              text == old(text) + if d.flags.left then shown + Fill(' ', d.width - |shown|)
                  else Fill(' ', d.width - |shown|) + shown
    {
      hide Fill;
      var len := |s|;
      if d.precision > 0 && len > d.precision { len := d.precision; }
      ghost var shown := s[..len];
      assert shown == if 0 < d.precision < |s| then s[..d.precision] else s;
      var w := d.width - len;
      NothingFilled(' ', -1, text + (Fill(' ', w) + shown));
      var left := w;
      if !d.flags.left { left := Repeat(' ', w); }
      PutPrefix(s, len);
      if !d.flags.left {
        FillSame(' ', left, -1);
        assert text == old(text) + (Fill(' ', w) + shown);
      }
      left := Repeat(' ', left);
    }

    method PutPrefix(s: string, len: nat)
      requires Valid() && len <= |s|
      modifies this, buf
      ensures Valid() && Tail(old(buf[..])) && text == old(text) + s[..len]
    {
      ghost var t := text;
      var i := 0;
      while i < len
        invariant i <= len && Valid() && Tail(old(buf[..])) && text == t + s[..i]
      {
        Put(s[i]);
        i := i + 1;
        assert s[..i] == s[..i - 1] + [s[i - 1]];
      }
    }

    /** The terminating character: behind the text, or on the last place of a full buffer. */
    method Terminate()
      requires Valid()
      modifies buf
      ensures text == old(text) && str == old(str) && end <= buf.Length
      ensures end > 0 ==> var m := Min(|text|, end - 1); buf[..m] == text[..m] && buf[m] == '\0'
      ensures buf[end..] == old(buf[end..])
    {
      if end > 0 {
        if str < end { buf[str] := '\0'; } else { buf[end - 1] := '\0'; }
      }
    }
  }

  lemma WordRange(d: Directive, sign: bool)
    ensures -0x8000_0000 <= IntArg(d.args) < 0x8000_0000 && -0x8000_0000 <= IntValue(d, sign) < 0x8000_0000
  {
  }

  /** skip_atoi */
  method SkipAtoi(fmt: string, i: nat) returns (n: nat, j: nat)
    requires i <= |fmt|
    ensures (n, j) == ReadNumber(fmt, i, 0) && j <= |fmt|
  {
    n, j := 0, i;
    while j < |fmt| && IsDigit(fmt[j])
      invariant i <= j <= |fmt| && ReadNumber(fmt, i, 0) == ReadNumber(fmt, j, n)
    {
      n := n * 10 + DigitValue(fmt[j]);
      j := j + 1;
    }
  }

  method ScanFlags(fmt: string, i: nat) returns (f: Flags, j: nat)
    requires i <= |fmt|
    ensures (f, j) == ReadFlags(fmt, i, NO_FLAGS) && j <= |fmt|
  {
    f, j := NO_FLAGS, i;
    while true
      invariant i <= j <= |fmt| && ReadFlags(fmt, i, NO_FLAGS) == ReadFlags(fmt, j, f)
      decreases |fmt| - j
    {
      var c := At(fmt, j);
      if j == |fmt| { return; }
      if c == '-' { f := f.(left := true); }
      else if c == '+' { f := f.(plus := true); }
      else if c == ' ' { f := f.(space := true); }
      else if c == '#' { }
      else if c == '0' { f := f.(zeropad := true); }
      else { return; }
      j := j + 1;
    }
  }

  method ScanWidth(fmt: string, i: nat, f: Flags, args: seq<Arg>) returns (d: Directive)
    requires i <= |fmt|
    ensures d == ReadWidth(fmt, i, f, args)
  {
    hide ReadNumber;
    d := Directive(f, -1, -1, '\0', i, args);
    if IsDigit(At(fmt, i)) {
      var w, k := SkipAtoi(fmt, i);
      d := d.(width := w, at := k);
    } else if At(fmt, i) == '*' {
      var w := IntArg(args);
      if w < 0 { d := d.(flags := f.(left := true), width := -w); } else { d := d.(width := w); }
      d := d.(at := i + 1, args := Rest(args));
    }
  }

  method ScanPrecision(fmt: string, d0: Directive) returns (d: Directive)
    requires d0.at <= |fmt| && d0.precision == -1
    ensures d == ReadPrecision(fmt, d0)
  {
    hide ReadNumber;
    d := d0;
    if At(fmt, d.at) == '.' {
      var k := d.at + 1;
      if IsDigit(At(fmt, k)) {
        var p, l := SkipAtoi(fmt, k);
        d := d.(precision := p, at := l);
      } else if At(fmt, k) == '*' {
        d := d.(precision := IntArg(d.args), at := k + 1, args := Rest(d.args));
      } else {
        d := d.(at := k);
      }
      if d.precision < 0 { d := d.(precision := 0); }
    }
  }

  method ScanDirective(fmt: string, i: nat, args: seq<Arg>) returns (d: Directive)
    requires i < |fmt|
    ensures d == ReadDirective(fmt, i, args)
  {
    hide ReadFlags, ReadPrecision;
    var f, j := ScanFlags(fmt, i + 1);
    d := ScanWidth(fmt, j, f, args);
    assert d.precision == -1;
    hide ReadWidth;
    d := ScanPrecision(fmt, d);
    if At(fmt, d.at) == 'h' || At(fmt, d.at) == 'l' { d := d.(qualifier := At(fmt, d.at), at := d.at + 1); }
  }

  /** rt_vsnprintf: the result counts the whole text, whatever the size; the buffer gets as much of it as fits
      and a terminating character, and nothing behind size is touched. */
  method Vsnprintf(buf: array<char>, size: nat, fmt: string, args: seq<Arg>) returns (n: nat)
    requires size <= buf.Length && forall i :: 0 <= i < |fmt| ==> fmt[i] != '\0'
    modifies buf
    ensures n == |Render(fmt, 0, args)|
    ensures size > 0 ==> var m := Min(n, size - 1); buf[..m] == Render(fmt, 0, args)[..m] && buf[m] == '\0'
    ensures buf[size..] == old(buf[size..])
  {
    hide Converted, ReadDirective, Render;
    var sink := new Sink(buf, size);
    var i, rest := 0, args;
    ghost var all := Render(fmt, 0, args);
    assert "" + all == all;
    while i < |fmt|
      invariant i <= |fmt| && sink.Valid() && sink.buf == buf && sink.end == size && fresh(sink)
      invariant sink.text + Render(fmt, i, rest) == all
      invariant buf[size..] == old(buf[size..])
      decreases |fmt| - i
    {
      RenderStep(fmt, i, rest, sink.text);
      if fmt[i] != '%' {
        sink.Put(fmt[i]);
        i := i + 1;
      } else {
        i, rest := PutDirective(sink, fmt, i, rest);
      }
    }
    RenderEnd(fmt, rest);
    assert sink.text == all;
    sink.Terminate();
    n := sink.str;
  }

  lemma RenderEnd(fmt: string, args: seq<Arg>)
    ensures Render(fmt, |fmt|, args) == ""
  {
  }

  lemma RenderStep(fmt: string, i: nat, args: seq<Arg>, t: string)
    requires i < |fmt|
    ensures fmt[i] != '%' ==> t + Render(fmt, i, args) == t + [fmt[i]] + Render(fmt, i + 1, args)
    ensures fmt[i] == '%' ==>
              var d := ReadDirective(fmt, i, args);
              var (j, rest) := Behind(fmt, d);
              t + Render(fmt, i, args) == t + Converted(At(fmt, d.at), d) + Render(fmt, j, rest)
  {
    if fmt[i] != '%' {
      assert t + ([fmt[i]] + Render(fmt, i + 1, args)) == t + [fmt[i]] + Render(fmt, i + 1, args);
    } else {
      var d := ReadDirective(fmt, i, args);
      var (j, rest) := Behind(fmt, d);
      hide Converted;
      assert t + (Converted(At(fmt, d.at), d) + Render(fmt, j, rest))
          == t + Converted(At(fmt, d.at), d) + Render(fmt, j, rest);
    }
  }

  /** One directive and its argument */
  method PutDirective(sink: Sink, fmt: string, i: nat, args: seq<Arg>) returns (j: nat, rest: seq<Arg>)
    requires sink.Valid() && i < |fmt| && fmt[i] == '%'
    modifies sink, sink.buf
    ensures sink.Valid() && sink.Tail(old(sink.buf[..])) && i < j <= |fmt|
    ensures var d := ReadDirective(fmt, i, args);
            (j, rest) == Behind(fmt, d) && sink.text == old(sink.text) + Converted(At(fmt, d.at), d)
  {
    hide Converted, ReadDirective;
    var d := ScanDirective(fmt, i, args);
    var c := At(fmt, d.at);
    sink.PutConverted(c, d);
    j := if d.at < |fmt| then d.at + 1 else d.at;
    rest := if TakesArg(c) then Rest(d.args) else d.args;
  }

  lemma NothingFilled(c: char, n: int, t: string)
    ensures n <= 0 ==> t + Fill(c, n) == t
  {
  }

  lemma NumberParts(num: int, base: nat, s: int, precision: int, f: Flags)
    ensures var sg, ds := Sign(num, f), Figures(num, base, f);
            && ds == Digits(Magnitude(num, f), Radix(base), f.large) && |sg| <= 1
            && Text(num, base, s, precision, f) == Lay(sg, ds, s, precision, f)
            && Padding(sg, ds, s, precision) == s - (if |ds| > precision then |ds| else precision) - |sg|
  {
  }

  lemma FillSame(c: char, m: int, n: int)
    ensures m == n || (m <= 0 && n <= 0) ==> Fill(c, m) == Fill(c, n)
  {
  }

  /** The figures of a number, the last one first. */
  method Collect(n: nat, radix: nat, large: bool) returns (tmp: array<char>, i: nat)
    requires 2 <= radix <= 16 && |Digits(n, radix, large)| <= 16
    ensures fresh(tmp) && tmp.Length == 16 && i == |Digits(n, radix, large)|
    ensures forall k :: 0 <= k < i ==> tmp[k] == Digits(n, radix, large)[i - 1 - k]
  {
    tmp := new char[16];
    i := 0;
    var rest: nat := n;
    ghost var ds := Digits(n, radix, large);
    ZeroFigure(radix, large);
    hide Digits, Digit;
    if rest == 0 {
      tmp[0] := '0';
      i := 1;
      return;
    }
    while rest != 0
      invariant i <= |ds| && (rest == 0 <==> i == |ds|)
      invariant rest != 0 ==> Digits(rest, radix, large) == ds[..|ds| - i]
      invariant forall k :: 0 <= k < i ==> tmp[k] == ds[|ds| - 1 - k]
      decreases rest
    {
      NextFigure(ds, |ds| - i, rest, radix, large);
      tmp[i] := Digit(rest % radix, large);
      rest := rest / radix;
      i := i + 1;
    }
  }

  lemma ZeroFigure(radix: nat, large: bool)
    requires 2 <= radix <= 16
    ensures Digits(0, radix, large) == "0"
  {
  }

  lemma LastDigit(n: nat, radix: nat, large: bool)
    requires 2 <= radix <= 16 && n > 0
    ensures var ds := Digits(n, radix, large);
            && ds[|ds| - 1] == Digit(n % radix, large) && n / radix < n
            && (n / radix == 0 ==> |ds| == 1)
            && (n / radix != 0 ==> Digits(n / radix, radix, large) == ds[..|ds| - 1])
  {
    hide Digit;
    Smaller(n, radix);
    if n < radix { } else { assert n / radix > 0; }
  }

  /** When the first m of the figures ds are those of n, figure m - 1 is its last one. */
  lemma NextFigure(ds: string, m: nat, n: nat, radix: nat, large: bool)
    requires 2 <= radix <= 16 && n > 0 && m <= |ds| && Digits(n, radix, large) == ds[..m]
    ensures m > 0 && ds[m - 1] == Digit(n % radix, large)
    ensures 0 <= n / radix < n && 0 <= n % radix < radix && (n / radix == 0 <==> m == 1)
    ensures n / radix != 0 ==> Digits(n / radix, radix, large) == ds[..m - 1]
  {
    hide Digit;
    LastDigit(n, radix, large);
    assert ds[..m][..m - 1] == ds[..m - 1];
  }

  lemma Smaller(n: nat, radix: nat)
    requires 2 <= radix && n > 0
    ensures n / radix < n && (n < radix <==> n / radix == 0) && (n < radix ==> n % radix == n)
  {
    DivMod(n, radix);
    MulMono(2, radix, n);
    DivLess(n, radix, n);
  }
}
