/** kservice.c: what a directive of rt_vsnprintf means, told without the functions that read and convert it. */
module FormatLaws {
  import opened Options
  import opened Arithmetic
  import opened NumberText
  import opened Formatter

  // --------------------------------------------------------- writing a directive

  /** A width or a precision: left out, written in the format, or given as an argument. */
  datatype Spec = Absent | Fixed(n: nat) | Star(arg: int)

  predicate IsWord(n: int) {
    -0x8000_0000 <= n < 0x8000_0000
  }

  /** A width in the format does not begin with 0, which is a flag. */
  predicate GoodWidth(w: Spec) {
    (w.Fixed? ==> w.n > 0) && (w.Star? ==> IsWord(w.arg))
  }

  predicate GoodPrecision(p: Spec) {
    p.Star? ==> IsWord(p.arg)
  }

  predicate Conversion(c: char) {
    c in {'c', 's', 'p', 'd', 'i', 'u', 'o', 'x', 'X', '%'}
  }

  predicate Qualifier(q: string) {
    q == "" || q == "h" || q == "l"
  }

  function Option1(on: bool, c: char): string {
    if on then [c] else ""
  }

  function FlagText(f: Flags): string {
    Option1(f.left, '-') + (Option1(f.plus, '+') + (Option1(f.space, ' ') + Option1(f.zeropad, '0')))
  }

  function SpecText(w: Spec): string {
    match w
    case Absent => ""
    case Fixed(n) => Digits(n, 10, false)
    case Star(_) => "*"
  }

  function PrecisionText(p: Spec): string {
    if p.Absent? then "" else "." + SpecText(p)
  }

  function Written(f: Flags, w: Spec, p: Spec, q: string, c: char): (s: string)
    ensures |s| > 1
  {
    "%" + (FlagText(f) + FromWidth(w, p, q, c))
  }

  function FromWidth(w: Spec, p: Spec, q: string, c: char): string {
    SpecText(w) + FromPrecision(p, q, c)
  }

  function FromPrecision(p: Spec, q: string, c: char): string {
    PrecisionText(p) + (q + [c])
  }

  /** The arguments that the stars take */
  function Stars(w: Spec): seq<Arg> {
    if w.Star? then [Num(w.arg)] else []
  }

  // ---------------------------------------------------------------- what it means

  /** A negative width argument is the flag - and the width. */
  function WidthOf(w: Spec): int {
    match w
    case Absent => -1
    case Fixed(n) => n
    case Star(n) => if n < 0 then -n else n
  }

  function FlagsOf(f: Flags, w: Spec): Flags {
    if w.Star? && w.arg < 0 then f.(left := true) else f
  }

  /** A negative precision argument is no precision at all to C, and 0 here. */
  function PrecisionOf(p: Spec): int {
    match p
    case Absent => -1
    case Fixed(n) => n
    case Star(n) => if n < 0 then 0 else n
  }

  function QualifierOf(q: string): char {
    if q == "" then '\0' else q[0]
  }

  // -------------------------------------------------------------------- reading

  predicate StandsAt(fmt: string, i: nat, s: string) {
    i + |s| <= |fmt| && fmt[i..i + |s|] == s
  }

  lemma StandsSplit(fmt: string, i: nat, a: string, b: string)
    requires StandsAt(fmt, i, a + b)
    ensures StandsAt(fmt, i, a) && StandsAt(fmt, i + |a|, b)
  {
    assert (a + b)[..|a|] == a && (a + b)[|a|..] == b;
    assert fmt[i..i + |a|] == fmt[i..i + |a + b|][..|a|];
    assert fmt[i + |a|..i + |a + b|] == fmt[i..i + |a + b|][|a|..];
  }

  lemma StandsFirst(fmt: string, i: nat, s: string)
    requires StandsAt(fmt, i, s) && s != ""
    ensures i < |fmt| && fmt[i] == s[0] && At(fmt, i) == s[0]
  {
    assert fmt[i..i + |s|][0] == s[0];
  }

  predicate FlagChar(c: char) {
    c in {'-', '+', ' ', '#', '0'}
  }

  function WithFlag(f: Flags, on: bool, c: char): Flags {
    if !on then f
    else if c == '-' then f.(left := true)
    else if c == '+' then f.(plus := true)
    else if c == ' ' then f.(space := true)
    else f.(zeropad := true)
  }

  lemma OneFlag(fmt: string, i: nat, g: Flags, on: bool, c: char)
    requires c in {'-', '+', ' ', '0'} && StandsAt(fmt, i, Option1(on, c))
    ensures i <= |fmt| && i + |Option1(on, c)| <= |fmt|
    ensures ReadFlags(fmt, i, g) == ReadFlags(fmt, i + |Option1(on, c)|, WithFlag(g, on, c))
  {
    if on { StandsFirst(fmt, i, [c]); }
  }

  lemma FlagsRead(fmt: string, i: nat, f: Flags)
    requires StandsAt(fmt, i, FlagText(f)) && !f.sign && !f.large
    requires i + |FlagText(f)| < |fmt| && !FlagChar(fmt[i + |FlagText(f)|])
    ensures i <= |fmt| && ReadFlags(fmt, i, NO_FLAGS) == (f, i + |FlagText(f)|)
  {
    hide ReadFlags, StandsAt, Option1, FlagText, WithFlag, FlagChar;
    var g1 := WithFlag(NO_FLAGS, f.left, '-');
    var g2 := WithFlag(g1, f.plus, '+');
    var g3 := WithFlag(g2, f.space, ' ');
    var i1 := i + |Option1(f.left, '-')|;
    var i2 := i1 + |Option1(f.plus, '+')|;
    var i3 := i2 + |Option1(f.space, ' ')|;
    FlagParts(fmt, i, f);
    OneFlag(fmt, i, NO_FLAGS, f.left, '-');
    OneFlag(fmt, i1, g1, f.plus, '+');
    OneFlag(fmt, i2, g2, f.space, ' ');
    OneFlag(fmt, i3, g3, f.zeropad, '0');
    FlagsTogether(f);
    FlagsEnd(fmt, i + |FlagText(f)|, f);
  }

  lemma FlagParts(fmt: string, i: nat, f: Flags)
    requires StandsAt(fmt, i, FlagText(f))
    ensures var a, b, c, d := Option1(f.left, '-'), Option1(f.plus, '+'), Option1(f.space, ' '),
            Option1(f.zeropad, '0');
            && StandsAt(fmt, i, a) && StandsAt(fmt, i + |a|, b) && StandsAt(fmt, i + |a| + |b|, c)
            && StandsAt(fmt, i + |a| + |b| + |c|, d) && |FlagText(f)| == |a| + |b| + |c| + |d|
  {
    hide StandsAt, Option1;
    var a, b, c, d := Option1(f.left, '-'), Option1(f.plus, '+'), Option1(f.space, ' '), Option1(f.zeropad, '0');
    StandsSplit(fmt, i, a, b + (c + d));
    StandsSplit(fmt, i + |a|, b, c + d);
    StandsSplit(fmt, i + |a| + |b|, c, d);
  }

  lemma FlagsTogether(f: Flags)
    requires !f.sign && !f.large
    ensures WithFlag(WithFlag(WithFlag(WithFlag(NO_FLAGS, f.left, '-'), f.plus, '+'), f.space, ' '), f.zeropad, '0')
            == f
  {
  }

  lemma FlagsEnd(fmt: string, i: nat, f: Flags)
    requires i < |fmt| && !FlagChar(fmt[i])
    ensures ReadFlags(fmt, i, f) == (f, i)
  {
  }

  /** The value of decimal digits behind a number read so far */
  function Append(acc: nat, s: string): nat
    decreases |s|
  {
    if s == "" then acc else Append(acc * 10 + DigitValue(s[0]), s[1..])
  }

  lemma {:induction false} AppendLast(acc: nat, s: string, c: char)
    ensures Append(acc, s + [c]) == Append(acc, s) * 10 + DigitValue(c)
    decreases |s|
  {
    if s == "" {
      assert (s + [c])[1..] == "";
    } else {
      assert (s + [c])[1..] == s[1..] + [c];
      AppendLast(acc * 10 + DigitValue(s[0]), s[1..], c);
    }
  }

  lemma {:induction false} DecimalValue(n: nat)
    ensures Append(0, Digits(n, 10, false)) == n
    ensures forall k :: 0 <= k < |Digits(n, 10, false)| ==> IsDigit(Digits(n, 10, false)[k])
    ensures n > 0 ==> Digits(n, 10, false)[0] != '0'
    decreases n
  {
    DecimalDigit(if n < 10 then n else n % 10);
    if n < 10 {
      assert Append(DigitValue(Digit(n, false)), "") == DigitValue(Digit(n, false));
      assert [Digit(n, false)][1..] == "";
    } else {
      DecimalValue(n / 10);
      AppendLast(0, Digits(n / 10, 10, false), Digit(n % 10, false));
    }
  }

  lemma DecimalDigit(d: nat)
    requires d < 10
    ensures IsDigit(Digit(d, false)) && DigitValue(Digit(d, false)) == d && (d > 0 ==> Digit(d, false) != '0')
  {
  }

  lemma {:induction false} DigitsTaken(fmt: string, i: nat, k: nat, acc: nat)
    requires i <= k <= |fmt| && (forall j :: i <= j < k ==> IsDigit(fmt[j])) && (k < |fmt| ==> !IsDigit(fmt[k]))
    ensures ReadNumber(fmt, i, acc) == (Append(acc, fmt[i..k]), k)
    decreases k - i
  {
    if i < k {
      assert fmt[i..k][1..] == fmt[i + 1..k];
      DigitsTaken(fmt, i + 1, k, acc * 10 + DigitValue(fmt[i]));
    }
  }

  lemma NumberRead(fmt: string, i: nat, n: nat)
    requires StandsAt(fmt, i, Digits(n, 10, false))
    requires var k := i + |Digits(n, 10, false)|; k < |fmt| && !IsDigit(fmt[k])
    ensures i < |fmt| && IsDigit(At(fmt, i)) && At(fmt, i) == Digits(n, 10, false)[0]
    ensures ReadNumber(fmt, i, 0) == (n, i + |Digits(n, 10, false)|)
  {
    hide Digits, IsDigit;
    var ds := Digits(n, 10, false);
    DecimalValue(n);
    StandsFirst(fmt, i, ds);
    forall j | i <= j < i + |ds|
      ensures IsDigit(fmt[j])
    {
      assert fmt[j] == fmt[i..i + |ds|][j - i];
    }
    DigitsTaken(fmt, i, i + |ds|, 0);
  }

  lemma WidthRead(fmt: string, i: nat, w: Spec, f: Flags, args: seq<Arg>)
    requires GoodWidth(w) && StandsAt(fmt, i, SpecText(w))
    requires var k := i + |SpecText(w)|; k < |fmt| && !IsDigit(fmt[k]) && fmt[k] != '*'
    ensures i <= |fmt|
    ensures ReadWidth(fmt, i, f, Stars(w) + args)
            == Directive(FlagsOf(f, w), WidthOf(w), -1, '\0', i + |SpecText(w)|, args)
  {
    match w
    case Absent => assert Stars(w) + args == args;
    case Fixed(n) =>
      NumberRead(fmt, i, n);
      assert Stars(w) + args == args;
    case Star(n) =>
      StandsFirst(fmt, i, "*");
      WordArg(n, args);
      assert (Stars(w) + args)[1..] == args;
  }

  lemma WordArg(n: int, args: seq<Arg>)
    requires IsWord(n)
    ensures IntArg([Num(n)] + args) == n
  {
  }

  lemma PrecisionRead(fmt: string, d: Directive, p: Spec, args: seq<Arg>)
    requires GoodPrecision(p) && StandsAt(fmt, d.at, PrecisionText(p)) && d.args == Stars(p) + args && d.precision == -1
    requires var k := d.at + |PrecisionText(p)|; k < |fmt| && !IsDigit(fmt[k]) && fmt[k] != '*' && fmt[k] != '.'
    ensures d.at <= |fmt|
    ensures ReadPrecision(fmt, d) == d.(precision := PrecisionOf(p), at := d.at + |PrecisionText(p)|, args := args)
  {
    hide ReadNumber, Digits, StandsAt;
    if p.Absent? {
      assert Stars(p) + args == args;
      NoPrecision(fmt, d);
    } else {
      PrecisionParts(fmt, d.at, p);
      if p.Fixed? {
        assert Stars(p) + args == args;
        NumberRead(fmt, d.at + 1, p.n);
      } else {
        StandsFirst(fmt, d.at + 1, "*");
        StarRead(fmt, d, p.arg, args);
      }
    }
  }

  lemma NoPrecision(fmt: string, d: Directive)
    requires d.at < |fmt| && fmt[d.at] != '.' && d.precision == -1
    ensures ReadPrecision(fmt, d) == d
  {
  }

  lemma PrecisionParts(fmt: string, i: nat, p: Spec)
    requires !p.Absent? && StandsAt(fmt, i, PrecisionText(p))
    ensures At(fmt, i) == '.' && StandsAt(fmt, i + 1, SpecText(p)) && |PrecisionText(p)| == 1 + |SpecText(p)|
  {
    StandsSplit(fmt, i, ".", SpecText(p));
    StandsFirst(fmt, i, ".");
  }

  lemma StarRead(fmt: string, d: Directive, n: int, args: seq<Arg>)
    requires IsWord(n) && d.args == [Num(n)] + args && At(fmt, d.at) == '.' && At(fmt, d.at + 1) == '*'
    requires d.at <= |fmt|
    ensures ReadPrecision(fmt, d) == d.(precision := if n < 0 then 0 else n, at := d.at + 2, args := args)
  {
    WordArg(n, args);
    assert d.args[1..] == args;
    hide ReadNumber;
  }

  lemma QualifierRead(fmt: string, d: Directive, q: string, c: char)
    requires Qualifier(q) && Conversion(c) && StandsAt(fmt, d.at, q + [c]) && d.qualifier == '\0'
    ensures d.at <= |fmt| && d.at + |q| < |fmt| && fmt[d.at + |q|] == c
    ensures ReadQualifier(fmt, d) == d.(qualifier := QualifierOf(q), at := d.at + |q|)
  {
    StandsSplit(fmt, d.at, q, [c]);
    StandsFirst(fmt, d.at + |q|, [c]);
    if q != "" { StandsFirst(fmt, d.at, q); }
  }

  /** No part begins like the one before it goes on. */
  lemma PartStarts(w: Spec, p: Spec, q: string, c: char)
    requires GoodWidth(w) && Qualifier(q) && Conversion(c)
    ensures var t := q + [c]; !FlagChar(t[0]) && !IsDigit(t[0]) && t[0] != '*' && t[0] != '.'
    ensures var t := FromPrecision(p, q, c); t != "" && !FlagChar(t[0]) && !IsDigit(t[0]) && t[0] != '*'
    ensures var t := FromWidth(w, p, q, c); t != "" && !FlagChar(t[0])
  {
    if w.Fixed? { DecimalValue(w.n); }
  }

  /** A directive that is written out is read back, and the conversion character stands behind it. */
  lemma ReadsBack(f: Flags, w: Spec, p: Spec, q: string, c: char, rest: string, args: seq<Arg>)
    requires !f.sign && !f.large && GoodWidth(w) && GoodPrecision(p) && Qualifier(q) && Conversion(c)
    ensures var s := Written(f, w, p, q, c);
            var d := ReadDirective(s + rest, 0, Stars(w) + (Stars(p) + args));
            && d == Directive(FlagsOf(f, w), WidthOf(w), PrecisionOf(p), QualifierOf(q), |s| - 1, args)
            && (s + rest)[|s| - 1] == c
  {
    hide StandsAt, Written, FlagText, SpecText, PrecisionText, ReadFlags, ReadWidth, ReadPrecision, ReadQualifier,
      FlagChar, IsDigit, WidthOf, PrecisionOf, FlagsOf, QualifierOf, Stars, GoodWidth, GoodPrecision, Conversion,
      Qualifier;
    var s := Written(f, w, p, q, c);
    var fmt := s + rest;
    var i1 := 1 + |FlagText(f)|;
    var i2 := i1 + |SpecText(w)|;
    var i3 := i2 + |PrecisionText(p)|;
    Parts(f, w, p, q, c, rest);
    FlagsRead(fmt, 1, f);
    WidthRead(fmt, i1, w, f, Stars(p) + args);
    var d1 := Directive(FlagsOf(f, w), WidthOf(w), -1, '\0', i2, Stars(p) + args);
    PrecisionRead(fmt, d1, p, args);
    var d2 := d1.(precision := PrecisionOf(p), at := i3, args := args);
    QualifierRead(fmt, d2, q, c);
  }

  /** Where the parts stand, and how each part ends. */
  lemma Parts(f: Flags, w: Spec, p: Spec, q: string, c: char, rest: string)
    requires GoodWidth(w) && Qualifier(q) && Conversion(c)
    ensures var fmt := Written(f, w, p, q, c) + rest;
            var i1 := 1 + |FlagText(f)|;
            var i2 := i1 + |SpecText(w)|;
            var i3 := i2 + |PrecisionText(p)|;
            && i3 + |q| + 1 == |Written(f, w, p, q, c)| <= |fmt|
            && StandsAt(fmt, 1, FlagText(f)) && StandsAt(fmt, i1, SpecText(w))
            && StandsAt(fmt, i2, PrecisionText(p)) && StandsAt(fmt, i3, q + [c])
            && !FlagChar(fmt[i1]) && !IsDigit(fmt[i2]) && fmt[i2] != '*'
            && !IsDigit(fmt[i3]) && fmt[i3] != '*' && fmt[i3] != '.'
  {
    hide StandsAt, FlagText, SpecText, PrecisionText, FlagChar, IsDigit, Conversion, Qualifier, GoodWidth, FromWidth,
      FromPrecision, Written;
    var fmt := Written(f, w, p, q, c) + rest;
    var i1 := 1 + |FlagText(f)|;
    var i2 := i1 + |SpecText(w)|;
    var i3 := i2 + |PrecisionText(p)|;
    PartStarts(w, p, q, c);
    WholeStands(f, w, p, q, c, rest);
    WidthStands(fmt, i1, w, p, q, c);
    PrecisionStands(fmt, i2, p, q, c);
    StandsFirst(fmt, i1, FromWidth(w, p, q, c));
    StandsFirst(fmt, i2, FromPrecision(p, q, c));
    StandsFirst(fmt, i3, q + [c]);
  }

  lemma WholeStands(f: Flags, w: Spec, p: Spec, q: string, c: char, rest: string)
    ensures var s := Written(f, w, p, q, c);
            && |s| == 1 + |FlagText(f)| + |FromWidth(w, p, q, c)|
            && StandsAt(s + rest, 1, FlagText(f)) && StandsAt(s + rest, 1 + |FlagText(f)|, FromWidth(w, p, q, c))
  {
    hide FlagText, FromWidth;
    var s := Written(f, w, p, q, c);
    assert (s + rest)[..|s|] == s;
    StandsSplit(s + rest, 0, "%", FlagText(f) + FromWidth(w, p, q, c));
    StandsSplit(s + rest, 1, FlagText(f), FromWidth(w, p, q, c));
  }

  lemma WidthStands(fmt: string, i: nat, w: Spec, p: Spec, q: string, c: char)
    requires StandsAt(fmt, i, FromWidth(w, p, q, c))
    ensures StandsAt(fmt, i, SpecText(w)) && StandsAt(fmt, i + |SpecText(w)|, FromPrecision(p, q, c))
    ensures |FromWidth(w, p, q, c)| == |SpecText(w)| + |FromPrecision(p, q, c)|
  {
    hide StandsAt, SpecText, FromPrecision;
    StandsSplit(fmt, i, SpecText(w), FromPrecision(p, q, c));
  }

  lemma PrecisionStands(fmt: string, i: nat, p: Spec, q: string, c: char)
    requires StandsAt(fmt, i, FromPrecision(p, q, c))
    ensures StandsAt(fmt, i, PrecisionText(p)) && StandsAt(fmt, i + |PrecisionText(p)|, q + [c])
    ensures |FromPrecision(p, q, c)| == |PrecisionText(p)| + |q| + 1 && i + |FromPrecision(p, q, c)| <= |fmt|
  {
    StandsSplit(fmt, i, PrecisionText(p), q + [c]);
    hide SpecText, PrecisionText;
  }

  // --------------------------------------------------------- what stands before

  lemma {:induction false} ShiftFlags(pre: string, s: string, i: nat, f: Flags)
    requires i <= |s|
    ensures var (g, j) := ReadFlags(s, i, f); ReadFlags(pre + s, |pre| + i, f) == (g, |pre| + j)
    decreases |s| - i
  {
    if i < |s| {
      assert (pre + s)[|pre| + i] == s[i];
      ShiftFlags(pre, s, i + 1, f.(left := true));
      ShiftFlags(pre, s, i + 1, f.(plus := true));
      ShiftFlags(pre, s, i + 1, f.(space := true));
      ShiftFlags(pre, s, i + 1, f);
      ShiftFlags(pre, s, i + 1, f.(zeropad := true));
    }
  }

  lemma {:induction false} ShiftNumber(pre: string, s: string, i: nat, acc: nat)
    requires i <= |s|
    ensures var (n, j) := ReadNumber(s, i, acc); ReadNumber(pre + s, |pre| + i, acc) == (n, |pre| + j)
    decreases |s| - i
  {
    if i < |s| {
      assert (pre + s)[|pre| + i] == s[i];
      if IsDigit(s[i]) { ShiftNumber(pre, s, i + 1, acc * 10 + DigitValue(s[i])); }
    }
  }

  lemma ShiftAt(pre: string, s: string, i: nat)
    ensures At(pre + s, |pre| + i) == At(s, i)
  {
  }

  lemma ShiftWidth(pre: string, s: string, i: nat, f: Flags, args: seq<Arg>)
    requires i <= |s|
    ensures var d := ReadWidth(s, i, f, args); ReadWidth(pre + s, |pre| + i, f, args) == d.(at := |pre| + d.at)
  {
    ShiftAt(pre, s, i);
    ShiftNumber(pre, s, i, 0);
    hide ReadNumber;
  }

  lemma ShiftPrecision(pre: string, s: string, d: Directive)
    requires d.at <= |s|
    ensures ReadPrecision(pre + s, d.(at := |pre| + d.at)) == (var e := ReadPrecision(s, d); e.(at := |pre| + e.at))
  {
    ShiftAt(pre, s, d.at);
    ShiftAt(pre, s, d.at + 1);
    if At(s, d.at) == '.' { ShiftNumber(pre, s, d.at + 1, 0); }
    hide ReadNumber;
  }

  lemma ShiftDirective(pre: string, s: string, i: nat, args: seq<Arg>)
    requires i < |s|
    ensures var d := ReadDirective(s, i, args); ReadDirective(pre + s, |pre| + i, args) == d.(at := |pre| + d.at)
  {
    hide ReadFlags, ReadWidth, ReadPrecision, ReadQualifier;
    var (f, j) := ReadFlags(s, i + 1, NO_FLAGS);
    ShiftFlags(pre, s, i + 1, NO_FLAGS);
    ShiftWidth(pre, s, j, f, args);
    var d := ReadWidth(s, j, f, args);
    ShiftPrecision(pre, s, d);
    ShiftQualifier(pre, s, ReadPrecision(s, d));
  }

  lemma ShiftQualifier(pre: string, s: string, d: Directive)
    requires d.at <= |s|
    ensures ReadQualifier(pre + s, d.(at := |pre| + d.at)) == (var e := ReadQualifier(s, d); e.(at := |pre| + e.at))
  {
    ShiftAt(pre, s, d.at);
  }

  /** The conversions do not look at where the directive stands. */
  lemma SameConversion(c: char, d: Directive, at: nat)
    ensures Converted(c, d.(at := at)) == Converted(c, d)
  {
  }

  /** What stands before a place does not matter to what is written from there on. */
  lemma {:induction false} ShiftRender(pre: string, s: string, i: nat, args: seq<Arg>)
    requires i <= |s|
    ensures Render(pre + s, |pre| + i, args) == Render(s, i, args)
    decreases |s| - i
  {
    hide Render, Behind, ReadDirective, Converted;
    if i == |s| {
      RenderEnd(s, args);
      RenderEnd(pre + s, args);
    } else if s[i] != '%' {
      RenderPlain(s, i, args);
      assert (pre + s)[|pre| + i] == s[i];
      RenderPlain(pre + s, |pre| + i, args);
      ShiftRender(pre, s, i + 1, args);
    } else {
      var (j, left) := Behind(s, ReadDirective(s, i, args));
      RenderDirective(pre, s, i, args);
      ShiftRender(pre, s, j, left);
    }
  }

  lemma RenderPlain(fmt: string, i: nat, args: seq<Arg>)
    requires i < |fmt| && fmt[i] != '%'
    ensures Render(fmt, i, args) == [fmt[i]] + Render(fmt, i + 1, args)
  {
  }

  lemma RenderDirective(pre: string, s: string, i: nat, args: seq<Arg>)
    requires i < |s| && s[i] == '%'
    ensures var d := ReadDirective(s, i, args);
            var (j, left) := Behind(s, d);
            && i < j <= |s|
            && Render(s, i, args) == Converted(At(s, d.at), d) + Render(s, j, left)
            && Render(pre + s, |pre| + i, args) == Converted(At(s, d.at), d) + Render(pre + s, |pre| + j, left)
  {
    hide Converted, ReadDirective, At, Render;
    var d := ReadDirective(s, i, args);
    assert (pre + s)[|pre| + i] == s[i];
    ShiftDirective(pre, s, i, args);
    ShiftAt(pre, s, d.at);
    SameConversion(At(s, d.at), d, |pre| + d.at);
    RenderPercent(s, i, args);
    RenderPercent(pre + s, |pre| + i, args);
  }

  lemma RenderPercent(fmt: string, i: nat, args: seq<Arg>)
    requires i < |fmt| && fmt[i] == '%'
    ensures var d := ReadDirective(fmt, i, args);
            var (j, left) := Behind(fmt, d);
            i < j <= |fmt| && Render(fmt, i, args) == Converted(At(fmt, d.at), d) + Render(fmt, j, left)
  {
    hide Converted, ReadDirective, At;
  }

  /** A directive is replaced by its text, and the format goes on directly behind it; its argument is used up, except
      that %% has none. */
  lemma GoesOn(f: Flags, w: Spec, p: Spec, q: string, c: char, rest: string, args: seq<Arg>)
    requires !f.sign && !f.large && GoodWidth(w) && GoodPrecision(p) && Qualifier(q) && Conversion(c)
    requires c != '%' ==> args != []
    ensures var s := Written(f, w, p, q, c);
            var more := if c == '%' then args else args[1..];
            var own := if c == '%' then [] else [args[0]];
            Render(s + rest, 0, Stars(w) + (Stars(p) + args))
            == Render(s, 0, Stars(w) + (Stars(p) + own)) + Render(rest, 0, more)
  {
    hide Converted, Render, Written, FlagsOf, WidthOf, PrecisionOf, QualifierOf, Stars, GoodWidth, GoodPrecision,
      Conversion, Qualifier, DirectiveOf;
    var s := Written(f, w, p, q, c);
    var own := if c == '%' then [] else [args[0]];
    RenderOne(f, w, p, q, c, rest, args);
    RenderOne(f, w, p, q, c, "", own);
    assert s + "" == s;
    SameText(f, w, p, q, c, args, own);
    RenderEnd("", []);
    assert (if c == '%' then own else own[1..]) == [];
    var t := Converted(c, DirectiveOf(f, w, p, q, c, args));
    assert t + "" == t;
  }

  lemma SameText(f: Flags, w: Spec, p: Spec, q: string, c: char, args: seq<Arg>, own: seq<Arg>)
    requires if c == '%' then own == [] else args != [] && own == [args[0]]
    ensures Converted(c, DirectiveOf(f, w, p, q, c, own)) == Converted(c, DirectiveOf(f, w, p, q, c, args))
  {
    SameArgument(c, DirectiveOf(f, w, p, q, c, args), own);
    assert DirectiveOf(f, w, p, q, c, args).(args := own) == DirectiveOf(f, w, p, q, c, own);
    hide Converted, FlagsOf, WidthOf, PrecisionOf, QualifierOf, Written;
  }

  function DirectiveOf(f: Flags, w: Spec, p: Spec, q: string, c: char, args: seq<Arg>): Directive {
    Directive(FlagsOf(f, w), WidthOf(w), PrecisionOf(p), QualifierOf(q), |Written(f, w, p, q, c)| - 1, args)
  }

  lemma SameArgument(c: char, d: Directive, own: seq<Arg>)
    requires if c == '%' then own == [] else d.args != [] && own == [d.args[0]]
    ensures Converted(c, d.(args := own)) == Converted(c, d)
  {
  }

  lemma RenderOne(f: Flags, w: Spec, p: Spec, q: string, c: char, rest: string, args: seq<Arg>)
    requires !f.sign && !f.large && GoodWidth(w) && GoodPrecision(p) && Qualifier(q) && Conversion(c)
    requires c != '%' ==> args != []
    ensures var s := Written(f, w, p, q, c);
            Render(s + rest, 0, Stars(w) + (Stars(p) + args))
            == Converted(c, DirectiveOf(f, w, p, q, c, args)) + Render(rest, 0, if c == '%' then args else args[1..])
  {
    hide Converted, ReadDirective, FlagsOf, WidthOf, PrecisionOf, QualifierOf, Stars, GoodWidth, GoodPrecision,
      Qualifier, Written, Render;
    var s := Written(f, w, p, q, c);
    var all := Stars(w) + (Stars(p) + args);
    ReadsBack(f, w, p, q, c, rest, args);
    PercentFirst(f, w, p, q, c, rest);
    RenderPercent(s + rest, 0, all);
    assert At(s + rest, |s| - 1) == c;
    ShiftRender(s, rest, 0, if c == '%' then args else args[1..]);
  }

  lemma PercentFirst(f: Flags, w: Spec, p: Spec, q: string, c: char, rest: string)
    ensures (Written(f, w, p, q, c) + rest)[0] == '%'
  {
  }

  // ------------------------------------------------------------- what is written

  /** A text in a field: blanks behind it with the flag -, else in front of it. */
  predicate InField(t: string, shown: string, width: int, left: bool) {
    t == if left then shown + Fill(' ', width - |shown|) else Fill(' ', width - |shown|) + shown
  }

  /** A sign and figures in a field: blanks behind them with the flag -, zeros between them with the flag 0, else blanks
      in front of them. */
  predicate NumberInField(t: string, sign: string, body: string, width: int, f: Flags) {
    var gap := width - |sign| - |body|;
    t == if f.left then sign + body + Fill(' ', gap)
         else if f.zeropad then sign + Fill('0', gap) + body
         else Fill(' ', gap) + sign + body
  }

  predicate Figure(c: char, base: nat, large: bool) {
    '0' <= c <= '9' || (base == 16 && if large then 'A' <= c <= 'F' else 'a' <= c <= 'f')
  }

  /** The figures of a value: at least as many as the precision asks for, and no zero in front that it does not. */
  predicate Numeral(body: string, base: nat, large: bool, value: nat, precision: int) {
    && body != "" && |body| >= precision && (forall k :: 0 <= k < |body| ==> Figure(body[k], base, large))
    && Parse(body, base) == value
    && (|body| > 1 && |body| > precision ==> body[0] != '0')
  }

  /** A sign belongs to d and i only: - for a negative value, else + or a blank where the flags ask for one. */
  function SignOf(c: char, f: Flags, value: int): string {
    if c !in {'d', 'i'} then ""
    else if value < 0 then "-" else if f.plus then "+" else if f.space then " " else ""
  }

  /** The word that is printed for the argument n: its low 32 bits, or 16 with the qualifier h, as a signed number for
      d and i and as an unsigned one otherwise. */
  predicate Printed(n: int, q: string, c: char, m: int) {
    var size := if q == "h" then 0x1_0000 else 0x1_0000_0000;
    && (m - n) % size == 0
    && if c in {'d', 'i'} then -size / 2 <= m < size / 2 else 0 <= m < size
  }

  function BaseIs(c: char): nat {
    if c in {'d', 'i', 'u'} then 10 else 16
  }

  function Magnitude1(m: int): nat {
    if m < 0 then -m else m
  }

  lemma {:induction false} FiguresOnly(n: nat, radix: nat, large: bool)
    requires radix == 10 || radix == 16
    ensures forall k :: 0 <= k < |Digits(n, radix, large)| ==> Figure(Digits(n, radix, large)[k], radix, large)
    ensures n > 0 ==> Digits(n, radix, large)[0] != '0'
    ensures n < radix ==> |Digits(n, radix, large)| == 1
    decreases n
  {
    OneFigure(if n < radix then n else n % radix, radix, large);
    hide Digit, Figure;
    if n >= radix {
      Quotient(n, radix);
      FiguresOnly(n / radix, radix, large);
    }
  }

  lemma Quotient(n: nat, radix: nat)
    requires n >= radix > 1
    ensures 0 < n / radix < n
  {
    DivBounds(n, radix);
    DivAtLeast(n, radix, 1);
    DivLess(n, radix, n);
  }

  lemma OneFigure(d: nat, radix: nat, large: bool)
    requires d < radix && (radix == 10 || radix == 16)
    ensures Figure(Digit(d, large), radix, large) && (d > 0 ==> Digit(d, large) != '0')
  {
  }

  lemma NumeralIs(n: nat, radix: nat, large: bool, precision: int)
    requires radix == 10 || radix == 16
    ensures var ds := Digits(n, radix, large); Numeral(Fill('0', precision - |ds|) + ds, radix, large, n, precision)
  {
    hide Fill, Parse, Figure, Digits;
    var ds := Digits(n, radix, large);
    var zeros := Fill('0', precision - |ds|);
    FiguresOnly(n, radix, large);
    DigitsRead(n, radix, large);
    FillChars('0', precision - |ds|);
    FillValueless('0', precision - |ds|);
    PrefixRead(zeros, ds, radix);
    AllFigures(zeros, ds, radix, large);
    if zeros == "" { assert zeros + ds == ds; }
    Together(zeros + ds, ds, n, radix, large, precision);
  }

  lemma Together(body: string, ds: string, n: nat, radix: nat, large: bool, precision: int)
    requires ds != "" && |body| == |ds| + (if precision > |ds| then precision - |ds| else 0)
    requires (|body| == |ds| ==> body == ds) && (n > 0 ==> ds[0] != '0') && (n < radix ==> |ds| == 1) && radix > 0
    requires (forall k :: 0 <= k < |body| ==> Figure(body[k], radix, large)) && Parse(body, radix) == n
    ensures Numeral(body, radix, large, n, precision)
  {
    hide Parse, Figure;
  }

  lemma AllFigures(zeros: string, ds: string, base: nat, large: bool)
    requires forall i :: 0 <= i < |zeros| ==> zeros[i] == '0'
    requires forall k :: 0 <= k < |ds| ==> Figure(ds[k], base, large)
    ensures forall k :: 0 <= k < |zeros + ds| ==> Figure((zeros + ds)[k], base, large)
  {
    forall k | 0 <= k < |zeros + ds|
      ensures Figure((zeros + ds)[k], base, large)
    {
      if k < |zeros| { assert (zeros + ds)[k] == zeros[k]; } else { assert (zeros + ds)[k] == ds[k - |zeros|]; }
    }
  }

  /** A number in a field, when the precision is not 0 */
  lemma TextShows(v: int, base: nat, width: int, precision: int, f: Flags)
    requires precision != 0
    ensures var ds := Figures(v, base, f);
            var body := Fill('0', precision - |ds|) + ds;
            NumberInField(Text(v, base, width, precision, f), Sign(v, f), body, width, f)
  {
    var sg, ds := Sign(v, f), Figures(v, base, f);
    var zeros, pad := Fill('0', precision - |ds|), Padding(sg, ds, width, precision);
    assert pad == width - |sg| - |zeros + ds|;
    hide Sign, Figures, Fill, Padding;
    assert sg + (zeros + ds) + Fill(' ', pad) == sg + (zeros + ds) + Fill(' ', pad);
  }

  lemma SignedIs(n: int, width: nat)
    requires width == 16 || width == 32
    ensures var size := if width == 16 then 0x1_0000 else 0x1_0000_0000;
            -size / 2 <= Signed(n, width) < size / 2 && (Signed(n, width) - n) % size == 0
  {
    if width == 16 {
      var k := n / 0x1_0000;
      assert n == 0x1_0000 * k + n % 0x1_0000;
    } else {
      var k := n / 0x1_0000_0000;
      assert n == 0x1_0000_0000 * k + n % 0x1_0000_0000;
    }
  }

  lemma WordPrinted(d: Directive, n: int, q: string, c: char, m: int, f: Flags)
    requires d.args == [Num(n)] && d.qualifier == QualifierOf(q) && Qualifier(q) && Printed(n, q, c, m)
    requires f.sign == (c in {'d', 'i'})
    ensures var v := IntValue(d, f.sign); Magnitude(v, f) == Magnitude1(m) && Sign(v, f) == SignOf(c, f, m)
  {
    var x := IntArg(d.args);
    SignedIs(n, 32);
    SignedIs(x, 16);
    var v := IntValue(d, f.sign);
    if f.sign {
      if q == "h" { Both16(m, n, x, v); } else { Both32(m, n, v); }
    } else {
      if q == "h" { Low16(m, n, x); } else { Low32(m, n, v); }
    }
    hide Signed;
  }

  lemma Both32(m: int, n: int, v: int)
    requires (m - n) % 0x1_0000_0000 == 0 && (v - n) % 0x1_0000_0000 == 0
    requires -0x8000_0000 <= m < 0x8000_0000 && -0x8000_0000 <= v < 0x8000_0000
    ensures m == v
  {
    var i, j := (m - n) / 0x1_0000_0000, (v - n) / 0x1_0000_0000;
    assert v == m + 0x1_0000_0000 * (j - i);
  }

  lemma Both16(m: int, n: int, x: int, v: int)
    requires (m - n) % 0x1_0000 == 0 && (x - n) % 0x1_0000_0000 == 0 && (v - x) % 0x1_0000 == 0
    requires -0x8000 <= m < 0x8000 && -0x8000 <= v < 0x8000
    ensures m == v
  {
    var i, j, k := (m - n) / 0x1_0000, (x - n) / 0x1_0000_0000, (v - x) / 0x1_0000;
    assert v == m + 0x1_0000 * (0x1_0000 * j + k - i);
  }

  lemma Low32(m: int, n: int, v: int)
    requires (m - n) % 0x1_0000_0000 == 0 && (v - n) % 0x1_0000_0000 == 0 && 0 <= m < 0x1_0000_0000
    ensures v % 0x1_0000_0000 == m
  {
    var i, j := (m - n) / 0x1_0000_0000, (v - n) / 0x1_0000_0000;
    assert v == m + 0x1_0000_0000 * (j - i);
  }

  lemma Low16(m: int, n: int, x: int)
    requires (m - n) % 0x1_0000 == 0 && (x - n) % 0x1_0000_0000 == 0 && 0 <= m < 0x1_0000
    ensures x % 0x1_0000 == m && x % 0x1_0000 % WORD == m
  {
    var i, j := (m - n) / 0x1_0000, (x - n) / 0x1_0000_0000;
    assert m - n == 0x1_0000 * i && x - n == 0x1_0000_0000 * j;
    assert x == m + 0x1_0000 * (0x1_0000 * j - i);
  }

  /** What d, i, u, x, X and o print: the figures of the word in base 10 for the first three and in base 16 for the
      others, behind its sign, in a field. */
  lemma IntegerShown(f: Flags, w: Spec, p: Spec, q: string, c: char, n: int, m: int)
    requires !f.sign && !f.large && GoodWidth(w) && GoodPrecision(p) && Qualifier(q) && PrecisionOf(p) != 0
    requires c in {'d', 'i', 'u', 'x', 'X', 'o'} && Printed(n, q, c, m)
    ensures var t := Render(Written(f, w, p, q, c), 0, Stars(w) + (Stars(p) + [Num(n)]));
            exists body ::
              && Numeral(body, BaseIs(c), c == 'X', Magnitude1(m), PrecisionOf(p))
              && NumberInField(t, SignOf(c, f, m), body, WidthOf(w), FlagsOf(f, w))
  {
    hide Text, Render, Written, Numeral, NumberInField, Magnitude, Sign, SignOf, IntValue, Printed, Converted, Stars,
      Magnitude1, GoodWidth, GoodPrecision, Qualifier, BaseOf, Radix, BaseIs, WidthOf, PrecisionOf, FlagsOf,
      QualifierOf;
    var d := DirectiveOf(f, w, p, q, c, [Num(n)]);
    var g := d.flags.(sign := c in {'d', 'i'}, large := c == 'X');
    OneDirective(f, w, p, q, c, [Num(n)]);
    IntegerText(d, c);
    WordPrinted(d, n, q, c, m, g);
    SameSign(c, f, w, m, g);
    var t := Render(Written(f, w, p, q, c), 0, Stars(w) + (Stars(p) + [Num(n)]));
    TextIsShown(t, IntValue(d, g.sign), BaseOf(c), d.width, d.precision, g, SignOf(c, f, m), Magnitude1(m));
    var body :| Numeral(body, BaseIs(c), c == 'X', Magnitude1(m), d.precision)
                && NumberInField(t, SignOf(c, f, m), body, d.width, g);
    FieldFlags(t, SignOf(c, f, m), body, d.width, g, FlagsOf(f, w));
  }

  lemma TextIsShown(t: string, v: int, base: nat, width: int, precision: int, g: Flags, sign: string, value: nat)
    requires t == Text(v, base, width, precision, g) && precision != 0
    requires Sign(v, g) == sign && Magnitude(v, g) == value
    ensures exists body ::
              Numeral(body, Radix(base), g.large, value, precision)
              && NumberInField(t, sign, body, width, g)
  {
    hide Text, Numeral, NumberInField, Magnitude, Sign, Digits, Fill;
    TextShows(v, base, width, precision, g);
    NumeralIs(value, Radix(base), g.large, precision);
  }

  lemma FieldFlags(t: string, sign: string, body: string, width: int, f: Flags, g: Flags)
    requires f.left == g.left && f.zeropad == g.zeropad && NumberInField(t, sign, body, width, f)
    ensures NumberInField(t, sign, body, width, g)
  {
  }

  lemma SameSign(c: char, f: Flags, w: Spec, m: int, g: Flags)
    requires g == FlagsOf(f, w).(sign := g.sign, large := g.large)
    ensures SignOf(c, g, m) == SignOf(c, f, m) && g.left == FlagsOf(f, w).left && g.zeropad == FlagsOf(f, w).zeropad
  {
  }

  lemma IntegerText(d: Directive, c: char)
    requires c in {'d', 'i', 'u', 'x', 'X', 'o'}
    ensures var g := d.flags.(sign := c in {'d', 'i'}, large := c == 'X');
            Converted(c, d) == Text(IntValue(d, g.sign), BaseOf(c), d.width, d.precision, g)
    ensures Radix(BaseOf(c)) == BaseIs(c)
  {
    hide Text, IntValue;
  }

  /** A format that is one directive */
  lemma OneDirective(f: Flags, w: Spec, p: Spec, q: string, c: char, own: seq<Arg>)
    requires !f.sign && !f.large && GoodWidth(w) && GoodPrecision(p) && Qualifier(q) && Conversion(c)
    requires if c == '%' then own == [] else |own| == 1
    ensures Render(Written(f, w, p, q, c), 0, Stars(w) + (Stars(p) + own))
            == Converted(c, DirectiveOf(f, w, p, q, c, own))
  {
    hide Converted, Render, Written, FlagsOf, WidthOf, PrecisionOf, QualifierOf, Stars, GoodWidth, GoodPrecision,
      Conversion, Qualifier, DirectiveOf;
    var s := Written(f, w, p, q, c);
    RenderOne(f, w, p, q, c, "", own);
    assert s + "" == s;
    RenderEnd("", []);
    assert (if c == '%' then own else own[1..]) == [];
    var t := Converted(c, DirectiveOf(f, w, p, q, c, own));
    assert t + "" == t;
  }

  /** A pointer prints as an unsigned word in base 16; without a width it has eight figures at least. */
  lemma PointerShown(f: Flags, w: Spec, p: Spec, q: string, n: int, m: int)
    requires !f.sign && !f.large && GoodWidth(w) && GoodPrecision(p) && Qualifier(q) && PrecisionOf(p) != 0
    requires 0 <= m < 0x1_0000_0000 && (m - n) % 0x1_0000_0000 == 0
    ensures var t := Render(Written(f, w, p, q, 'p'), 0, Stars(w) + (Stars(p) + [Num(n)]));
            exists body ::
              && Numeral(body, 16, false, m, PrecisionOf(p))
              && if w.Absent? then NumberInField(t, "", body, 8, f.(zeropad := true))
                 else NumberInField(t, "", body, WidthOf(w), FlagsOf(f, w))
  {
    hide Text, Render, Written, Numeral, NumberInField, Converted, Stars, GoodWidth, GoodPrecision, Qualifier,
      PrecisionOf, QualifierOf, IntArg, Magnitude, Sign;
    var d := DirectiveOf(f, w, p, q, 'p', [Num(n)]);
    var g := if w.Absent? then f.(zeropad := true) else FlagsOf(f, w);
    var width := if w.Absent? then 8 else WidthOf(w);
    OneDirective(f, w, p, q, 'p', [Num(n)]);
    PointerText(d, w, f, g, width);
    PointerWord(n, m, g);
    var t := Render(Written(f, w, p, q, 'p'), 0, Stars(w) + (Stars(p) + [Num(n)]));
    TextIsShown(t, IntArg([Num(n)]), 16, width, d.precision, g, "", m);
  }

  lemma PointerText(d: Directive, w: Spec, f: Flags, g: Flags, width: int)
    requires d.width == WidthOf(w) && d.flags == FlagsOf(f, w) && GoodWidth(w)
    requires g == (if w.Absent? then f.(zeropad := true) else FlagsOf(f, w))
    requires width == if w.Absent? then 8 else WidthOf(w)
    ensures Converted('p', d) == Text(IntArg(d.args), 16, width, d.precision, g)
  {
    hide Text, IntArg;
  }

  lemma PointerWord(n: int, m: int, g: Flags)
    requires 0 <= m < 0x1_0000_0000 && (m - n) % 0x1_0000_0000 == 0 && !g.sign
    ensures Magnitude(IntArg([Num(n)]), g) == m && Sign(IntArg([Num(n)]), g) == ""
  {
    SignedIs(n, 32);
    Low32(m, n, Signed(n, 32));
  }

  /** A string is cut to a precision above 0, and shown in a field; the null pointer reads (NULL). */
  lemma StringShown(f: Flags, w: Spec, p: Spec, q: string, a: Arg)
    requires !f.sign && !f.large && GoodWidth(w) && GoodPrecision(p) && Qualifier(q) && !a.Num?
    ensures var s := if a.Str? then a.text else "(NULL)";
            var shown := if 0 < PrecisionOf(p) < |s| then s[..PrecisionOf(p)] else s;
            var t := Render(Written(f, w, p, q, 's'), 0, Stars(w) + (Stars(p) + [a]));
            InField(t, shown, WidthOf(w), FlagsOf(f, w).left)
  {
    hide Render, Written, WidthOf, PrecisionOf, FlagsOf, Stars, GoodWidth, GoodPrecision, Qualifier, QualifierOf,
      Converted, InField;
    OneDirective(f, w, p, q, 's', [a]);
    StringText(DirectiveOf(f, w, p, q, 's', [a]), a);
  }

  lemma StringText(d: Directive, a: Arg)
    requires d.args == [a] && !a.Num?
    ensures var s := if a.Str? then a.text else "(NULL)";
            var shown := if 0 < d.precision < |s| then s[..d.precision] else s;
            InField(Converted('s', d), shown, d.width, d.flags.left)
  {
    hide Fill;
  }

  /** A character is the low byte of its argument, in a field. */
  lemma CharacterShown(f: Flags, w: Spec, p: Spec, q: string, n: int)
    requires !f.sign && !f.large && GoodWidth(w) && GoodPrecision(p) && Qualifier(q)
    ensures var t := Render(Written(f, w, p, q, 'c'), 0, Stars(w) + (Stars(p) + [Num(n)]));
            InField(t, [(n % 256) as char], WidthOf(w), FlagsOf(f, w).left)
  {
    hide Render, Written, WidthOf, PrecisionOf, FlagsOf, Stars, GoodWidth, GoodPrecision, Qualifier, QualifierOf,
      Converted, InField;
    OneDirective(f, w, p, q, 'c', [Num(n)]);
    CharacterText(DirectiveOf(f, w, p, q, 'c', [Num(n)]), n);
  }

  lemma CharacterText(d: Directive, n: int)
    requires d.args == [Num(n)]
    ensures InField(Converted('c', d), [(n % 256) as char], d.width, d.flags.left)
  {
    SignedIs(n, 32);
    LowByte(n, Signed(n, 32));
    hide Fill, Signed;
  }

  lemma LowByte(n: int, x: int)
    requires (x - n) % 0x1_0000_0000 == 0
    ensures x % 256 == n % 256
  {
    var j := (x - n) / 0x1_0000_0000;
    assert x == n + 256 * (0x100_0000 * j);
  }

  /** %% is one percent sign, whatever stands between. */
  lemma PercentShown(f: Flags, w: Spec, p: Spec, q: string)
    requires !f.sign && !f.large && GoodWidth(w) && GoodPrecision(p) && Qualifier(q)
    ensures Render(Written(f, w, p, q, '%'), 0, Stars(w) + (Stars(p) + [])) == "%"
  {
    OneDirective(f, w, p, q, '%', []);
    hide Render, Written;
  }

  /** A character that stands for no conversion is written as it is, behind the percent sign; a percent sign at the
      end of the format is written alone. */
  lemma OthersShown(c: char, args: seq<Arg>)
    requires !Conversion(c) && !FlagChar(c) && !IsDigit(c) && c !in {'*', '.', 'h', 'l', '\0'}
    ensures Render(['%', c], 0, args) == ['%', c] && Render("%", 0, args) == "%"
  {
    var d, e := Directive(NO_FLAGS, -1, -1, '\0', 1, args), ReadDirective("%", 0, args);
    assert ReadDirective(['%', c], 0, args) == d;
    assert e == d;
    RenderPercent(['%', c], 0, args);
    RenderPercent("%", 0, args);
    RenderEnd(['%', c], args);
    RenderEnd("%", args);
    assert ['%', c] + "" == ['%', c] && "%" + "" == "%";
    hide ReadDirective, Render;
  }

  /** The number 255 in bases 10 and 16 */
  lemma Plain255()
    ensures Render("%d", 0, [Num(255)]) == "255" && Render("%x", 0, [Num(255)]) == "ff"
  {
    Plain('d', "%d");
    Plain('x', "%x");
    Digits255();
    PlainText();
    hide Render, Converted;
  }

  lemma Plain(c: char, fmt: string)
    requires fmt == "%" + [c] && c in {'d', 'x'}
    ensures Render(fmt, 0, [Num(255)]) == Converted(c, Directive(NO_FLAGS, -1, -1, '\0', 1, [Num(255)]))
  {
    hide Converted, Render;
    OneDirective(NO_FLAGS, Absent, Absent, "", c, [Num(255)]);
    assert Written(NO_FLAGS, Absent, Absent, "", c) == fmt;
    assert Stars(Absent) + (Stars(Absent) + [Num(255)]) == [Num(255)];
  }

  lemma Digits255()
    ensures Digits(255, 10, false) == "255" && Digits(255, 16, false) == "ff"
  {
    assert Digits(2, 10, false) == "2" && Digits(15, 16, false) == "f";
    assert Digits(25, 10, false) == "25";
  }

  lemma PlainText()
    requires Digits(255, 10, false) == "255" && Digits(255, 16, false) == "ff"
    ensures Converted('d', Directive(NO_FLAGS, -1, -1, '\0', 1, [Num(255)])) == "255"
    ensures Converted('x', Directive(NO_FLAGS, -1, -1, '\0', 1, [Num(255)])) == "ff"
  {
    hide Digits;
  }
}
