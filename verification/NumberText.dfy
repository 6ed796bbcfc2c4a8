/** kservice.c: what print_number writes, as a text, and that it can be read back. */
module NumberText {
  import opened Options
  import opened Arithmetic

  /** The flags ZEROPAD, SIGN, PLUS, SPACE, LEFT and LARGE; SPECIAL has no effect in this configuration. */
  datatype Flags = Flags(zeropad: bool, sign: bool, plus: bool, space: bool, left: bool, large: bool)

  function Fill(c: char, n: int): (r: string)
    ensures |r| == if n > 0 then n else 0
  {
    if n <= 0 then "" else Fill(c, n - 1) + [c]
  }

  /** divide knows the bases 10 and 16 only. */
  function Radix(base: nat): nat {
    if base == 10 then 10 else 16
  }

  function Digit(d: nat, large: bool): char
    requires d < 16
  {
    if large then "0123456789ABCDEF"[d] else "0123456789abcdef"[d]
  }

  function Digits(n: nat, radix: nat, large: bool): (r: string)
    requires 2 <= radix <= 16
    ensures |r| > 0
    decreases n
  {
    if n < radix then [Digit(n, large)] else Digits(n / radix, radix, large) + [Digit(n % radix, large)]
  }

  /** num is a 32-bit word, read as signed with SIGN and as unsigned without. */
  function Magnitude(num: int, f: Flags): nat {
    if f.sign && num < 0 then -num else num % WORD
  }

  function Sign(num: int, f: Flags): string {
    if !f.sign then "" else if num < 0 then "-" else if f.plus then "+" else if f.space then " " else ""
  }

  function Figures(num: int, base: nat, f: Flags): string {
    Digits(Magnitude(num, f), Radix(base), f.large)
  }

  /** The figures with their leading zeros; precision 0 suppresses the figures. */
  function Field(ds: string, precision: int): string {
    Fill('0', precision - |ds|) + (if precision == 0 then "" else ds)
  }

  function Padding(sg: string, ds: string, width: int, precision: int): int {
    width - Max(precision, |ds|) - |sg|
  }

  /** A sign and figures in a field: blanks before them, zeros behind the sign, or blanks behind them. */
  function Lay(sg: string, ds: string, width: int, precision: int, f: Flags): string {
    var pad := Padding(sg, ds, width, precision);
    if f.left then sg + Field(ds, precision) + Fill(' ', pad)
    else if f.zeropad then sg + Fill('0', pad) + Field(ds, precision)
    else Fill(' ', pad) + sg + Field(ds, precision)
  }

  /** The text of a number */
  function Text(num: int, base: nat, width: int, precision: int, f: Flags): string {
    Lay(Sign(num, f), Figures(num, base, f), width, precision, f)
  }

  /** One after the other, behind t */
  function Chain(t: string, a: string, b: string, c: string, d: string, e: string, g: string): string {
    t + a + b + c + d + e + g
  }

  /** The parts of a field in the order they are written: blanks, sign, zeros, zeros, figures, blanks. */
  lemma LayParts(sg: string, ds: string, width: int, precision: int, f: Flags, t: string)
    ensures var pad, shown := Padding(sg, ds, width, precision), if precision == 0 then "" else ds;
            t + Lay(sg, ds, width, precision, f)
            == Chain(t, Fill(' ', if f.left || f.zeropad then 0 else pad), sg,
                     Fill('0', if f.zeropad && !f.left then pad else 0),
                     Fill('0', precision - |ds|), shown, Fill(' ', if f.left then pad else 0))
  {
    var pad, shown := Padding(sg, ds, width, precision), if precision == 0 then "" else ds;
    var z := Fill('0', precision - |ds|);
    assert Fill(' ', 0) == "" && Fill('0', 0) == "";
    hide Padding, Fill;
    if f.left {
      Regroup(t, "", sg, "", z, shown, Fill(' ', pad));
    } else if f.zeropad {
      Regroup(t, "", sg, Fill('0', pad), z, shown, "");
    } else {
      Regroup(t, Fill(' ', pad), sg, "", z, shown, "");
    }
  }

  lemma Regroup(t: string, a: string, b: string, c: string, d: string, e: string, g: string)
    ensures Chain(t, a, b, c, d, e, g) == t + (a + b + c + (d + e) + g)
    ensures a == "" && c == "" ==> a + b + c + (d + e) + g == b + (d + e) + g
    ensures a == "" && g == "" ==> a + b + c + (d + e) + g == b + c + (d + e)
    ensures c == "" && g == "" ==> a + b + c + (d + e) + g == a + b + (d + e)
  {
    assert a + b + c + (d + e) + g == a + b + c + d + e + g;
    assert t + (a + b + c + d + e + g) == t + (a + b + c + d + e) + g;
    assert t + (a + b + c + d + e) == t + (a + b + c + d) + e;
    assert t + (a + b + c + d) == t + (a + b + c) + d;
    assert t + (a + b + c) == t + (a + b) + c;
    assert t + (a + b) == t + a + b;
  }

  // --------------------------------------------------------------- the length

  /** The field is as wide as asked for, or as the number needs. With precision 0 the suppressed figures are
      missing from it. */
  lemma TextLength(num: int, base: nat, width: int, precision: int, f: Flags)
    ensures var ds, t := |Figures(num, base, f)|, |Text(num, base, width, precision, f)|;
            t + (if precision == 0 then ds else 0) == Max(width, |Sign(num, f)| + Max(precision, ds))
  {
  }

  lemma {:induction false} DigitCount(n: nat, radix: nat, large: bool, k: nat)
    requires 2 <= radix <= 16 && n < Power(radix, k) && k > 0
    ensures |Digits(n, radix, large)| <= k
    decreases k
  {
    if n >= radix {
      assert k > 1;
      assert n / radix < Power(radix, k - 1) by { DivLess(n, radix, Power(radix, k - 1)); }
      DigitCount(n / radix, radix, large, k - 1);
    }
  }

  function Power(b: nat, k: nat): nat {
    if k == 0 then 1 else b * Power(b, k - 1)
  }

  /** The figures of a 32-bit word fit the temporary buffer of print_number. */
  lemma FiguresFit(num: int, base: nat, f: Flags)
    requires -0x8000_0000 <= num < 0x8000_0000
    ensures |Figures(num, base, f)| <= 10
  {
    assert Power(10, 10) == 10_000_000_000 && Power(16, 8) == WORD;
    DigitCount(Magnitude(num, f), Radix(base), f.large, if base == 10 then 10 else 8);
  }

  // ----------------------------------------------------------- reading it back

  function DigitValue(c: char): nat {
    if '0' <= c <= '9' then (c - '0') as nat
    else if 'a' <= c <= 'f' then (c - 'a') as nat + 10
    else if 'A' <= c <= 'F' then (c - 'A') as nat + 10
    else 0
  }

  function Parse(s: string, radix: nat): nat {
    if s == "" then 0 else Parse(s[..|s| - 1], radix) * radix + DigitValue(s[|s| - 1])
  }

  lemma DigitReads(d: nat, large: bool)
    requires d < 16
    ensures DigitValue(Digit(d, large)) == d
  {
  }

  lemma {:induction false} DigitsRead(n: nat, radix: nat, large: bool)
    requires 2 <= radix <= 16
    ensures Parse(Digits(n, radix, large), radix) == n
    decreases n
  {
    hide Digit, DigitValue;
    if n < radix {
      DigitReads(n, large);
      assert Parse("", radix) == 0;
    } else {
      DigitReads(n % radix, large);
      DigitsRead(n / radix, radix, large);
      ParseMore(Digits(n / radix, radix, large), Digit(n % radix, large), radix);
      DivMod(n, radix);
    }
  }

  lemma ParseMore(s: string, c: char, radix: nat)
    ensures Parse(s + [c], radix) == Parse(s, radix) * radix + DigitValue(c)
  {
    assert (s + [c])[..|s|] == s;
  }

  ghost predicate Valueless(s: string) {
    forall i :: 0 <= i < |s| ==> DigitValue(s[i]) == 0
  }

  /** Zeros, blanks and a sign in front do not change the value read. */
  lemma {:induction false} PrefixRead(p: string, s: string, radix: nat)
    requires Valueless(p)
    ensures Parse(p + s, radix) == Parse(s, radix)
    decreases |s|, |p|
  {
    var t := p + s;
    if s != "" {
      PrefixRead(p, s[..|s| - 1], radix);
      assert t[..|t| - 1] == p + s[..|s| - 1];
    } else if p != "" {
      assert t == p;
      assert p[..|p| - 1] + "" == p[..|p| - 1];
      PrefixRead(p[..|p| - 1], "", radix);
    }
  }

  lemma {:induction false} FillValueless(c: char, n: int)
    requires DigitValue(c) == 0
    ensures Valueless(Fill(c, n))
  {
    if n > 0 { FillValueless(c, n - 1); }
  }

  /** The figures read back as the value, with any number of zeros before them. */
  lemma FieldReads(num: int, base: nat, f: Flags, z: int)
    ensures Parse(Fill('0', z) + Figures(num, base, f), Radix(base)) == Magnitude(num, f)
  {
    FillValueless('0', z);
    PrefixRead(Fill('0', z), Figures(num, base, f), Radix(base));
    DigitsRead(Magnitude(num, f), Radix(base), f.large);
  }

  function Layout(a: int, sign: string, z: int, figures: string, b: int): string {
    Fill(' ', a) + sign + (Fill('0', z) + figures) + Fill(' ', b)
  }

  /** Whatever the width, precision and flags, the text is blanks, the sign, zeros, the figures of the
      value, and blanks. */
  lemma TextReads(num: int, base: nat, width: int, precision: int, f: Flags)
    requires precision != 0
    ensures exists a, b, z ::
            Text(num, base, width, precision, f) == Layout(a, Sign(num, f), z, Figures(num, base, f), b)
  {
    var ds, sg := Figures(num, base, f), Sign(num, f);
    var pad := Padding(sg, ds, width, precision);
    hide Figures, Sign, Padding;
    var z0 := precision - |ds|;
    var both := (if pad > 0 then pad else 0) + (if z0 > 0 then z0 else 0);
    NoFill();
    FillTwice('0', pad, z0);
    hide Fill;
    Layouts(sg, ds, z0, pad, both);
    hide Layout;
    if f.left {
      assert Text(num, base, width, precision, f) == Layout(0, sg, z0, ds, pad);
    } else if f.zeropad {
      assert Text(num, base, width, precision, f) == Layout(0, sg, both, ds, 0);
    } else {
      assert Text(num, base, width, precision, f) == Layout(pad, sg, z0, ds, 0);
    }
  }

  lemma Layouts(sg: string, ds: string, z: int, pad: int, both: int)
    requires Fill('0', pad) + Fill('0', z) == Fill('0', both)
    ensures Layout(0, sg, z, ds, pad) == sg + (Fill('0', z) + ds) + Fill(' ', pad)
    ensures Layout(0, sg, both, ds, 0) == sg + Fill('0', pad) + (Fill('0', z) + ds)
    ensures Layout(pad, sg, z, ds, 0) == Fill(' ', pad) + sg + (Fill('0', z) + ds)
  {
    NoFill();
    hide Fill;
  }

  lemma NoFill()
    ensures Fill(' ', 0) == ""
  {
  }

  lemma {:induction false} FillTwice(c: char, a: int, b: int)
    ensures Fill(c, a) + Fill(c, b) == Fill(c, (if a > 0 then a else 0) + (if b > 0 then b else 0))
    decreases b
  {
    if b > 0 { FillTwice(c, a, b - 1); }
  }

  // ------------------------------------------------------------------- base 8

  /** Octal figures mean more when they are read as hexadecimal ones. */
  lemma {:induction false} OctalReadsHigher(n: nat, large: bool)
    ensures Parse(Digits(n, 8, large), 16) >= n
    ensures n >= 8 ==> Parse(Digits(n, 8, large), 16) > n
    decreases n
  {
    hide Digit, DigitValue;
    DigitReads(if n < 8 then n else n % 8, large);
    if n < 8 {
      assert Parse("", 16) == 0;
    } else {
      OctalReadsHigher(n / 8, large);
      ParseMore(Digits(n / 8, 8, large), Digit(n % 8, large), 16);
    }
  }

  /** A text without the blanks at its end */
  function Trimmed(s: string): (r: string)
    ensures |r| <= |s|
  {
    if s != "" && s[|s| - 1] == ' ' then Trimmed(s[..|s| - 1]) else s
  }

  lemma {:induction false} TrimmedFill(s: string, n: int)
    requires s != "" && s[|s| - 1] != ' '
    ensures Trimmed(s + Fill(' ', n)) == s
  {
    if n <= 0 {
      assert s + Fill(' ', n) == s;
    } else {
      TrimmedFill(s, n - 1);
      assert s + Fill(' ', n) == s + Fill(' ', n - 1) + [' '];
      assert (s + Fill(' ', n))[..|s + Fill(' ', n - 1)|] == s + Fill(' ', n - 1);
    }
  }

  lemma {:induction false} TrimmedValueless(s: string)
    requires Valueless(s)
    ensures Valueless(Trimmed(s))
  {
    if s != "" && s[|s| - 1] == ' ' { TrimmedValueless(s[..|s| - 1]); }
  }

  /** The text of a number, read past its blanks and its sign, gives the value exactly when the precision is not 0
      or the value is 0. */
  lemma TextReadsBack(num: int, base: nat, width: int, precision: int, f: Flags)
    ensures Parse(Trimmed(Text(num, base, width, precision, f)), Radix(base)) == Magnitude(num, f)
            <==> precision != 0 || Magnitude(num, f) == 0
  {
    SignValueless(num, f);
    if precision != 0 {
      TextReads(num, base, width, precision, f);
      NoBlank(Magnitude(num, f), Radix(base), f.large);
      DigitsRead(Magnitude(num, f), Radix(base), f.large);
      var a, b, z :| Text(num, base, width, precision, f) == Layout(a, Sign(num, f), z, Figures(num, base, f), b);
      LayoutReads(a, Sign(num, f), z, Figures(num, base, f), b, Radix(base));
    } else {
      SilentValueless(Sign(num, f), Figures(num, base, f), width, f);
      var t := Text(num, base, width, precision, f);
      TrimmedValueless(t);
      PrefixRead(Trimmed(t), "", Radix(base));
      assert Trimmed(t) + "" == Trimmed(t);
    }
  }

  lemma LayoutReads(a: int, sg: string, z: int, ds: string, b: int, radix: nat)
    requires Valueless(sg) && ds != "" && ds[|ds| - 1] != ' '
    ensures Parse(Trimmed(Layout(a, sg, z, ds, b)), radix) == Parse(ds, radix)
  {
    var lead := Fill(' ', a) + sg + Fill('0', z);
    FillValueless(' ', a);
    FillValueless('0', z);
    assert Layout(a, sg, z, ds, b) == (lead + ds) + Fill(' ', b) by {
      assert Fill(' ', a) + sg + (Fill('0', z) + ds) == lead + ds;
    }
    TrimmedFill(lead + ds, b);
    PrefixRead(lead, ds, radix);
  }

  lemma SilentValueless(sg: string, ds: string, width: int, f: Flags)
    requires Valueless(sg)
    ensures Valueless(Lay(sg, ds, width, 0, f))
  {
    var pad := Padding(sg, ds, width, 0);
    FillValueless(' ', pad);
    FillValueless('0', pad);
    hide Fill, Padding;
    assert Fill('0', -|ds|) == "";
  }

  /** With precision 0 and width 3 a five leaves two blanks. */
  lemma SilentFive(f: Flags)
    ensures var g := f.(sign := false, left := false, zeropad := false);
            Text(5, 10, 3, 0, g) == "  " && Parse(Trimmed("  "), 10) == 0
  {
    var g := f.(sign := false, left := false, zeropad := false);
    assert Digits(5, 10, f.large) == [Digit(5, f.large)];
    assert Fill(' ', 2) == "  ";
    assert Trimmed("  ") == "" by { assert "  "[..1] == " " && " "[..0] == ""; }
  }

  /** No figure is a blank. */
  lemma {:induction false} NoBlank(n: nat, radix: nat, large: bool)
    requires 2 <= radix <= 16
    ensures forall i :: 0 <= i < |Digits(n, radix, large)| ==> Digits(n, radix, large)[i] != ' '
    decreases n
  {
    DigitNotBlank(if n < radix then n else n % radix, large);
    hide Digit;
    if n >= radix { NoBlank(n / radix, radix, large); }
  }

  lemma DigitNotBlank(d: nat, large: bool)
    requires d < 16
    ensures Digit(d, large) != ' '
  {
  }

  lemma {:induction false} FillChars(c: char, n: int)
    ensures forall i :: 0 <= i < |Fill(c, n)| ==> Fill(c, n)[i] == c
  {
    if n > 0 { FillChars(c, n - 1); }
  }

  /** Right-aligned fields with the same text hold the same value. */
  lemma SameRight(sg: string, a: string, b: string, width: int, precision: int, f: Flags)
    requires !f.left && precision != 0 && Valueless(sg)
    requires Lay(sg, a, width, precision, f) == Lay(sg, b, width, precision, f)
    ensures Parse(a, 16) == Parse(b, 16)
  {
    RightReads(sg, a, width, precision, f);
    RightReads(sg, b, width, precision, f);
  }

  lemma RightReads(sg: string, ds: string, width: int, precision: int, f: Flags)
    requires !f.left && precision != 0 && Valueless(sg)
    ensures Parse(Lay(sg, ds, width, precision, f), 16) == Parse(ds, 16)
  {
    var pad, z := Padding(sg, ds, width, precision), Fill('0', precision - |ds|);
    FillValueless(' ', pad);
    FillValueless('0', pad);
    FillValueless('0', precision - |ds|);
    var lead := if f.zeropad then sg + Fill('0', pad) else Fill(' ', pad) + sg;
    assert Lay(sg, ds, width, precision, f) == lead + z + ds by { assert lead + (z + ds) == lead + z + ds; }
    hide Fill;
    PrefixRead(lead + z, ds, 16);
  }

  /** In a left-aligned field the first blank behind the sign ends the figures. */
  lemma SameLeft(sg: string, a: string, b: string, width: int, precision: int, f: Flags)
    requires f.left && precision != 0
    requires forall i :: 0 <= i < |a| ==> a[i] != ' '
    requires forall i :: 0 <= i < |b| ==> b[i] != ' '
    requires Lay(sg, a, width, precision, f) == Lay(sg, b, width, precision, f)
    ensures Parse(a, 16) == Parse(b, 16)
  {
    LeftNotLonger(sg, a, b, width, precision, f);
    LeftNotLonger(sg, b, a, width, precision, f);
    var x, y := Field(a, precision), Field(b, precision);
    var t, u := Lay(sg, a, width, precision, f), Lay(sg, b, width, precision, f);
    assert t[|sg|..|sg| + |x|] == x && u[|sg|..|sg| + |y|] == y;
    FillValueless('0', precision - |a|);
    FillValueless('0', precision - |b|);
    PrefixRead(Fill('0', precision - |a|), a, 16);
    PrefixRead(Fill('0', precision - |b|), b, 16);
  }

  lemma LeftNotLonger(sg: string, a: string, b: string, width: int, precision: int, f: Flags)
    requires f.left && precision != 0
    requires forall i :: 0 <= i < |b| ==> b[i] != ' '
    requires Lay(sg, a, width, precision, f) == Lay(sg, b, width, precision, f)
    ensures |Field(b, precision)| <= |Field(a, precision)|
  {
    var x, y := Field(a, precision), Field(b, precision);
    FillChars(' ', Padding(sg, a, width, precision));
    FillChars('0', precision - |b|);
    FirstBlank(Lay(sg, a, width, precision, f), |sg|, |x|, |y|);
  }

  lemma FirstBlank(t: string, k: nat, x: nat, y: nat)
    requires |t| >= k + y
    requires forall i :: k + x <= i < |t| ==> t[i] == ' '
    requires forall i :: k <= i < k + y ==> t[i] != ' '
    ensures y <= x
  {
    if k + x < |t| { assert t[k + x] == ' '; }
  }

  lemma {:induction false} BelowPower(n: nat, radix: nat, large: bool)
    requires 2 <= radix <= 16
    ensures n < Power(radix, |Digits(n, radix, large)|)
    decreases n
  {
    if n < radix {
      assert Power(radix, 1) == radix;
    } else {
      BelowPower(n / radix, radix, large);
      BelowNext(n, radix, Power(radix, |Digits(n / radix, radix, large)|));
    }
  }

  lemma BelowNext(n: nat, radix: nat, p: nat)
    requires radix > 0 && n / radix < p
    ensures n < radix * p
  {
    DivMod(n, radix);
    MulMono(n / radix + 1, p, radix);
  }

  lemma {:induction false} PowerMono(a: nat, b: nat, k: nat)
    requires a <= b
    ensures Power(a, k) <= Power(b, k)
  {
    if k > 0 {
      PowerMono(a, b, k - 1);
      MulMono(Power(a, k - 1), Power(b, k - 1), a);
      MulMono(a, b, Power(b, k - 1));
    }
  }

  lemma HexadecimalShorter(n: nat, large: bool)
    ensures |Digits(n, 16, large)| <= |Digits(n, 8, large)|
  {
    var k := |Digits(n, 8, large)|;
    BelowPower(n, 8, large);
    PowerMono(8, 16, k);
    DigitCount(n, 16, large, k);
  }

  /** The base 8 conversion prints hexadecimal figures. Its text is nevertheless the octal one exactly for the
      values below 8; with precision 0, which shows no figures, when the two would leave as many blanks. */
  lemma OctalExact(num: int, width: int, precision: int, f: Flags)
    ensures Text(num, 8, width, precision, f) == Text(num, 16, width, precision, f)
    ensures var sg, hex, oct := Sign(num, f), Figures(num, 16, f), Digits(Magnitude(num, f), 8, f.large);
            Text(num, 8, width, precision, f) == Lay(sg, oct, width, precision, f)
            <==> if precision != 0 then Magnitude(num, f) < 8 else width <= |sg| + |hex| || |hex| == |oct|
  {
    var n, sg := Magnitude(num, f), Sign(num, f);
    var hex, oct := Digits(n, 16, f.large), Digits(n, 8, f.large);
    HexadecimalShorter(n, f.large);
    NoBlank(n, 16, f.large);
    NoBlank(n, 8, f.large);
    DigitsRead(n, 16, f.large);
    OctalReadsHigher(n, f.large);
    SignValueless(num, f);
    hide Digit, DigitValue, Magnitude, Sign, Fill;
    if precision == 0 {
      Silent(sg, hex, oct, width, f);
    } else if n < 8 {
      assert hex == oct;
    } else if Lay(sg, hex, width, precision, f) == Lay(sg, oct, width, precision, f) {
      hide Lay, Digits;
      if f.left {
        SameLeft(sg, hex, oct, width, precision, f);
      } else {
        SameRight(sg, hex, oct, width, precision, f);
      }
    }
  }

  lemma SignValueless(num: int, f: Flags)
    ensures Valueless(Sign(num, f))
  {
  }

  /** With precision 0 a field shows the sign and its padding only. */
  lemma Silent(sg: string, a: string, b: string, width: int, f: Flags)
    requires 0 < |a| <= |b|
    ensures Lay(sg, a, width, 0, f) == Lay(sg, b, width, 0, f) <==> width <= |sg| + |a| || |a| == |b|
  {
    assert |Lay(sg, a, width, 0, f)| == Max(width - |a|, |sg|);
    assert |Lay(sg, b, width, 0, f)| == Max(width - |b|, |sg|);
    EmptyFills(Padding(sg, a, width, 0), Padding(sg, b, width, 0));
    hide Fill;
  }

  lemma EmptyFills(m: int, n: int)
    ensures m == n || (m <= 0 && n <= 0) ==> Fill(' ', m) == Fill(' ', n) && Fill('0', m) == Fill('0', n)
  {
  }

  /** Eight is printed as 8 instead of 10. */
  lemma OctalEight(f: Flags)
    ensures Text(8, 8, -1, -1, f.(sign := false)) == "8" && Digits(8, 8, f.large) == "10"
  {
    var g := f.(sign := false);
    assert Magnitude(8, g) == 8 && Digits(8, 16, f.large) == "8";
    assert Digits(1, 8, f.large) == "1" && Digits(8, 8, f.large) == Digits(1, 8, f.large) + "0";
  }
}
