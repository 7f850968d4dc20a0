/** The printf of the boot log (alt_log_printf.c): a one-pass state machine over the format,
    against a specification that first cuts the format into tokens and then renders each token
    from its own text alone. */
module LogPrintf {
  import opened Words
  import opened Digits
  import opened Division

  type CString = s: string | forall i :: 0 <= i < |s| ==> s[i] != '\0'

  /** What va_arg yields: a word (int, unsigned and long are all 32 bits) or a string. */
  datatype Arg = Word(w: u32) | Str(s: CString)

  // ---- specification ----

  predicate IsDigit(c: char) { '0' <= c <= '9' }

  /** Characters that can stand between '%' and the conversion letter. */
  predicate IsSpec(c: char) { c == '.' || IsDigit(c) || c == 'l' }

  datatype Token = Literal(c: char) | Directive(spec: string, conv: char)

  /** Length of the longest prefix of specification characters. */
  function SpecRun(s: string): (n: nat)
    ensures n <= |s|
    ensures forall i :: 0 <= i < n ==> IsSpec(s[i])
    ensures n < |s| ==> !IsSpec(s[n])
  {
    if s == [] || !IsSpec(s[0]) then 0 else 1 + SpecRun(s[1..])
  }

  /** "%%" is a literal; '%', specification characters and a letter make a directive; what follows
      an unfinished directive at the end of the format is nothing. */
  function Tokens(fmt: string): seq<Token>
    decreases |fmt|
  {
    if fmt == [] then []
    else if fmt[0] != '%' then [Literal(fmt[0])] + Tokens(fmt[1..])
    else if |fmt| > 1 && fmt[1] == '%' then [Literal('%')] + Tokens(fmt[2..])
    else
      var n := SpecRun(fmt[1..]);
      if 1 + n == |fmt| then [] else [Directive(fmt[1..1 + n], fmt[1 + n])] + Tokens(fmt[2 + n..])
  }

  /** The zero flag is a '0' immediately after the '%'. */
  predicate ZeroFlag(spec: string) {
    spec != [] && spec[0] == '0'
  }

  function AfterFlag(spec: string): string {
    if ZeroFlag(spec) then spec[1..] else spec
  }

  function BeforeDot(s: string): string {
    if s == [] || s[0] == '.' then [] else [s[0]] + BeforeDot(s[1..])
  }

  function OnlyDigits(s: string): string {
    if s == [] then [] else (if IsDigit(s[0]) then [s[0]] else []) + OnlyDigits(s[1..])
  }

  function Number(s: string): nat {
    if s == [] then 0 else Number(s[..|s| - 1]) * 10 + CharDigit(s[|s| - 1])
  }

  /** The width: the number formed by the digits before the point, or -1 when there are none. */
  function Width(s: string): int {
    var ds := OnlyDigits(BeforeDot(s));
    if ds == [] then -1 else Number(ds)
  }

  function Rep(c: char, n: int): string {
    if n <= 0 then [] else seq(n, _ => c)
  }

  datatype Conversion = Integer(base: Base, signed: bool, upper: bool) | Character | Text | Nothing

  function Conv(c: char): Conversion {
    match c
    case 'd' => Integer(10, true, false)
    case 'i' => Integer(10, true, false)
    case 'u' => Integer(10, false, false)
    case 'o' => Integer(8, false, false)
    case 'x' => Integer(16, false, false)
    case 'X' => Integer(16, false, true)
    case 'c' => Character
    case 's' => Text
    case _ => Nothing
  }

  predicate Negative(v: u32, signed: bool) {
    signed && v >= 0x8000_0000
  }

  /** The magnitude printed: two's complement negation of a negative word. */
  function Magnitude(v: u32, signed: bool): u32 {
    if Negative(v, signed) then U32((TWO32 - 1 - v) + 1) else v
  }

  /** Sign, padding and digits of a word; the pad goes between sign and digits when it is zeros. */
  function IntegerText(v: u32, base: Base, signed: bool, upper: bool, zero: bool, width: int): string {
    var sign := if Negative(v, signed) then "-" else "";
    var digits := Digits.Text(Magnitude(v, signed), base, upper);
    var pad := width - |digits| - |sign|;
    if zero then sign + Rep('0', pad) + digits else Rep(' ', pad) + sign + digits
  }

  /** How many arguments a token takes, and whether they fit. */
  function Takes(t: Token): nat {
    if t.Directive? && !Conv(t.conv).Nothing? then 1 else 0
  }

  predicate Fits(t: Token, args: seq<Arg>) {
    Takes(t) == 1 ==> args != [] && (args[0].Str? <==> Conv(t.conv).Text?)
  }

  function RenderToken(t: Token, args: seq<Arg>): string
    requires Fits(t, args)
  {
    match t
    case Literal(c) => [c]
    case Directive(spec, conv) =>
      var width := Width(AfterFlag(spec));
      match Conv(conv)
      case Integer(base, signed, upper) =>
        IntegerText(args[0].w, base, signed, upper, ZeroFlag(spec), width)
      case Character => Rep(' ', width - 1) + [(args[0].w % 256) as char]
      case Text => Rep(' ', width - |args[0].s|) + args[0].s
      case Nothing => ""
  }

  /** The arguments fit the whole format. */
  ghost predicate Matching(ts: seq<Token>, args: seq<Arg>) {
    ts == [] || (Fits(ts[0], args) && Matching(ts[1..], args[Takes(ts[0])..]))
  }

  ghost function Render(ts: seq<Token>, args: seq<Arg>): string
    requires Matching(ts, args)
  {
    if ts == [] then "" else RenderToken(ts[0], args) + Render(ts[1..], args[Takes(ts[0])..])
  }

  // ---- the specification of integers means what it should ----

  /** A conversion wide or narrow reads back as the value, its length is the larger of the width
      and the sign plus digits, and no digit could be dropped. */
  lemma IntegerReadsBack(v: u32, base: Base, signed: bool, upper: bool)
    ensures var sign := if Negative(v, signed) then -1 else 1;
      sign * Parse(Digits.Text(Magnitude(v, signed), base, upper), base) == if signed then Signed(v) else v
  {
    TextRoundTrip(Magnitude(v, signed), base, upper);
    assert Magnitude(v, signed) == if Negative(v, signed) then TWO32 - v else v;
  }

  lemma IntegerLength(v: u32, base: Base, signed: bool, upper: bool, zero: bool, width: int)
    ensures var n := |Of(Magnitude(v, signed), base)| + if Negative(v, signed) then 1 else 0;
      |IntegerText(v, base, signed, upper, zero, width)| == if width > n then width else n
  {
  }

  // ---- the machine ----

  /** alt_log_repchar. */
  method RepChar(c: char, r: int) returns (out: string)
    ensures out == Rep(c, r)
  {
    out := "";
    var left := r;
    while left > 0
      invariant left == r - |out| && (r > 0 ==> left >= 0) && (r <= 0 ==> out == "")
      invariant out == seq(|out|, _ => c)
    {
      out := out + [c];
      left := left - 1;
    }
  }

  /** The digit-counting loop: afterwards p is base^(digitCount - 1), the place value of the
      leading digit. It stays within a word because it never exceeds the value. */
  method CountDigits(v: u32, base: Base) returns (p: u32, digitCount: nat)
    ensures digitCount == |Of(v, base)| && p == Pow(base, digitCount - 1)
    ensures p > 0 && v < p * base && (if v == 0 then digitCount == 1 else p <= v)
  {
    var vShrink: u32 := v;
    p, digitCount := 1, 1;
    hide *;
    CountStart(v, base);
    while true
      invariant Counted(v, base, vShrink, p, digitCount)
      decreases vShrink
    {
      CountFacts(v, base, vShrink, p, digitCount);
      var next := Quot(vShrink, base);
      if next == 0 {
        break;
      }
      CountStep(v, base, vShrink, p, digitCount);
      vShrink := next;
      digitCount := digitCount + 1;
      p := p * base;
    }
  }

  ghost predicate Counted(v: nat, base: Base, shrunk: nat, p: nat, count: nat) {
    && count > 0 && p > 0 && p == Pow(base, count - 1)
    && shrunk == Quot(v, p)
    && |Of(v, base)| == |Of(shrunk, base)| + count - 1
    && (v > 0 ==> p <= v)
  }

  lemma CountStart(v: nat, base: Base)
    ensures Counted(v, base, v, 1, 1)
  {
  }

  lemma CountFacts(v: nat, base: Base, shrunk: nat, p: nat, count: nat)
    requires Counted(v, base, shrunk, p, count)
    ensures shrunk > 0 ==> Quot(shrunk, base) < shrunk
    ensures Quot(shrunk, base) == 0 ==>
      && count == |Of(v, base)| && p == Pow(base, count - 1)
      && p > 0 && v < p * base && (if v == 0 then count == 1 else p <= v)
    ensures shrunk == 0 ==> Quot(shrunk, base) == 0
  {
    if shrunk > 0 {
      QuotSmaller(shrunk, base);
    }
    QuotZero(shrunk, base);
    DivMod(v, p);
    hide Quot, Rem, Pow;
    if shrunk < base {
      Bound(v, p, shrunk, Rem(v, p), base);
    }
  }

  lemma Bound(v: nat, p: nat, q: nat, r: nat, base: nat)
    requires v == q * p + r && r < p && q < base
    ensures v < p * base
  {
    Spread(base, q, p);
  }

  lemma CountStep(v: nat, base: Base, shrunk: nat, p: nat, count: nat)
    requires Counted(v, base, shrunk, p, count) && Quot(shrunk, base) > 0
    ensures Counted(v, base, Quot(shrunk, base), p * base, count + 1) && p * base <= v
  {
    QuotZero(shrunk, base);
    DivMod(v, p);
    DivMod(shrunk, base);
    hide Quot, Rem;
    var q, r, q', r' := shrunk, Rem(v, p), Quot(shrunk, base), Rem(shrunk, base);
    assert v == (q' * base + r') * p + r;
    Nested(q', base, r', p, r);
    DivUnique(v, p * base, q', r' * p + r);
    Spread(q', 0, p * base);
    assert Pow(base, count) == base * Pow(base, count - 1);
    assert |Of(q, base)| == |Of(q', base)| + 1;
  }

  lemma Nested(q: nat, b: nat, r': nat, p: nat, r: nat)
    requires r' < b && r < p
    ensures (q * b + r') * p + r == q * (p * b) + (r' * p + r)
    ensures r' * p + r < p * b
  {
    Regroup(q, p, b, r', r);
    Spread(b, r', p);
  }

  /** The digit-printing loop, from the place value p of the leading digit downwards. */
  method PrintDigits(v: u32, base: Base, upper: bool, p: u32, ghost digitCount: nat) returns (out: string)
    requires digitCount > 0 && p == Pow(base, digitCount - 1) && p > 0 && v < p * base
    requires if v == 0 then digitCount == 1 else p <= v
    ensures out == Digits.Text(v, base, upper)
  {
    out := "";
    var rest: u32, place: u32 := v, p;
    ghost var e: nat := digitCount;
    hide *;
    PrintStart(v, base, upper, p, e);
    while place != 0
      invariant Printed(v, base, upper, rest, place, e, out)
      decreases place
    {
      PrintFacts(v, base, upper, rest, place, e, out);
      var d: nat := Quot(rest, place);
      var c: char := DigitChar(d, upper);
      out := out + [c];
      rest := Rem(rest, place);
      place := Quot(place, base);
      e := e - 1;
    }
    PrintEnd(v, base, upper, rest, place, e, out);
  }

  /** With place value `place` = base^(e-1) still to print, `rest` is the value below
      place * base and `out` holds the digits above it (none while those are zero). */
  ghost predicate Printed(v: nat, base: Base, upper: bool, rest: nat, place: nat, e: nat, out: string) {
    if e == 0 then place == 0 && out == Digits.Text(v, base, upper)
    else
      && place == Pow(base, e - 1) && place > 0 && place * base > 0
      && (if v == 0 then e == 1 else place <= v)
      && rest == Rem(v, place * base)
      && var above := Quot(v, place * base);
         out == if above == 0 then "" else Digits.Text(above, base, upper)
  }

  lemma PrintStart(v: nat, base: Base, upper: bool, p: nat, e: nat)
    requires e > 0 && p == Pow(base, e - 1) && p > 0 && v < p * base
    requires if v == 0 then e == 1 else p <= v
    ensures Printed(v, base, upper, v, p, e, "")
  {
    DivUnique(v, p * base, 0, v);
  }

  lemma PrintFacts(v: nat, base: Base, upper: bool, rest: nat, place: nat, e: nat, out: string)
    requires Printed(v, base, upper, rest, place, e, out) && place != 0
    ensures e > 0 && Quot(rest, place) < base && Quot(place, base) < place && Rem(rest, place) < place
    ensures Printed(v, base, upper, Rem(rest, place), Quot(place, base), e - 1,
                    out + [DigitChar(Quot(rest, place), upper)])
  {
    var m := place * base;
    DigitAt(v, base, place, m);
    DivMod(rest, place);
    QuotSmaller(place, base);
    QuotZero(v, place);
    hide Quot, Rem, Digits.Text;
    var above, d, here := Quot(v, m), Quot(rest, place), Quot(v, place);
    PrintOne(base, upper, above, d, here, out);
    if e == 1 {
      PlaceOne(v, base);
    } else {
      PlaceDown(base, e);
    }
  }

  lemma PlaceOne(v: nat, base: Base)
    ensures Pow(base, 0) == 1 && Quot(1, base) == 0 && Quot(v, 1) == v
  {
  }

  /** One place further down. */
  lemma PlaceDown(base: Base, e: nat)
    requires e > 1 && Pow(base, e - 1) > 0
    ensures var place, p := Pow(base, e - 1), Pow(base, e - 2);
      p > 0 && Quot(place, base) == p && p * base == place && p <= place
  {
    var place, p := Pow(base, e - 1), Pow(base, e - 2);
    assert place == base * p;
    hide Pow;
    assert p > 0;
    Spread(base, 1, p);
    DivUnique(place, base, p, 0);
  }

  lemma PrintOne(base: Base, upper: bool, above: nat, d: nat, here: nat, out: string)
    requires d < base && here == above * base + d
    requires out == if above == 0 then "" else Digits.Text(above, base, upper)
    ensures out + [DigitChar(d, upper)] == Digits.Text(here, base, upper)
  {
    if above > 0 {
      OfStep(here, base, above, d);
    }
  }

  lemma PrintEnd(v: nat, base: Base, upper: bool, rest: nat, place: nat, e: nat, out: string)
    requires Printed(v, base, upper, rest, place, e, out) && place == 0
    ensures out == Digits.Text(v, base, upper)
  {
  }

  /** Leading characters and sign of doIntegerPrint. */
  method PrintLead(sign: bool, leadingZero: bool, width: int) returns (out: string)
    ensures var s, pad := if sign then "-" else "", width - if sign then 1 else 0;
      out == if leadingZero then s + Rep('0', pad) else Rep(' ', pad) + s
  {
    hide Rep;
    out := "";
    var left := width;
    var pad;
    if leadingZero {
      if sign {
        out := out + "-";
        left := left - 1;
      }
      pad := RepChar('0', left);
      out := out + pad;
    } else {
      if sign {
        left := left - 1;
      }
      pad := RepChar(' ', left);
      out := out + pad;
      if sign {
        out := out + "-";
      }
    }
  }

  /** doIntegerPrint: strip the sign, count digits, pad, print. */
  method PrintInteger(arg: u32, base: Base, signed: bool, upper: bool, leadingZero: bool, width: int)
    returns (out: string)
    ensures out == IntegerText(arg, base, signed, upper, leadingZero, width)
  {
    var v := arg;
    var sign := false;
    if signed && v >= 0x8000_0000 {
      v := U32((TWO32 - 1 - v) + 1);
      sign := true;
    }
    assert v == Magnitude(arg, signed) && sign == Negative(arg, signed);
    hide *;
    var p, digitCount := CountDigits(v, base);
    var lead := PrintLead(sign, leadingZero, width - digitCount);
    var digits := PrintDigits(v, base, upper, p, digitCount);
    out := lead + digits;
    TextLength(v, base, upper);
    IntegerParts(arg, base, signed, upper, leadingZero, width);
  }

  lemma IntegerParts(v: u32, base: Base, signed: bool, upper: bool, zero: bool, width: int)
    ensures var sign := if Negative(v, signed) then "-" else "";
      var digits := Digits.Text(Magnitude(v, signed), base, upper);
      var pad := width - |digits| - if Negative(v, signed) then 1 else 0;
      IntegerText(v, base, signed, upper, zero, width) ==
        (if zero then sign + Rep('0', pad) else Rep(' ', pad) + sign) + digits
  {
  }

  lemma TextLength(v: nat, base: Base, upper: bool)
    ensures |Digits.Text(v, base, upper)| == |Of(v, base)|
  {
  }

  datatype State = PlainChars | FirstFmtChar | OtherFmtChar

  /** What the machine knows in the middle of a directive: the characters seen since the '%'. */
  ghost predicate Fields(spec: string, zero: bool, before: int, after: int) {
    && (forall i :: 0 <= i < |spec| ==> IsSpec(spec[i]))
    && zero == ZeroFlag(spec)
    && before == Width(AfterFlag(spec))
    && (after >= 0 <==> '.' in AfterFlag(spec))
  }

  /** One more specification character. */
  lemma FieldsGrow(spec: string, c: char, zero: bool, before: int, after: int)
    requires Fields(spec, zero, before, after) && IsSpec(c) && !(spec == [] && c == '0')
    ensures
      if c == '.' then Fields(spec + [c], zero, before, 0)
      else if IsDigit(c) then
        var d := CharDigit(c);
        if after < 0 then Fields(spec + [c], zero, (if before < 0 then 0 else before * 10) + d, after)
        else Fields(spec + [c], zero, before, after * 10 + d)
      else Fields(spec + [c], zero, before, after)
  {
    var s := AfterFlag(spec);
    assert AfterFlag(spec + [c]) == s + [c];
    WidthGrows(s, c);
  }

  lemma WidthGrows(s: string, c: char)
    ensures Width(s + [c]) ==
      if c == '.' || '.' in s || !IsDigit(c) then Width(s)
      else (if Width(s) < 0 then 0 else Width(s) * 10) + CharDigit(c)
  {
    hide OnlyDigits, BeforeDot, Number, CharDigit, IsDigit;
    BeforeDotGrows(s, c);
    if c != '.' && '.' !in s {
      var ds := OnlyDigits(BeforeDot(s));
      OnlyDigitsGrows(BeforeDot(s), c);
      NumberStep(ds, c);
      assert ds + [] == ds && Number([]) == 0 by {
        NoDigits();
      }
    }
  }

  lemma NoDigits()
    ensures Number([]) == 0
  {
  }

  lemma NumberStep(ds: string, c: char)
    ensures Number(ds + [c]) == Number(ds) * 10 + CharDigit(c)
  {
  }

  lemma {:induction false} BeforeDotGrows(s: string, c: char)
    ensures BeforeDot(s + [c]) == if c == '.' || '.' in s then BeforeDot(s) else BeforeDot(s) + [c]
  {
    if s == [] {
      assert [c][1..] == [];
    } else if s[0] != '.' {
      BeforeDotGrows(s[1..], c);
      assert (s + [c])[1..] == s[1..] + [c];
    }
  }

  lemma {:induction false} OnlyDigitsGrows(s: string, c: char)
    ensures OnlyDigits(s + [c]) == OnlyDigits(s) + (if IsDigit(c) then [c] else [])
  {
    if s == [] {
      assert [c][1..] == [];
    } else {
      OnlyDigitsGrows(s[1..], c);
      assert (s + [c])[1..] == s[1..] + [c];
    }
  }

  /** A directive whose letter has been reached is the next token. */
  lemma DirectiveEnds(fmt: string, start: nat, i: nat)
    requires start < i < |fmt| && fmt[start] == '%'
    requires (forall k :: start < k < i ==> IsSpec(fmt[k])) && !IsSpec(fmt[i])
    requires !(i == start + 1 && fmt[i] == '%')
    ensures Tokens(fmt[start..]) == [Directive(fmt[start + 1..i], fmt[i])] + Tokens(fmt[i + 1..])
  {
    var f, n := fmt[start..], i - start - 1;
    assert forall k :: 0 <= k < n ==> f[1..][k] == fmt[start + 1 + k];
    assert f[1..][n] == fmt[i];
    RunLength(f[1..], n);
    assert n == 0 || IsSpec(f[1..][0]);
    assert f[0] == '%' && f[1 + n] == fmt[i] && f[1] == f[1..][0];
    FirstDirective(f, n);
    assert f[1..1 + n] == fmt[start + 1..i] && f[2 + n..] == fmt[i + 1..];
    hide *;
  }

  lemma FirstDirective(f: string, n: nat)
    requires 1 + n < |f| && f[0] == '%' && f[1] != '%' && SpecRun(f[1..]) == n
    ensures Tokens(f) == [Directive(f[1..1 + n], f[1 + n])] + Tokens(f[2 + n..])
  {
  }

  lemma {:induction false} RunLength(s: string, n: nat)
    requires n < |s| && (forall k :: 0 <= k < n ==> IsSpec(s[k])) && !IsSpec(s[n])
    ensures SpecRun(s) == n
  {
  }

  /** A directive cut off by the end of the format is nothing. */
  lemma DirectiveCut(fmt: string, start: nat)
    requires start < |fmt| && fmt[start] == '%'
    requires forall k :: start < k < |fmt| ==> IsSpec(fmt[k])
    ensures Tokens(fmt[start..]) == []
  {
  }

  /** `out` and what the rest of the format from position k will print make up `total`. */
  ghost predicate Left(total: string, out: string, fmt: string, k: nat, args: seq<Arg>, a: nat) {
    && k <= |fmt| && a <= |args|
    && Matching(Tokens(fmt[k..]), args[a..])
    && total == out + Render(Tokens(fmt[k..]), args[a..])
  }

  lemma LeftToken(total: string, out: string, fmt: string, k: nat, args: seq<Arg>, a: nat, t: Token, k': nat)
    requires Left(total, out, fmt, k, args, a) && k' <= |fmt|
    requires Tokens(fmt[k..]) == [t] + Tokens(fmt[k'..])
    ensures Fits(t, args[a..])
    ensures Left(total, out + RenderToken(t, args[a..]), fmt, k', args, a + Takes(t))
  {
    hide Tokens, RenderToken, Conv;
    var ts, rest := Tokens(fmt[k..]), Tokens(fmt[k'..]);
    assert ts[0] == t && ts[1..] == rest;
    assert args[a..][Takes(t)..] == args[a + Takes(t)..];
  }

  /** The switch on the conversion letter. */
  method Convert(c: char, fmtLeadingZero: bool, fmtBeforeDecimal: int, ghost spec: string, args: seq<Arg>)
    returns (text: string, used: nat)
    requires Fits(Directive(spec, c), args)
    requires fmtLeadingZero == ZeroFlag(spec) && fmtBeforeDecimal == Width(AfterFlag(spec))
    ensures text == RenderToken(Directive(spec, c), args) && used == Takes(Directive(spec, c))
  {
    hide IntegerText, Rep, Width, ZeroFlag, AfterFlag;
    var fmtBase: Base, fmtSigned, fmtCase := 10, true, false;
    match c {
      case 'u' =>
        fmtSigned := false;
      case 'o' =>
        fmtSigned, fmtBase := false, 8;
      case 'x' =>
        fmtSigned, fmtBase := false, 16;
      case 'X' =>
        fmtSigned, fmtBase, fmtCase := false, 16, true;
      case _ =>
    }
    text, used := "", 0;
    match c {
      case 'd' | 'i' | 'u' | 'o' | 'x' | 'X' =>
        text := PrintInteger(args[0].w, fmtBase, fmtSigned, fmtCase, fmtLeadingZero, fmtBeforeDecimal);
        used := 1;
      case 'c' =>
        var pad := RepChar(' ', fmtBeforeDecimal - 1);
        text := pad + [(args[0].w % 256) as char];
        used := 1;
      case 's' =>
        var pad := RepChar(' ', fmtBeforeDecimal - |args[0].s|);
        text := pad + args[0].s;
        used := 1;
      case _ =>
    }
  }

  /** The machine is inside the directive that began at `start`; the fields sum up what it has
      read of it up to w. */
  ghost predicate Inside(fmt: string, start: nat, w: nat, zero: bool, before: int, after: int) {
    start < w <= |fmt| && fmt[start] == '%' && Fields(fmt[start + 1..w], zero, before, after)
  }

  /** A point, digit or 'l' in a directive. */
  method Accumulate(c: char, ghost fmt: string, ghost start: nat, ghost w: nat, ghost zero: bool,
                    before: int, after: int)
    returns (fmtBeforeDecimal: int, fmtAfterDecimal: int)
    requires Inside(fmt, start, w, zero, before, after) && w < |fmt| && fmt[w] == c
    requires IsSpec(c) && !(start + 1 == w && c == '0')
    ensures Inside(fmt, start, w + 1, zero, fmtBeforeDecimal, fmtAfterDecimal)
  {
    hide Fields;
    assert fmt[start + 1..w + 1] == fmt[start + 1..w] + [c];
    FieldsGrow(fmt[start + 1..w], c, zero, before, after);
    fmtBeforeDecimal, fmtAfterDecimal := before, after;
    if c == '.' {
      fmtAfterDecimal := 0;
    } else if '0' <= c <= '9' {
      var d := c as int - '0' as int;
      if fmtAfterDecimal < 0 {
        if fmtBeforeDecimal < 0 {
          fmtBeforeDecimal := 0;
        } else {
          fmtBeforeDecimal := fmtBeforeDecimal * 10;
        }
        fmtBeforeDecimal := fmtBeforeDecimal + d;
      } else {
        fmtAfterDecimal := fmtAfterDecimal * 10 + d;
      }
    }
  }

  /** The letter at w ends the directive: render it from its fields. */
  method Finish(fmt: string, ghost start: nat, w: nat, zero: bool, before: int, ghost after: int,
                ghost total: string, ghost out: string, args: seq<Arg>, a: nat)
    returns (text: string, used: nat)
    requires Inside(fmt, start, w, zero, before, after) && w < |fmt|
    requires !IsSpec(fmt[w]) && !(w == start + 1 && fmt[w] == '%')
    requires Left(total, out, fmt, start, args, a)
    ensures Left(total, out + text, fmt, w + 1, args, a + used)
  {
    hide *;
    ghost var spec := EndsHere(fmt, start, w, zero, before, after);
    LeftToken(total, out, fmt, start, args, a, Directive(spec, fmt[w]), w + 1);
    ArgsLeft(total, out, fmt, start, args, a);
    text, used := Convert(fmt[w], zero, before, spec, args[a..]);
  }

  /** The machine's variables: state, fields of the current directive, and the two cursors. */
  datatype Machine = Machine(state: State, zero: bool, before: int, after: int, w: nat, a: nat)

  /** Outside a directive the output so far accounts for the format up to w; inside one, for the
      format up to the '%' at `start`, and the fields sum up what has been read since. */
  ghost predicate Good(total: string, out: string, fmt: string, args: seq<Arg>, m: Machine, start: nat) {
    match m.state
    case PlainChars => Left(total, out, fmt, m.w, args, m.a)
    case FirstFmtChar =>
      Left(total, out, fmt, start, args, m.a) && Inside(fmt, start, m.w, m.zero, m.before, m.after) && start + 1 == m.w
    case OtherFmtChar =>
      Left(total, out, fmt, start, args, m.a) && Inside(fmt, start, m.w, m.zero, m.before, m.after) && start + 1 < m.w
  }

  /** One character: the body of the loop. */
  method Step(fmt: string, args: seq<Arg>, m: Machine, ghost total: string, ghost out: string, ghost start: nat)
    returns (m': Machine, text: string, ghost start': nat)
    requires Good(total, out, fmt, args, m, start) && m.w < |fmt|
    ensures Good(total, out + text, fmt, args, m', start') && m'.w == m.w + 1
  {
    start' := start;
    if m.state == PlainChars {
      m', text, start' := StepPlain(fmt, args, m, total, out);
    } else if m.state == FirstFmtChar && (fmt[m.w] == '0' || fmt[m.w] == '%') {
      m', text := StepFirst(fmt, args, m, total, out, start);
    } else {
      m', text := StepOther(fmt, args, m, total, out, start);
    }
  }

  method StepPlain(fmt: string, args: seq<Arg>, m: Machine, ghost total: string, ghost out: string)
    returns (m': Machine, text: string, ghost start: nat)
    requires Good(total, out, fmt, args, m, 0) && m.state == PlainChars && m.w < |fmt|
    ensures Good(total, out + text, fmt, args, m', start) && m'.w == m.w + 1
  {
    hide Left, Inside;
    start := m.w;
    if fmt[m.w] == '%' {
      Begins(fmt, m.w);
      m', text := Machine(FirstFmtChar, false, -1, -1, m.w + 1, m.a), "";
      assert out + text == out;
    } else {
      PrintsLiteral(total, out, fmt, m.w, args, m.a);
      m', text := m.(w := m.w + 1), [fmt[m.w]];
    }
  }

  method StepFirst(fmt: string, args: seq<Arg>, m: Machine, ghost total: string, ghost out: string, ghost start: nat)
    returns (m': Machine, text: string)
    requires Good(total, out, fmt, args, m, start) && m.state == FirstFmtChar && m.w < |fmt|
    requires fmt[m.w] == '0' || fmt[m.w] == '%'
    ensures Good(total, out + text, fmt, args, m', start) && m'.w == m.w + 1
  {
    hide Left, Inside;
    if fmt[m.w] == '0' {
      ZeroField(fmt, start, m.zero, m.before, m.after);
      m', text := m.(state := OtherFmtChar, zero := true, w := m.w + 1), "";
      assert out + text == out;
    } else {
      PrintsPercent(total, out, fmt, start, args, m.a, m.zero, m.before, m.after);
      m', text := m.(state := PlainChars, w := m.w + 1), [fmt[m.w]];
    }
  }

  method StepOther(fmt: string, args: seq<Arg>, m: Machine, ghost total: string, ghost out: string, ghost start: nat)
    returns (m': Machine, text: string)
    requires Good(total, out, fmt, args, m, start) && m.state != PlainChars && m.w < |fmt|
    requires !(m.state == FirstFmtChar && (fmt[m.w] == '0' || fmt[m.w] == '%'))
    ensures Good(total, out + text, fmt, args, m', start) && m'.w == m.w + 1
  {
    hide Left, Inside;
    if IsSpec(fmt[m.w]) {
      var before, after := Accumulate(fmt[m.w], fmt, start, m.w, m.zero, m.before, m.after);
      m', text := Machine(OtherFmtChar, m.zero, before, after, m.w + 1, m.a), "";
      assert out + text == out;
    } else {
      var used;
      text, used := Finish(fmt, start, m.w, m.zero, m.before, m.after, total, out, args, m.a);
      m' := m.(state := PlainChars, w := m.w + 1, a := m.a + used);
    }
  }

  /** alt_log_private_printf: one pass over the format, for every format and every argument list
      that fits it. */
  method PrivatePrintf(fmt: CString, args: seq<Arg>) returns (out: string)
    requires Matching(Tokens(fmt), args)
    ensures out == Render(Tokens(fmt), args)
  {
    ghost var total := Render(Tokens(fmt), args);
    assert fmt[0..] == fmt && args[0..] == args;
    out := "";
    var m := Machine(PlainChars, false, 0, 0, 0, 0);
    ghost var start: nat := 0;
    assert Left(total, out, fmt, 0, args, 0);
    assert Good(total, out, fmt, args, m, start);
    hide *;
    while m.w < |fmt|
      invariant m.w <= |fmt| && Good(total, out, fmt, args, m, start)
      decreases |fmt| - m.w
    {
      var text;
      m, text, start := Step(fmt, args, m, total, out, start);
      out := out + text;
    }
    Ends(total, out, fmt, args, m, start);
  }

  lemma Ends(total: string, out: string, fmt: string, args: seq<Arg>, m: Machine, start: nat)
    requires Good(total, out, fmt, args, m, start) && m.w == |fmt|
    ensures out == total
  {
    if m.state == PlainChars {
      NothingLeft(total, out, fmt, m.w, args, m.a);
    } else {
      CutHere(fmt, start, m.zero, m.before, m.after, total, out, args, m.a);
    }
  }

  lemma Begins(fmt: string, w: nat)
    requires w < |fmt| && fmt[w] == '%'
    ensures Inside(fmt, w, w + 1, false, -1, -1)
  {
  }

  lemma ZeroField(fmt: string, start: nat, zero: bool, before: int, after: int)
    requires Inside(fmt, start, start + 1, zero, before, after) && start + 1 < |fmt| && fmt[start + 1] == '0'
    ensures Inside(fmt, start, start + 2, true, before, after)
  {
  }

  lemma PrintsLiteral(total: string, out: string, fmt: string, w: nat, args: seq<Arg>, a: nat)
    requires Left(total, out, fmt, w, args, a) && w < |fmt| && fmt[w] != '%'
    ensures Left(total, out + [fmt[w]], fmt, w + 1, args, a)
  {
  }

  lemma PrintsPercent(total: string, out: string, fmt: string, start: nat, args: seq<Arg>, a: nat,
                      zero: bool, before: int, after: int)
    requires Inside(fmt, start, start + 1, zero, before, after) && start + 1 < |fmt| && fmt[start + 1] == '%'
    requires Left(total, out, fmt, start, args, a)
    ensures Left(total, out + ['%'], fmt, start + 2, args, a)
  {
  }

  lemma ArgsLeft(total: string, out: string, fmt: string, k: nat, args: seq<Arg>, a: nat)
    requires Left(total, out, fmt, k, args, a)
    ensures a <= |args|
  {
  }

  lemma EndsHere(fmt: string, start: nat, i: nat, zero: bool, before: int, after: int) returns (spec: string)
    requires Inside(fmt, start, i, zero, before, after) && i < |fmt|
    requires !IsSpec(fmt[i]) && !(i == start + 1 && fmt[i] == '%')
    ensures Tokens(fmt[start..]) == [Directive(spec, fmt[i])] + Tokens(fmt[i + 1..])
    ensures zero == ZeroFlag(spec) && before == Width(AfterFlag(spec))
  {
    spec := fmt[start + 1..i];
    assert forall k :: start < k < i ==> fmt[k] == spec[k - start - 1];
    DirectiveEnds(fmt, start, i);
  }

  lemma CutHere(fmt: string, start: nat, zero: bool, before: int, after: int,
                total: string, out: string, args: seq<Arg>, a: nat)
    requires Inside(fmt, start, |fmt|, zero, before, after) && Left(total, out, fmt, start, args, a)
    ensures out == total
  {
    assert forall k :: start < k < |fmt| ==> fmt[k] == fmt[start + 1..|fmt|][k - start - 1];
    DirectiveCut(fmt, start);
  }

  lemma NothingLeft(total: string, out: string, fmt: string, k: nat, args: seq<Arg>, a: nat)
    requires Left(total, out, fmt, k, args, a) && k == |fmt|
    ensures out == total
  {
  }
}
