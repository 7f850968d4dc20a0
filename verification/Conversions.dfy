/** What the two printers print, letter by letter, said without their specifications: which value,
    sign, base, letter case and padding each conversion shows (alt_log_printf.c, alt_printf.c). */
module Conversions {
  import opened Words
  import opened Digits
  import opened LogPrintf
  import AltPrintf

  /** The characters that may stand between '%' and the letter. */
  predicate Between(s: string) {
    forall i :: 0 <= i < |s| ==> s[i] == '.' || s[i] == 'l' || '0' <= s[i] <= '9'
  }

  /** A digit of the base, with letters from `a` on for ten and more. */
  predicate DigitOf(c: char, base: nat, a: char) {
    ('0' <= c <= '9' && c as int - '0' as int < base) || (a <= c && c as int - a as int + 10 < base)
  }

  /** The shortest numeral of `value` in this base. */
  ghost predicate Numeral(digits: string, value: nat, base: Base, a: char) {
    && digits != "" && (forall i :: 0 <= i < |digits| ==> DigitOf(digits[i], base, a))
    && Parse(digits, base) == value && (|digits| > 1 ==> digits[0] != '0')
  }

  function Times(c: char, n: nat): string {
    seq(n, _ => c)
  }

  /** Blanks, sign, zeros, numeral; blanks or zeros as the flag says, and as many of them as it takes
      to reach the width. */
  ghost predicate Laid(text: string, blanks: nat, zeros: nat, digits: string, value: int, base: Base, a: char,
                       zero: bool, width: int)
  {
    var sign := if value < 0 then "-" else "";
    && Numeral(digits, if value < 0 then -value else value, base, a)
    && text == Times(' ', blanks) + sign + Times('0', zeros) + digits
    && (if zero then blanks == 0 else zeros == 0)
    && |text| == if width > |sign| + |digits| then width else |sign| + |digits|
  }

  /** What an integer letter shows of a word. */
  function Shown(c: char, v: u32): int {
    if c in {'d', 'i'} && v >= 0x8000_0000 then v - 0x1_0000_0000 else v
  }

  function BaseOf(c: char): Base {
    if c in {'x', 'X'} then 16 else if c == 'o' then 8 else 10
  }

  function TenOf(c: char): char {
    if c == 'X' then 'A' else 'a'
  }

  // ---- the digits ----

  lemma TextIsNumeral(v: nat, base: Base, upper: bool)
    ensures Numeral(Digits.Text(v, base, upper), v, base, if upper then 'A' else 'a')
  {
    var ds, s := Of(v, base), Digits.Text(v, base, upper);
    TextRoundTrip(v, base, upper);
    NoLeadingZero(v, base);
    hide Of, Parse;
    forall i | 0 <= i < |s| ensures DigitOf(s[i], base, if upper then 'A' else 'a') {
      assert s[i] == DigitChar(ds[i], upper);
    }
    assert s[0] == DigitChar(ds[0], upper);
  }

  lemma IntegerLaid(v: u32, c: char, zero: bool, width: int) returns (blanks: nat, zeros: nat, digits: string)
    requires c in {'d', 'i', 'u', 'o', 'x', 'X'}
    ensures Conv(c).Integer?
    ensures var k := Conv(c);
      Laid(IntegerText(v, k.base, k.signed, k.upper, zero, width), blanks, zeros, digits,
           Shown(c, v), BaseOf(c), TenOf(c), zero, width)
  {
    hide Conv, Laid, Magnitude, Negative, Shown, BaseOf, TenOf, Digits.Text, Rep;
    ShownParts(c, v);
    var k := Conv(c);
    blanks, zeros, digits := LaidOut(Shown(c, v), k.base, k.upper, zero, width);
  }

  lemma ShownParts(c: char, v: u32)
    requires c in {'d', 'i', 'u', 'o', 'x', 'X'}
    ensures Conv(c).Integer?
    ensures var k := Conv(c);
      && BaseOf(c) == k.base && TenOf(c) == (if k.upper then 'A' else 'a')
      && (Shown(c, v) < 0 <==> Negative(v, k.signed))
      && Magnitude(v, k.signed) == if Shown(c, v) < 0 then -Shown(c, v) else Shown(c, v)
  {
  }

  lemma LaidOut(value: int, base: Base, upper: bool, zero: bool, width: int)
    returns (blanks: nat, zeros: nat, digits: string)
    ensures var sign := if value < 0 then "-" else "";
      var text := Digits.Text(if value < 0 then -value else value, base, upper);
      var pad := width - |text| - |sign|;
      Laid(if zero then sign + Rep('0', pad) + text else Rep(' ', pad) + sign + text, blanks, zeros, digits,
           value, base, if upper then 'A' else 'a', zero, width)
  {
    var m: nat := if value < 0 then -value else value;
    digits := Digits.Text(m, base, upper);
    TextIsNumeral(m, base, upper);
    hide Digits.Text, Numeral;
    var pad := width - |digits| - if value < 0 then 1 else 0;
    blanks, zeros := if !zero && pad > 0 then pad else 0, if zero && pad > 0 then pad else 0;
  }

  // ---- one directive, and the rest of the format ----

  lemma DirectiveFirst(spec: string, c: char, rest: string)
    requires Between(spec) && !Between([c]) && !(spec == "" && c == '%')
    ensures Tokens("%" + spec + [c] + rest) == [Directive(spec, c)] + Tokens(rest)
  {
    var fmt, i := "%" + spec + [c] + rest, |spec| + 1;
    assert forall k :: 0 < k < i ==> fmt[k] == spec[k - 1];
    assert fmt[i] == c == [c][0] && fmt[0..] == fmt && fmt[1..i] == spec && fmt[i + 1..] == rest;
    hide Tokens;
    DirectiveEnds(fmt, 0, i);
  }

  lemma RenderFirst(t: Token, rest: seq<Token>, args: seq<Arg>)
    requires Fits(t, args) && Matching(rest, args[Takes(t)..])
    ensures Matching([t] + rest, args)
    ensures Render([t] + rest, args) == RenderToken(t, args) + Render(rest, args[Takes(t)..])
  {
    assert ([t] + rest)[1..] == rest;
    hide RenderToken, Conv;
  }

  /** An integer letter takes one word and shows it: 'd' and 'i' signed in base ten, 'u' unsigned in
      base ten, 'o' in base eight, 'x' and 'X' in base sixteen with small and capital letters. */
  lemma IntegerDirective(spec: string, c: char, rest: string, v: u32, args: seq<Arg>)
    returns (text: string, blanks: nat, zeros: nat, digits: string)
    requires Between(spec) && c in {'d', 'i', 'u', 'o', 'x', 'X'} && Matching(Tokens(rest), args)
    ensures var fmt := "%" + spec + [c] + rest;
      && Matching(Tokens(fmt), [Word(v)] + args)
      && Render(Tokens(fmt), [Word(v)] + args) == text + Render(Tokens(rest), args)
    ensures Laid(text, blanks, zeros, digits, Shown(c, v), BaseOf(c), TenOf(c), ZeroFlag(spec), Width(AfterFlag(spec)))
  {
    var t, all := Directive(spec, c), [Word(v)] + args;
    assert !Between([c]) by {
      assert [c][0] == c;
    }
    DirectiveFirst(spec, c, rest);
    assert all[1..] == args && all[0] == Word(v);
    blanks, zeros, digits := IntegerLaid(v, c, ZeroFlag(spec), Width(AfterFlag(spec)));
    text := RenderToken(t, all);
    hide Tokens, IntegerText, Width, ZeroFlag, AfterFlag, Laid;
    RenderFirst(t, Tokens(rest), all);
  }

  /** 'c' takes a word and shows its low byte as a character, after the blanks of the width. */
  lemma CharacterDirective(spec: string, rest: string, v: u32, args: seq<Arg>) returns (blanks: nat)
    requires Between(spec) && Matching(Tokens(rest), args)
    ensures var fmt := "%" + spec + "c" + rest;
      && Matching(Tokens(fmt), [Word(v)] + args)
      && Render(Tokens(fmt), [Word(v)] + args) == Times(' ', blanks) + [(v % 256) as char] + Render(Tokens(rest), args)
    ensures var width := Width(AfterFlag(spec)); blanks == if width > 1 then width - 1 else 0
  {
    var t, all := Directive(spec, 'c'), [Word(v)] + args;
    assert "c"[0] == 'c';
    DirectiveFirst(spec, 'c', rest);
    assert all[1..] == args && all[0] == Word(v);
    var width := Width(AfterFlag(spec));
    blanks := if width > 1 then width - 1 else 0;
    hide Tokens, Width, AfterFlag;
    assert RenderToken(t, all) == Times(' ', blanks) + [(v % 256) as char];
    RenderFirst(t, Tokens(rest), all);
  }

  /** 's' takes a string and shows it, after the blanks of the width. */
  lemma StringDirective(spec: string, rest: string, s: CString, args: seq<Arg>) returns (blanks: nat)
    requires Between(spec) && Matching(Tokens(rest), args)
    ensures var fmt := "%" + spec + "s" + rest;
      && Matching(Tokens(fmt), [Str(s)] + args)
      && Render(Tokens(fmt), [Str(s)] + args) == Times(' ', blanks) + s + Render(Tokens(rest), args)
    ensures var width := Width(AfterFlag(spec)); blanks == if width > |s| then width - |s| else 0
  {
    var t, all := Directive(spec, 's'), [Str(s)] + args;
    assert "s"[0] == 's';
    DirectiveFirst(spec, 's', rest);
    assert all[1..] == args && all[0] == Str(s);
    var width := Width(AfterFlag(spec));
    blanks := if width > |s| then width - |s| else 0;
    hide Tokens, Width, AfterFlag;
    assert RenderToken(t, all) == Times(' ', blanks) + s;
    RenderFirst(t, Tokens(rest), all);
  }

  /** Any other letter shows nothing and takes nothing. */
  lemma UnknownDirective(spec: string, c: char, rest: string, args: seq<Arg>)
    requires Between(spec) && !Between([c]) && !(spec == "" && c == '%') && Matching(Tokens(rest), args)
    requires c !in {'d', 'i', 'u', 'o', 'x', 'X', 'c', 's'}
    ensures var fmt := "%" + spec + [c] + rest;
      Matching(Tokens(fmt), args) && Render(Tokens(fmt), args) == Render(Tokens(rest), args)
  {
    var t := Directive(spec, c);
    DirectiveFirst(spec, c, rest);
    assert args[0..] == args;
    assert RenderToken(t, args) == "";
    hide Tokens, RenderToken, Conv;
    RenderFirst(t, Tokens(rest), args);
  }

  /** Other characters stand for themselves, and "%%" for one '%'. */
  lemma PlainText(c: char, rest: string, args: seq<Arg>)
    requires Matching(Tokens(rest), args)
    ensures var fmt := (if c == '%' then "%%" else [c]) + rest;
      Matching(Tokens(fmt), args) && Render(Tokens(fmt), args) == [c] + Render(Tokens(rest), args)
  {
    var fmt := (if c == '%' then "%%" else [c]) + rest;
    assert fmt[1..] == (if c == '%' then "%" + rest else rest) && (c == '%' ==> fmt[2..] == rest);
    assert Tokens(fmt) == [Literal(c)] + Tokens(rest);
    assert args[0..] == args;
    hide Tokens;
    RenderFirst(Literal(c), Tokens(rest), args);
  }

  // ---- the width ----

  predicate AllDigits(s: string) {
    forall i :: 0 <= i < |s| ==> '0' <= s[i] <= '9'
  }

  /** A '0' first is the flag; the digits after it are the width, in base ten, and an 'l' or a point
      and what follows do not count. */
  lemma WidthOf(zero: bool, digits: string, tail: string)
    requires AllDigits(digits) && (digits != "" && !zero ==> digits[0] != '0')
    requires tail == "" || tail == "l" || tail[0] == '.'
    ensures var spec := (if zero then "0" else "") + digits + tail;
      && ZeroFlag(spec) == zero
      && Width(AfterFlag(spec)) == if digits == "" then -1 else Parse(digits, 10)
  {
    var spec := (if zero then "0" else "") + digits + tail;
    assert zero ==> spec[1..] == digits + tail;
    assert !zero ==> spec == digits + tail;
    assert AfterFlag(spec) == digits + tail;
    DigitsBefore(digits, tail);
    NumberIsParse(digits);
  }

  lemma {:induction false} DigitsBefore(digits: string, tail: string)
    requires AllDigits(digits) && (tail == "" || tail == "l" || tail[0] == '.')
    ensures OnlyDigits(BeforeDot(digits + tail)) == digits
  {
    if digits == "" {
      assert "" + tail == tail;
      assert tail == "l" ==> tail[1..] == "";
    } else {
      var s, more := digits + tail, digits[1..];
      DigitsBefore(more, tail);
      assert s[1..] == more + tail && s[0] == digits[0];
      assert BeforeDot(s) == [s[0]] + BeforeDot(s[1..]);
      assert ([s[0]] + BeforeDot(s[1..]))[1..] == BeforeDot(s[1..]);
      assert digits == [s[0]] + more;
    }
  }

  lemma {:induction false} NumberIsParse(s: string)
    ensures Number(s) == Parse(s, 10)
  {
    var values := seq(|s|, i requires 0 <= i < |s| => CharDigit(s[i]));
    if s != "" {
      var init := s[..|s| - 1];
      NumberIsParse(init);
      assert values[..|s| - 1] == seq(|init|, i requires 0 <= i < |init| => CharDigit(init[i]));
    }
  }

  // ---- what the boot log prints for a format of one directive ----

  method PrintsInteger(spec: string, c: char, v: u32)
    returns (out: string, ghost blanks: nat, ghost zeros: nat, ghost digits: string)
    requires Between(spec) && c in {'d', 'i', 'u', 'o', 'x', 'X'}
    ensures Laid(out, blanks, zeros, digits, Shown(c, v), BaseOf(c), TenOf(c), ZeroFlag(spec), Width(AfterFlag(spec)))
  {
    hide Tokens, Render, Matching, Laid, Width, AfterFlag, ZeroFlag;
    NothingAfter();
    var fmt := Format(spec, c);
    ghost var text;
    text, blanks, zeros, digits := IntegerDirective(spec, c, "", v, []);
    assert fmt + "" == fmt && [Word(v)] + [] == [Word(v)] && text + "" == text;
    out := PrivatePrintf(fmt, [Word(v)]);
  }

  method PrintsCharacter(spec: string, v: u32) returns (out: string)
    requires Between(spec)
    ensures var width := Width(AfterFlag(spec));
      out == Times(' ', if width > 1 then width - 1 else 0) + [(v % 256) as char]
  {
    hide Tokens, Render, Matching, Width, AfterFlag;
    NothingAfter();
    var fmt := Format(spec, 'c');
    ghost var blanks := CharacterDirective(spec, "", v, []);
    assert fmt + "" == fmt && [Word(v)] + [] == [Word(v)];
    assert Times(' ', blanks) + [(v % 256) as char] + "" == Times(' ', blanks) + [(v % 256) as char];
    out := PrivatePrintf(fmt, [Word(v)]);
  }

  method PrintsString(spec: string, s: CString) returns (out: string)
    requires Between(spec)
    ensures var width := Width(AfterFlag(spec));
      out == Times(' ', if width > |s| then width - |s| else 0) + s
  {
    hide Tokens, Render, Matching, Width, AfterFlag;
    NothingAfter();
    var fmt := Format(spec, 's');
    ghost var blanks := StringDirective(spec, "", s, []);
    assert fmt + "" == fmt && [Str(s)] + [] == [Str(s)];
    assert Times(' ', blanks) + s + "" == Times(' ', blanks) + s;
    out := PrivatePrintf(fmt, [Str(s)]);
  }

  function Format(spec: string, c: char): (fmt: CString)
    requires Between(spec) && c != '\0'
    ensures fmt == "%" + spec + [c]
  {
    var fmt := "%" + spec + [c];
    assert forall i :: 0 <= i < |spec| ==> fmt[i + 1] == spec[i];
    fmt
  }

  lemma NothingAfter()
    ensures Tokens("") == [] && Matching([], []) && Render([], []) == ""
  {
  }

  // ---- alt_printf ----

  lemma PieceFirst(p: AltPrintf.Piece, rest: seq<AltPrintf.Piece>, args: seq<Arg>)
    requires AltPrintf.Suits(p, args) && AltPrintf.Suitable(rest, AltPrintf.Rest(p, args))
    ensures AltPrintf.Suitable([p] + rest, args)
    ensures AltPrintf.PiecesText([p] + rest, args) ==
            AltPrintf.PieceText(p, args) + AltPrintf.PiecesText(rest, AltPrintf.Rest(p, args))
  {
    assert ([p] + rest)[1..] == rest;
  }

  /** Of alt_printf's letters, 'x' shows a word in base sixteen with small letters, 'c' its low byte as
      a character, and 's' a string; each takes its argument. */
  lemma AltDirective(c: char, rest: string, arg: Arg, args: seq<Arg>) returns (text: string)
    requires c in {'x', 'c', 's'} && (arg.Str? <==> c == 's')
    requires AltPrintf.Suitable(AltPrintf.Pieces(rest), args)
    ensures var fmt := "%" + [c] + rest;
      && AltPrintf.Suitable(AltPrintf.Pieces(fmt), [arg] + args)
      && AltPrintf.PiecesText(AltPrintf.Pieces(fmt), [arg] + args) ==
           text + AltPrintf.PiecesText(AltPrintf.Pieces(rest), args)
    ensures c == 'x' ==> Numeral(text, arg.w, 16, 'a')
    ensures c == 'c' ==> text == [(arg.w % 256) as char]
    ensures c == 's' ==> text == arg.s
  {
    var fmt, all, p := "%" + [c] + rest, [arg] + args, AltPrintf.Letter(c);
    assert fmt[1] == c && fmt[2..] == rest && all[1..] == args && all[0] == arg;
    assert AltPrintf.Pieces(fmt) == [p] + AltPrintf.Pieces(rest);
    text := AltPrintf.PieceText(p, all);
    if c == 'x' {
      TextIsNumeral(arg.w, 16, false);
    }
    hide AltPrintf.Pieces, AltPrintf.PieceText, Numeral;
    PieceFirst(p, AltPrintf.Pieces(rest), all);
  }

  /** Any other letter shows nothing and takes nothing, but '%' shows itself; and so do characters
      outside directives. */
  lemma AltOther(c: char, rest: string, args: seq<Arg>)
    requires c !in {'x', 'c', 's'} && AltPrintf.Suitable(AltPrintf.Pieces(rest), args)
    ensures var fmt := "%" + [c] + rest;
      && AltPrintf.Suitable(AltPrintf.Pieces(fmt), args)
      && AltPrintf.PiecesText(AltPrintf.Pieces(fmt), args) ==
           (if c == '%' then "%" else "") + AltPrintf.PiecesText(AltPrintf.Pieces(rest), args)
  {
    var fmt := "%" + [c] + rest;
    assert fmt[1] == c && fmt[2..] == rest;
    assert AltPrintf.Pieces(fmt) == [AltPrintf.Letter(c)] + AltPrintf.Pieces(rest);
    hide AltPrintf.Pieces;
    PieceFirst(AltPrintf.Letter(c), AltPrintf.Pieces(rest), args);
  }

  lemma AltPlain(c: char, rest: string, args: seq<Arg>)
    requires c != '%' && AltPrintf.Suitable(AltPrintf.Pieces(rest), args)
    ensures var fmt := [c] + rest;
      && AltPrintf.Suitable(AltPrintf.Pieces(fmt), args)
      && AltPrintf.PiecesText(AltPrintf.Pieces(fmt), args) == [c] + AltPrintf.PiecesText(AltPrintf.Pieces(rest), args)
  {
    var fmt := [c] + rest;
    assert fmt[0] == c && fmt[1..] == rest;
    assert AltPrintf.Pieces(fmt) == [AltPrintf.Copy(c)] + AltPrintf.Pieces(rest);
    hide AltPrintf.Pieces;
    PieceFirst(AltPrintf.Copy(c), AltPrintf.Pieces(rest), args);
  }

  /** A '%' that ends the format is nothing to alt_printf, nor to the boot log a directive without its
      letter. */
  lemma CutOff(spec: string)
    requires Between(spec)
    ensures Tokens("%" + spec) == [] && AltPrintf.Pieces("%") == []
  {
    var fmt := "%" + spec;
    assert forall k :: 0 < k < |fmt| ==> fmt[k] == spec[k - 1];
    assert fmt[0..] == fmt;
    DirectiveCut(fmt, 0);
  }
}
