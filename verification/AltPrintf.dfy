/** The minimal printf (alt_printf.c): %x by shift and mask, %s, %c and %%. */
module AltPrintf {
  import opened Words
  import opened Digits
  import opened Division
  import opened LogPrintf
  import opened BitWords

  // ---- specification ----

  /** Every character outside a directive, and every directive letter. A '%' that ends the format
      is nothing. */
  datatype Piece = Copy(c: char) | Letter(c: char)

  function Pieces(fmt: string): seq<Piece> {
    if fmt == [] then []
    else if fmt[0] != '%' then [Copy(fmt[0])] + Pieces(fmt[1..])
    else if |fmt| == 1 then []
    else [Letter(fmt[1])] + Pieces(fmt[2..])
  }

  predicate TakesOne(p: Piece) {
    p.Letter? && p.c in {'c', 'x', 's'}
  }

  predicate Suits(p: Piece, args: seq<Arg>) {
    TakesOne(p) ==> args != [] && (args[0].Str? <==> p.c == 's')
  }

  function Rest(p: Piece, args: seq<Arg>): seq<Arg>
    requires Suits(p, args)
  {
    if TakesOne(p) then args[1..] else args
  }

  /** Unknown letters print nothing and take nothing. */
  function PieceText(p: Piece, args: seq<Arg>): string
    requires Suits(p, args)
  {
    match p
    case Copy(c) => [c]
    case Letter(c) =>
      if c == '%' then "%"
      else if c == 'c' then [(args[0].w % 256) as char]
      else if c == 'x' then Digits.Text(args[0].w, 16, false)
      else if c == 's' then args[0].s
      else ""
  }

  ghost predicate Suitable(ps: seq<Piece>, args: seq<Arg>) {
    ps == [] || (Suits(ps[0], args) && Suitable(ps[1..], Rest(ps[0], args)))
  }

  ghost function PiecesText(ps: seq<Piece>, args: seq<Arg>): string
    requires Suitable(ps, args)
  {
    if ps == [] then "" else PieceText(ps[0], args) + PiecesText(ps[1..], Rest(ps[0], args))
  }

  // ---- words as bits ----

  /** The low 4 * n bits of a number. */
  function Bits(v: nat, n: nat): bv32 {
    if n == 0 then 0
    else
      DivMod(v, 16);
      WithNibble(Bits(Quot(v, 16), n - 1), Rem(v, 16))
  }

  /** The values of digit_shift. */
  predicate Shift(s: int) { s in {0, 4, 8, 12, 16, 20, 24, 28} }

  /** The bits the printer tests, and the nibble it prints, with the eight shifts spelled out. */
  function Masked(w: bv32, shift: nat): bv32
    requires Shift(shift)
  {
    match shift
    case 0 => w & (0xF << 0)
    case 4 => w & (0xF << 4)
    case 8 => w & (0xF << 8)
    case 12 => w & (0xF << 12)
    case 16 => w & (0xF << 16)
    case 20 => w & (0xF << 20)
    case 24 => w & (0xF << 24)
    case _ => w & (0xF << 28)
  }

  function Extract(w: bv32, shift: nat): (d: bv32)
    requires Shift(shift)
    ensures d == 0 <==> Masked(w, shift) == 0
  {
    match shift
    case 0 => Masked(w, 0) >> 0
    case 4 => Masked(w, 4) >> 4
    case 8 => Masked(w, 8) >> 8
    case 12 => Masked(w, 12) >> 12
    case 16 => Masked(w, 16) >> 16
    case 20 => Masked(w, 20) >> 20
    case 24 => Masked(w, 24) >> 24
    case _ => Masked(w, 28) >> 28
  }

  lemma ExtractLowest(x: bv32, h: bv32)
    requires h & 15 == h
    ensures Extract((x << 4) | h, 0) == h
  {
  }

  lemma ExtractHigher(x: bv32, h: bv32, s: nat)
    requires h & 15 == h && Shift(s) && s <= 24
    ensures Extract((x << 4) | h, s + 4) == Extract(x, s)
  {
  }

  /** Bits assembles the machine word. */
  lemma {:induction false} BitsValue(v: nat, n: nat)
    requires n <= 8 && v < Pow16(n)
    ensures ToNat(Bits(v, n)) == v
    decreases n
  {
    BitsStep(v, n);
    if n > 0 {
      DivMod(v, 16);
      PowersUp(n);
      hide *;
      BitsValue(Quot(v, 16), n - 1);
      AppendNibble(Bits(Quot(v, 16), n - 1), Rem(v, 16));
    }
  }

  lemma BitsStep(v: nat, n: nat)
    ensures n == 0 ==> ToNat(Bits(v, n)) == 0 && Pow16(n) == 1
    ensures Rem(v, 16) < 16
    ensures n > 0 ==> Bits(v, n) == WithNibble(Bits(Quot(v, 16), n - 1), Rem(v, 16))
  {
    DivMod(v, 16);
  }

  lemma PowersUp(n: nat)
    requires 0 < n <= 8
    ensures Pow16(n) == 16 * Pow16(n - 1) && Pow16(n - 1) <= 0x1000_0000
  {
    assert Pow16(2) == 256 && Pow16(4) == 0x1_0000 && Pow16(7) == 0x1000_0000;
  }

  lemma WordIsBits(v: u32)
    ensures ToWord(v) == Bits(v, 8)
  {
    AllWords(v);
    BitsValue(v, 8);
    hide Bits, ToNat, ToWord;
    WordOfNat(v, Bits(v, 8));
  }

  lemma AllWords(v: u32)
    ensures v < Pow16(8)
  {
    assert Pow16(2) == 256 && Pow16(4) == 0x1_0000 && Pow16(6) == 0x100_0000 && Pow16(8) == TWO32;
  }

  /** Shifting and masking a machine word is dividing by a power of 16 and taking the remainder. */
  lemma ExtractIsDigit(v: u32, j: nat)
    requires j < 8
    ensures Extract(ToWord(v), 4 * j) == HexBits(Nibble(v, j))
  {
    WordIsBits(v);
    ExtractBits(v, 8, j);
    hide Bits, Extract, HexBits, ToWord;
  }

  lemma {:induction false} ExtractBits(v: nat, n: nat, j: nat)
    requires j < n <= 8
    ensures Extract(Bits(v, n), 4 * j) == HexBits(Nibble(v, j))
    decreases n
  {
    BitsStep(v, n);
    ShiftsUp(j);
    ExtractWithNibble(Bits(Quot(v, 16), n - 1), Rem(v, 16), j);
    if j == 0 {
      DigitZero(v);
      hide *;
    } else {
      DigitUp(v, j);
      hide *;
      ExtractBits(Quot(v, 16), n - 1, j - 1);
    }
  }

  lemma ExtractWithNibble(x: bv32, d: nat, j: nat)
    requires d < 16 && j < 8
    ensures Shift(4 * j) && (j > 0 ==> Shift(4 * (j - 1)))
    ensures Extract(WithNibble(x, d), 4 * j) == if j == 0 then HexBits(d) else Extract(x, 4 * (j - 1))
  {
    ShiftsUp(j);
    hide Shift, Extract, WithNibble;
    if j == 0 {
      ExtractOver(x, d);
    } else {
      ExtractPast(x, d, 4 * (j - 1));
    }
  }

  lemma ExtractOver(x: bv32, d: nat)
    requires d < 16
    ensures Extract(WithNibble(x, d), 0) == HexBits(d)
  {
    hide Extract;
    ExtractLowest(x, HexBits(d));
  }

  lemma ExtractPast(x: bv32, d: nat, s: nat)
    requires d < 16 && Shift(s) && s <= 24
    ensures Shift(s + 4) && Extract(WithNibble(x, d), s + 4) == Extract(x, s)
  {
    hide Extract;
    ExtractHigher(x, HexBits(d), s);
  }

  lemma ShiftsUp(j: nat)
    requires j < 8
    ensures Shift(4 * j) && (j > 0 ==> Shift(4 * (j - 1)))
  {
  }

  lemma DigitZero(v: nat)
    ensures Nibble(v, 0) == Rem(v, 16)
  {
    DivUnique(v, 1, v, 0);
  }

  lemma DigitUp(v: nat, j: nat)
    requires j > 0
    ensures Nibble(v, j) == Nibble(Quot(v, 16), j - 1)
  {
    QuotQuot(v, Pow16(j - 1));
  }

  lemma QuotQuot(v: nat, p: nat)
    requires p > 0
    ensures Quot(Quot(v, 16), p) == Quot(v, 16 * p)
  {
    var q := Quot(v, 16);
    DivMod(v, 16);
    DivMod(q, p);
    var r, q', r' := Rem(v, 16), Quot(q, p), Rem(q, p);
    hide Quot, Rem;
    Nested(q', p, r', 16, r);
    DivUnique(v, 16 * p, q', r' * 16 + r);
  }

  // ---- hexadecimal by shift and mask ----

  /** The digit at place j. */
  function Nibble(v: nat, j: nat): (d: nat)
    ensures d < 16
  {
    DivMod(Quot(v, Pow16(j)), 16);
    Rem(Quot(v, Pow16(j)), 16)
  }

  function Pow16(j: nat): (p: nat)
    ensures p == Pow(16, j) && p > 0
  {
    if j == 0 then 1 else 16 * Pow16(j - 1)
  }

  /** The value above place j, in terms of the value above place j + 1. */
  lemma ShiftStep(v: nat, j: nat)
    ensures Quot(v, Pow16(j)) == Quot(v, Pow16(j + 1)) * 16 + Nibble(v, j)
  {
    var p := Pow16(j);
    assert Pow16(j + 1) == p * 16;
    DivMod(v, p);
    var q, r := Quot(v, p), Rem(v, p);
    DivMod(q, 16);
    hide Quot, Rem;
    Nested(Quot(q, 16), 16, Rem(q, 16), p, r);
    DivUnique(v, p * 16, Quot(q, 16), Rem(q, 16) * p + r);
  }

  /** The hexadecimal part of alt_printf: skip zero nibbles from bit 28 down, then print the rest. */
  method HexDigits(v: u32) returns (out: string)
    ensures out == Digits.Text(v, 16, false)
  {
    if v == 0 {
      return "0";
    }
    var digit_shift := FirstNibble(v);
    ghost var j := PlaceOf(v, digit_shift);
    out := DigitsFrom(v, digit_shift, j);
  }

  /** The second loop of the conversion, from v's highest non-zero nibble, at place j. */
  method DigitsFrom(v: u32, first: int, ghost j: int) returns (out: string)
    requires 0 <= j <= 7 && first == 4 * j && Nibble(v, j) != 0 && Quot(v, Pow16(j + 1)) == 0
    ensures out == Digits.Text(v, 16, false)
  {
    var w := ToWord(v);
    hide *;
    AboveNone(v);
    var digit_shift := first;
    out := "";
    ghost var k, above := j, 0;
    while digit_shift >= 0
      invariant -1 <= k <= 7 && digit_shift == 4 * k
      invariant above == Quot(v, Pow16(k + 1))
      invariant out == (if above == 0 then "" else Digits.Text(above, 16, false))
      invariant above == 0 ==> k >= 0 && Nibble(v, k) != 0
      decreases digit_shift
    {
      FirstTest(v, k);
      ExtractIsDigit(v, k);
      HexBitsBack(Nibble(v, k));
      var digit := Extract(w, digit_shift) as nat;
      above := HexStep(v, k, above, out);
      out := out + [DigitChar(digit, false)];
      digit_shift := digit_shift - 4;
      k := k - 1;
    }
  }

  /** The nibble at place j becomes the next digit. */
  lemma HexStep(v: u32, j: nat, above: nat, out: string) returns (more: nat)
    requires above == Quot(v, Pow16(j + 1))
    requires out == (if above == 0 then "" else Digits.Text(above, 16, false))
    requires above == 0 ==> Nibble(v, j) != 0
    ensures more == Quot(v, Pow16(j)) && more > 0
    ensures out + [DigitChar(Nibble(v, j), false)] == Digits.Text(more, 16, false)
  {
    hide *;
    var digit := Nibble(v, j);
    ShiftStep(v, j);
    more := above * 16 + digit;
    PrintOne(16, false, above, digit, more, out);
  }

  /** The place of v's highest non-zero digit, times four. */
  ghost predicate Highest(v: nat, shift: int) {
    Shift(shift) && Nibble(v, shift / 4) != 0 && Quot(v, Pow16(shift / 4 + 1)) == 0
  }

  lemma HighestAt(v: nat, shift: int, j: nat)
    requires j < 8 && shift == 4 * j && Nibble(v, j) != 0 && Quot(v, Pow16(j + 1)) == 0
    ensures Highest(v, shift)
  {
    assert shift / 4 == j;
    hide Nibble, Pow16, Quot;
  }

  lemma PlaceOf(v: nat, shift: int) returns (j: nat)
    requires Highest(v, shift)
    ensures j < 8 && shift == 4 * j && Nibble(v, j) != 0 && Quot(v, Pow16(j + 1)) == 0
  {
    j := shift / 4;
    hide Nibble, Pow16, Quot;
  }

  /** Find the first non-zero digit. */
  method FirstNibble(v: u32) returns (digit_shift: int)
    requires v > 0
    ensures Highest(v, digit_shift)
  {
    var w := ToWord(v);
    hide *;
    digit_shift := 28;
    ghost var j: nat := 7;
    AboveTop(v);
    AboveNone(v);
    FirstTest(v, 7);
    while Masked(w, digit_shift) == 0
      invariant j < 8 && digit_shift == 4 * j && Shift(digit_shift)
      invariant Quot(v, Pow16(j + 1)) == 0
      invariant Masked(w, digit_shift) == 0 <==> Nibble(v, j) == 0
      decreases j
    {
      ShiftStep(v, j);
      digit_shift := digit_shift - 4;
      j := j - 1;
      FirstTest(v, j);
    }
    HighestAt(v, digit_shift, j);
  }

  lemma FirstTest(v: u32, j: nat)
    requires j < 8
    ensures Shift(4 * j)
    ensures Masked(ToWord(v), 4 * j) == 0 <==> Nibble(v, j) == 0
  {
    ExtractIsDigit(v, j);
    hide Masked, Extract, ToWord;
  }

  lemma AboveTop(v: u32)
    ensures Quot(v, Pow16(8)) == 0
  {
  }

  lemma AboveNone(v: u32)
    ensures Quot(v, Pow16(0)) == v
  {
  }

  // ---- the loop ----

  ghost predicate Left(total: string, out: string, fmt: string, w: nat, args: seq<Arg>, a: nat) {
    && w <= |fmt| && a <= |args|
    && Suitable(Pieces(fmt[w..]), args[a..])
    && total == out + PiecesText(Pieces(fmt[w..]), args[a..])
  }

  lemma LeftPiece(total: string, out: string, fmt: string, w: nat, args: seq<Arg>, a: nat, p: Piece, w': nat)
    requires Left(total, out, fmt, w, args, a) && w' <= |fmt|
    requires Pieces(fmt[w..]) == [p] + Pieces(fmt[w'..])
    ensures Suits(p, args[a..])
    ensures Left(total, out + PieceText(p, args[a..]), fmt, w', args, if TakesOne(p) then a + 1 else a)
  {
    hide Pieces, PieceText;
    var ps, rest := Pieces(fmt[w..]), Pieces(fmt[w'..]);
    assert ps[0] == p && ps[1..] == rest;
    if TakesOne(p) {
      assert args[a..][1..] == args[a + 1..];
    }
  }

  /** One character or one directive. */
  method Next(fmt: string, w: nat, args: seq<Arg>, a: nat, ghost total: string, ghost out: string)
    returns (text: string, w': nat, a': nat, finished: bool)
    requires Left(total, out, fmt, w, args, a) && w < |fmt|
    ensures finished ==> out + text == total
    ensures !finished ==> w < w' <= |fmt| && Left(total, out + text, fmt, w', args, a')
  {
    var c := fmt[w];
    ghost var ps := Pieces(fmt[w..]);
    text, a', finished := "", a, false;
    if c != '%' {
      w' := w + 1;
      assert fmt[w..][1..] == fmt[w'..];
      LeftPiece(total, out, fmt, w, args, a, Copy(c), w');
      text := [c];
    } else if w + 1 == |fmt| {
      w' := w + 1;
      finished := true;
    } else {
      c := fmt[w + 1];
      w' := w + 2;
      assert fmt[w..][2..] == fmt[w'..] && fmt[w..][1] == c;
      LeftPiece(total, out, fmt, w, args, a, Letter(c), w');
      ArgsIn(total, out, fmt, w, args, a);
      hide Left, Pieces, Suitable, PiecesText, Digits.Text;
      if c == '%' {
        text := "%";
      } else if c == 'c' {
        text := [(args[a].w % 256) as char];
        a' := a + 1;
      } else if c == 'x' {
        text := HexDigits(args[a].w);
        a' := a + 1;
      } else if c == 's' {
        text := args[a].s;
        a' := a + 1;
      }
    }
  }

  lemma ArgsIn(total: string, out: string, fmt: string, w: nat, args: seq<Arg>, a: nat)
    requires Left(total, out, fmt, w, args, a)
    ensures a <= |args|
  {
  }

  /** alt_printf, for every format and every argument list that suits it. */
  method Printf(fmt: CString, args: seq<Arg>) returns (out: string)
    requires Suitable(Pieces(fmt), args)
    ensures out == PiecesText(Pieces(fmt), args)
  {
    ghost var total := PiecesText(Pieces(fmt), args);
    assert fmt[0..] == fmt && args[0..] == args;
    out := "";
    var w: nat, a: nat := 0, 0;
    assert Left(total, out, fmt, w, args, a);
    hide *;
    while w < |fmt|
      invariant w <= |fmt| && Left(total, out, fmt, w, args, a)
      decreases |fmt| - w
    {
      var text, w', a', finished := Next(fmt, w, args, a, total, out);
      out := out + text;
      if finished {
        return;
      }
      w, a := w', a';
    }
    NothingMore(total, out, fmt, w, args, a);
  }

  lemma NothingMore(total: string, out: string, fmt: string, w: nat, args: seq<Arg>, a: nat)
    requires Left(total, out, fmt, w, args, a) && w == |fmt|
    ensures out == total
  {
  }

  // ---- both printers ----

  lemma HexPiece(w: Arg)
    requires w.Word?
    ensures Suitable(Pieces("%x"), [w]) && PiecesText(Pieces("%x"), [w]) == Digits.Text(w.w, 16, false)
  {
    var fmt, args := "%x", [w];
    assert fmt[2..] == "" && Pieces("") == [] && Pieces(fmt) == [Letter('x')];
    assert args[1..] == [] && [Letter('x')][1..] == [];
    assert Digits.Text(w.w, 16, false) + "" == Digits.Text(w.w, 16, false);
  }

  lemma HexToken(w: Arg)
    requires w.Word?
    ensures Matching(Tokens("%x"), [w]) && Render(Tokens("%x"), [w]) == Digits.Text(w.w, 16, false)
  {
    var fmt, args, t := "%x", [w], Directive("", 'x');
    assert fmt[1..] == "x" && !IsSpec("x"[0]) && SpecRun("x") == 0;
    assert fmt[1..1] == "" && fmt[2..] == "" && Tokens("") == [];
    assert Tokens(fmt) == [t] && [t][1..] == [] && args[1..] == [];
    assert Width(AfterFlag("")) == -1;
    var digits := Digits.Text(w.w, 16, false);
    assert "" + "" + digits == digits && digits + "" == digits;
    assert RenderToken(t, args) == digits;
  }

  /** For every word both printers print the same for %x, though one shifts and masks and the other
      divides by descending powers. */
  method HexPrintersAgree(v: u32) returns (alt: string, log: string)
    ensures alt == log && Parse(alt, 16) == v
  {
    HexPiece(Word(v));
    HexToken(Word(v));
    TextRoundTrip(v, 16, false);
    hide *;
    alt := Printf("%x", [Word(v)]);
    log := PrivatePrintf("%x", [Word(v)]);
  }
}
