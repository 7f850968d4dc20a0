/** Positional notation: what the digits of a number are, independently of how either printer
    finds them. */
module Digits {
  import opened Division

  type Base = b: nat | 2 <= b <= 16 witness 10

  // ---- digits ----

  ghost function Pow(b: nat, e: nat): nat {
    if e == 0 then 1 else b * Pow(b, e - 1)
  }

  /** The digits of v, most significant first, without superfluous zeros. */
  function Of(v: nat, b: Base): (ds: seq<nat>)
    ensures |ds| > 0
    ensures forall i :: 0 <= i < |ds| ==> ds[i] < b
  {
    if v < b then [v]
    else
      QuotSmaller(v, b);
      DivMod(v, b);
      Of(Quot(v, b), b) + [Rem(v, b)]
  }

  /** The number a digit string stands for. */
  function Value(ds: seq<nat>, b: Base): nat {
    if ds == [] then 0 else Value(ds[..|ds| - 1], b) * b + ds[|ds| - 1]
  }

  lemma ValueStep(ds: seq<nat>, d: nat, b: Base)
    ensures Value(ds + [d], b) == Value(ds, b) * b + d
  {
  }

  lemma {:induction false} RoundTrip(v: nat, b: Base)
    ensures Value(Of(v, b), b) == v
  {
    if v >= b {
      var q, r := Quot(v, b), Rem(v, b);
      QuotSmaller(v, b);
      DivMod(v, b);
      hide Quot, Rem, Value;
      RoundTrip(q, b);
      ValueStep(Of(q, b), r, b);
    } else {
      assert [v][..0] == [];
    }
  }

  lemma {:induction false} NoLeadingZero(v: nat, b: Base)
    ensures Of(v, b)[0] == 0 ==> Of(v, b) == [0] && v == 0
  {
    if v >= b {
      QuotSmaller(v, b);
      QuotZero(v, b);
      hide Quot, Rem;
      NoLeadingZero(Quot(v, b), b);
    }
  }

  /** Fewest digits: |Of(v)| = n exactly when b^(n-1) <= v < b^n, zero taking one digit. */
  lemma {:induction false} Length(v: nat, b: Base)
    ensures var n := |Of(v, b)|;
      v < Pow(b, n) && (v > 0 ==> Pow(b, n - 1) <= v)
  {
    if v >= b {
      var q, n := Quot(v, b), |Of(Quot(v, b), b)|;
      QuotSmaller(v, b);
      QuotZero(v, b);
      DivMod(v, b);
      hide Quot, Rem;
      Length(q, b);
      LengthStep(v, b, q, Rem(v, b), Pow(b, n), Pow(b, n - 1));
    } else {
      assert Pow(b, 1) == b * Pow(b, 0);
    }
  }

  lemma LengthStep(v: nat, b: nat, q: nat, r: nat, hi: nat, lo: nat)
    requires v == q * b + r && r < b && lo <= q < hi
    ensures v < b * hi && b * lo <= v
  {
    Spread(hi, q, b);
    Spread(q, lo, b);
    assert (q - lo) * b >= 0;
  }

  // ---- printing from the top ----

  lemma Below(d: nat, s: nat, p: nat, b: nat)
    requires d * p + s < p * b
    ensures d < b
  {
  }

  lemma Regroup(q: nat, p: nat, b: nat, d: nat, s: nat)
    ensures q * (p * b) + (d * p + s) == (q * b + d) * p + s
  {
  }

  /** The digit of v at place value p is the leading digit of what is left below p * b. */
  lemma DigitAt(v: nat, b: Base, p: nat, m: nat)
    requires p > 0 && m == p * b && m > 0
    ensures var w := Rem(v, m);
      && Quot(w, p) < b
      && Quot(v, p) == Quot(v, m) * b + Quot(w, p)
      && Rem(w, p) == Rem(v, p)
  {
    hide Quot, Rem;
    var q, w := Quot(v, m), Rem(v, m);
    DivMod(v, m);
    var d, s := Quot(w, p), Rem(w, p);
    DivMod(w, p);
    Below(d, s, p, b);
    Regroup(q, p, b, d, s);
    DivUnique(v, p, q * b + d, s);
  }

  /** Appending the next digit from the top. */
  lemma OfStep(v: nat, b: Base, q: nat, d: nat)
    requires d < b && v == q * b + d && q > 0
    ensures Of(v, b) == Of(q, b) + [d]
  {
    Spread(q, 0, b);
    DivUnique(v, b, q, d);
    hide Quot, Rem;
  }

  function DigitChar(d: nat, upper: bool): char
    requires d < 16
  {
    if d < 10 then ('0' as int + d) as char
    else ((if upper then 'A' as int else 'a' as int) + d - 10) as char
  }

  /** The digit a character stands for. */
  function CharDigit(c: char): nat {
    if '0' <= c <= '9' then c as int - '0' as int
    else if 'A' <= c <= 'F' then c as int - 'A' as int + 10
    else if 'a' <= c <= 'f' then c as int - 'a' as int + 10
    else 0
  }

  function Chars(ds: seq<nat>, upper: bool): (s: string)
    requires forall i :: 0 <= i < |ds| ==> ds[i] < 16
    ensures |s| == |ds|
  {
    seq(|ds|, i requires 0 <= i < |ds| => DigitChar(ds[i], upper))
  }

  function Text(v: nat, b: Base, upper: bool): string {
    Chars(Of(v, b), upper)
  }

  function Parse(s: string, b: Base): nat {
    Value(seq(|s|, i requires 0 <= i < |s| => CharDigit(s[i])), b)
  }

  lemma TextRoundTrip(v: nat, b: Base, upper: bool)
    ensures Parse(Text(v, b, upper), b) == v
  {
    var s := Text(v, b, upper);
    assert seq(|s|, i requires 0 <= i < |s| => CharDigit(s[i])) == Of(v, b);
    RoundTrip(v, b);
  }
}
