/** Machine words as bit patterns and as numbers. */
module BitWords {

  function HexBits(d: nat): (h: bv32)
    requires d < 16
    ensures h & 15 == h && (h == 0 <==> d == 0)
  {
    match d
    case 0 => 0 case 1 => 1 case 2 => 2 case 3 => 3
    case 4 => 4 case 5 => 5 case 6 => 6 case 7 => 7
    case 8 => 8 case 9 => 9 case 10 => 10 case 11 => 11
    case 12 => 12 case 13 => 13 case 14 => 14 case _ => 15
  }

  lemma HexBitsBack(d: nat)
    requires d < 16
    ensures HexBits(d) as nat == d
  {
  }

  function Bit(b: bool): bv32 { if b then 1 else 0 }

  function Num(b: bool): nat { if b then 1 else 0 }

  lemma AppendZero(x: bv32)
    requires x <= 0x7FFF_FFFF
    ensures (x << 1) as nat == x as nat * 2
  {
  }

  lemma AppendOne(x: bv32)
    requires x <= 0x7FFF_FFFF
    ensures ((x << 1) | 1) as nat == x as nat * 2 + 1
  {
  }

  function ToNat(x: bv32): nat { x as nat }

  function Longer(x: bv32, b: bool): bv32 { (x << 1) | Bit(b) }

  lemma AppendBit(x: bv32, b: bool)
    requires x <= 0x7FFF_FFFF
    ensures ToNat(Longer(x, b)) == ToNat(x) * 2 + Num(b)
  {
    LongerIs(x);
    hide Longer;
    if b {
      AppendOne(x);
    } else {
      AppendZero(x);
    }
  }

  lemma LongerIs(x: bv32)
    ensures Longer(x, true) == (x << 1) | 1 && Longer(x, false) == x << 1
  {
  }

  lemma LongerFits(x: bv32, b: bool)
    ensures x <= 0x0FFF_FFFF ==> Longer(x, b) <= 0x1FFF_FFFF
    ensures x <= 0x1FFF_FFFF ==> Longer(x, b) <= 0x3FFF_FFFF
    ensures x <= 0x3FFF_FFFF ==> Longer(x, b) <= 0x7FFF_FFFF
  {
  }

  function Four(a: bool, b: bool, c: bool, e: bool): bv32 {
    Longer(Longer(Longer(Bit(a), b), c), e)
  }

  lemma FourBitsOf(x: bv32, a: bool, b: bool, c: bool, e: bool)
    ensures (x << 4) | Four(a, b, c, e) == Longer(Longer(Longer(Longer(x, a), b), c), e)
  {
  }

  lemma HexBitsAre(d: nat)
    requires d < 16
    ensures HexBits(d) == Four(d >= 8, d % 8 >= 4, d % 4 >= 2, d % 2 >= 1)
    ensures d == 8 * Num(d >= 8) + 4 * Num(d % 8 >= 4) + 2 * Num(d % 4 >= 2) + Num(d % 2 >= 1)
  {
  }

  /** A nibble is four bits. */
  lemma FourBits(x: bv32, d: nat)
    requires d < 16
    ensures (x << 4) | HexBits(d) ==
      Longer(Longer(Longer(Longer(x, d >= 8), d % 8 >= 4), d % 4 >= 2), d % 2 >= 1)
    ensures d == 8 * Num(d >= 8) + 4 * Num(d % 8 >= 4) + 2 * Num(d % 4 >= 2) + Num(d % 2 >= 1)
  {
    HexBitsAre(d);
    FourBitsOf(x, d >= 8, d % 8 >= 4, d % 4 >= 2, d % 2 >= 1);
    hide Longer, Four, HexBits, Num;
  }

  lemma AppendFour(x: bv32, a: bool, b: bool, c: bool, e: bool)
    requires x <= 0x0FFF_FFFF
    ensures ToNat(Longer(Longer(Longer(Longer(x, a), b), c), e)) ==
      ToNat(x) * 16 + 8 * Num(a) + 4 * Num(b) + 2 * Num(c) + Num(e)
  {
    LongerFits(x, a);
    LongerFits(Longer(x, a), b);
    LongerFits(Longer(Longer(x, a), b), c);
    hide Longer, ToNat, Num, Bit;
    AppendBit(x, a);
    AppendBit(Longer(x, a), b);
    AppendBit(Longer(Longer(x, a), b), c);
    AppendBit(Longer(Longer(Longer(x, a), b), c), e);
  }

  function WithNibble(x: bv32, d: nat): bv32
    requires d < 16
  {
    (x << 4) | HexBits(d)
  }

  lemma AppendNibbleTo(x: bv32, d: nat)
    requires x <= 0x0FFF_FFFF && d < 16
    ensures ToNat((x << 4) | HexBits(d)) == ToNat(x) * 16 + d
  {
    FourBits(x, d);
    hide *;
    AppendFour(x, d >= 8, d % 8 >= 4, d % 4 >= 2, d % 2 >= 1);
  }

  /** Appending a nibble to a word that has room for it. */
  lemma AppendNibble(x: bv32, d: nat)
    requires ToNat(x) <= 0x0FFF_FFFF && d < 16
    ensures ToNat(WithNibble(x, d)) == ToNat(x) * 16 + d
  {
    Fits28(x);
    AppendNibbleTo(x, d);
    hide ToNat, HexBits;
  }

  lemma Fits28(x: bv32)
    requires ToNat(x) <= 0x0FFF_FFFF
    ensures x <= 0x0FFF_FFFF
  {
  }

  /** The machine word of a number. */
  function ToWord(v: nat): bv32
    requires v < 0x1_0000_0000
  {
    v as bv32
  }

  lemma WordOfNat(v: nat, x: bv32)
    requires v < 0x1_0000_0000 && ToNat(x) == v
    ensures ToWord(v) == x
  {
  }
}
