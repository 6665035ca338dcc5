/** Octets, 32-bit words and the little-endian layout both wire formats use. */
module Bytes {
  import opened Bits

  type Byte = b: int | 0 <= b < 256

  type Word = w: int | 0 <= w < 0x1_0000_0000

  datatype Option<+T> = None | Some(value: T)

  /** The `n` low octets of a number, least significant first. */
  function Octets(w: nat, n: nat): (s: seq<Byte>)
    ensures |s| == n
    decreases n
  {
    if n == 0 then [] else [w % 0x100] + Octets(w / 0x100, n - 1)
  }

  /** The number that octets spell, least significant first. */
  function Value(s: seq<Byte>): nat
  {
    if s == [] then 0 else s[0] + Value(s[1..]) * 0x100
  }

  function Power256(n: nat): nat
  {
    if n == 0 then 1 else Power256(n - 1) * 0x100
  }

  lemma {:induction false} ValueIsBounded(s: seq<Byte>)
    ensures Value(s) < Power256(|s|)
  {
    if s != [] {
      ValueIsBounded(s[1..]);
    }
  }

  lemma {:induction false} ValueInvertsOctets(w: nat, n: nat)
    requires w < Power256(n)
    ensures Value(Octets(w, n)) == w
    decreases n
  {
    if n > 0 {
      assert Octets(w, n)[1..] == Octets(w / 0x100, n - 1);
      ValueInvertsOctets(w / 0x100, n - 1);
    }
  }

  lemma {:induction false} OctetsInvertsValue(s: seq<Byte>)
    ensures Octets(Value(s), |s|) == s
  {
    if s != [] {
      OctetsInvertsValue(s[1..]);
      assert Value(s) % 0x100 == s[0] && Value(s) / 0x100 == Value(s[1..]);
    }
  }

  lemma WordIsFourOctets()
    ensures Power256(4) == 0x1_0000_0000
  {
    assert Power256(1) == 0x100 && Power256(2) == 0x1_0000 && Power256(3) == 0x100_0000;
  }

  /** The four octets of a word, least significant first. */
  function Le32(w: Word): (s: seq<Byte>)
    ensures |s| == 4
  {
    Octets(w, 4)
  }

  lemma OctetsSpelledOut(w: Word)
    ensures Le32(w) == [w % 0x100, w / 0x100 % 0x100, w / 0x100 / 0x100 % 0x100, w / 0x100 / 0x100 / 0x100 % 0x100]
  {
    assert Octets(w / 0x100 / 0x100, 2) == [w / 0x100 / 0x100 % 0x100, w / 0x100 / 0x100 / 0x100 % 0x100];
  }

  /** The C expression (uint8_t)((w >> shift) & 0xFF). */
  function OctetAt(w: Word, shift: nat): (b: Byte)
    ensures b == w / Power2(shift) % 0x100
  {
    Places();
    ShrIsQuotient(w, shift);
    AndLow(Shr(w, shift), 8);
    And(Shr(w, shift), 0xFF)
  }

  /** The layout: octet k of a word is its bits 8 k to 8 k + 7. */
  lemma Le32IsShifts(w: Word)
    ensures Le32(w) == [OctetAt(w, 0), OctetAt(w, 8), OctetAt(w, 16), OctetAt(w, 24)]
  {
    hide Le32, OctetAt, Power2;
    Places();
    OctetsSpelledOut(w);
    assert w / 0x100 / 0x100 == w / 0x1_0000 && w / 0x100 / 0x100 / 0x100 == w / 0x100_0000;
  }

  function FromLe32(s: seq<Byte>): Word
    requires |s| == 4
  {
    ValueIsBounded(s);
    WordIsFourOctets();
    Value(s)
  }

  lemma FromLe32InvertsLe32(w: Word)
    ensures FromLe32(Le32(w)) == w
  {
    WordIsFourOctets();
    ValueInvertsOctets(w, 4);
  }

  lemma Le32InvertsFromLe32(s: seq<Byte>)
    requires |s| == 4
    ensures Le32(FromLe32(s)) == s
  {
    OctetsInvertsValue(s);
  }

  /** The C expression p[0] | p[1] << 8 | p[2] << 16 | p[3] << 24. */
  function FromOctets(a: Byte, b: Byte, c: Byte, d: Byte): (w: Word)
    ensures w == FromLe32([a, b, c, d])
    ensures w == a + 0x100 * b + 0x1_0000 * c + 0x100_0000 * d
  {
    OctetsOred(a, b, c, d);
    Or(Or(Or(a, Shl(b, 8)), Shl(c, 16)), Shl(d, 24))
  }

  lemma OctetsOred(a: Byte, b: Byte, c: Byte, d: Byte)
    ensures var w := Or(Or(Or(a, Shl(b, 8)), Shl(c, 16)), Shl(d, 24));
      w == a + 0x100 * b + 0x1_0000 * c + 0x100_0000 * d == FromLe32([a, b, c, d])
  {
    hide Or, Shl, Power2;
    Places();
    ShlIsProduct(b, 8);
    ShlIsProduct(c, 16);
    ShlIsProduct(d, 24);
    OrAbove(a, b, 8);
    OrAbove(a + 0x100 * b, c, 16);
    OrAbove(a + 0x100 * b + 0x1_0000 * c, d, 24);
    OctetsSummed(a, b, c, d);
  }

  lemma OctetsSummed(a: Byte, b: Byte, c: Byte, d: Byte)
    ensures FromLe32([a, b, c, d]) == a + 0x100 * b + 0x1_0000 * c + 0x100_0000 * d
  {
    assert [a, b, c, d][1..] == [b, c, d] && [b, c, d][1..] == [c, d] && [c, d][1..] == [d] && [d][1..] == [];
    assert Value([d]) == d;
    assert Value([c, d]) == c + 0x100 * d;
    assert Value([b, c, d]) == b + 0x100 * Value([c, d]);
  }

  /** The C test (w & mask) != 0. */
  predicate HasBit(w: nat, mask: nat)
  {
    And(w, mask) != 0
  }

  /** For a mask of one digit: that digit is set. */
  lemma HasBitIsDigit(w: nat, k: nat)
    ensures HasBit(w, Power2(k)) <==> w / Power2(k) % 2 == 1
  {
    AndBit(w, k);
  }
}
