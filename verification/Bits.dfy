/**
 * The bitwise operators of the source on unsigned numbers of any width, digit by digit, and the
 * arithmetic they come to: what ties every mask and shift of the source to the quotients,
 * remainders and sums used here.
 */
module Bits {

  function And(a: nat, b: nat): nat
  {
    if a == 0 || b == 0 then 0 else (a % 2) * (b % 2) + 2 * And(a / 2, b / 2)
  }

  function Or(a: nat, b: nat): nat
  {
    if a == 0 then b else if b == 0 then a
    else (if a % 2 == 1 || b % 2 == 1 then 1 else 0) + 2 * Or(a / 2, b / 2)
  }

  function Power2(n: nat): (r: nat)
    ensures r > 0
  {
    if n == 0 then 1 else 2 * Power2(n - 1)
  }

  lemma {:induction false} PowerAdds(m: nat, n: nat)
    ensures Power2(m + n) == Power2(m) * Power2(n)
  {
    if m > 0 {
      PowerAdds(m - 1, n);
      var p, q := Power2(m - 1), Power2(n);
      assert 2 * (p * q) == (2 * p) * q;
    }
  }

  /** The places of the bits the source names. */
  lemma Places()
    ensures Power2(0) == 1 && Power2(3) == 0x8 && Power2(4) == 0x10 && Power2(7) == 0x80 && Power2(8) == 0x100
    ensures Power2(9) == 0x200 && Power2(10) == 0x400 && Power2(11) == 0x800 && Power2(12) == 0x1000
    ensures Power2(13) == 0x2000 && Power2(14) == 0x4000 && Power2(15) == 0x8000 && Power2(16) == 0x1_0000
    ensures Power2(18) == 0x4_0000 && Power2(24) == 0x100_0000
    ensures Power2(30) == 0x4000_0000 && Power2(31) == 0x8000_0000
  {
    assert Power2(1) == 2 && Power2(2) == 4 && Power2(3) == 8 && Power2(4) == 0x10;
    assert Power2(5) == 0x20 && Power2(6) == 0x40 && Power2(7) == 0x80 && Power2(8) == 0x100;
    PowerAdds(8, 1);
    PowerAdds(8, 2);
    PowerAdds(8, 3);
    PowerAdds(8, 4);
    PowerAdds(8, 5);
    PowerAdds(8, 6);
    PowerAdds(8, 7);
    PowerAdds(8, 8);
    PowerAdds(16, 2);
    PowerAdds(16, 8);
    PowerAdds(16, 14);
    PowerAdds(16, 15);
  }

  /** The C operator <<, where no digit is lost. */
  function Shl(a: nat, k: nat): nat
  {
    if k == 0 then a else 2 * Shl(a, k - 1)
  }

  /** The C operator >>. */
  function Shr(a: nat, k: nat): nat
  {
    if k == 0 then a else Shr(a / 2, k - 1)
  }

  // ---- shifting is multiplying and dividing --------------------------------------------

  lemma {:induction false} ShlIsProduct(a: nat, k: nat)
    ensures Shl(a, k) == a * Power2(k)
  {
    if k > 0 {
      ShlIsProduct(a, k - 1);
      assert 2 * (a * Power2(k - 1)) == a * (2 * Power2(k - 1));
    }
  }

  lemma Twice(p: nat, x: nat)
    requires x >= 1
    ensures x * p >= p
  {
    assert (x - 1) * p >= 0;
  }

  lemma QuotientIs(a: nat, d: nat, q: nat, r: nat)
    requires d > 0 && a == q * d + r && r < d
    ensures a / d == q && a % d == r
  {
    var q1, r1 := a / d, a % d;
    assert a == q1 * d + r1;
    assert (q - q1) * d == r1 - r;
    if q1 < q {
      Twice(d, q - q1);
    } else if q1 > q {
      Twice(d, q1 - q);
    }
  }

  /** Dividing by 2 and then by p is dividing by 2 p; the remainders fit together likewise. */
  lemma DivTwice(a: nat, p: nat)
    requires p > 0
    ensures a / 2 / p == a / (2 * p)
    ensures a % (2 * p) == a % 2 + 2 * (a / 2 % p)
  {
    var q, r := a / 2 / p, (a / 2) % p;
    assert a / 2 == q * p + r;
    assert a == q * (2 * p) + (2 * r + a % 2);
    QuotientIs(a, 2 * p, q, 2 * r + a % 2);
  }

  lemma {:induction false} ShrIsQuotient(a: nat, k: nat)
    ensures Shr(a, k) == a / Power2(k)
    decreases k
  {
    if k > 0 {
      ShrIsQuotient(a / 2, k - 1);
      DivTwice(a, Power2(k - 1));
    }
  }

  // ---- masking -------------------------------------------------------------------------

  /** A mask shifted left selects from what the same shift to the right leaves. */
  lemma {:induction false} AndShifted(a: nat, mask: nat, k: nat)
    ensures And(a, Shl(mask, k)) == Shl(And(Shr(a, k), mask), k)
    decreases k
  {
    if k > 0 {
      AndShifted(a / 2, mask, k - 1);
      ShlOfNothing(k);
    }
  }

  lemma {:induction false} ShlOfNothing(k: nat)
    ensures Shl(0, k) == 0 && Shr(0, k) == 0
  {
    if k > 0 {
      ShlOfNothing(k - 1);
    }
  }

  /** The mask of the `k` low digits is the remainder. */
  lemma {:induction false} AndLow(a: nat, k: nat)
    ensures And(a, Power2(k) - 1) == a % Power2(k)
    decreases k
  {
    if k > 0 {
      var p := Power2(k - 1);
      AndLow(a / 2, k - 1);
      DivTwice(a, p);
      assert (2 * p - 1) / 2 == p - 1 && (2 * p - 1) % 2 == 1;
    }
  }

  /** A mask of one digit tells that digit. */
  lemma AndBit(a: nat, k: nat)
    ensures And(a, Power2(k)) != 0 <==> a / Power2(k) % 2 == 1
  {
    AndShifted(a, 1, k);
    ShlIsProduct(1, k);
    ShrIsQuotient(a, k);
    var q := a / Power2(k);
    assert And(q / 2, 0) == 0 && And(q, 1) == q % 2;
    ShlIsProduct(q % 2, k);
    assert q % 2 == 0 || q % 2 == 1;
  }

  // ---- or-ing --------------------------------------------------------------------------

  /** Or-ing in digits above all those already there is adding them. */
  lemma {:induction false} OrAbove(low: nat, high: nat, k: nat)
    requires low < Power2(k)
    ensures Or(low, Shl(high, k)) == low + Shl(high, k)
    decreases k
  {
    if k > 0 {
      OrAbove(low / 2, high, k - 1);
    }
  }

  /** Or-ing in one digit sets it and leaves the others. */
  lemma {:induction false} OrBit(a: nat, k: nat)
    ensures Or(a, Power2(k)) == if a / Power2(k) % 2 == 1 then a else a + Power2(k)
    decreases k
  {
    if k == 0 {
      assert Or(a / 2, 0) == a / 2;
    } else {
      OrBit(a / 2, k - 1);
      DivTwice(a, Power2(k - 1));
    }
  }
}
