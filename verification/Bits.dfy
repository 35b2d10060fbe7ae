/** Numbers as bit patterns of a given width, and the machine operators on them. */
module Bits {

  function Pow2(w: nat): (p: nat)
    ensures p > 0
  {
    if w == 0 then 1 else 2 * Pow2(w - 1)
  }

  function And(w: nat, x: nat, y: nat): (r: nat)
    requires x < Pow2(w) && y < Pow2(w)
    ensures r < Pow2(w)
  {
    if w == 0 then 0 else 2 * And(w - 1, x / 2, y / 2) + if x % 2 == 1 && y % 2 == 1 then 1 else 0
  }

  function Or(w: nat, x: nat, y: nat): (r: nat)
    requires x < Pow2(w) && y < Pow2(w)
    ensures r < Pow2(w)
  {
    if w == 0 then 0 else 2 * Or(w - 1, x / 2, y / 2) + if x % 2 == 1 || y % 2 == 1 then 1 else 0
  }

  function Xor(w: nat, x: nat, y: nat): (r: nat)
    requires x < Pow2(w) && y < Pow2(w)
    ensures r < Pow2(w)
  {
    if w == 0 then 0 else 2 * Xor(w - 1, x / 2, y / 2) + if x % 2 != y % 2 then 1 else 0
  }

  function Not(w: nat, x: nat): (r: nat)
    requires x < Pow2(w)
    ensures r < Pow2(w)
  {
    if w == 0 then 0 else 2 * Not(w - 1, x / 2) + 1 - x % 2
  }

  lemma AndBit(w: nat, x: nat, y: nat)
    requires w > 0 && x < Pow2(w) && y < Pow2(w)
    ensures And(w, x, y) / 2 == And(w - 1, x / 2, y / 2)
    ensures And(w, x, y) % 2 == 1 <==> x % 2 == 1 && y % 2 == 1
  {
  }

  lemma OrBit(w: nat, x: nat, y: nat)
    requires w > 0 && x < Pow2(w) && y < Pow2(w)
    ensures Or(w, x, y) / 2 == Or(w - 1, x / 2, y / 2)
    ensures Or(w, x, y) % 2 == 1 <==> x % 2 == 1 || y % 2 == 1
  {
  }

  lemma XorBit(w: nat, x: nat, y: nat)
    requires w > 0 && x < Pow2(w) && y < Pow2(w)
    ensures Xor(w, x, y) / 2 == Xor(w - 1, x / 2, y / 2)
    ensures Xor(w, x, y) % 2 == 1 <==> x % 2 != y % 2
  {
  }

  lemma NotBit(w: nat, x: nat)
    requires w > 0 && x < Pow2(w)
    ensures Not(w, x) / 2 == Not(w - 1, x / 2)
    ensures Not(w, x) % 2 == 1 <==> x % 2 == 0
  {
  }

  /** The choice of c or d by the bits of b, written with one operator less. */
  lemma {:induction false} XorSelects(w: nat, b: nat, c: nat, d: nat)
    requires b < Pow2(w) && c < Pow2(w) && d < Pow2(w)
    ensures Xor(w, d, And(w, b, Xor(w, c, d))) == Or(w, And(w, b, c), And(w, Not(w, b), d))
  {
    if w > 0 {
      var x, y, n := Xor(w, c, d), And(w, b, c), Not(w, b);
      var z, v := And(w, b, x), And(w, n, d);
      XorBit(w, c, d);
      AndBit(w, b, c);
      NotBit(w, b);
      AndBit(w, b, x);
      AndBit(w, n, d);
      XorBit(w, d, z);
      OrBit(w, y, v);
      XorSelects(w - 1, b / 2, c / 2, d / 2);
      SameParts(Xor(w, d, z), Or(w, y, v));
    }
  }

  lemma SameParts(x: nat, y: nat)
    requires x / 2 == y / 2 && (x % 2 == 1 <==> y % 2 == 1)
    ensures x == y
  {
  }

  lemma {:induction false} AndCommutes(w: nat, x: nat, y: nat)
    requires x < Pow2(w) && y < Pow2(w)
    ensures And(w, x, y) == And(w, y, x)
  {
    if w > 0 {
      AndCommutes(w - 1, x / 2, y / 2);
    }
  }

  // Products, one fact at a time.
  lemma Distribute(x: int, y: int, p: int)
    ensures (x + y) * p == x * p + y * p
  {
  }

  lemma Ordered(x: nat, y: nat, p: nat)
    requires x <= y
    ensures x * p <= y * p
  {
  }

  lemma Twice(x: int, p: int)
    ensures x * (2 * p) == 2 * (x * p) && (2 * x) * p == 2 * (x * p)
  {
  }

  lemma {:induction false} Pow2Sum(v: nat, w: nat)
    ensures Pow2(v + w) == Pow2(v) * Pow2(w)
  {
    if v > 0 {
      Pow2Sum(v - 1, w);
      Twice(Pow2(v - 1), Pow2(w));
    }
  }

  lemma {:induction false} OrZero(w: nat, x: nat)
    requires x < Pow2(w)
    ensures Or(w, x, 0) == x
  {
    if w > 0 {
      OrZero(w - 1, x / 2);
    }
  }

  /** Where the operands share no bit, | is addition. */
  lemma {:induction false} OrDisjoint(w: nat, s: nat, high: nat, low: nat)
    requires s <= w && low < Pow2(s) && high * Pow2(s) + low < Pow2(w)
    requires high * Pow2(s) < Pow2(w) && low < Pow2(w)
    ensures Or(w, high * Pow2(s), low) == high * Pow2(s) + low
  {
    if s == 0 {
      OrZero(w, high);
    } else {
      var h := high * Pow2(s - 1);
      Twice(high, Pow2(s - 1));
      OrDisjoint(w - 1, s - 1, high, low / 2);
    }
  }
}
