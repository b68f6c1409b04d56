/** The bit operations of C on unsigned numbers.

    They are defined bit by bit; the lemmas say what they amount to where the operands do not
    overlap or the mask is made of ones. */
module Bits {
  /** x | y. */
  function Or(x: nat, y: nat): nat
    decreases x + y
  {
    if x == 0 && y == 0 then 0 else (if x % 2 == 1 || y % 2 == 1 then 1 else 0) + 2 * Or(x / 2, y / 2)
  }

  /** x & y. */
  function And(x: nat, y: nat): nat
    decreases x + y
  {
    if x == 0 && y == 0 then 0 else (if x % 2 == 1 && y % 2 == 1 then 1 else 0) + 2 * And(x / 2, y / 2)
  }

  function Power2(k: nat): nat { if k == 0 then 1 else 2 * Power2(k - 1) }

  /** x << k. */
  function ShiftLeft(x: nat, k: nat): nat { if k == 0 then x else 2 * ShiftLeft(x, k - 1) }

  /** x >> k. */
  function ShiftRight(x: nat, k: nat): nat { if k == 0 then x else ShiftRight(x / 2, k - 1) }

  lemma {:induction false} OrZero(x: nat)
    ensures Or(x, 0) == x
  {
    if x > 0 { OrZero(x / 2); }
  }

  lemma {:induction false} OrCommutes(x: nat, y: nat)
    ensures Or(x, y) == Or(y, x)
    decreases x + y
  {
    if x > 0 || y > 0 { OrCommutes(x / 2, y / 2); }
  }

  lemma {:induction false} AndZero(x: nat)
    ensures And(x, 0) == 0
  {
    if x > 0 { AndZero(x / 2); }
  }

  /** A number whose last k bits are r and whose others are q, without its last bit. */
  lemma {:induction false} Halved(q: nat, r: nat, k: nat, j: nat) returns (x: nat, h: nat, b: nat)
    requires k == j + 1 && r < Power2(k)
    ensures h < Power2(j) && b < 2 && r == 2 * h + b
    ensures x == ShiftLeft(q, j) + h && ShiftLeft(q, k) + r == 2 * x + b
  {
    x, h, b := ShiftLeft(q, j) + r / 2, r / 2, r % 2;
  }

  /** Or works on the last k bits and on the others apart. */
  lemma {:induction false} OrSplit(q: nat, r: nat, s: nat, t: nat, k: nat)
    requires r < Power2(k) && t < Power2(k)
    ensures Or(ShiftLeft(q, k) + r, ShiftLeft(s, k) + t) == ShiftLeft(Or(q, s), k) + Or(r, t)
  {
    if k > 0 {
      var x, g, a := Halved(q, r, k, k - 1);
      var y, h, b := Halved(s, t, k, k - 1);
      OrSplit(q, g, s, h, k - 1);
      OrStep(x, a, y, b, 2 * x + a, 2 * y + b);
      OrStep(g, a, h, b, r, t);
    }
  }

  lemma {:induction false} OrStep(x: nat, a: nat, y: nat, b: nat, u: nat, v: nat)
    requires a < 2 && b < 2 && u == 2 * x + a && v == 2 * y + b
    ensures Or(u, v) == 2 * Or(x, y) + if a == 1 || b == 1 then 1 else 0
  {
    assert u / 2 == x && v / 2 == y;
  }

  /** And does likewise. */
  lemma {:induction false} AndSplit(q: nat, r: nat, s: nat, t: nat, k: nat)
    requires r < Power2(k) && t < Power2(k)
    ensures And(ShiftLeft(q, k) + r, ShiftLeft(s, k) + t) == ShiftLeft(And(q, s), k) + And(r, t)
  {
    AndOfSplit(q, r, s, t, k, And(ShiftLeft(q, k) + r, ShiftLeft(s, k) + t), And(q, s), And(r, t));
  }

  lemma {:induction false} AndOfSplit(q: nat, r: nat, s: nat, t: nat, k: nat, both: nat, high: nat, low: nat)
    requires r < Power2(k) && t < Power2(k)
    requires both == And(ShiftLeft(q, k) + r, ShiftLeft(s, k) + t) && high == And(q, s) && low == And(r, t)
    ensures both == ShiftLeft(high, k) + low
    decreases k
  {
    if k > 0 {
      var x, g, a := Halved(q, r, k, k - 1);
      var y, h, b := Halved(s, t, k, k - 1);
      AndOfSplit(q, g, s, h, k - 1, And(x, y), high, And(g, h));
      AndStep(x, a, y, b, 2 * x + a, 2 * y + b);
      AndStep(g, a, h, b, r, t);
    }
  }

  lemma {:induction false} AndStep(x: nat, a: nat, y: nat, b: nat, u: nat, v: nat)
    requires a < 2 && b < 2 && u == 2 * x + a && v == 2 * y + b
    ensures And(u, v) == 2 * And(x, y) + if a == 1 && b == 1 then 1 else 0
  {
    assert u / 2 == x && v / 2 == y;
  }

  /** Bits that do not overlap add up. */
  lemma {:induction false} OrDisjoint(x: nat, y: nat, k: nat)
    requires y < Power2(k)
    ensures Or(ShiftLeft(x, k), y) == ShiftLeft(x, k) + y
  {
    ShiftZero(k);
    OrSplit(x, 0, 0, y, k);
    OrZero(x);
    OrZero(y);
    OrCommutes(0, y);
  }

  lemma {:induction false} ShiftZero(k: nat)
    ensures ShiftLeft(0, k) == 0 && Power2(k) > 0
  {
    if k > 0 { ShiftZero(k - 1); }
  }

  /** A mask of ones keeps the last bits. */
  lemma {:induction false} AndOnes(q: nat, r: nat, k: nat)
    requires r < Power2(k)
    ensures And(ShiftLeft(q, k) + r, Power2(k) - 1) == r
  {
    ShiftZero(k);
    AndSplit(q, r, 0, Power2(k) - 1, k);
    AndZero(q);
    AllOnes(r, k);
  }

  lemma {:induction false} AllOnes(r: nat, k: nat)
    requires r < Power2(k)
    ensures And(r, Power2(k) - 1) == r
  {
    if k > 0 {
      ShiftZero(k - 1);
      AllOnes(r / 2, k - 1);
      AndStep(r / 2, r % 2, Power2(k - 1) - 1, 1, r, Power2(k) - 1);
    } else {
      AndZero(r);
    }
  }

  lemma {:induction false} Powers()
    ensures Power2(2) == 4 && Power2(3) == 8 && Power2(4) == 16 && Power2(5) == 32 && Power2(6) == 64
    ensures Power2(7) == 128 && Power2(8) == 256 && Power2(10) == 1024
  {
    assert Power2(3) == 8;
    assert Power2(5) == 4 * Power2(3);
    assert Power2(7) == 4 * Power2(5);
    assert Power2(9) == 4 * Power2(7);
  }

  lemma {:induction false} ShiftIs(x: nat)
    ensures ShiftLeft(x, 2) == 4 * x && ShiftLeft(x, 3) == 8 * x && ShiftLeft(x, 4) == 16 * x &&
            ShiftLeft(x, 5) == 32 * x
    ensures ShiftLeft(x, 6) == 64 * x && ShiftLeft(x, 7) == 128 * x && ShiftLeft(x, 8) == 256 * x &&
            ShiftLeft(x, 10) == 1024 * x
  {
    assert ShiftLeft(x, 1) == 2 * x;
    assert ShiftLeft(x, 3) == 4 * ShiftLeft(x, 1);
    assert ShiftLeft(x, 5) == 4 * ShiftLeft(x, 3);
    assert ShiftLeft(x, 7) == 4 * ShiftLeft(x, 5);
    assert ShiftLeft(x, 9) == 4 * ShiftLeft(x, 7);
  }

  lemma {:induction false} ShiftRightSix(x: nat)
    ensures ShiftRight(x, 6) == x / 64
  {
    var a, b, c := x / 4, x / 16, x / 64;
    assert ShiftRight(x, 6) == ShiftRight(x / 2, 5) == ShiftRight(x / 2 / 2, 4);
    assert x / 2 / 2 == a && a / 2 / 2 == b && b / 2 / 2 == c;
    assert ShiftRight(a, 4) == ShiftRight(a / 2, 3) == ShiftRight(a / 2 / 2, 2);
    assert ShiftRight(b, 2) == ShiftRight(b / 2, 1) == ShiftRight(b / 2 / 2, 0);
  }
}
