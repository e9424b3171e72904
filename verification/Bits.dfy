/** The bit operators of the source on non-negative integers, bit by bit. */
module Bits {
  function And(a: nat, b: nat): nat {
    if a == 0 || b == 0 then 0
    else 2 * And(a / 2, b / 2) + if a % 2 == 1 && b % 2 == 1 then 1 else 0
  }

  function Or(a: nat, b: nat): nat {
    if a == 0 then b
    else if b == 0 then a
    else 2 * Or(a / 2, b / 2) + if a % 2 == 1 || b % 2 == 1 then 1 else 0
  }

  function ShiftLeft(a: nat, k: nat): nat {
    if k == 0 then a else 2 * ShiftLeft(a, k - 1)
  }

  function ShiftRight(a: nat, k: nat): nat {
    if k == 0 then a else ShiftRight(a, k - 1) / 2
  }

  function Pow2(k: nat): (p: nat)
    ensures p > 0
  {
    if k == 0 then 1 else 2 * Pow2(k - 1)
  }

  lemma AtLeast(d: nat, e: int)
    requires e >= 1
    ensures d * e >= d
  {
    assert d * (e - 1) >= 0;
  }

  lemma Remainder(a: nat, d: nat, q: int, r: nat)
    requires r < d && a == d * q + r
    ensures a / d == q && a % d == r
  {
    var e := q - a / d;
    assert a == d * (a / d) + a % d;
    assert d * e == a % d - r;
    if e >= 1 {
      AtLeast(d, e);
    } else if e <= -1 {
      AtLeast(d, -e);
    }
  }

  lemma RemainderOfHalf(a: nat, p: nat)
    requires p > 0
    ensures a / (2 * p) == a / 2 / p && a % (2 * p) == 2 * (a / 2 % p) + a % 2
  {
    var h := a / 2;
    var q, r := h / p, h % p;
    assert h == p * q + r;
    assert 2 * (p * q) == 2 * p * q;
    Remainder(a, 2 * p, q, 2 * r + a % 2);
  }

  lemma HalfOfRemainder(a: nat, p: nat)
    requires p > 0
    ensures a / p / 2 == a / (2 * p)
  {
    var q, r := a / p, a % p;
    var h := q / 2;
    assert a == p * q + r;
    if q == 2 * h {
      assert p * q == 2 * p * h;
      Remainder(a, 2 * p, h, r);
    } else {
      assert p * q == p * (2 * h + 1) == 2 * p * h + p;
      Remainder(a, 2 * p, h, p + r);
    }
  }

  /** Masking with k ones is the remainder modulo 2^k. */
  lemma {:induction false} MaskIsRemainder(a: nat, k: nat)
    ensures And(a, Pow2(k) - 1) == a % Pow2(k)
  {
    hide And, Pow2;
    if k == 0 {
      MaskNothing(a);
    } else {
      MaskIsRemainder(a / 2, k - 1);
      MaskStep(a, Pow2(k - 1));
      PowerStep(k);
    }
  }

  lemma MaskNothing(a: nat)
    ensures Pow2(0) == 1 && And(a, 0) == 0
  {
  }

  lemma PowerStep(k: nat)
    requires k > 0
    ensures Pow2(k) == 2 * Pow2(k - 1)
  {
  }

  lemma LowestBits(a: nat, b: nat)
    ensures And(a, b) == 2 * And(a / 2, b / 2) + if a % 2 == 1 && b % 2 == 1 then 1 else 0
    ensures Or(a, b) == 2 * Or(a / 2, b / 2) + if a % 2 == 1 || b % 2 == 1 then 1 else 0
  {
  }

  lemma MaskStep(a: nat, p: nat)
    requires p > 0 && And(a / 2, p - 1) == a / 2 % p
    ensures And(a, 2 * p - 1) == a % (2 * p)
  {
    hide And, Or;
    RemainderOfHalf(a, p);
    LowestBits(a, 2 * p - 1);
    assert (2 * p - 1) / 2 == p - 1 && (2 * p - 1) % 2 == 1;
  }

  /** Filling the k low zeros of a number adds. */
  lemma {:induction false} OrIsSum(a: nat, b: nat, k: nat)
    requires b < Pow2(k)
    ensures Or(a * Pow2(k), b) == a * Pow2(k) + b
  {
    if k == 0 || b == 0 {
    } else {
      OrIsSum(a, b / 2, k - 1);
      OrStep(a, b, Pow2(k - 1));
    }
  }

  lemma OrStep(a: nat, b: nat, p: nat)
    requires Or(a * p, b / 2) == a * p + b / 2
    ensures Or(a * (2 * p), b) == a * (2 * p) + b
  {
    hide And, Or;
    var high := a * p;
    assert a * (2 * p) == 2 * high;
    LowestBits(2 * high, b);
  }

  lemma {:induction false} ShiftsAreProducts(a: nat, k: nat)
    ensures ShiftLeft(a, k) == a * Pow2(k)
    ensures ShiftRight(a, k) == a / Pow2(k)
  {
    if k == 0 {
    } else {
      ShiftsAreProducts(a, k - 1);
      PowerStep(k);
      hide Pow2;
      HalfOfRemainder(a, Pow2(k - 1));
      Doubled(a, Pow2(k - 1));
    }
  }

  lemma Doubled(a: nat, p: nat)
    ensures 2 * (a * p) == a * (2 * p)
  {
  }

  /** A single bit: it is set exactly if the number above it is odd. */
  lemma {:induction false} SingleBit(a: nat, k: nat)
    ensures And(a, Pow2(k)) == if a / Pow2(k) % 2 == 1 then Pow2(k) else 0
  {
    if a == 0 {
      Remainder(0, Pow2(k), 0, 0);
    } else if k == 0 {
      assert And(a / 2, 0) == 0;
    } else {
      SingleBit(a / 2, k - 1);
      RemainderOfHalf(a, Pow2(k - 1));
    }
  }

  lemma Powers()
    ensures Pow2(1) == 2 && Pow2(2) == 4 && Pow2(4) == 16 && Pow2(6) == 64 && Pow2(7) == 128 && Pow2(8) == 256
  {
    assert Pow2(4) == 4 * Pow2(2);
    assert Pow2(6) == 4 * Pow2(4);
  }
}
