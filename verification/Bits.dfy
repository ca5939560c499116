/** Unbounded bitwise operators on naturals, read off bit by bit, and the arithmetic facts that
    the integer-only encodings of the tracer rest on. */
module Bits {

  function Pow2(n: nat): (p: nat)
    ensures p >= 1
  {
    if n == 0 then 1 else 2 * Pow2(n - 1)
  }

  /** The bit of weight 2^i. */
  function Bit(x: nat, i: nat): nat {
    if i == 0 then x % 2 else Bit(x / 2, i - 1)
  }

  function And(x: nat, y: nat): nat
    decreases y
  {
    if y == 0 then 0
    else (if x % 2 == 1 && y % 2 == 1 then 1 else 0) + 2 * And(x / 2, y / 2)
  }

  function Or(x: nat, y: nat): nat
    decreases x + y
  {
    if x == 0 && y == 0 then 0
    else (if x % 2 == 1 || y % 2 == 1 then 1 else 0) + 2 * Or(x / 2, y / 2)
  }

  function Xor(x: nat, y: nat): nat
    decreases x + y
  {
    if x == 0 && y == 0 then 0
    else (if x % 2 != y % 2 then 1 else 0) + 2 * Xor(x / 2, y / 2)
  }

  /** Complement within w bits. */
  function Not(x: nat, w: nat): nat {
    if w == 0 then 0 else (1 - x % 2) + 2 * Not(x / 2, w - 1)
  }

  /** Length of the block of ones at the low end of m. */
  function Ones(m: nat): nat {
    if m % 2 == 0 then 0 else 1 + Ones(m / 2)
  }

  /** x without its n low bits, its n low bits, and x moved up by n bits: division, remainder and
      multiplication by 2^n, one bit at a time (`HighIsDiv`, `LowIsMod`, `UpIsMul`). */
  function High(x: nat, n: nat): nat {
    if n == 0 then x else High(x / 2, n - 1)
  }

  function Low(x: nat, n: nat): nat {
    if n == 0 then 0 else x % 2 + 2 * Low(x / 2, n - 1)
  }

  function Up(x: nat, n: nat): nat {
    if n == 0 then x else 2 * Up(x, n - 1)
  }

  // ----- the operators are the pointwise ones

  lemma {:induction false} BitZero(i: nat)
    ensures Bit(0, i) == 0
  {
    if i > 0 { BitZero(i - 1); }
  }

  lemma {:induction false} AndBit(x: nat, y: nat, i: nat)
    ensures Bit(And(x, y), i) == if Bit(x, i) == 1 && Bit(y, i) == 1 then 1 else 0
    decreases i
  {
    if y == 0 {
      BitZero(i);
    } else if i > 0 {
      assert And(x, y) / 2 == And(x / 2, y / 2);
      AndBit(x / 2, y / 2, i - 1);
    }
  }

  lemma {:induction false} OrBit(x: nat, y: nat, i: nat)
    ensures Bit(Or(x, y), i) == if Bit(x, i) == 1 || Bit(y, i) == 1 then 1 else 0
    decreases i
  {
    if x == 0 && y == 0 {
      BitZero(i);
    } else if i > 0 {
      assert Or(x, y) / 2 == Or(x / 2, y / 2);
      OrBit(x / 2, y / 2, i - 1);
    }
  }

  lemma {:induction false} XorBit(x: nat, y: nat, i: nat)
    ensures Bit(Xor(x, y), i) == if Bit(x, i) != Bit(y, i) then 1 else 0
    decreases i
  {
    if x == 0 && y == 0 {
      BitZero(i);
    } else if i > 0 {
      assert Xor(x, y) / 2 == Xor(x / 2, y / 2);
      XorBit(x / 2, y / 2, i - 1);
    }
  }

  lemma {:induction false} NotBit(x: nat, w: nat, i: nat)
    ensures Bit(Not(x, w), i) == if i < w && Bit(x, i) == 0 then 1 else 0
    decreases i
  {
    if w == 0 {
      BitZero(i);
    } else if i > 0 {
      assert Not(x, w) / 2 == Not(x / 2, w - 1);
      NotBit(x / 2, w - 1, i - 1);
    }
  }

  // ----- division by powers of two

  lemma {:induction false} Pow2Mono(a: nat, b: nat)
    requires a <= b
    ensures Pow2(a) <= Pow2(b)
  {
    if a < b { Pow2Mono(a, b - 1); }
  }

  lemma {:induction false} SmallMultiple(k: int, d: int)
    requires -d < k * d < d
    ensures k == 0
  {
  }

  /** A quotient and remainder are determined by their defining equation. */
  lemma {:induction false} DivModUnique(x: int, d: int, q: int, r: int)
    requires d > 0 && x == q * d + r && 0 <= r < d
    ensures x / d == q && x % d == r
  {
    var q', r' := x / d, x % d;
    assert x == q' * d + r';
    assert (q' - q) * d == r - r';
    SmallMultiple(q' - q, d);
  }

  /** Cutting off one bit first and n more after it is cutting off n + 1. */
  lemma {:induction false} SplitLowBit(x: nat, p: nat)
    requires p > 0
    ensures x / 2 / p == x / (2 * p)
    ensures x % 2 + 2 * (x / 2 % p) == x % (2 * p)
  {
    var q, r := x / 2 / p, x / 2 % p;
    assert x / 2 == q * p + r;
    assert x == q * (2 * p) + (x % 2 + 2 * r) by {
      assert x == 2 * (x / 2) + x % 2;
    }
    DivModUnique(x, 2 * p, q, x % 2 + 2 * r);
  }

  lemma {:induction false} HighIsDiv(x: nat, n: nat)
    ensures High(x, n) == x / Pow2(n)
    decreases n
  {
    if n > 0 {
      HighIsDiv(x / 2, n - 1);
      SplitLowBit(x, Pow2(n - 1));
    }
  }

  lemma {:induction false} LowIsMod(x: nat, n: nat)
    ensures Low(x, n) == x % Pow2(n)
    decreases n
  {
    if n > 0 {
      LowIsMod(x / 2, n - 1);
      SplitLowBit(x, Pow2(n - 1));
    }
  }

  lemma {:induction false} UpIsMul(x: nat, n: nat)
    ensures Up(x, n) == x * Pow2(n)
    decreases n
  {
    if n > 0 { UpIsMul(x, n - 1); }
  }

  lemma {:induction false} HighTwice(x: nat, a: nat, b: nat)
    ensures High(High(x, a), b) == High(x, a + b)
    decreases a
  {
    if a > 0 { HighTwice(x / 2, a - 1, b); }
  }

  lemma {:induction false} LowBound(x: nat, n: nat)
    ensures Low(x, n) < Pow2(n)
    decreases n
  {
    if n > 0 { LowBound(x / 2, n - 1); }
  }

  lemma {:induction false} LowOfSmall(x: nat, n: nat)
    requires x < Pow2(n)
    ensures Low(x, n) == x
    decreases n
  {
    if n > 0 { LowOfSmall(x / 2, n - 1); }
  }

  /** Bits a .. a+L-1 of x, whether the cut above them is made before or after the one below. */
  lemma {:induction false} Window(x: nat, a: nat, L: nat)
    ensures Low(High(Low(x, a + L), a), L) == Low(High(x, a), L)
    decreases a + L
  {
    if a > 0 {
      assert Low(x, a + L) / 2 == Low(x / 2, a - 1 + L);
      Window(x / 2, a - 1, L);
    } else if L > 0 {
      assert Low(x, L) / 2 == Low(x / 2, L - 1) && Low(x, L) % 2 == x % 2;
      Window(x / 2, 0, L - 1);
    }
  }

  lemma {:induction false} UpTwice(x: nat, a: nat, b: nat)
    ensures Up(Up(x, a), b) == Up(x, a + b)
    decreases b
  {
    if b > 0 { UpTwice(x, a, b - 1); }
  }

  lemma {:induction false} UpAdd(x: nat, y: nat, n: nat)
    ensures Up(x + y, n) == Up(x, n) + Up(y, n)
    decreases n
  {
    if n > 0 { UpAdd(x, y, n - 1); }
  }

  // ----- identities between the operators

  lemma {:induction false} AndZeroLeft(y: nat)
    ensures And(0, y) == 0
    decreases y
  {
    if y > 0 { AndZeroLeft(y / 2); }
  }

  lemma {:induction false} AndBound(x: nat, y: nat)
    ensures And(x, y) <= y
    decreases y
  {
    if y > 0 { AndBound(x / 2, y / 2); }
  }

  lemma {:induction false} AndCommutes(x: nat, y: nat)
    ensures And(x, y) == And(y, x)
    decreases x + y
  {
    if x == 0 || y == 0 {
      AndZeroLeft(x + y);
    } else {
      AndCommutes(x / 2, y / 2);
    }
  }

  lemma {:induction false} OrCommutes(x: nat, y: nat)
    ensures Or(x, y) == Or(y, x)
    decreases x + y
  {
    if x != 0 || y != 0 { OrCommutes(x / 2, y / 2); }
  }

  lemma {:induction false} XorCommutes(x: nat, y: nat)
    ensures Xor(x, y) == Xor(y, x)
    decreases x + y
  {
    if x != 0 || y != 0 { XorCommutes(x / 2, y / 2); }
  }

  /** Masking with 2^w - 1 keeps exactly the low w bits. */
  lemma {:induction false} AndFull(x: nat, w: nat)
    ensures And(x, Pow2(w) - 1) == Low(x, w)
    decreases w
  {
    if w > 0 {
      assert (Pow2(w) - 1) / 2 == Pow2(w - 1) - 1;
      AndFull(x / 2, w - 1);
    }
  }

  /** Complement within w bits is subtraction from 2^w - 1. */
  lemma {:induction false} NotIsSubtraction(x: nat, w: nat)
    requires x < Pow2(w)
    ensures Not(x, w) == Pow2(w) - 1 - x
    decreases w
  {
    if w > 0 { NotIsSubtraction(x / 2, w - 1); }
  }

  /** Flipping every bit of a w-bit number is complement within w bits. */
  lemma {:induction false} XorFull(x: nat, w: nat)
    requires x < Pow2(w)
    ensures Xor(Pow2(w) - 1, x) == Not(x, w)
    decreases w
  {
    if w > 0 {
      assert (Pow2(w) - 1) / 2 == Pow2(w - 1) - 1;
      XorFull(x / 2, w - 1);
    }
  }

  /** Clearing the bits of y and adding y back is setting them. */
  lemma {:induction false} OrAsClearThenAdd(x: nat, y: nat, w: nat)
    requires x < Pow2(w) && y < Pow2(w)
    ensures And(x, Not(y, w)) + y == Or(x, y)
    decreases w
  {
    if w > 0 {
      OrAsClearThenAdd(x / 2, y / 2, w - 1);
      var n := Not(y, w);
      assert n / 2 == Not(y / 2, w - 1);
      assert n == 0 ==> And(x / 2, n / 2) == 0;
    }
  }

  lemma {:induction false} OrBound(x: nat, y: nat, w: nat)
    requires x < Pow2(w) && y < Pow2(w)
    ensures Or(x, y) < Pow2(w)
  {
    OrAsClearThenAdd(x, y, w);
    AndBound(x, Not(y, w));
    NotIsSubtraction(y, w);
  }

  /** Exclusive or is the sum of the two one-sided differences. */
  lemma {:induction false} XorAsTwoParts(x: nat, y: nat, w: nat)
    requires x < Pow2(w) && y < Pow2(w)
    ensures And(x, Not(y, w)) + And(Not(x, w), y) == Xor(x, y)
    ensures Xor(x, y) < Pow2(w)
    decreases w
  {
    if w > 0 {
      XorAsTwoParts(x / 2, y / 2, w - 1);
      var ny, nx := Not(y, w), Not(x, w);
      assert ny / 2 == Not(y / 2, w - 1) && nx / 2 == Not(x / 2, w - 1);
      assert ny == 0 ==> And(x / 2, ny / 2) == 0;
      assert y == 0 ==> And(nx / 2, y / 2) == 0;
    }
  }

  // ----- one run of ones

  /** Across its lowest run of ones a mask takes x's bits as they are. */
  lemma {:induction false} AndAcrossRun(x: nat, m: nat)
    ensures And(x, m) == Low(x, Ones(m)) + Up(And(High(x, Ones(m)), High(m, Ones(m))), Ones(m))
    decreases m
  {
    if m % 2 == 1 { AndAcrossRun(x / 2, m / 2); }
  }

  lemma {:induction false} HighShrinks(m: nat, n: nat)
    ensures High(m, n) <= m
    ensures m > 0 && n > 0 ==> High(m, n) < m
    decreases n
  {
    if n > 0 { HighShrinks(m / 2, n - 1); }
  }
}
