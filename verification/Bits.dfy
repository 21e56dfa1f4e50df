/** Unsigned machine words as natural numbers: powers of two, the bitwise operators the
    hardware and the flash memory use, and reflected Gray codes of any width. */
module Bits {

  function Pow2(n: nat): (p: nat)
    ensures p >= 1
  {
    if n == 0 then 1 else 2 * Pow2(n - 1)
  }

  /** Bitwise exclusive or. */
  function Xor(a: nat, b: nat): nat
    decreases a + b
  {
    if a == 0 && b == 0 then 0
    else 2 * Xor(a / 2, b / 2) + (if a % 2 != b % 2 then 1 else 0)
  }

  /** Bitwise and. */
  function And(a: nat, b: nat): nat
    decreases a + b
  {
    if a == 0 || b == 0 then 0
    else 2 * And(a / 2, b / 2) + (if a % 2 == 1 && b % 2 == 1 then 1 else 0)
  }

  /** Number of bit positions in which two words differ. */
  function Distance(a: nat, b: nat): nat
    decreases a + b
  {
    if a == 0 && b == 0 then 0
    else Distance(a / 2, b / 2) + (if a % 2 != b % 2 then 1 else 0)
  }

  /** Every bit of m is the bit of a or the bit of b in the same position. */
  predicate Mix(m: nat, a: nat, b: nat)
    decreases m + a + b
  {
    (m == 0 && a == 0 && b == 0) ||
    ((m % 2 == a % 2 || m % 2 == b % 2) && Mix(m / 2, a / 2, b / 2))
  }

  /** The reflected Gray code. */
  function Gray(x: nat): nat { Xor(x / 2, x) }

  /** The exclusive or of g, g >> 1, ..., g >> (n - 1). */
  function XorShifts(g: nat, n: nat): nat
  {
    if n == 0 then 0 else Xor(XorShifts(g, n - 1), Shift(g, n - 1))
  }

  /** Logical right shift. */
  function Shift(g: nat, n: nat): nat
  {
    if n == 0 then g else Shift(g / 2, n - 1)
  }

  /** A (p + 1)-bit word with its two top bits inverted and the others kept. */
  function FlipTop(p: nat, g: nat): nat
    requires p >= 1
  {
    if p == 1 then 3 - g % 4 else 2 * FlipTop(p - 1, g / 2) + g % 2
  }

  lemma {:induction false} AndOnes(n: nat, x: nat)
    requires x < Pow2(n)
    ensures And(Pow2(n) - 1, x) == x
  {
    if n > 0 { AndOnes(n - 1, x / 2); }
  }

  // ---- Mixes of close words -------------------------------------------------------------

  lemma {:induction false} MixOfEqual(m: nat, a: nat)
    requires Mix(m, a, a)
    ensures m == a
    decreases m + a
  {
    if m != 0 || a != 0 { MixOfEqual(m / 2, a / 2); }
  }

  lemma {:induction false} DistanceZero(a: nat, b: nat)
    ensures Distance(a, b) == 0 <==> a == b
    decreases a + b
  {
    if a != 0 || b != 0 { DistanceZero(a / 2, b / 2); }
  }

  /** Sampling a word while a single bit of it changes gives the old or the new word. */
  lemma {:induction false} MixOfNeighbours(m: nat, a: nat, b: nat)
    requires Distance(a, b) <= 1 && Mix(m, a, b)
    ensures m == a || m == b
    decreases m + a + b
  {
    if m != 0 || a != 0 || b != 0 {
      if a % 2 != b % 2 {
        DistanceZero(a / 2, b / 2);
        MixOfEqual(m / 2, a / 2);
      } else {
        MixOfNeighbours(m / 2, a / 2, b / 2);
      }
    }
  }

  // ---- Gray codes -----------------------------------------------------------------------

  lemma GrayHalf(x: nat)
    ensures Gray(x) / 2 == Gray(x / 2)
    ensures Gray(x) % 2 == if (x / 2) % 2 != x % 2 then 1 else 0
  {
  }

  lemma {:induction false} GrayInjective(x: nat, y: nat)
    ensures Gray(x) == Gray(y) <==> x == y
    decreases x + y
  {
    hide Gray, Xor;
    if x != 0 || y != 0 {
      GrayHalf(x); GrayHalf(y);
      GrayInjective(x / 2, y / 2);
    }
  }

  /** One increment of an n-bit counter, wrapping included, changes one bit of its Gray code. */
  lemma {:induction false} GrayNeighbours(n: nat, x: nat)
    requires n >= 1 && x < Pow2(n)
    ensures Distance(Gray(x), Gray((x + 1) % Pow2(n))) == 1
  {
    hide Gray, Distance;
    IncrementMod(x, Pow2(n));
    GrayNeighboursFlat(n, x);
  }

  lemma GrayNeighboursFlat(n: nat, x: nat)
    requires n >= 1 && x < Pow2(n)
    ensures Distance(Gray(x), Gray(if x + 1 < Pow2(n) then x + 1 else 0)) == 1
  {
    hide Distance;
    if x + 1 < Pow2(n) {
      GraySuccessor(x);
    } else {
      GrayOfOnes(n);
      DistanceOfPow2(n - 1);
      assert Gray(0) == 0;
    }
  }

  lemma {:induction false} GraySuccessor(x: nat)
    ensures Distance(Gray(x), Gray(x + 1)) == 1
  {
    hide Gray, Distance, Xor;
    if x % 2 == 0 {
      GrayStepEven(x / 2);
    } else {
      GrayStepOdd(x / 2);
      GraySuccessor(x / 2);
    }
  }

  lemma GrayStepEven(z: nat)
    ensures Distance(Gray(2 * z), Gray(2 * z + 1)) == 1
  {
    hide Gray, Distance, Xor;
    var p := if z % 2 == 1 then 1 else 0;
    GrayDouble(z, 0);
    GrayDouble(z, 1);
    DistanceZero(Gray(z), Gray(z));
    DistanceDouble(Gray(z), Gray(z), p, 1 - p);
  }

  lemma GrayStepOdd(z: nat)
    ensures Distance(Gray(2 * z + 1), Gray(2 * z + 2)) == Distance(Gray(z), Gray(z + 1))
  {
    hide Gray, Distance, Xor;
    var p := if z % 2 == 0 then 1 else 0;
    GrayDouble(z, 1);
    GrayDouble(z + 1, 0);
    DistanceDouble(Gray(z), Gray(z + 1), p, p);
  }

  lemma GrayDouble(z: nat, b: nat)
    requires b < 2
    ensures Gray(2 * z + b) == 2 * Gray(z) + (if z % 2 != b then 1 else 0)
  {
    hide Gray, Xor;
    var x := 2 * z + b;
    GrayHalf(x);
    Halves(x, z, b);
    Halves(Gray(x), Gray(x) / 2, Gray(x) % 2);
  }

  /** The quotient and the remainder by two. */
  lemma Halves(x: nat, h: nat, b: nat)
    requires b < 2
    ensures x == 2 * h + b <==> x / 2 == h && x % 2 == b
  {
  }

  lemma DistanceDouble(g: nat, h: nat, p: nat, q: nat)
    requires p < 2 && q < 2
    ensures Distance(2 * g + p, 2 * h + q) == Distance(g, h) + (if p != q then 1 else 0)
  {
    if g == 0 && h == 0 && p == 0 && q == 0 {
    } else {
      assert (2 * g + p) / 2 == g && (2 * h + q) / 2 == h;
    }
  }

  lemma {:induction false} GrayOfOnes(n: nat)
    requires n >= 1
    ensures Gray(Pow2(n) - 1) == Pow2(n - 1)
  {
    hide Gray, Xor;
    if n == 1 {
      GrayOfTwoBits();
    } else {
      var z := Pow2(n - 1) - 1;
      assert z == 2 * (Pow2(n - 2) - 1) + 1;
      GrayDouble(z, 1);
      GrayOfOnes(n - 1);
    }
  }

  lemma {:induction false} DistanceOfPow2(k: nat)
    ensures Distance(Pow2(k), 0) == 1
  {
    if k > 0 { DistanceOfPow2(k - 1); }
  }

  /** The shift-and-xor loop over all n bits inverts the Gray encoding of n-bit words. */
  lemma {:induction false} XorShiftsInvertsGray(n: nat, x: nat)
    requires x < Pow2(n)
    ensures XorShifts(Gray(x), n) == x
  {
    if n > 0 {
      GrayHalf(x);
      XorShiftsSplit(Gray(x), n);
      XorShiftsInvertsGray(n - 1, x / 2);
      XorHalves(Gray(x), x / 2);
      XorGray(x);
    }
  }

  lemma XorHalves(a: nat, b: nat)
    ensures Xor(a, b) % 2 == if a % 2 != b % 2 then 1 else 0
    ensures Xor(a, b) / 2 == Xor(a / 2, b / 2)
  {
  }

  lemma {:induction false} XorGray(x: nat)
    ensures Xor(Gray(x), x / 2) == x
  {
    if x > 0 {
      GrayHalf(x);
      XorHalves(Gray(x), x / 2);
      XorGray(x / 2);
    }
  }

  lemma {:induction false} XorAssoc(a: nat, b: nat, c: nat)
    ensures Xor(Xor(a, b), c) == Xor(a, Xor(b, c))
    decreases a + b + c
  {
    XorHalves(a, b); XorHalves(b, c); XorHalves(Xor(a, b), c); XorHalves(a, Xor(b, c));
    if a != 0 || b != 0 || c != 0 {
      XorAssoc(a / 2, b / 2, c / 2);
    }
  }

  lemma {:induction false} XorZero(a: nat)
    ensures Xor(a, 0) == a && Xor(0, a) == a
  {
    if a > 0 { XorZero(a / 2); }
  }

  /** Taking the first summand out of the loop leaves the same loop on g >> 1. */
  lemma {:induction false} XorShiftsSplit(g: nat, n: nat)
    requires n >= 1
    ensures XorShifts(g, n) == Xor(g, XorShifts(g / 2, n - 1))
  {
    if n == 1 {
      XorZero(g);
      assert XorShifts(g, 1) == Xor(XorShifts(g, 0), Shift(g, 0));
    } else {
      XorShiftsSplit(g, n - 1);
      XorAssoc(g, XorShifts(g / 2, n - 2), Shift(g, n - 1));
    }
  }

  /** Half a turn of a (p + 1)-bit counter inverts the two top bits of its Gray code. */
  lemma {:induction false} GrayHalfTurn(p: nat, x: nat)
    requires p >= 1 && x < 2 * Pow2(p)
    ensures Gray((x + Pow2(p)) % (2 * Pow2(p))) == FlipTop(p, Gray(x))
  {
    HalfTurn(x, Pow2(p));
    GrayHalfTurnFlat(p, x);
  }

  lemma {:induction false} GrayHalfTurnFlat(p: nat, x: nat)
    requires p >= 1 && x < 2 * Pow2(p)
    ensures Gray(if x < Pow2(p) then x + Pow2(p) else x - Pow2(p)) == FlipTop(p, Gray(x))
  {
    hide Gray, Xor;
    if p == 1 {
      GrayOfTwoBits();
      assert x == 0 || x == 1 || x == 2 || x == 3;
    } else {
      var h := Pow2(p - 1);
      assert h == 2 * Pow2(p - 2);
      GrayHalfTurnFlat(p - 1, x / 2);
      HalfTurnStep(x, Pow2(p - 2), FlipTop(p - 1, Gray(x / 2)));
      GrayHalf(x);
    }
  }

  lemma HalfTurnStep(x: nat, k: nat, g: nat)
    requires x < 8 * k
    requires Gray(if x / 2 < 2 * k then x / 2 + 2 * k else x / 2 - 2 * k) == g
    ensures Gray(if x < 4 * k then x + 4 * k else x - 4 * k) == 2 * g + Gray(x) % 2
  {
    hide Gray, Xor;
    var h, b := x / 2, x % 2;
    var z := if h < 2 * k then h + 2 * k else h - 2 * k;
    Halves(x, h, b);
    SameParity(h, k);
    GrayHalf(x);
    GrayDouble(z, b);
  }

  lemma SameParity(h: nat, k: nat)
    ensures (h + 2 * k) % 2 == h % 2 && (h >= 2 * k ==> (h - 2 * k) % 2 == h % 2)
  {
    var q, r := h / 2, h % 2;
    Halves(h, q, r);
    Halves(h + 2 * k, q + k, r);
    if h >= 2 * k { Halves(h - 2 * k, q - k, r); }
  }

  lemma GrayOfTwoBits()
    ensures Gray(0) == 0 && Gray(1) == 1 && Gray(2) == 3 && Gray(3) == 2
    ensures Pow2(1) == 2
  {
    GrayHalf(0); GrayHalf(1); GrayHalf(2); GrayHalf(3);
  }

  // ---- Wrap-around ----------------------------------------------------------------------

  lemma IncrementMod(x: nat, m: nat)
    requires x < m
    ensures (x + 1) % m == if x + 1 < m then x + 1 else 0
  {
    if x + 1 == m { ModUnique(m, m, 1, 0); } else { ModUnique(x + 1, m, 0, x + 1); }
  }

  lemma HalfTurn(x: nat, d: nat)
    requires x < 2 * d
    ensures (x + d) % (2 * d) == if x < d then x + d else x - d
  {
    if x < d { ModUnique(x + d, 2 * d, 0, x + d); } else { ModUnique(x + d, 2 * d, 1, x - d); }
  }

  lemma ModUnique(x: nat, m: nat, q: nat, r: nat)
    requires m >= 1 && r < m && x == q * m + r
    ensures x % m == r && x / m == q
  {
    var d := x / m - q;
    assert d * m == r - x % m;
    assert d >= 1 ==> d * m >= m;
    assert d <= -1 ==> d * m + m <= 0;
  }

  lemma ModSmall(a: nat, m: nat)
    requires a < m
    ensures a % m == a
  {
    ModUnique(a, m, 0, a);
  }

  lemma ModDown(a: nat, m: nat)
    requires 1 <= m <= a
    ensures a % m == (a - m) % m
  {
    var q, r := (a - m) / m, (a - m) % m;
    assert a - m == q * m + r;
    ModUnique(a, m, q + 1, r);
  }
}
