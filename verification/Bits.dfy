/** Bitwise operations on unsigned numbers of any width. */
module Bits {
  import opened Arithmetic

  type byte = x: nat | x < 256

  function Pow2(k: nat): (p: nat)
    ensures p > 0
  {
    if k == 0 then 1 else 2 * Pow2(k - 1)
  }

  /** The powers the sources spell out. */
  lemma Powers()
    ensures Pow2(1) == 2 && Pow2(2) == 4 && Pow2(3) == 8 && Pow2(4) == 16 && Pow2(5) == 32 && Pow2(6) == 64
    ensures Pow2(8) == 0x100 && Pow2(9) == 0x200 && Pow2(10) == 0x400 && Pow2(12) == 0x1000
    ensures Pow2(16) == 0x1_0000 && Pow2(30) == 0x4000_0000 && Pow2(32) == 0x1_0000_0000
  {
    assert Pow2(7) == 0x80 && Pow2(11) == 0x800 && Pow2(14) == 0x4000;
    assert Pow2(18) == 0x4_0000 && Pow2(20) == 0x10_0000 && Pow2(22) == 0x40_0000 && Pow2(24) == 0x100_0000;
    assert Pow2(26) == 0x400_0000 && Pow2(28) == 0x1000_0000;
  }

  lemma {:induction false} Pow2Monotone(i: nat, j: nat)
    requires i <= j
    ensures Pow2(i) <= Pow2(j)
  {
    if i < j {
      Pow2Monotone(i, j - 1);
    }
  }

  /** Bitwise or, bit by bit from the lowest. */
  function Or(x: nat, y: nat): nat
    decreases x + y
  {
    if x == 0 || y == 0 then x + y
    else 2 * Or(x / 2, y / 2) + (if x % 2 == 1 || y % 2 == 1 then 1 else 0)
  }

  /** Or of numbers without a common bit is their sum. */
  lemma {:induction false} OrDisjoint(x: nat, v: nat, k: nat)
    requires x < Pow2(k)
    ensures Or(x, v * Pow2(k)) == x + v * Pow2(k)
    decreases k
  {
    var y := v * Pow2(k);
    if k != 0 && x != 0 && y != 0 {
      assert y == 2 * (v * Pow2(k - 1));
      OrDisjoint(x / 2, v, k - 1);
    }
  }

  lemma OrNothing(x: nat)
    ensures Or(x, 0) == x
  {}

  lemma OrCommutes(x: nat, y: nat)
    ensures Or(x, y) == Or(y, x)
    decreases x + y
  {
    if x != 0 && y != 0 {
      OrCommutes(x / 2, y / 2);
    }
  }

  /** Bitwise and. */
  function And(x: nat, y: nat): nat
    decreases x + y
  {
    if x == 0 || y == 0 then 0
    else 2 * And(x / 2, y / 2) + (if x % 2 == 1 && y % 2 == 1 then 1 else 0)
  }

  lemma AndCommutes(x: nat, y: nat)
    ensures And(x, y) == And(y, x)
    decreases x + y
  {
    if x != 0 && y != 0 {
      AndCommutes(x / 2, y / 2);
    }
  }

  lemma OrStep(x: nat, y: nat)
    ensures Or(x, y) / 2 == Or(x / 2, y / 2)
    ensures Or(x, y) % 2 == (if x % 2 == 1 || y % 2 == 1 then 1 else 0)
  {}

  lemma AndStep(x: nat, y: nat)
    ensures And(x, y) == 2 * And(x / 2, y / 2) + (if x % 2 == 1 && y % 2 == 1 then 1 else 0)
  {}

  lemma MaskStep(x: nat, a: nat, b: nat)
    ensures And(Or(x, a), b) ==
            2 * And(Or(x / 2, a / 2), b / 2) + (if (x % 2 == 1 || a % 2 == 1) && b % 2 == 1 then 1 else 0)
  {
    hide Or, And;
    OrStep(x, a);
    AndStep(Or(x, a), b);
  }

  /** Masking: the lowest k bits stay, the bit above them is cleared and the one above that is set. */
  lemma {:induction false} MarkerBits(x: nat, k: nat)
    ensures And(Or(x, 2 * Pow2(k)), 3 * Pow2(k) - 1) == 2 * Pow2(k) + x % Pow2(k)
  {
    hide And, Or;
    if k == 0 {
      MaskStep(x, 2, 2);
      MaskStep(x / 2, 1, 1);
      AndZero(Or(x / 2 / 2, 0));
    } else {
      MarkerBits(x / 2, k - 1);
      MarkerStep(x, Pow2(k - 1));
    }
  }

  lemma MarkerStep(x: nat, m: nat)
    requires m > 0 && And(Or(x / 2, 2 * m), 3 * m - 1) == 2 * m + x / 2 % m
    ensures And(Or(x, 4 * m), 6 * m - 1) == 4 * m + x % (2 * m)
  {
    hide And, Or;
    ModHalf(x, m);
    MaskStep(x, 4 * m, 6 * m - 1);
    assert (4 * m) / 2 == 2 * m && (6 * m - 1) / 2 == 3 * m - 1;
  }

  lemma ContinuationBits(x: nat)
    ensures And(Or(x, 0x80), 0xBF) == 0x80 + x % 64
  {
    hide And, Or;
    Powers();
    MarkerBits(x, 6);
  }

  lemma AndZero(x: nat)
    ensures And(x, 0) == 0
  {}

  // ----- Fields -----

  /** x >> m. */
  function Shr(x: nat, m: nat): nat
    decreases m
  {
    if m == 0 then x else Shr(x / 2, m - 1)
  }

  /** Masking with k low ones takes the remainder. */
  lemma {:induction false} LowMask(x: nat, k: nat)
    ensures And(x, Pow2(k) - 1) == x % Pow2(k)
    decreases k
  {
    hide And;
    if k == 0 {
      AndZero(x);
    } else {
      AndStep(x, Pow2(k) - 1);
      LowMask(x / 2, k - 1);
      ModHalf(x, Pow2(k - 1));
    }
  }

  /** Masking with k ones above b zeros and shifting them down takes those k bits out of x. */
  lemma {:induction false} FieldMask(x: nat, k: nat, b: nat, mask: nat)
    requires mask == (Pow2(k) - 1) * Pow2(b)
    ensures Shr(And(x, mask), b) == Shr(x, b) % Pow2(k)
    decreases b
  {
    hide And;
    if b == 0 {
      LowMask(x, k);
    } else {
      var m := (Pow2(k) - 1) * Pow2(b - 1);
      assert mask == 2 * m;
      AndStep(x, mask);
      FieldMask(x / 2, k, b - 1, m);
    }
  }

  lemma {:induction false} ShrDivides(x: nat, m: nat)
    ensures Shr(x, m) == x / Pow2(m)
    decreases m
  {
    if m != 0 {
      ShrDivides(x / 2, m - 1);
      ModHalf(x, Pow2(m - 1));
    }
  }

  // ----- Single bits -----

  /** Bit i of x, counted from the lowest. */
  predicate Bit(x: nat, i: nat)
    decreases i
  {
    if i == 0 then x % 2 == 1 else Bit(x / 2, i - 1)
  }

  lemma ZeroBit(i: nat)
    ensures !Bit(0, i)
  {}

  lemma {:induction false} OrBit(x: nat, y: nat, i: nat)
    ensures Bit(Or(x, y), i) <==> Bit(x, i) || Bit(y, i)
    decreases i
  {
    hide Or;
    OrStep(x, y);
    if i != 0 {
      OrBit(x / 2, y / 2, i - 1);
    }
  }

  lemma {:induction false} ShrBit(x: nat, m: nat, i: nat)
    ensures Bit(Shr(x, m), i) <==> Bit(x, i + m)
    decreases m
  {
    if m != 0 {
      ShrBit(x / 2, m - 1, i);
    }
  }

  lemma {:induction false} OrBelow(x: nat, y: nat, k: nat)
    requires x < Pow2(k) && y < Pow2(k)
    ensures Or(x, y) < Pow2(k)
    decreases k
  {
    hide Or;
    OrStep(x, y);
    if k == 0 {
      OrNothing(0);
    } else {
      OrBelow(x / 2, y / 2, k - 1);
    }
  }

  lemma {:induction false} ShrBelow(x: nat, m: nat)
    ensures Shr(x, m) <= x
    decreases m
  {
    if m != 0 {
      ShrBelow(x / 2, m - 1);
    }
  }

  lemma {:induction false} AllOnes(x: nat, k: nat)
    requires x < Pow2(k) && forall i :: 0 <= i < k ==> Bit(x, i)
    ensures x == Pow2(k) - 1
    decreases k
  {
    if k != 0 {
      assert Bit(x, 0);
      forall i | 0 <= i < k - 1
        ensures Bit(x / 2, i)
      {
        assert Bit(x, i + 1);
      }
      AllOnes(x / 2, k - 1);
    }
  }

  /** Bitwise exclusive or. */
  function Xor(x: nat, y: nat): nat
    decreases x + y
  {
    if x == 0 || y == 0 then x + y
    else 2 * Xor(x / 2, y / 2) + (if x % 2 != y % 2 then 1 else 0)
  }

  lemma XorStep(x: nat, y: nat)
    ensures Xor(x, y) / 2 == Xor(x / 2, y / 2)
    ensures Xor(x, y) % 2 == (if x % 2 != y % 2 then 1 else 0)
  {}

  lemma {:induction false} XorBit(x: nat, y: nat, i: nat)
    ensures Bit(Xor(x, y), i) <==> Bit(x, i) != Bit(y, i)
    decreases i
  {
    hide Xor;
    XorStep(x, y);
    if i != 0 {
      XorBit(x / 2, y / 2, i - 1);
    }
  }

  lemma {:induction false} XorBelow(x: nat, y: nat, k: nat)
    requires x < Pow2(k) && y < Pow2(k)
    ensures Xor(x, y) < Pow2(k)
    decreases k
  {
    hide Xor;
    XorStep(x, y);
    if k == 0 {
      assert Xor(0, 0) == 0 by {
        XorNothing();
      }
    } else {
      XorBelow(x / 2, y / 2, k - 1);
    }
  }

  lemma XorNothing()
    ensures Xor(0, 0) == 0
  {}

  lemma {:induction false} AndBit(x: nat, y: nat, i: nat)
    ensures Bit(And(x, y), i) <==> Bit(x, i) && Bit(y, i)
    decreases i
  {
    hide And;
    AndStep(x, y);
    if i != 0 {
      AndBit(x / 2, y / 2, i - 1);
    }
  }

  lemma {:induction false} AndBelow(x: nat, y: nat)
    ensures And(x, y) <= x
    decreases x
  {
    if x != 0 && y != 0 {
      AndBelow(x / 2, y / 2);
    }
  }

  lemma {:induction false} PowerBit(k: nat, i: nat)
    ensures Bit(Pow2(k), i) <==> i == k
    decreases k
  {
    if i == 0 {
    } else if k == 0 {
      ZeroBit(i - 1);
    } else {
      PowerBit(k - 1, i - 1);
    }
  }

  /** All of the lowest n bits but bit k. */
  lemma {:induction false} MaskBit(n: nat, k: nat, i: nat)
    requires k < n && i < n
    ensures Pow2(k) < Pow2(n) && (Bit(Pow2(n) - 1 - Pow2(k), i) <==> i != k)
    decreases k
  {
    PowerBelow(k, n);
    if k == 0 {
      if i != 0 {
        OnesBit(n - 1, i - 1);
      }
    } else if i == 0 {
    } else {
      MaskBit(n - 1, k - 1, i - 1);
      assert (Pow2(n) - 1 - Pow2(k)) / 2 == Pow2(n - 1) - 1 - Pow2(k - 1);
    }
  }

  lemma {:induction false} OnesBit(n: nat, i: nat)
    requires i < n
    ensures Bit(Pow2(n) - 1, i)
    decreases n
  {
    if i != 0 {
      OnesBit(n - 1, i - 1);
    }
  }

  lemma {:induction false} PowerBelow(k: nat, n: nat)
    requires k < n
    ensures Pow2(k) < Pow2(n)
    decreases n
  {
    if k < n - 1 {
      PowerBelow(k, n - 1);
    }
  }

  /** Numbers of k bits are the same if all their bits are. */
  lemma {:induction false} SameBits(x: nat, y: nat, k: nat)
    requires x < Pow2(k) && y < Pow2(k) && forall i :: 0 <= i < k ==> (Bit(x, i) <==> Bit(y, i))
    ensures x == y
    decreases k
  {
    if k != 0 {
      assert Bit(x, 0) <==> Bit(y, 0);
      forall i | 0 <= i < k - 1
        ensures Bit(x / 2, i) <==> Bit(y / 2, i)
      {
        assert Bit(x, i + 1) <==> Bit(y, i + 1);
      }
      SameBits(x / 2, y / 2, k - 1);
    }
  }

  /** How many bits x takes. */
  function Width(x: nat): (w: nat)
    ensures x < Pow2(w) && (x > 0 ==> w > 0 && Pow2(w - 1) <= x && Bit(x, w - 1))
  {
    if x == 0 then 0 else 1 + Width(x / 2)
  }

  /** The highest m bits of k are set. */
  predicate TopSet(x: nat, k: nat, m: nat) {
    x < Pow2(k) && forall i :: k - m <= i < k && 0 <= i ==> Bit(x, i)
  }

  lemma Smear(x: nat, k: nat, m: nat)
    requires TopSet(x, k, m)
    ensures TopSet(Or(x, Shr(x, m)), k, 2 * m)
  {
    hide Or, Bit, Shr;
    ShrBelow(x, m);
    OrBelow(x, Shr(x, m), k);
    forall i | k - 2 * m <= i < k && 0 <= i
      ensures Bit(Or(x, Shr(x, m)), i)
    {
      OrBit(x, Shr(x, m), i);
      ShrBit(x, m, i);
    }
  }

  /** The rounding of cJSON's pow2gt. */
  function Pow2gt(x: nat): nat
    requires x > 0
  {
    var a := x - 1;
    var b := Or(a, Shr(a, 1));
    var c := Or(b, Shr(b, 2));
    var d := Or(c, Shr(c, 4));
    var e := Or(d, Shr(d, 8));
    Or(e, Shr(e, 16)) + 1
  }

  lemma Smeared(a: nat, k: nat)
    requires k <= 32 && TopSet(a, k, 1)
    ensures Pow2gt(a + 1) == Pow2(k)
  {
    hide Or, Shr, Bit, TopSet, Pow2;
    var b := Or(a, Shr(a, 1));
    var c := Or(b, Shr(b, 2));
    var d := Or(c, Shr(c, 4));
    var e := Or(d, Shr(d, 8));
    Smear(a, k, 1);
    Smear(b, k, 2);
    Smear(c, k, 4);
    Smear(d, k, 8);
    Smear(e, k, 16);
    TopIsAll(Or(e, Shr(e, 16)), k);
  }

  lemma TopIsAll(x: nat, k: nat)
    requires k <= 32 && TopSet(x, k, 32)
    ensures x + 1 == Pow2(k)
  {
    hide Bit, Pow2;
    AllOnes(x, k);
  }

  /** p is the least power of two that is not below x. */
  ghost predicate LeastPow2(p: nat, x: nat) {
    x <= p && exists k :: p == Pow2(k) && forall j :: x <= Pow2(j) ==> k <= j
  }

  /** Smearing the top bit of x - 1 to the right gives the least power of two, in 32 bits. */
  lemma Pow2gtIsLeast(x: nat)
    requires 0 < x <= Pow2(32)
    ensures LeastPow2(Pow2gt(x), x)
  {
    hide Or, Shr, Bit, Pow2gt;
    var k := Width(x - 1);
    Pow2Orders(k - 1, 32);
    Smeared(x - 1, k);
    forall j: nat | x <= Pow2(j)
      ensures k <= j
    {
      Pow2Orders(k - 1, j);
    }
  }

  /** In a signed 32-bit int the result has a place exactly for the sizes up to 2^30. */
  lemma Pow2gtFits(x: nat)
    requires 0 < x <= Pow2(32)
    ensures Pow2gt(x) < Pow2(31) <==> x <= Pow2(30)
  {
    hide Pow2gt;
    Pow2gtIsLeast(x);
    var k :| Pow2gt(x) == Pow2(k) && forall j :: x <= Pow2(j) ==> k <= j;
    if x <= Pow2(30) {
      Pow2Monotone(k, 30);
    } else {
      Pow2Orders(30, k);
      Pow2Monotone(31, k);
    }
  }

  lemma {:induction false} Pow2Orders(i: int, j: nat)
    ensures i >= 0 && Pow2(i) < Pow2(j) ==> i < j
    decreases i
  {
    if i > 0 && j > 0 {
      Pow2Orders(i - 1, j - 1);
    }
  }

  // ----- Numbers made of parts -----

  lemma {:induction false} ShrTwice(x: nat, a: nat, b: nat)
    ensures Shr(Shr(x, a), b) == Shr(x, a + b)
    decreases a
  {
    if a != 0 {
      ShrTwice(x / 2, a - 1, b);
    }
  }

  /** The lowest i + 1 bits are the lowest i and bit i. */
  lemma {:induction false} ModBit(x: nat, i: nat)
    ensures x % Pow2(i + 1) == x % Pow2(i) + (if Bit(x, i) then Pow2(i) else 0)
    decreases i
  {
    if i != 0 {
      ModBit(x / 2, i - 1);
      ModHalf(x, Pow2(i));
      ModHalf(x, Pow2(i - 1));
    }
  }

  /** The lowest a + b bits are the lowest a and the b above them. */
  lemma {:induction false} ModSplit(x: nat, a: nat, b: nat)
    ensures x % Pow2(a + b) == x % Pow2(a) + Pow2(a) * (Shr(x, a) % Pow2(b))
    decreases a
  {
    if a != 0 {
      ModSplit(x / 2, a - 1, b);
      ModHalf(x, Pow2(a + b - 1));
      ModHalf(x, Pow2(a - 1));
      assert Pow2(a) * (Shr(x, a) % Pow2(b)) == 2 * (Pow2(a - 1) * (Shr(x / 2, a - 1) % Pow2(b)));
    }
  }

  /** The bits of a number below k come from its low part, the others from its high part. */
  lemma {:induction false} BitSplit(y: nat, b: nat, k: nat, p: nat)
    requires b < Pow2(k)
    ensures Bit(y * Pow2(k) + b, p) <==> if p < k then Bit(b, p) else Bit(y, p - k)
    decreases k
  {
    if k != 0 {
      var x := y * Pow2(k) + b;
      assert x == 2 * (y * Pow2(k - 1)) + b;
      assert x / 2 == y * Pow2(k - 1) + b / 2 && x % 2 == b % 2;
      if p != 0 {
        BitSplit(y, b / 2, k - 1, p - 1);
      }
    }
  }
}
