/** The 32 availability bits of a bitmap word. */
module Bits {

  function And(x: bv32, y: bv32): bv32 { x & y }

  function Or(x: bv32, y: bv32): bv32 { x | y }

  function AndNot(x: bv32, y: bv32): bv32 { x & !y }

  function Half(x: bv32): bv32 { x >> 1 }

  function Double(x: bv32): bv32 { x << 1 }

  /** `1 << i`. */
  function Mask(i: nat): (m: bv32)
    requires i < 32
  {
    if i == 0 then 1 else Double(Mask(i - 1))
  }

  /** `b & (1 << i)` is non-zero. */
  predicate Test(b: bv32, i: nat)
    requires i < 32
  {
    And(b, Mask(i)) != 0
  }

  /** `b | (1 << i)`. */
  function Set(b: bv32, i: nat): (r: bv32)
    requires i < 32
  {
    Or(b, Mask(i))
  }

  /** `b & ~(1 << i)`. */
  function Clear(b: bv32, i: nat): (r: bv32)
    requires i < 32
  {
    AndNot(b, Mask(i))
  }

  // Facts about words, proved by the bit-vector solver.

  lemma DoubleDisjoint(x: bv32, y: bv32) requires And(x, y) == 0 ensures And(Double(x), Double(y)) == 0 {}

  lemma LowBitDisjoint(x: bv32) ensures And(Double(x), 1) == 0 && And(1, Double(x)) == 0 {}

  lemma DoubleHalf(x: bv32, m: bv32)
    requires And(m, 0x8000_0000) == 0
    ensures And(x, Double(m)) == 0 <==> And(Half(x), m) == 0
    ensures m != 0 ==> Double(m) != 0
  {}

  lemma OrHit(b: bv32, m: bv32) requires m != 0 ensures And(Or(b, m), m) != 0 {}

  lemma OrMiss(b: bv32, m: bv32, k: bv32) requires And(m, k) == 0 ensures And(Or(b, m), k) == And(b, k) {}

  lemma AndNotHit(b: bv32, m: bv32) ensures And(AndNot(b, m), m) == 0 {}

  lemma AndNotMiss(b: bv32, m: bv32, k: bv32) requires And(m, k) == 0 ensures And(AndNot(b, m), k) == And(b, k) {}

  lemma LowBitZero(b: bv32) requires And(b, 1) == 0 && Half(b) == 0 ensures b == 0 {}

  // Facts about bit positions.

  lemma {:induction false} MasksDisjoint(i: nat, j: nat)
    requires i < 32 && j < 32 && i != j
    ensures And(Mask(i), Mask(j)) == 0
  {
    hide And, Double;
    if i == 0 {
      LowBitDisjoint(Mask(j - 1));
    } else if j == 0 {
      LowBitDisjoint(Mask(i - 1));
    } else {
      MasksDisjoint(i - 1, j - 1);
      DoubleDisjoint(Mask(i - 1), Mask(j - 1));
    }
  }

  lemma TopMask()
    ensures Mask(31) == 0x8000_0000
  {
    assert Mask(4) == 0x10;
    assert Mask(8) == 0x100;
    assert Mask(12) == 0x1000;
    assert Mask(16) == 0x1_0000;
    assert Mask(20) == 0x10_0000;
    assert Mask(24) == 0x100_0000;
    assert Mask(28) == 0x1000_0000;
  }

  /** Bit `i + 1` of a word is bit `i` of the word shifted down. */
  lemma TestHalf(b: bv32, i: nat)
    requires i < 31
    ensures Test(b, i + 1) <==> Test(Half(b), i)
    ensures Mask(i) != 0 ==> Mask(i + 1) != 0
  {
    hide And, Double, Half;
    TopMask();
    MasksDisjoint(i, 31);
    DoubleHalf(b, Mask(i));
  }

  lemma {:induction false} MaskNonzero(i: nat)
    requires i < 32
    ensures Mask(i) != 0
  {
    hide Double;
    if i > 0 {
      MaskNonzero(i - 1);
      TestHalf(0, i - 1);
    }
  }

  /** Setting a bit sets that bit and no other. */
  lemma TestSet(b: bv32, i: nat, j: nat)
    requires i < 32 && j < 32
    ensures Test(Set(b, i), j) <==> j == i || Test(b, j)
  {
    hide Mask, And, Or;
    if i == j {
      MaskNonzero(i);
      OrHit(b, Mask(i));
    } else {
      MasksDisjoint(i, j);
      OrMiss(b, Mask(i), Mask(j));
    }
  }

  /** Clearing a bit clears that bit and no other. */
  lemma TestClear(b: bv32, i: nat, j: nat)
    requires i < 32 && j < 32
    ensures Test(Clear(b, i), j) <==> j != i && Test(b, j)
  {
    hide Mask, And, AndNot;
    if i == j {
      AndNotHit(b, Mask(i));
    } else {
      MasksDisjoint(i, j);
      AndNotMiss(b, Mask(i), Mask(j));
    }
  }

  /** `b` shifted down `k` times. */
  function Shifted(b: bv32, k: nat): bv32 {
    if k == 0 then b else Half(Shifted(b, k - 1))
  }

  lemma {:induction false} ShiftedStart(b: bv32, k: nat)
    ensures Shifted(b, k + 1) == Shifted(Half(b), k)
  {
    hide Half;
    if k > 0 {
      ShiftedStart(b, k - 1);
    }
  }

  /** If the low `k` bits are clear and nothing lies above them, the word is zero. */
  lemma {:induction false} NoBitsLeft(b: bv32, k: nat)
    requires k <= 32 && Shifted(b, k) == 0
    requires forall i :: 0 <= i < k ==> !Test(b, i)
    ensures b == 0
    decreases k
  {
    hide Half, And;
    if k > 0 {
      var h := Half(b);
      forall i | 0 <= i < k - 1
        ensures !Test(h, i)
      {
        TestHalf(b, i);
      }
      ShiftedStart(b, k - 1);
      NoBitsLeft(h, k - 1);
      assert !Test(b, 0);
      LowBitZero(b);
    }
  }

  function Down4(x: bv32): bv32 { x >> 4 }

  lemma HalfFourTimes(c: bv32) ensures Half(Half(Half(Half(c)))) == Down4(c) {}

  lemma ShiftedBy4(b: bv32, k: nat)
    ensures Shifted(b, k + 4) == Down4(Shifted(b, k))
  {
    hide Half, Down4;
    var c := Shifted(b, k);
    HalfFourTimes(c);
    assert Shifted(b, k + 1) == Half(c);
    assert Shifted(b, k + 2) == Half(Half(c));
    assert Shifted(b, k + 3) == Half(Half(Half(c)));
  }

  lemma ShiftedOut(b: bv32)
    ensures Shifted(b, 32) == 0
  {
    ShiftedBy4(b, 0);
    ShiftedBy4(b, 4);
    ShiftedBy4(b, 8);
    ShiftedBy4(b, 12);
    ShiftedBy4(b, 16);
    ShiftedBy4(b, 20);
    ShiftedBy4(b, 24);
    ShiftedBy4(b, 28);
    assert Shifted(b, 0) == b;
    hide Shifted;
  }

  /** A word is zero exactly when all its bits are clear. */
  lemma ZeroIffNone(b: bv32)
    ensures b == 0 <==> forall i :: 0 <= i < 32 ==> !Test(b, i)
  {
    if forall i :: 0 <= i < 32 ==> !Test(b, i) {
      ShiftedOut(b);
      NoBitsLeft(b, 32);
    }
  }

  lemma SameLowBit(x: bv32, y: bv32)
    requires Half(x) == Half(y) && (And(x, 1) == 0 <==> And(y, 1) == 0)
    ensures x == y
  {}

  lemma {:induction false} SameBitsLeft(x: bv32, y: bv32, k: nat)
    requires k <= 32 && Shifted(x, k) == Shifted(y, k)
    requires forall i :: 0 <= i < k ==> (Test(x, i) <==> Test(y, i))
    ensures x == y
    decreases k
  {
    hide Half, And;
    if k > 0 {
      var g, h := Half(x), Half(y);
      forall i | 0 <= i < k - 1
        ensures Test(g, i) <==> Test(h, i)
      {
        TestHalf(x, i);
        TestHalf(y, i);
      }
      ShiftedStart(x, k - 1);
      ShiftedStart(y, k - 1);
      SameBitsLeft(g, h, k - 1);
      assert Test(x, 0) <==> Test(y, 0);
      SameLowBit(x, y);
    }
  }

  /** A word is determined by its bits. */
  lemma SameBits(x: bv32, y: bv32)
    requires forall i :: 0 <= i < 32 ==> (Test(x, i) <==> Test(y, i))
    ensures x == y
  {
    ShiftedOut(x);
    ShiftedOut(y);
    SameBitsLeft(x, y, 32);
  }
}
