/** 32-bit unsigned words and the bitwise operators used on them, by binary digits.
    Words hold the ready-queue status (include/kernel/scheduler.h) and the turnout
    positions (user/turnout.c). */
module Bits {
  import opened Common

  /** 1 << i */
  function Pow2(i: nat): (m: nat)
    ensures m > 0
  {
    if i == 0 then 1 else 2 * Pow2(i - 1)
  }

  /** (x >> i) & 1 */
  predicate Bit(x: nat, i: nat) {
    if i == 0 then x % 2 == 1 else Bit(x / 2, i - 1)
  }

  function Digit(b: bool): nat {
    if b then 1 else 0
  }

  /** x | y */
  function Or(x: nat, y: nat): nat {
    if x == 0 && y == 0 then 0 else 2 * Or(x / 2, y / 2) + Digit(x % 2 == 1 || y % 2 == 1)
  }

  /** x & y */
  function And(x: nat, y: nat): nat {
    if x == 0 || y == 0 then 0 else 2 * And(x / 2, y / 2) + Digit(x % 2 == 1 && y % 2 == 1)
  }

  /** x & ~y */
  function AndNot(x: nat, y: nat): nat {
    if x == 0 then 0 else 2 * AndNot(x / 2, y / 2) + Digit(x % 2 == 1 && y % 2 == 0)
  }

  /** x ^ y */
  function Xor(x: nat, y: nat): nat {
    if x == 0 && y == 0 then 0 else 2 * Xor(x / 2, y / 2) + Digit(x % 2 != y % 2)
  }

  // ----- bits of the results -----

  lemma {:induction false} ZeroBit(i: nat)
    ensures !Bit(0, i)
  {
    if i > 0 { ZeroBit(i - 1); }
  }

  lemma {:induction false} OrBit(x: nat, y: nat, i: nat)
    ensures Bit(Or(x, y), i) <==> Bit(x, i) || Bit(y, i)
  {
    if x == 0 && y == 0 {
      ZeroBit(i);
    } else if i > 0 {
      OrBit(x / 2, y / 2, i - 1);
    }
  }

  lemma {:induction false} AndNotBit(x: nat, y: nat, i: nat)
    ensures Bit(AndNot(x, y), i) <==> Bit(x, i) && !Bit(y, i)
  {
    if x == 0 {
      ZeroBit(i);
    } else if i > 0 {
      AndNotBit(x / 2, y / 2, i - 1);
    }
  }

  lemma {:induction false} Pow2Bit(i: nat, j: nat)
    ensures Bit(Pow2(i), j) <==> i == j
  {
    if i == 0 {
      if j > 0 { ZeroBit(j - 1); }
    } else if j > 0 {
      assert Pow2(i) / 2 == Pow2(i - 1);
      Pow2Bit(i - 1, j - 1);
    }
  }

  /** Or-ing in 1 << i sets bit i and touches no other bit. */
  lemma SetBit(x: nat, i: nat)
    ensures forall j: nat :: Bit(Or(x, Pow2(i)), j) <==> (j == i || Bit(x, j))
  {
    forall j: nat
      ensures Bit(Or(x, Pow2(i)), j) <==> (j == i || Bit(x, j))
    {
      OrBit(x, Pow2(i), j);
      Pow2Bit(i, j);
    }
  }

  /** And-ing with ~(1 << i) clears bit i and touches no other bit. */
  lemma ClearBit(x: nat, i: nat)
    ensures forall j: nat :: Bit(AndNot(x, Pow2(i)), j) <==> (j != i && Bit(x, j))
  {
    forall j: nat
      ensures Bit(AndNot(x, Pow2(i)), j) <==> (j != i && Bit(x, j))
    {
      AndNotBit(x, Pow2(i), j);
      Pow2Bit(i, j);
    }
  }

  lemma {:induction false} OrBound(x: nat, y: nat, n: nat)
    requires x < Pow2(n) && y < Pow2(n)
    ensures Or(x, y) < Pow2(n)
  {
    if n > 0 { OrBound(x / 2, y / 2, n - 1); }
  }

  lemma {:induction false} AndNotBound(x: nat, y: nat)
    ensures AndNot(x, y) <= x
  {
    if x > 0 { AndNotBound(x / 2, y / 2); }
  }

  lemma {:induction false} Pow2Increases(i: nat, j: nat)
    requires i < j
    ensures Pow2(i) < Pow2(j)
  {
    if i < j - 1 { Pow2Increases(i, j - 1); }
  }

  lemma WordIsPow2()
    ensures WORD == Pow2(32)
  {
    assert Pow2(8) == 0x100;
    assert Pow2(16) == 0x1_0000;
    assert Pow2(24) == 0x100_0000;
  }

  // ----- least set bit by a De Bruijn multiplication -----

  const TABLE: seq<nat> := [
    0, 1, 28, 2, 29, 14, 24, 3, 30, 22, 20, 15, 25, 17, 4, 8,
    31, 27, 13, 23, 21, 19, 16, 7, 26, 12, 18, 6, 11, 5, 10, 9]

  /** x ^ (x & (x - 1)) */
  function Isolate(x: nat): nat
    requires x > 0
  {
    Xor(x, And(x, x - 1))
  }

  /** The 32-bit product, shifted right by 27. */
  function Hash(x: nat): (h: nat)
    ensures h < 32
  {
    (x * 0x077c_b531 % WORD) / 0x800_0000
  }

  function LeastBitIndex(x: nat): nat
    requires x > 0
  {
    TABLE[Hash(Isolate(x))]
  }

  ghost predicate IsLeastBit(x: nat, i: nat) {
    Bit(x, i) && forall j: nat | j < i :: !Bit(x, j)
  }

  lemma {:induction false} XorSelf(x: nat)
    ensures Xor(x, x) == 0 && And(x, x) == x
  {
    if x > 0 { XorSelf(x / 2); }
  }

  /** Only the least set bit survives the isolation. */
  lemma {:induction false} IsolateLeastBit(x: nat) returns (i: nat)
    requires x > 0
    ensures IsLeastBit(x, i) && Isolate(x) == Pow2(i) && Pow2(i) <= x
  {
    if x % 2 == 1 {
      i := 0;
      assert (x - 1) / 2 == x / 2;
      XorSelf(x / 2);
      assert And(x, x - 1) == x - 1;
    } else {
      var k := IsolateLeastBit(x / 2);
      i := k + 1;
      assert (x - 1) / 2 == x / 2 - 1;
      assert And(x, x - 1) == 2 * And(x / 2, x / 2 - 1);
      forall j: nat | j < i ensures !Bit(x, j) {
        if j > 0 { assert !Bit(x / 2, j - 1); }
      }
    }
  }

  // The 32 one-bit words, their hashes and the table entries found there.

  lemma HashesFrom0()
    ensures Hash(Pow2(0)) == 0 && Hash(Pow2(1)) == 1 && Hash(Pow2(2)) == 3 && Hash(Pow2(3)) == 7
    ensures Hash(Pow2(4)) == 14 && Hash(Pow2(5)) == 29 && Hash(Pow2(6)) == 27 && Hash(Pow2(7)) == 23
    ensures Pow2(8) == 0x100
  {
    assert Pow2(0) == 0x1 && 0x1 * 0x077c_b531 == 0 * WORD + 0x77cb531;
    assert Pow2(1) == 0x2 && 0x2 * 0x077c_b531 == 0 * WORD + 0xef96a62;
    assert Pow2(2) == 0x4 && 0x4 * 0x077c_b531 == 0 * WORD + 0x1df2d4c4;
    assert Pow2(3) == 0x8 && 0x8 * 0x077c_b531 == 0 * WORD + 0x3be5a988;
    assert Pow2(4) == 0x10 && 0x10 * 0x077c_b531 == 0 * WORD + 0x77cb5310;
    assert Pow2(5) == 0x20 && 0x20 * 0x077c_b531 == 0 * WORD + 0xef96a620;
    assert Pow2(6) == 0x40 && 0x40 * 0x077c_b531 == 1 * WORD + 0xdf2d4c40;
    assert Pow2(7) == 0x80 && 0x80 * 0x077c_b531 == 3 * WORD + 0xbe5a9880;
  }

  lemma HashesFrom8()
    requires Pow2(8) == 0x100
    ensures Hash(Pow2(8)) == 15 && Hash(Pow2(9)) == 31 && Hash(Pow2(10)) == 30 && Hash(Pow2(11)) == 28
    ensures Hash(Pow2(12)) == 25 && Hash(Pow2(13)) == 18 && Hash(Pow2(14)) == 5 && Hash(Pow2(15)) == 11
    ensures Pow2(16) == 0x10000
  {
    assert Pow2(8) == 0x100 && 0x100 * 0x077c_b531 == 7 * WORD + 0x7cb53100;
    assert Pow2(9) == 0x200 && 0x200 * 0x077c_b531 == 14 * WORD + 0xf96a6200;
    assert Pow2(10) == 0x400 && 0x400 * 0x077c_b531 == 29 * WORD + 0xf2d4c400;
    assert Pow2(11) == 0x800 && 0x800 * 0x077c_b531 == 59 * WORD + 0xe5a98800;
    assert Pow2(12) == 0x1000 && 0x1000 * 0x077c_b531 == 119 * WORD + 0xcb531000;
    assert Pow2(13) == 0x2000 && 0x2000 * 0x077c_b531 == 239 * WORD + 0x96a62000;
    assert Pow2(14) == 0x4000 && 0x4000 * 0x077c_b531 == 479 * WORD + 0x2d4c4000;
    assert Pow2(15) == 0x8000 && 0x8000 * 0x077c_b531 == 958 * WORD + 0x5a988000;
  }

  lemma HashesFrom16()
    requires Pow2(16) == 0x10000
    ensures Hash(Pow2(16)) == 22 && Hash(Pow2(17)) == 13 && Hash(Pow2(18)) == 26 && Hash(Pow2(19)) == 21
    ensures Hash(Pow2(20)) == 10 && Hash(Pow2(21)) == 20 && Hash(Pow2(22)) == 9 && Hash(Pow2(23)) == 19
    ensures Pow2(24) == 0x1000000
  {
    assert Pow2(16) == 0x10000 && 0x10000 * 0x077c_b531 == 1916 * WORD + 0xb5310000;
    assert Pow2(17) == 0x20000 && 0x20000 * 0x077c_b531 == 3833 * WORD + 0x6a620000;
    assert Pow2(18) == 0x40000 && 0x40000 * 0x077c_b531 == 7666 * WORD + 0xd4c40000;
    assert Pow2(19) == 0x80000 && 0x80000 * 0x077c_b531 == 15333 * WORD + 0xa9880000;
    assert Pow2(20) == 0x100000 && 0x100000 * 0x077c_b531 == 30667 * WORD + 0x53100000;
    assert Pow2(21) == 0x200000 && 0x200000 * 0x077c_b531 == 61334 * WORD + 0xa6200000;
    assert Pow2(22) == 0x400000 && 0x400000 * 0x077c_b531 == 122669 * WORD + 0x4c400000;
    assert Pow2(23) == 0x800000 && 0x800000 * 0x077c_b531 == 245338 * WORD + 0x98800000;
  }

  lemma HashesFrom24()
    requires Pow2(24) == 0x1000000
    ensures Hash(Pow2(24)) == 6 && Hash(Pow2(25)) == 12 && Hash(Pow2(26)) == 24 && Hash(Pow2(27)) == 17
    ensures Hash(Pow2(28)) == 2 && Hash(Pow2(29)) == 4 && Hash(Pow2(30)) == 8 && Hash(Pow2(31)) == 16
  {
    assert Pow2(24) == 0x1000000 && 0x1000000 * 0x077c_b531 == 490677 * WORD + 0x31000000;
    assert Pow2(25) == 0x2000000 && 0x2000000 * 0x077c_b531 == 981354 * WORD + 0x62000000;
    assert Pow2(26) == 0x4000000 && 0x4000000 * 0x077c_b531 == 1962708 * WORD + 0xc4000000;
    assert Pow2(27) == 0x8000000 && 0x8000000 * 0x077c_b531 == 3925417 * WORD + 0x88000000;
    assert Pow2(28) == 0x10000000 && 0x10000000 * 0x077c_b531 == 7850835 * WORD + 0x10000000;
    assert Pow2(29) == 0x20000000 && 0x20000000 * 0x077c_b531 == 15701670 * WORD + 0x20000000;
    assert Pow2(30) == 0x40000000 && 0x40000000 * 0x077c_b531 == 31403340 * WORD + 0x40000000;
    assert Pow2(31) == 0x80000000 && 0x80000000 * 0x077c_b531 == 62806680 * WORD + 0x80000000;
  }

  lemma TableFrom0()
    ensures TABLE[0] == 0 && TABLE[1] == 1 && TABLE[3] == 2 && TABLE[7] == 3
    ensures TABLE[14] == 4 && TABLE[29] == 5 && TABLE[27] == 6 && TABLE[23] == 7
  {
  }

  lemma TableFrom8()
    ensures TABLE[15] == 8 && TABLE[31] == 9 && TABLE[30] == 10 && TABLE[28] == 11
    ensures TABLE[25] == 12 && TABLE[18] == 13 && TABLE[5] == 14 && TABLE[11] == 15
  {
  }

  lemma TableFrom16()
    ensures TABLE[22] == 16 && TABLE[13] == 17 && TABLE[26] == 18 && TABLE[21] == 19
    ensures TABLE[10] == 20 && TABLE[20] == 21 && TABLE[9] == 22 && TABLE[19] == 23
  {
  }

  lemma TableFrom24()
    ensures TABLE[6] == 24 && TABLE[12] == 25 && TABLE[24] == 26 && TABLE[17] == 27
    ensures TABLE[2] == 28 && TABLE[4] == 29 && TABLE[8] == 30 && TABLE[16] == 31
  {
  }

  /** The table undoes the hash of every one-bit word. */
  lemma TableInvertsHash(i: nat)
    requires i < 32
    ensures TABLE[Hash(Pow2(i))] == i
  {
    HashesFrom0();
    HashesFrom8();
    HashesFrom16();
    HashesFrom24();
    if i < 8 {
      TableFrom0();
    } else if i < 16 {
      TableFrom8();
    } else if i < 24 {
      TableFrom16();
    } else {
      TableFrom24();
    }
  }

  /** For every nonzero word the multiply-and-look-up names a set bit with no set bit below it. */
  lemma LeastBitIndexIsLeast(x: nat)
    requires 0 < x < WORD
    ensures LeastBitIndex(x) < 32 && IsLeastBit(x, LeastBitIndex(x))
  {
    var i := IsolateLeastBit(x);
    WordIsPow2();
    if i > 32 { Pow2Increases(32, i); }
    TableInvertsHash(i);
  }
}
