/** Bitwise operations of C's unsigned integers, on naturals.

    Addresses are naturals in this project, because page arithmetic adds and divides them. The masks
    and shifts the C code applies to them are kept: this module defines `&`, `|`, `<<` and `>>` bit
    by bit and proves which field of the operand each mask selects. */
module Bits {

  /** x & y */
  function And(x: nat, y: nat): nat
    decreases x
  {
    if x == 0 || y == 0 then 0 else 2 * And(x / 2, y / 2) + if x % 2 == 1 && y % 2 == 1 then 1 else 0
  }

  /** x | y */
  function Or(x: nat, y: nat): nat
    decreases x + y
  {
    if x == 0 then y
    else if y == 0 then x
    else 2 * Or(x / 2, y / 2) + if x % 2 == 1 || y % 2 == 1 then 1 else 0
  }

  /** x >> n */
  function Shr(x: nat, n: nat): nat
    decreases n
  {
    if n == 0 then x else Shr(x / 2, n - 1)
  }

  /** x << n */
  function Shl(x: nat, n: nat): nat
    decreases n
  {
    if n == 0 then x else 2 * Shl(x, n - 1)
  }

  /** The low n bits of x. */
  function Low(x: nat, n: nat): nat
    decreases n
  {
    if n == 0 then 0 else 2 * Low(x / 2, n - 1) + x % 2
  }

  /** n ones. */
  function Ones(n: nat): nat {
    if n == 0 then 0 else 2 * Ones(n - 1) + 1
  }

  /** One step of And, for operands that may be zero. */
  lemma AndStep(x: nat, y: nat)
    ensures And(x, y) / 2 == And(x / 2, y / 2)
    ensures And(x, y) % 2 == if x % 2 == 1 && y % 2 == 1 then 1 else 0
  {
  }

  lemma OrStep(x: nat, y: nat)
    ensures Or(x, y) / 2 == Or(x / 2, y / 2)
    ensures Or(x, y) % 2 == if x % 2 == 1 || y % 2 == 1 then 1 else 0
  {
  }

  lemma {:induction false} AndOnes(x: nat, n: nat)
    ensures And(x, Ones(n)) == Low(x, n)
    decreases n
  {
    if n > 0 {
      AndOnes(x / 2, n - 1);
      AndStep(x, Ones(n));
    }
  }

  /** A mask of n ones above lo zeros selects that field in place. */
  lemma {:induction false} AndField(x: nat, lo: nat, n: nat)
    ensures And(x, Shl(Ones(n), lo)) == Shl(Low(Shr(x, lo), n), lo)
    decreases lo
  {
    if lo == 0 {
      AndOnes(x, n);
    } else {
      AndField(x / 2, lo - 1, n);
      AndStep(x, Shl(Ones(n), lo));
    }
  }

  lemma {:induction false} AndAnd(x: nat, y: nat, z: nat)
    ensures And(And(x, y), z) == And(x, And(y, z))
    decreases x
  {
    if x > 0 {
      AndAnd(x / 2, y / 2, z / 2);
      AndStep(x, y);
      AndStep(y, z);
      AndStep(And(x, y), z);
      AndStep(x, And(y, z));
    }
  }

  lemma {:induction false} AndOr(x: nat, y: nat, m: nat)
    ensures And(Or(x, y), m) == Or(And(x, m), And(y, m))
    decreases m
  {
    if m > 0 {
      AndOr(x / 2, y / 2, m / 2);
      OrStep(x, y);
      AndStep(Or(x, y), m);
      AndStep(x, m);
      AndStep(y, m);
      OrStep(And(x, m), And(y, m));
    }
  }

  /** OR of a shifted value and a value that fits below it is their sum. */
  lemma {:induction false} OrDisjoint(h: nat, l: nat, n: nat)
    requires l <= Ones(n)
    ensures Or(Shl(h, n), l) == Shl(h, n) + l
    decreases n
  {
    if n > 0 {
      OrDisjoint(h, l / 2, n - 1);
      OrStep(Shl(h, n), l);
    }
  }

  lemma OrThree(x: nat)
    ensures Or(x, 3) % 4 == 3
  {
    OrStep(x, 3);
    OrStep(x / 2, 1);
    assert Or(x, 3) / 2 % 2 == 1;
  }

  // ----- The widths this project uses, as arithmetic -----

  lemma {:induction false} ShrAdd(x: nat, m: nat, n: nat)
    ensures Shr(x, m + n) == Shr(Shr(x, m), n)
    decreases m
  {
    if m > 0 {
      ShrAdd(x / 2, m - 1, n);
    }
  }

  lemma {:induction false} ShlAdd(x: nat, m: nat, n: nat)
    ensures Shl(x, m + n) == Shl(Shl(x, n), m)
    decreases m
  {
    if m > 0 {
      ShlAdd(x, m - 1, n);
    }
  }

  lemma {:induction false} ShrOfShl(x: nat, m: nat, n: nat)
    ensures Shr(Shl(x, m + n), m) == Shl(x, n)
    decreases m
  {
    if m > 0 {
      ShrOfShl(x, m - 1, n);
    }
  }

  /** A field above n bits is read back by shifting, whatever the bits below it are. */
  lemma {:induction false} ShrOfSum(h: nat, l: nat, n: nat)
    requires l <= Ones(n)
    ensures Shr(Shl(h, n) + l, n) == h
    decreases n
  {
    if n > 0 {
      ShrOfSum(h, l / 2, n - 1);
      assert (Shl(h, n) + l) / 2 == Shl(h, n - 1) + l / 2;
    }
  }

  lemma {:induction false} OnesGrow(m: nat, n: nat)
    requires m <= n
    ensures Ones(m) <= Ones(n)
    decreases n
  {
    if m < n {
      OnesGrow(m, n - 1);
    }
  }

  lemma Shr3(x: nat)
    ensures Shr(x, 3) == x / 8
  {
    assert Shr(x, 3) == x / 2 / 2 / 2;
  }

  lemma Shr8(x: nat)
    ensures Shr(x, 8) == x / 0x100
  {
    ShrAdd(x, 3, 5);
    ShrAdd(x / 8, 3, 2);
    Shr3(x);
    Shr3(x / 8);
    assert Shr(x / 8 / 8, 2) == x / 8 / 8 / 2 / 2;
  }

  lemma Shr9(x: nat)
    ensures Shr(x, 9) == x / 0x200
  {
    ShrAdd(x, 3, 6);
    ShrAdd(x / 8, 3, 3);
    Shr3(x);
    Shr3(x / 8);
    Shr3(x / 8 / 8);
  }

  lemma Twice9(x: nat)
    ensures x / 0x200 / 0x200 == x / 0x40000
  {
  }

  /** Right shifts by the table shifts of stage2.h. */
  lemma ShrPage(x: nat)
    ensures Shr(x, 12) == x / 0x1000
    ensures Shr(x, 21) == x / 0x1000 / 0x200
    ensures Shr(x, 30) == x / 0x1000 / 0x40000
  {
    ShrAdd(x, 3, 9);
    Shr3(x);
    Shr9(x / 8);
    ShrAdd(x, 12, 9);
    Shr9(x / 0x1000);
    ShrAdd(x, 21, 9);
    Shr9(x / 0x1000 / 0x200);
    Twice9(x / 0x1000);
  }

  lemma Shl4(x: nat)
    ensures Shl(x, 4) == 0x10 * x
  {
    assert Shl(x, 2) == 4 * x;
  }

  lemma Shl12(x: nat)
    ensures Shl(x, 8) == 0x100 * x
    ensures Shl(x, 12) == 0x1000 * x
  {
    ShlAdd(x, 4, 4);
    ShlAdd(x, 4, 8);
    Shl4(x);
    Shl4(Shl(x, 4));
    Shl4(Shl(x, 8));
  }

  lemma {:induction false} Split(x: nat, n: nat)
    ensures x == Shl(Shr(x, n), n) + Low(x, n)
    decreases n
  {
    if n > 0 {
      Split(x / 2, n - 1);
    }
  }

  lemma {:induction false} LowFits(x: nat, n: nat)
    requires x <= Ones(n)
    ensures Low(x, n) == x
    decreases n
  {
    if n > 0 {
      LowFits(x / 2, n - 1);
    }
  }

  lemma {:induction false} LowOfShl(x: nat, n: nat)
    ensures Low(Shl(x, n), n) == 0
    decreases n
  {
    if n > 0 {
      LowOfShl(x, n - 1);
    }
  }

  lemma Shl28(x: nat)
    ensures Shl(x, 28) == 0x1000_0000 * x
  {
    ShlAdd(x, 12, 12);
    ShlAdd(x, 4, 24);
    Shl12(x);
    Shl12(0x1000 * x);
    Shl4(0x100_0000 * x);
  }

  /** The low n bits are the remainder modulo 2^n. */
  lemma Low1(x: nat)
    ensures Low(x, 1) == x % 2
  {
    assert Low(x / 2, 0) == 0;
  }

  lemma Low2(x: nat)
    ensures Low(x, 2) == x % 4
  {
    Split(x, 2);
    assert Shr(x, 2) == Shr(x / 2, 1) == x / 2 / 2;
    assert Shl(Shr(x, 2), 2) == 2 * Shl(Shr(x, 2), 1) == 4 * Shr(x, 2);
  }

  lemma Low9(x: nat)
    ensures Low(x, 9) == x % 0x200
  {
    Split(x, 9);
    Shr9(x);
    Shl9(x / 0x200);
  }

  lemma Low12(x: nat)
    ensures Low(x, 12) == x % 0x1000
  {
    Split(x, 12);
    ShrPage(x);
    Shl12(x / 0x1000);
  }

  lemma Low8(x: nat)
    ensures Ones(8) == 0xff && Low(x, 8) == x % 0x100
  {
    assert Ones(4) == 0xf;
    Split(x, 8);
    Shr8(x);
    Shl12(Shr(x, 8));
  }

  lemma Low16(x: nat)
    ensures Low(x, 16) == x % 0x1_0000
  {
    hide Low, Shr, Shl;
    Split(x, 16);
    ShrAdd(x, 8, 8);
    Shr8(x);
    Shr8(x / 0x100);
    ShlAdd(x / 0x1_0000, 8, 8);
    Shl12(x / 0x1_0000);
    Shl12(0x100 * (x / 0x1_0000));
  }

  lemma Shl9(x: nat)
    ensures Shl(x, 9) == 0x200 * x
  {
    Shl12(x);
  }

  /** The masks of this project. */
  lemma Masks()
    ensures Ones(1) == 1 && Ones(2) == 3 && Ones(9) == 0x1ff && Ones(12) == 0xfff && Ones(28) == 0xfff_ffff
    ensures Shl(Ones(28), 12) == 0xff_ffff_f000 && Shl(Ones(28), 4) == 0xffff_fff0
  {
    assert Ones(4) == 0xf;
    assert Ones(8) == 0xff;
    assert Ones(12) == 0xfff;
    assert Ones(16) == 0xffff;
    assert Ones(20) == 0xf_ffff;
    assert Ones(24) == 0xff_ffff;
    assert Ones(28) == 0xfff_ffff;
    Shl12(Ones(28));
    Shl4(Ones(28));
  }

  lemma ByteMasks()
    ensures Ones(8) == 0xff && Ones(16) == 0xffff && Ones(24) == 0xff_ffff
  {
    Masks();
    assert Ones(4) == 0xf;
    assert Ones(8) == 0xff;
    assert Ones(16) == 0x10 * Ones(12) + 0xf;
    assert Ones(20) == 0x10 * Ones(16) + 0xf;
    assert Ones(24) == 0x10 * Ones(20) + 0xf;
  }

  lemma OrCommutes(x: nat, y: nat)
    ensures Or(x, y) == Or(y, x)
    decreases x + y
  {
  }

  // ----- 32-bit words as sets of bits -----

  /** uint32_t */
  type Word = x: nat | x <= 0xffff_ffff

  lemma WordIsOnes()
    ensures Ones(32) == 0xffff_ffff
  {
    Masks();
    assert Ones(32) == 0x10 * Ones(28) + 0xf;
  }

  /** Bit i of x. */
  predicate BitAt(x: nat, i: nat)
    decreases i
  {
    if i == 0 then x % 2 == 1 else BitAt(x / 2, i - 1)
  }

  /** x & (1 << i) is nonzero exactly if bit i is set. */
  lemma {:induction false} AndBit(x: nat, i: nat)
    ensures And(x, Shl(1, i)) != 0 <==> BitAt(x, i)
    decreases i
  {
    AndStep(x, Shl(1, i));
    if i > 0 {
      AndBit(x / 2, i - 1);
    }
  }

  lemma {:induction false} OrBit(x: nat, i: nat, j: nat)
    ensures BitAt(Or(x, Shl(1, i)), j) <==> j == i || BitAt(x, j)
    decreases i + j
  {
    OrStep(x, Shl(1, i));
    if i == 0 && j > 0 {
      assert Or(x / 2, 0) == x / 2;
    } else if i > 0 && j > 0 {
      OrBit(x / 2, i - 1, j - 1);
    }
  }

  /** x & ~(1 << i), in n-bit words. */
  lemma {:induction false} AndNotBit(x: nat, i: nat, j: nat, n: nat)
    requires i < n && x <= Ones(n)
    ensures Shl(1, i) <= Ones(n) && (BitAt(And(x, Ones(n) - Shl(1, i)), j) <==> j != i && BitAt(x, j))
    decreases i + j
  {
    hide Or;
    ShlFits(i, n);
    AndStep(x, Ones(n) - Shl(1, i));
    if i == 0 && j > 0 {
      AndOnes(x / 2, n - 1);
      LowFits(x / 2, n - 1);
    } else if i > 0 && j > 0 {
      AndNotBit(x / 2, i - 1, j - 1, n - 1);
    } else if i > 0 {
      ShlFits(i - 1, n - 1);
    }
  }

  lemma {:induction false} ShlFits(i: nat, n: nat)
    requires i < n
    ensures Shl(1, i) <= Ones(n)
    decreases i
  {
    if i > 0 {
      ShlFits(i - 1, n - 1);
    }
  }

  lemma {:induction false} OrFits(x: nat, y: nat, n: nat)
    requires x <= Ones(n) && y <= Ones(n)
    ensures Or(x, y) <= Ones(n)
    decreases n
  {
    if n > 0 {
      OrFits(x / 2, y / 2, n - 1);
      OrStep(x, y);
    }
  }

  lemma {:induction false} AndFits(x: nat, y: nat)
    ensures And(x, y) <= x
    decreases x
  {
    if x > 0 {
      AndFits(x / 2, y / 2);
      AndStep(x, y);
    }
  }

  lemma {:induction false} BitIsShr(x: nat, i: nat)
    ensures BitAt(x, i) <==> Shr(x, i) % 2 == 1
    decreases i
  {
    if i > 0 {
      BitIsShr(x / 2, i - 1);
    }
  }

  /** Bit by bit: what & and | mean. */
  lemma {:induction false} BitOfAnd(x: nat, y: nat, i: nat)
    ensures BitAt(And(x, y), i) <==> BitAt(x, i) && BitAt(y, i)
    decreases i
  {
    AndStep(x, y);
    if i > 0 {
      BitOfAnd(x / 2, y / 2, i - 1);
    }
  }

  lemma {:induction false} BitOfOr(x: nat, y: nat, i: nat)
    ensures BitAt(Or(x, y), i) <==> BitAt(x, i) || BitAt(y, i)
    decreases i
  {
    OrStep(x, y);
    if i > 0 {
      BitOfOr(x / 2, y / 2, i - 1);
    }
  }

  lemma {:induction false} BitOfOnes(n: nat, i: nat)
    ensures BitAt(Ones(n), i) <==> i < n
    decreases i
  {
    if n == 0 {
      ZeroHasNoBit(i);
    } else if i > 0 {
      BitOfOnes(n - 1, i - 1);
    }
  }

  lemma {:induction false} ZeroHasNoBit(i: nat)
    ensures !BitAt(0, i)
    decreases i
  {
    if i > 0 {
      ZeroHasNoBit(i - 1);
    }
  }

  lemma {:induction false} BitOfShl(x: nat, n: nat, i: nat)
    ensures BitAt(Shl(x, n), i) <==> i >= n && BitAt(x, i - n)
    decreases n
  {
    if n > 0 && i > 0 {
      BitOfShl(x, n - 1, i - 1);
    }
  }

  lemma {:induction false} AndCommutes(x: nat, y: nat)
    ensures And(x, y) == And(y, x)
    decreases x
  {
    if x > 0 && y > 0 {
      AndCommutes(x / 2, y / 2);
    }
  }

  lemma {:induction false} AndSelf(x: nat)
    ensures And(x, x) == x
    decreases x
  {
    if x > 0 {
      AndSelf(x / 2);
    }
  }

  /** If bits 0 .. i-1 and bit i are clear, so are bits 0 .. i. */
  lemma {:induction false} LowClear(x: nat, i: nat)
    requires Low(x, i) == 0 && !BitAt(x, i)
    ensures Low(x, i + 1) == 0
    decreases i
  {
    if i > 0 {
      LowClear(x / 2, i - 1);
    }
  }

  lemma {:induction false} LowClearBits(x: nat, n: nat, i: nat)
    requires Low(x, n) == 0 && i < n
    ensures !BitAt(x, i)
    decreases n
  {
    if i > 0 {
      LowClearBits(x / 2, n - 1, i - 1);
    }
  }
}
