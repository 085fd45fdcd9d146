/**
 * Words as bit positions: C's bitwise operators on naturals, and what each does to every bit.
 */
module Bits {
  import opened Bytes

  /** Bit k of a word. */
  predicate Bit(w: nat, k: nat)
  {
    if k == 0 then w % 2 == 1 else Bit(w / 2, k - 1)
  }

  /** w >> k */
  function ShiftRight(w: nat, k: nat): nat
  {
    if k == 0 then w else ShiftRight(w / 2, k - 1)
  }

  lemma {:induction false} ZeroBit(k: nat)
    ensures !Bit(0, k)
  {
    if k > 0 { ZeroBit(k - 1); }
  }

  lemma {:induction false} PowerBit(j: nat, k: nat)
    ensures Bit(Pow2(j), k) == (j == k)
  {
    if k == 0 {
    } else if j == 0 {
      ZeroBit(k - 1);
    } else {
      PowerBit(j - 1, k - 1);
    }
  }

  lemma {:induction false} OrBit(a: nat, j: nat, k: nat)
    ensures Bit(Or(a, Pow2(j)), k) == (Bit(a, k) || j == k)
  {
    PowerBit(j, k);
    OrBits(a, Pow2(j), k);
  }

  lemma {:induction false} OnesBit(n: nat, k: nat)
    ensures Bit(Pow2(n) - 1, k) == (k < n)
  {
    if n == 0 {
      ZeroBit(k);
    } else if k > 0 {
      assert (Pow2(n) - 1) / 2 == Pow2(n - 1) - 1;
      OnesBit(n - 1, k - 1);
    }
  }

  /** Words with the same bits are equal. */
  lemma {:induction false} BitsDetermine(a: nat, b: nat)
    requires forall k: nat :: Bit(a, k) == Bit(b, k)
    ensures a == b
  {
    if a != 0 || b != 0 {
      assert Bit(a, 0) == Bit(b, 0);
      forall k: nat ensures Bit(a / 2, k) == Bit(b / 2, k) {
        assert Bit(a, k + 1) == Bit(b, k + 1);
      }
      BitsDetermine(a / 2, b / 2);
    }
  }

  lemma {:induction false} ShiftOnes(n: nat, k: nat)
    ensures ShiftRight(Pow2(n + k) - 1, k) == Pow2(n) - 1
  {
    if k > 0 {
      assert (Pow2(n + k) - 1) / 2 == Pow2(n + (k - 1)) - 1;
      ShiftOnes(n, k - 1);
    }
  }

  /** w << n, without truncation. */
  function ShiftLeft(w: nat, n: nat): nat
  {
    if n == 0 then w else 2 * ShiftLeft(w, n - 1)
  }

  lemma {:induction false} ShiftLeftBit(w: nat, n: nat, k: nat)
    ensures Bit(ShiftLeft(w, n), k) == (k >= n && Bit(w, k - n))
  {
    if n > 0 && k > 0 {
      ShiftLeftBit(w, n - 1, k - 1);
    }
  }

  /** The low n bits of w: conversion to an n-bit unsigned type. */
  function Truncate(w: nat, n: nat): nat
  {
    if n == 0 then 0 else w % 2 + 2 * Truncate(w / 2, n - 1)
  }

  lemma {:induction false} TruncateBit(w: nat, n: nat, k: nat)
    ensures Bit(Truncate(w, n), k) == (k < n && Bit(w, k))
  {
    if n == 0 {
      ZeroBit(k);
    } else if k > 0 {
      TruncateBit(w / 2, n - 1, k - 1);
    }
  }

  /** a & b */
  function And(a: nat, b: nat): nat
  {
    if a == 0 || b == 0 then 0 else (if a % 2 == 1 && b % 2 == 1 then 1 else 0) + 2 * And(a / 2, b / 2)
  }

  lemma {:induction false} AndBit(a: nat, b: nat, k: nat)
    ensures Bit(And(a, b), k) == (Bit(a, k) && Bit(b, k))
  {
    ZeroBit(k);
    if a != 0 && b != 0 && k > 0 {
      AndBit(a / 2, b / 2, k - 1);
    }
  }

  lemma {:induction false} OrBits(a: nat, b: nat, k: nat)
    ensures Bit(Or(a, b), k) == (Bit(a, k) || Bit(b, k))
  {
    ZeroBit(k);
    if a != 0 && b != 0 && k > 0 {
      OrBits(a / 2, b / 2, k - 1);
    }
  }

  /** ~w on n-bit words. */
  function Not(w: nat, n: nat): nat
  {
    if n == 0 then 0 else 1 - w % 2 + 2 * Not(w / 2, n - 1)
  }

  lemma {:induction false} NotBit(w: nat, n: nat, k: nat)
    ensures Bit(Not(w, n), k) == (k < n && !Bit(w, k))
  {
    if n == 0 {
      ZeroBit(k);
    } else {
      assert Not(w, n) % 2 == 1 - w % 2 && Not(w, n) / 2 == Not(w / 2, n - 1);
      if k > 0 { NotBit(w / 2, n - 1, k - 1); }
    }
  }

  /** Words without bits from n on are below 2^n. */
  lemma {:induction false} NoHighBits(w: nat, n: nat)
    requires forall k: nat :: n <= k ==> !Bit(w, k)
    ensures w < Pow2(n)
    decreases n, w
  {
    if w == 0 {
    } else if n == 0 {
      assert !Bit(w, 0);
      forall k: nat ensures !Bit(w / 2, k) { assert !Bit(w, k + 1); }
      NoHighBits(w / 2, 0);
    } else {
      forall k: nat | n - 1 <= k ensures !Bit(w / 2, k) { assert !Bit(w, k + 1); }
      NoHighBits(w / 2, n - 1);
    }
  }
}
