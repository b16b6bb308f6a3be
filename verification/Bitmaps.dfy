/** Searching a word for its first zero or its first one: the two lookup tables
    of the kernel, and words as sets of positions. */
module Bitmaps {
  import opened Bits

  /** The position of the lowest zero digit. */
  function LowZero(n: nat): nat {
    if n % 2 == 0 then 0 else 1 + LowZero(n / 2)
  }

  lemma {:induction false} LowZeroIs(n: nat)
    ensures !Bit(n, LowZero(n)) && forall j: nat :: j < LowZero(n) ==> Bit(n, j)
  {
    if n % 2 == 1 {
      LowZeroIs(n / 2);
      forall j: nat | j < LowZero(n) ensures Bit(n, j) {
        if j > 0 { assert Bit(n / 2, j - 1); }
      }
    }
  }

  /** The position of the lowest one digit. */
  function LowOne(n: nat): nat
    requires n > 0
  {
    if n % 2 == 1 then 0 else 1 + LowOne(n / 2)
  }

  lemma {:induction false} LowOneIs(n: nat)
    requires n > 0
    ensures Bit(n, LowOne(n)) && forall j: nat :: j < LowOne(n) ==> !Bit(n, j)
  {
    if n % 2 == 0 {
      LowOneIs(n / 2);
      forall j: nat | j < LowOne(n) ensures !Bit(n, j) {
        if j > 0 { assert !Bit(n / 2, j - 1); }
      }
    }
  }

  // ---- the tables --------------------------------------------------------------

  /** The columns of the two tables, sixteen entries a row, that are the same
      in all rows, and the one column that is not. */
  const UNMAP_ROW: seq<nat> := [0, 1, 0, 2, 0, 1, 0, 3, 0, 1, 0, 2, 0, 1, 0]
  const UNMAP_LAST: seq<nat> := [4, 5, 4, 6, 4, 5, 4, 7, 4, 5, 4, 6, 4, 5, 4, 8]
  const RR_UNMAP_FIRST: seq<nat> := [0, 4, 5, 4, 6, 4, 5, 4, 7, 4, 5, 4, 6, 4, 5, 4]

  function Unmap(v: nat): nat
    requires v < 256
  {
    if v % 16 == 15 then UNMAP_LAST[v / 16] else UNMAP_ROW[v % 16]
  }

  function RrUnmap(v: nat): nat
    requires v < 256
  {
    if v % 16 == 0 then RR_UNMAP_FIRST[v / 16] else UNMAP_ROW[v % 16 - 1]
  }

  lemma LowZeroNibble(n: nat)
    ensures LowZero(n) == if n % 16 == 15 then 4 + LowZero(n / 16) else UNMAP_ROW[n % 16]
  {
    var a, b, c := n / 2, n / 2 / 2, n / 2 / 2 / 2;
    assert c / 2 == n / 16;
    assert LowZero(n) == if n % 2 == 0 then 0 else 1 + LowZero(a);
    assert LowZero(a) == if a % 2 == 0 then 0 else 1 + LowZero(b);
    assert LowZero(b) == if b % 2 == 0 then 0 else 1 + LowZero(c);
    assert LowZero(c) == if c % 2 == 0 then 0 else 1 + LowZero(n / 16);
    assert n % 16 == n % 2 + 2 * (a % 2) + 4 * (b % 2) + 8 * (c % 2);
  }

  lemma LowOneNibble(n: nat)
    requires n > 0
    ensures LowOne(n) == if n % 16 == 0 then 4 + LowOne(n / 16) else UNMAP_ROW[n % 16 - 1]
  {
    var a, b, c := n / 2, n / 2 / 2, n / 2 / 2 / 2;
    assert c / 2 == n / 16;
    assert n % 16 == n % 2 + 2 * (a % 2) + 4 * (b % 2) + 8 * (c % 2);
    assert LowOne(n) == if n % 2 == 1 then 0 else 1 + LowOne(a);
    assert n % 2 == 0 ==> LowOne(a) == if a % 2 == 1 then 0 else 1 + LowOne(b);
    assert n % 4 == 0 ==> LowOne(b) == if b % 2 == 1 then 0 else 1 + LowOne(c);
    assert n % 8 == 0 ==> LowOne(c) == if c % 2 == 1 then 0 else 1 + LowOne(n / 16);
  }

  /** The table of pid.c finds the lowest zero digit of a byte, or 8. */
  lemma UnmapIs(v: nat)
    requires v < 256
    ensures Unmap(v) == LowZero(v)
  {
    assert LowZero(0) == 0;
    hide LowZero;
    LowZeroNibble(v);
    if v % 16 == 15 {
      LowZeroNibble(v / 16);
      assert v / 16 / 16 == 0;
    }
  }

  /** The table of sched_rr.c finds the lowest one digit of a byte. */
  lemma RrUnmapIs(v: nat)
    requires 0 < v < 256
    ensures RrUnmap(v) == LowOne(v)
  {
    hide LowOne;
    LowOneNibble(v);
    if v % 16 == 0 { LowOneNibble(v / 16); }
  }

  // ---- bounds and the two extreme words --------------------------------------------

  lemma {:induction false} OrBelow(a: nat, b: nat, w: nat)
    requires a < Pow2(w) && b < Pow2(w)
    ensures Or(a, b) < Pow2(w)
    decreases w
  {
    if a != 0 && w > 0 { OrBelow(a / 2, b / 2, w - 1); }
  }

  lemma {:induction false} AndNotLe(a: nat, b: nat)
    ensures AndNot(a, b) <= a
  {
    if a != 0 { AndNotLe(a / 2, b / 2); }
  }

  ghost predicate AllOnes(n: nat, w: nat) {
    forall k: nat :: k < w ==> Bit(n, k)
  }

  ghost predicate NoOnes(n: nat, w: nat) {
    forall k: nat :: k < w ==> !Bit(n, k)
  }

  lemma {:induction false} AllOnesIs(n: nat, w: nat)
    requires n < Pow2(w)
    ensures AllOnes(n, w) <==> n == Pow2(w) - 1
    decreases w
  {
    if w > 0 {
      AllOnesIs(n / 2, w - 1);
      if AllOnes(n, w) {
        assert Bit(n, 0);
        forall k: nat | k < w - 1 ensures Bit(n / 2, k) { assert Bit(n, k + 1); }
      }
      if n == Pow2(w) - 1 {
        forall k: nat | k < w ensures Bit(n, k) { if k > 0 { assert Bit(n / 2, k - 1); } }
      }
    }
  }

  lemma {:induction false} NoOnesIs(n: nat, w: nat)
    requires n < Pow2(w)
    ensures NoOnes(n, w) <==> n == 0
    decreases w
  {
    if w > 0 {
      NoOnesIs(n / 2, w - 1);
      if NoOnes(n, w) {
        assert !Bit(n, 0);
        forall k: nat | k < w - 1 ensures !Bit(n / 2, k) { assert !Bit(n, k + 1); }
      }
    }
    if n == 0 { forall k: nat | k < w ensures !Bit(n, k) { BitZero(k); } }
  }

  lemma Nibble(n: nat)
    ensures var b, c, d := n / 2, n / 2 / 2, n / 2 / 2 / 2;
      d / 2 == n / 16 && n % 16 == n % 2 + 2 * (b % 2) + 4 * (c % 2) + 8 * (d % 2)
  {
  }

  /** One step along an odd mask. */
  lemma AndOdd(n: nat, m: nat)
    ensures And(n, 2 * m + 1) == n % 2 + 2 * And(n / 2, m)
  {
    AndStep(n, 2 * m + 1);
    assert (2 * m + 1) / 2 == m;
  }

  lemma AndNibble(n: nat, m: nat)
    ensures And(n, 16 * m + 15) == n % 16 + 16 * And(n / 16, m)
  {
    hide And;
    AndOdd(n, 8 * m + 7);
    AndOdd(n / 2, 4 * m + 3);
    AndOdd(n / 2 / 2, 2 * m + 1);
    AndOdd(n / 2 / 2 / 2, m);
    Nibble(n);
  }

  /** The low byte of a word. */
  lemma AndByte(n: nat)
    ensures And(n, 0xFF) == n % 256
  {
    assert And(n / 16 / 16, 0) == 0;
    hide And;
    AndNibble(n, 15);
    AndNibble(n / 16, 0);
    Byte(n);
  }

  lemma Byte(n: nat)
    ensures n % 256 == n % 16 + 16 * (n / 16 % 16)
  {
  }

  /** A word of two bytes, searched the way alloc_pid does. */
  lemma LowZeroByte(n: nat)
    ensures LowZero(n) == if n % 256 == 255 then 8 + LowZero(n / 256) else LowZero(n % 256)
  {
    assert LowZero(0) == 0;
    hide LowZero;
    var q := n / 16;
    LowZeroNibble(n);
    LowZeroNibble(q);
    LowZeroNibble(n % 256);
    LowZeroNibble(q % 16);
    assert n % 256 % 16 == n % 16 && n % 256 / 16 == q % 16 && q / 16 == n / 256;
    assert q % 16 / 16 == 0 && q % 16 % 16 == q % 16;
  }
}
