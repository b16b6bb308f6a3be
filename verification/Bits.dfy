/** Unsigned words as natural numbers: powers of two, bit tests and the
    bitwise operators of C, all defined by recursion on the binary digits. */
module Bits {

  function Pow2(k: nat): (p: nat)
    ensures p >= 1
  {
    if k == 0 then 1 else 2 * Pow2(k - 1)
  }

  /** Bit k of n. */
  predicate Bit(n: nat, k: nat)
    decreases k
  {
    if k == 0 then n % 2 == 1 else Bit(n / 2, k - 1)
  }

  function And(a: nat, b: nat): nat {
    if a == 0 || b == 0 then 0
    else (if a % 2 == 1 && b % 2 == 1 then 1 else 0) + 2 * And(a / 2, b / 2)
  }

  function Or(a: nat, b: nat): nat {
    if a == 0 then b
    else (if a % 2 == 1 || b % 2 == 1 then 1 else 0) + 2 * Or(a / 2, b / 2)
  }

  function Xor(a: nat, b: nat): nat
    decreases a + b
  {
    if a == 0 then b else if b == 0 then a
    else (if a % 2 != b % 2 then 1 else 0) + 2 * Xor(a / 2, b / 2)
  }

  /** a & ~b */
  function AndNot(a: nat, b: nat): nat {
    if a == 0 then 0
    else (if a % 2 == 1 && b % 2 == 0 then 1 else 0) + 2 * AndNot(a / 2, b / 2)
  }

  /** n is a multiple of 2^k. */
  predicate Aligned(n: nat, k: nat)
    decreases k
  {
    k == 0 || (n % 2 == 0 && Aligned(n / 2, k - 1))
  }

  /** Aligned(n, k) says exactly that n is q * 2^k for some q. */
  lemma {:induction false} AlignedQuotient(n: nat, k: nat) returns (q: nat)
    requires Aligned(n, k)
    ensures n == q * Pow2(k)
    decreases k
  {
    if k == 0 { q := n; } else { q := AlignedQuotient(n / 2, k - 1); }
  }

  lemma {:induction false} MultipleAligned(q: nat, k: nat)
    ensures Aligned(q * Pow2(k), k)
    decreases k
  {
    if k > 0 {
      MultipleAligned(q, k - 1);
      var m := q * Pow2(k - 1);
      assert q * Pow2(k) == 2 * m;
    }
  }

  lemma {:induction false} Pow2Mono(a: nat, b: nat)
    requires a <= b
    ensures Pow2(a) <= Pow2(b)
    ensures a < b ==> 2 * Pow2(a) <= Pow2(b)
  {
    if a < b { Pow2Mono(a, b - 1); }
  }

  // ---- single bits -------------------------------------------------------

  lemma {:induction false} BitZero(k: nat)
    ensures !Bit(0, k)
  {
    if k > 0 { BitZero(k - 1); }
  }

  /** In a number below 2^(k+1), bit k says whether the number reaches 2^k. */
  lemma {:induction false} BitTop(n: nat, k: nat)
    requires n < Pow2(k + 1)
    ensures Bit(n, k) <==> n >= Pow2(k)
    decreases k
  {
    if k > 0 { BitTop(n / 2, k - 1); }
  }

  lemma {:induction false} BitPow2(j: nat, k: nat)
    ensures Bit(Pow2(j), k) <==> j == k
    decreases k
  {
    if k > 0 {
      if j > 0 { BitPow2(j - 1, k - 1); } else { BitZero(k - 1); }
    }
  }

  /** The test `(n & (1 << k)) != 0`. */
  lemma {:induction false} AndPow2(n: nat, k: nat)
    ensures And(n, Pow2(k)) == if Bit(n, k) then Pow2(k) else 0
    decreases k
  {
    if n == 0 { BitZero(k); }
    else if k > 0 { AndPow2(n / 2, k - 1); }
    else { assert And(n / 2, 0) == 0; }
  }

  lemma {:induction false} OrBit(a: nat, b: nat, k: nat)
    ensures Bit(Or(a, b), k) <==> Bit(a, k) || Bit(b, k)
    decreases k
  {
    if a == 0 { BitZero(k); }
    else if k > 0 { OrBit(a / 2, b / 2, k - 1); }
  }

  lemma {:induction false} AndNotBit(a: nat, b: nat, k: nat)
    ensures Bit(AndNot(a, b), k) <==> Bit(a, k) && !Bit(b, k)
    decreases k
  {
    if a == 0 { BitZero(k); }
    else if k > 0 { AndNotBit(a / 2, b / 2, k - 1); }
  }

  lemma AndStep(a: nat, b: nat)
    ensures And(a, b) == (if a % 2 == 1 && b % 2 == 1 then 1 else 0) + 2 * And(a / 2, b / 2)
  {
  }

  lemma MaskHalf(k: nat)
    requires k > 0
    ensures (Pow2(k) - 1) % 2 == 1 && (Pow2(k) - 1) / 2 == Pow2(k - 1) - 1
  {
  }

  /** `n & (2^k - 1)` is the remainder modulo 2^k. */
  lemma {:induction false} AndMask(n: nat, k: nat)
    ensures And(n, Pow2(k) - 1) < Pow2(k)
    ensures And(n, Pow2(k) - 1) <= n
    ensures Aligned(n - And(n, Pow2(k) - 1), k)
    decreases k
  {
    hide And, Aligned;
    if k == 0 {
      NoMask(n);
    } else {
      AndMask(n / 2, k - 1);
      MaskHalf(k);
      AndStep(n, Pow2(k) - 1);
      Halves(n, And(n, Pow2(k) - 1), And(n / 2, Pow2(k - 1) - 1));
      AlignedTwice(n - And(n, Pow2(k) - 1), k);
    }
  }

  lemma NoMask(n: nat)
    ensures And(n, 0) == 0 && Aligned(n, 0)
  {
  }

  lemma AlignedTwice(x: nat, k: nat)
    requires k > 0 && x % 2 == 0 && Aligned(x / 2, k - 1)
    ensures Aligned(x, k)
  {
  }

  lemma Halves(n: nat, m: nat, h: nat)
    requires m == n % 2 + 2 * h && h <= n / 2
    ensures m <= n && (n - m) % 2 == 0 && (n - m) / 2 == n / 2 - h
  {
  }

  // ---- alignment and buddies ---------------------------------------------

  lemma {:induction false} AlignedZero(k: nat)
    ensures Aligned(0, k)
  {
    if k > 0 { AlignedZero(k - 1); }
  }

  lemma {:induction false} AlignedUp(n: nat, k: nat)
    ensures Aligned(n, k + 1) <==> Aligned(n, k) && !Bit(n, k)
    decreases k
  {
    if k > 0 { AlignedUp(n / 2, k - 1); }
  }

  lemma {:induction false} AlignedDown(n: nat, j: nat, k: nat)
    requires j <= k && Aligned(n, k)
    ensures Aligned(n, j)
  {
    if j > 0 { AlignedDown(n / 2, j - 1, k - 1); }
  }

  /** Sums of multiples are multiples, and 2^k flips bit k. */
  lemma {:induction false} AlignedAdd(n: nat, m: nat, k: nat)
    requires Aligned(n, k)
    ensures Aligned(m, k) <==> Aligned(n + m, k)
    ensures Aligned(m, k) ==> (Bit(n + m, k) <==> Bit(n, k) != Bit(m, k))
    decreases k
  {
    if k > 0 {
      AlignedAdd(n / 2, m / 2, k - 1);
      if m % 2 == 0 { assert (n + m) / 2 == n / 2 + m / 2; }
    }
  }

  lemma {:induction false} AlignedPow2(k: nat)
    ensures Aligned(Pow2(k), k)
  {
    if k > 0 {
      AlignedPow2(k - 1);
      assert Pow2(k) % 2 == 0 && Pow2(k) / 2 == Pow2(k - 1);
    }
  }

  lemma AlignedStep(n: nat, k: nat)
    requires Aligned(n, k)
    ensures Aligned(n + Pow2(k), k)
    ensures Bit(n + Pow2(k), k) <==> !Bit(n, k)
  {
    AlignedPow2(k); BitPow2(k, k); AlignedAdd(n, Pow2(k), k);
  }

  /** Distinct multiples of 2^k are at least 2^k apart. */
  lemma {:induction false} AlignedGap(f: nat, g: nat, k: nat)
    requires Aligned(f, k) && Aligned(g, k) && f < g
    ensures f + Pow2(k) <= g
    decreases k
  {
    if k > 0 { AlignedGap(f / 2, g / 2, k - 1); }
  }

  /** Two aligned blocks are nested or disjoint. */
  lemma Nested(f: nat, a: nat, g: nat, b: nat)
    requires a <= b && Aligned(f, a) && Aligned(g, b)
    ensures f < g ==> f + Pow2(a) <= g
    ensures g <= f < g + Pow2(b) ==> f + Pow2(a) <= g + Pow2(b)
  {
    AlignedDown(g, a, b);
    AlignedStep(g, b);
    AlignedDown(g + Pow2(b), a, b);
    if f < g { AlignedGap(f, g, a); }
    if f < g + Pow2(b) { AlignedGap(f, g + Pow2(b), a); }
  }

  lemma {:induction false} BitLe(n: nat, k: nat)
    requires Bit(n, k)
    ensures Pow2(k) <= n
    decreases k
  {
    if k > 0 { BitLe(n / 2, k - 1); }
  }

  /** `n ^ (1 << k)` flips bit k. */
  lemma {:induction false} XorPow2(n: nat, k: nat)
    ensures Bit(n, k) ==> n >= Pow2(k)
    ensures Xor(n, Pow2(k)) == if Bit(n, k) then n - Pow2(k) else n + Pow2(k)
    decreases k
  {
    if n == 0 { BitZero(k); }
    else if k > 0 { XorPow2(n / 2, k - 1); }
  }

  lemma {:induction false} AndSelf(n: nat)
    ensures And(n, n) == n
  {
    if n > 0 { AndSelf(n / 2); }
  }

  lemma XorHalf(n: nat, k: nat)
    ensures k > 0 ==> Xor(n, Pow2(k)) / 2 == Xor(n / 2, Pow2(k - 1)) && Xor(n, Pow2(k)) % 2 == n % 2
    ensures k == 0 ==> Xor(n, Pow2(k)) / 2 == n / 2 && Xor(n, Pow2(k)) % 2 != n % 2
  {
    XorPow2(n, k);
    if k > 0 {
      XorPow2(n / 2, k - 1);
      assert Pow2(k) == 2 * Pow2(k - 1);
    }
  }

  /** Of n and its buddy n ^ (1 << k), `&` selects the one with bit k clear. */
  lemma {:induction false} AndBuddy(n: nat, k: nat)
    ensures And(n, Xor(n, Pow2(k))) == if Bit(n, k) then Xor(n, Pow2(k)) else n
    decreases k
  {
    var m := Xor(n, Pow2(k));
    AndStep(n, m);
    XorHalf(n, k);
    if k > 0 { AndBuddy(n / 2, k - 1); } else { AndSelf(n / 2); }
  }

  /** A block and its buddy: both aligned, adjacent, and mutual buddies; the
      lower one is where the merged block of twice the size starts. */
  lemma BuddyPair(n: nat, k: nat)
    requires Aligned(n, k)
    ensures var m := Xor(n, Pow2(k));
            && Aligned(m, k) && Xor(m, Pow2(k)) == n
            && m == (if Bit(n, k) then n - Pow2(k) else n + Pow2(k))
            && And(n, m) == (if Bit(n, k) then m else n)
            && Aligned(And(n, m), k + 1)
  {
    XorPow2(n, k); AndBuddy(n, k);
    if Bit(n, k) {
      var m := n - Pow2(k);
      AlignedPow2(k); AlignedAdd(Pow2(k), m, k); AlignedStep(m, k);
      AlignedUp(m, k); XorPow2(m, k);
    } else {
      AlignedStep(n, k); AlignedUp(n, k); XorPow2(n + Pow2(k), k);
    }
  }

  // ---- the low digits of a number -------------------------------------------

  /** The number formed by the k lowest bits of n. */
  function Low(n: nat, k: nat): nat
    decreases k
  {
    if k == 0 then 0 else n % 2 + 2 * Low(n / 2, k - 1)
  }

  lemma {:induction false} LowStep(n: nat, k: nat)
    ensures Low(n, k) < Pow2(k) && Low(n, k) <= n
    ensures Low(n, k + 1) == Low(n, k) + (if Bit(n, k) then Pow2(k) else 0)
    ensures Aligned(n - Low(n, k), k)
    decreases k
  {
    if k > 0 {
      LowStep(n / 2, k - 1);
      assert (n - Low(n, k)) / 2 == n / 2 - Low(n / 2, k - 1);
    } else {
      assert Low(n, 1) == n % 2 + 2 * Low(n / 2, 0);
    }
  }

  lemma {:induction false} LowAll(n: nat, k: nat)
    requires n < Pow2(k)
    ensures Low(n, k) == n
    decreases k
  {
    if k > 0 { LowAll(n / 2, k - 1); }
  }

  /** Among the low k+1 bits, the top one is bit k of n itself. */
  lemma {:induction false} LowTop(n: nat, k: nat)
    ensures Bit(Low(n, k + 1), k) <==> Bit(n, k)
    decreases k
  {
    if k > 0 { LowTop(n / 2, k - 1); }
    else { assert Low(n, 1) == n % 2 + 2 * Low(n / 2, 0); }
  }

  /** A multiple of 2^k below 2^k is zero. */
  lemma AlignedSmall(n: nat, k: nat)
    requires Aligned(n, k) && n < Pow2(k)
    ensures n == 0
  {
    AlignedZero(k);
    if n > 0 { AlignedGap(0, n, k); }
  }
}
