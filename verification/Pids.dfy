/** Process numbers: a bitmap of sixteen rows of sixteen, and a group word that
    marks the full rows. */
module Pids {
  import opened Bits
  import opened Bitmaps

  /** The numbers marked in the rows. */
  function Marked(tbl: seq<nat>): set<nat>
    requires |tbl| == 16
  {
    set p: nat | p < 256 && Bit(tbl[p / 16], p % 16)
  }

  /** The group word marks exactly the full rows. */
  ghost predicate Grouped(grp: nat, tbl: seq<nat>) {
    && |tbl| == 16 && grp < 0x10000 && (forall y :: 0 <= y < 16 ==> tbl[y] < 0x10000)
    && (forall y: nat {:trigger tbl[y]} :: y < 16 ==> (Bit(grp, y) <==> tbl[y] == 0xFFFF))
  }

  lemma {:induction false} Pow2_16()
    ensures Pow2(16) == 0x10000
  {
    assert Pow2(4) == 16;
    assert Pow2(8) == 16 * Pow2(4);
    assert Pow2(12) == 16 * Pow2(8);
    assert Pow2(16) == 16 * Pow2(12);
  }

  /** map[x] is a word, and or-ing it in sets digit x only. */
  lemma SetDigit(w: nat, x: nat)
    requires w < 0x10000 && x < 16
    ensures var v := Or(w, Pow2(x)); v < 0x10000 && (forall k: nat :: Bit(v, k) <==> Bit(w, k) || k == x)
  {
    Pow2_16();
    Pow2Mono(x, 16);
    OrBelow(w, Pow2(x), 16);
    forall k: nat ensures Bit(Or(w, Pow2(x)), k) <==> Bit(w, k) || k == x {
      OrBit(w, Pow2(x), k);
      BitPow2(x, k);
    }
  }

  lemma ClearDigit(w: nat, x: nat)
    requires w < 0x10000
    ensures var v := AndNot(w, Pow2(x)); v < 0x10000 && (forall k: nat :: Bit(v, k) <==> Bit(w, k) && k != x)
  {
    AndNotLe(w, Pow2(x));
    forall k: nat ensures Bit(AndNot(w, Pow2(x)), k) <==> Bit(w, k) && k != x {
      AndNotBit(w, Pow2(x), k);
      BitPow2(x, k);
    }
  }

  lemma FullWord(w: nat)
    requires w < 0x10000
    ensures w == 0xFFFF <==> AllOnes(w, 16)
  {
    Pow2_16();
    AllOnesIs(w, 16);
  }

  /** The result of alloc_pid on rows and group word. */
  lemma Least(grp: nat, tbl: seq<nat>, y: nat, x: nat)
    requires Grouped(grp, tbl) && grp != 0xFFFF && y == LowZero(grp)
    requires y < 16 ==> x == LowZero(tbl[y])
    ensures y < 16 && x < 16 && 16 * y + x !in Marked(tbl) && tbl[y] != 0xFFFF
    ensures forall p: nat :: p < 16 * y + x ==> p in Marked(tbl)
  {
    FullWord(grp);
    LowZeroIs(grp);
    LowZeroIs(tbl[y]);
    FullWord(tbl[y]);
    forall p: nat | p < 16 * y + x ensures p in Marked(tbl) {
      if p / 16 < y {
        FullWord(tbl[p / 16]);
        assert Bit(grp, p / 16);
      }
    }
  }

  lemma AllTaken(grp: nat, tbl: seq<nat>)
    requires Grouped(grp, tbl)
    ensures grp == 0xFFFF <==> forall p: nat :: p < 256 ==> p in Marked(tbl)
  {
    if grp == 0xFFFF {
      FullWord(grp);
      forall p: nat | p < 256 ensures p in Marked(tbl) {
        FullWord(tbl[p / 16]);
        assert Bit(grp, p / 16);
      }
    } else {
      LowZeroIs(grp);
      FullWord(grp);
      Least(grp, tbl, LowZero(grp), LowZero(tbl[LowZero(grp)]));
    }
  }

  lemma MarkOne(tbl: seq<nat>, y: nat, x: nat, v: nat)
    requires |tbl| == 16 && y < 16 && x < 16 && forall k: nat :: Bit(v, k) <==> Bit(tbl[y], k) || k == x
    ensures Marked(tbl[y := v]) == Marked(tbl) + {16 * y + x}
  {
    var t := tbl[y := v];
    forall p: nat | p < 256 ensures p in Marked(t) <==> p in Marked(tbl) || p == 16 * y + x {}
  }

  lemma UnmarkOne(tbl: seq<nat>, y: nat, x: nat, v: nat)
    requires |tbl| == 16 && y < 16 && x < 16 && forall k: nat :: Bit(v, k) <==> Bit(tbl[y], k) && k != x
    ensures Marked(tbl[y := v]) == Marked(tbl) - {16 * y + x}
  {
    var t := tbl[y := v];
    forall p: nat | p < 256 ensures p in Marked(t) <==> p in Marked(tbl) && p != 16 * y + x {}
  }

  /** alloc_pid's choice of a digit in a word that is not full. */
  method FirstZero(w: nat) returns (x: nat)
    requires w < 0xFFFF
    ensures x == LowZero(w)
  {
    AndByte(w);
    LowZeroByte(w);
    if And(w, 0xFF) != 0xFF {
      UnmapIs(And(w, 0xFF));
      x := Unmap(And(w, 0xFF));
    } else {
      UnmapIs(w / 256);
      x := Unmap(w / 256) + 8;
    }
  }

  class PidMap {
    var grp: nat
    const tbl: array<nat>

    ghost predicate Valid()
      reads this, tbl
    {
      Grouped(grp, tbl[..])
    }

    /** The numbers in use. */
    ghost function Used(): set<nat>
      reads this, tbl
      requires Valid()
    {
      Marked(tbl[..])
    }

    constructor ()
      ensures Valid() && Used() == {} && fresh(tbl)
    {
      grp := 0;
      tbl := new nat[16](i => 0);
      new;
      assert forall y :: 0 <= y < 16 ==> tbl[..][y] == 0;
      forall k: nat ensures !Bit(0, k) { BitZero(k); }
    }

    /** alloc_pid: the least free number, or INVALID_PID if there is none. */
    method Alloc() returns (pid: nat)
      requires Valid()
      modifies this, tbl
      ensures Valid() && pid < 256
      ensures if forall p: nat :: p < 256 ==> p in old(Used()) then pid == 0 && Used() == old(Used())
              else pid !in old(Used()) && Used() == old(Used()) + {pid} && forall p: nat :: p < pid ==> p in old(Used())
    {
      AllTaken(grp, tbl[..]);
      if grp == 0xFFFF {
        return 0;
      }
      var y := FirstZero(grp);
      Least(grp, tbl[..], y, if y < 16 then LowZero(tbl[y]) else 0);
      var x := FirstZero(tbl[y]);
      pid := 16 * y + x;
      assert pid < 256 && pid !in Used();
      ghost var rows := tbl[..];
      SetDigit(tbl[y], x);
      MarkOne(rows, y, x, Or(tbl[y], Pow2(x)));
      tbl[y] := Or(tbl[y], Pow2(x));
      assert tbl[..] == rows[y := tbl[y]];
      SetDigit(grp, y);
      if tbl[y] == 0xFFFF {
        grp := Or(grp, Pow2(y));
      }
    }

    /** free_pid. */
    method Free(pid: nat)
      requires Valid() && pid < 256
      modifies this, tbl
      ensures Valid() && Used() == old(Used()) - {pid}
    {
      var y, x := pid / 16, pid % 16;
      ghost var rows := tbl[..];
      ClearDigit(tbl[y], x);
      UnmarkOne(rows, y, x, AndNot(tbl[y], Pow2(x)));
      ClearDigit(grp, y);
      tbl[y] := AndNot(tbl[y], Pow2(x));
      assert tbl[..] == rows[y := tbl[y]];
      FullWord(tbl[y]);
      grp := AndNot(grp, Pow2(y));
    }
  }
}
