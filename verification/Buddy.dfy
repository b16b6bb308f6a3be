/** The buddy frame allocator: initialisation, allocation with splitting and
    trimming, and piecewise freeing with merging. */
module Buddy {
  import opened Bits
  import opened BuddyBlocks
  import opened BuddyCanonical
  import opened BuddySteps
  import opened Seqs
  import opened Wrappers

  const FRAME_SIZE: nat := 4096

  /** The least k with n <= 2^k. */
  function CeilOrder(n: nat): nat {
    if n <= 1 then 0 else 1 + CeilOrder((n + 1) / 2)
  }

  lemma {:induction false} CeilOrderIsLeast(n: nat, k: nat)
    ensures n <= Pow2(k) <==> CeilOrder(n) <= k
    decreases n
  {
    if n > 1 && k > 0 { CeilOrderIsLeast((n + 1) / 2, k - 1); }
  }

  /** ceil_order: above 2048 frames the result is 12, not MAX_ORDER + 1. */
  method CeilOrderLoop(n: nat) returns (order: nat)
    ensures order == if n <= 2048 then CeilOrder(n) else 12
    ensures order <= MAX_ORDER <==> n <= 1024
  {
    order := 0;
    while order <= MAX_ORDER + 1 && Pow2(order) < n
      invariant order <= MAX_ORDER + 2
      invariant order > 0 ==> Pow2(order - 1) < n
    {
      order := order + 1;
    }
    CeilOrderIsLeast(n, order);
    if order > 0 { CeilOrderIsLeast(n, order - 1); }
    CeilOrderIsLeast(n, 10); CeilOrderIsLeast(n, 11);
    assert Pow2(10) == 1024 && Pow2(11) == 2048;
  }

  /** Frames from fr up to the next multiple of 1024. */
  function HeadSize(fr: nat): nat {
    AndMask(fr, MAX_ORDER);
    Pow2(MAX_ORDER) - And(fr, Pow2(MAX_ORDER) - 1)
  }

  lemma HeadBound(fr: nat)
    ensures 1 <= HeadSize(fr) <= Pow2(MAX_ORDER) && Aligned(fr + HeadSize(fr), MAX_ORDER)
  {
    AndMask(fr, MAX_ORDER);
    AlignedStep(fr - And(fr, Pow2(MAX_ORDER) - 1), MAX_ORDER);
  }

  class Allocator {
    const tab: array<Frame>      // the flag words of frame_tab
    var dir: Lists               // buddy_dir[od].head
    var len: seq<nat>            // buddy_dir[od].list_len
    var startAddr: nat
    var endAddr: nat
    ghost var lo: nat
    ghost var hi: nat
    ghost var live: map<nat, nat>

    /** The state mm_init leaves for buddy_init: every flag word is 0xF. */
    constructor ()
      ensures Fresh() && fresh(tab)
    {
      tab := new Frame[MAX_FRAME_NUM](_ => Frame(NO_ORDER, false, false));
      dir, len := [], [];
      startAddr, endAddr, lo, hi, live := 0, 0, 0, 0, map[];
    }

    ghost predicate Fresh()
      reads this, tab
    {
      tab.Length == MAX_FRAME_NUM && forall i :: 0 <= i < tab.Length ==> tab[i] == Frame(NO_ORDER, false, false)
    }

    ghost predicate Lengths()
      reads this
    {
      |dir| == MAX_ORDER + 1 == |len| && forall od :: 0 <= od <= MAX_ORDER ==> len[od] == |dir[od]|
    }

    /** Everything but the outstanding allocations. */
    ghost predicate Ok()
      reads this, tab
    {
      && tab.Length == MAX_FRAME_NUM && Lengths()
      && startAddr == FRAME_SIZE * lo && endAddr == FRAME_SIZE * hi
      && Closed(tab[..], dir, lo, hi)
    }

    ghost predicate Valid()
      reads this, tab
    {
      Ok() && LiveOk(tab[..], lo, hi, live)
    }

    ghost function Free(): set<nat>
      reads this, tab
    {
      FreeFrames(tab[..])
    }

    // ---- list operations on the directory --------------------------------------

    method AddTail(od: nat, f: nat)
      requires Lengths() && od <= MAX_ORDER
      modifies this`dir, this`len
      ensures Lengths() && dir == Push(old(dir), od, f) && dir == old(dir)[od := old(dir)[od] + [f]]
    {
      dir := dir[od := dir[od] + [f]];
      len := len[od := len[od] + 1];
    }

    method Delete(od: nat, f: nat)
      requires Lengths() && od <= MAX_ORDER && f in dir[od]
      modifies this`dir, this`len
      ensures Lengths() && dir == Drop(old(dir), od, f)
      ensures exists i: nat :: Splices(old(dir)[od], dir[od], f, i)
    {
      WithoutLength(dir[od], f);
      ghost var i := WithoutSplices(dir[od], f);
      dir := dir[od := Without(dir[od], f)];
      assert Splices(old(dir)[od], dir[od], f, i);
      len := len[od := len[od] - 1];
    }

    /** The four lines that every loop repeats: mark frame f as the head of a
        free block of order od and enlist it. */
    method Enlist(f: nat, od: nat)
      requires Lengths() && od <= MAX_ORDER && f < tab.Length
      modifies tab, this`dir, this`len
      ensures Lengths() && dir == Push(old(dir), od, f)
      ensures tab[..] == SetHead(old(tab[..]), f, od, true)
    {
      tab[f] := tab[f].(free := true, order := od);
      AddTail(od, f);
    }

    // ---- buddy_init -----------------------------------------------------------------

    /** buddy_init.  The count must reach the first multiple of 1024 frames:
        the code subtracts the head part from it without a test. */
    method Init(addr: nat, n: nat) returns (ok: bool)
      requires Fresh() && addr / FRAME_SIZE + n <= MAX_FRAME_NUM
      requires addr % FRAME_SIZE == 0 ==> HeadSize(addr / FRAME_SIZE) <= n
      modifies this, tab
      ensures ok <==> addr % FRAME_SIZE == 0
      ensures !ok ==> Fresh() && dir == old(dir) && live == old(live)
      ensures ok ==> Valid() && Free() == Run(addr / FRAME_SIZE, n) && live == map[]
    {
      hide Inv, HeadSize, Filled, FreeFrames, Aligned, And;
      if addr % FRAME_SIZE != 0 { return false; }
      var first := addr / FRAME_SIZE;
      startAddr, endAddr := addr, addr + n * FRAME_SIZE;
      lo, hi, live := first, first + n, map[];
      EmptyLists();
      MarkFrames(first, n);
      FillNothing(tab[..], dir, lo, hi);
      HeadBound(first);
      ghost var bound := first + HeadSize(first);
      HeadStart(tab[..], dir, lo, hi, first, bound);
      var f := FillHead(first, bound);
      FillTail(f, first + n - f);
      ok := true;
      NothingLive(tab[..], dir, lo, hi);
    }

    method EmptyLists()
      modifies this`dir, this`len
      ensures Lengths() && forall k :: 0 <= k <= MAX_ORDER ==> dir[k] == []
    {
      dir, len := [], [];
      var od := 0;
      while od <= MAX_ORDER
        invariant od <= MAX_ORDER + 1 && |dir| == od == |len|
        invariant forall k :: 0 <= k < od ==> dir[k] == [] && len[k] == 0
      {
        dir, len := dir + [[]], len + [0];
        od := od + 1;
      }
    }

    method MarkFrames(first: nat, n: nat)
      requires Fresh() && first + n <= MAX_FRAME_NUM
      modifies tab
      ensures forall i :: 0 <= i < tab.Length ==> tab[i].order == NO_ORDER && (tab[i].valid <==> first <= i < first + n)
    {
      var i := 0;
      while i < n
        invariant 0 <= i <= n
        invariant forall k :: 0 <= k < tab.Length ==>
          tab[k].order == NO_ORDER && (tab[k].valid <==> first <= k < first + i)
      {
        tab[first + i] := Frame(NO_ORDER, true, true);
        i := i + 1;
      }
    }

    /** The frames up to the first multiple of 1024, smallest blocks first. */
    method FillHead(first: nat, ghost bound: nat) returns (f: nat)
      requires tab.Length == MAX_FRAME_NUM && Lengths() && bound == first + HeadSize(first)
      requires HeadPart(tab[..], dir, lo, hi, bound, first, 0)
      modifies tab, this`dir, this`len
      ensures tab.Length == MAX_FRAME_NUM && Lengths()
      ensures f <= hi && Aligned(f, MAX_ORDER) && Filled(tab[..], dir, lo, hi, f)
    {
      var ni := HeadSize(first);
      hide HeadSize, Filled, And, Aligned, Bit, Xor, Inv, FreeFrames;
      f := first;
      var od, sz := 0, 1;
      while ni > 0
        invariant sz == Pow2(od) && f + ni == bound && Lengths()
        invariant HeadPart(tab[..], dir, lo, hi, bound, f, od)
        decreases ni > 0, MAX_ORDER + 1 - od
      {
        AndPow2(ni, od);
        if And(ni, sz) != 0 {
          HeadPiece(tab[..], dir, lo, hi, bound, f, od);
          ghost var next := f + Pow2(od);
          Enlist(f, od);
          f := f + sz;
          assert f == next;
          ni := ni - sz;
        } else {
          HeadSkip(tab[..], dir, lo, hi, bound, f, od);
        }
        od, sz := od + 1, sz * 2;
      }
      assert f == bound;
    }

    /** The rest, largest blocks first. */
    method FillTail(start: nat, count: nat)
      requires tab.Length == MAX_FRAME_NUM && Lengths()
      requires start + count == hi && Aligned(start, MAX_ORDER) && Filled(tab[..], dir, lo, hi, start)
      modifies tab, this`dir, this`len
      ensures tab.Length == MAX_FRAME_NUM && Lengths()
      ensures Filled(tab[..], dir, lo, hi, hi)
    {
      TailStart(tab[..], dir, lo, hi, start);
      hide Filled, Aligned;
      var od, sz, f, n := MAX_ORDER as int, Pow2(MAX_ORDER), start, count;
      while n > 0
        invariant -1 <= od <= MAX_ORDER && (od < 0 ==> n == 0) && (od >= 0 ==> sz == Pow2(od))
        invariant f + n == hi && Lengths() && n >= 0 && f >= 0
        invariant Filled(tab[..], dir, lo, hi, f)
        invariant n > 0 ==> TailPart(tab[..], dir, lo, hi, f, od)
        decreases od
      {
        while n >= sz
          invariant f + n == hi && Lengths() && n >= 0 && f >= 0
          invariant TailPart(tab[..], dir, lo, hi, f, od)
          decreases n
        {
          TailPiece(tab[..], dir, lo, hi, f, od);
          ghost var next := f + Pow2(od);
          Enlist(f, od);
          f := f + sz;
          assert f == next;
          n := n - sz;
        }
        if od > 0 { TailDown(tab[..], dir, lo, hi, f, od); }
        od, sz := od - 1, sz / 2;
      }
      assert f == hi;
    }

    // ---- __buddy_alloc -----------------------------------------------------------

    /** The scan for the first non-empty list of order at least `order`. */
    method FirstNonEmpty(order: nat) returns (od: nat)
      requires |dir| == MAX_ORDER + 1
      ensures od >= order
      ensures order <= MAX_ORDER + 1 ==> od <= MAX_ORDER + 1
      ensures od <= MAX_ORDER ==> dir[od] != []
      ensures forall k :: order <= k < od && k <= MAX_ORDER ==> dir[k] == []
    {
      od := order;
      while od <= MAX_ORDER && dir[od] == []
        invariant order <= od && (order <= MAX_ORDER + 1 ==> od <= MAX_ORDER + 1)
        invariant forall k :: order <= k < od && k <= MAX_ORDER ==> dir[k] == []
        decreases MAX_ORDER + 1 - od
      {
        od := od + 1;
      }
    }

    /** __buddy_alloc: takes the first block of the best-fitting list and gives
        the upper halves back until a block of the requested order is left. */
    method AllocBlock(order: nat) returns (r: Option<nat>)
      requires Ok()
      modifies tab, this`dir, this`len
      ensures Ok()
      ensures r.None? <==> forall od :: order <= od <= MAX_ORDER ==> old(dir)[od] == []
      ensures r.None? ==> tab[..] == old(tab[..]) && dir == old(dir) && len == old(len)
      ensures r.Some? ==>
        && order <= MAX_ORDER && UsedHead(tab[..], r.value) && tab[r.value].order == order
        && FirstFit(old(dir), order, r.value)
        && Run(r.value, Pow2(order)) <= old(Free()) && Free() == old(Free()) - Run(r.value, Pow2(order))
        && UsedKept(old(tab[..]), tab[..], {})
    {
      hide Inv, UsedKept, FreeFrames, Aligned, Xor;
      var od := FirstNonEmpty(order);
      if od > MAX_ORDER { return None; }
      ghost var fs0, F0, od0 := tab[..], Free(), od;
      var fr := dir[od][0];
      TakeFirst(fs0, dir, lo, hi, od, fr, order);
      tab[fr] := tab[fr].(free := false, order := order);
      assert tab[..] == fs0[fr := fs0[fr].(free := false, order := order)];
      Delete(od, fr);
      while od > order
        invariant order <= od <= od0 <= MAX_ORDER && Lengths()
        invariant tab[fr] == Frame(order, true, false)
        invariant InHand(fs0, tab[..], dir, lo, hi, F0, fr, od)
      {
        SplitOff(fs0, tab[..], dir, lo, hi, F0, fr, od);
        od := od - 1;
        var buddy := fr + Pow2(od);
        Enlist(buddy, od);
      }
      KeepBlock(fs0, tab[..], dir, lo, hi, F0, fr, order);
      return Some(fr);
    }

    // ---- buddy_alloc_frames --------------------------------------------------------

    /** The first loop of the trimming: heads the first n frames of the block
        at fr as allocated pieces, largest first. */
    method CutPieces(ghost fs0: Frames, ghost FA: set<nat>, fr: nat, order: nat, n: nat) returns (f: nat)
      requires tab.Length == MAX_FRAME_NUM && Lengths() && order > 0
      requires Cut(fs0, tab[..], dir, lo, hi, FA, fr, order, n, order) && Low(n, order) == n
      modifies tab
      ensures f == fr + n && Pad(fs0, tab[..], dir, lo, hi, FA, fr, order, n, f, 0)
    {
      hide Inv, UsedKept, Unused, FreeFrames, Pieces, PiecesFrom, And, Low, Bit, Aligned, Xor;
      f := fr;
      var ni: nat, od, sz: nat := n, order - 1, Pow2(order - 1);
      while ni > 0
        invariant -1 <= od < order && (od < 0 ==> ni == 0) && (od >= 0 ==> sz == Pow2(od))
        invariant ni == Low(n, od + 1) && f == fr + n - ni
        invariant Cut(fs0, tab[..], dir, lo, hi, FA, fr, order, n, od + 1)
        decreases od
      {
        AndPow2(ni, od); LowTop(n, od); LowStep(n, od);
        if And(ni, sz) != 0 {
          CutPiece(fs0, tab[..], dir, lo, hi, FA, fr, order, n, od);
          ghost var before := tab[..];
          tab[f] := tab[f].(free := false, order := od);
          assert tab[..] == SetHead(before, f, od, false);
          f := f + sz;
          ni := ni - sz;
        } else {
          CutSkip(fs0, tab[..], dir, lo, hi, FA, fr, order, n, od);
        }
        od, sz := od - 1, sz / 2;
      }
      CutDone(fs0, tab[..], dir, lo, hi, FA, fr, order, n, od + 1);
      assert f == fr + n;
    }

    /** The second loop of the trimming: returns the rest of the block to the
        lists, smallest pieces first. */
    method PadRest(ghost fs0: Frames, ghost FA: set<nat>, fr: nat, order: nat, n: nat, start: nat)
      requires tab.Length == MAX_FRAME_NUM && Lengths()
      requires start == fr + n && Pad(fs0, tab[..], dir, lo, hi, FA, fr, order, n, start, 0)
      modifies tab, this`dir, this`len
      ensures tab.Length == MAX_FRAME_NUM && Lengths()
      ensures Trimmed(fs0, tab[..], dir, lo, hi, FA, fr, order, n)
    {
      hide Inv, UsedKept, Unused, FreeFrames, Pieces, And, Low, Bit, Aligned, Xor;
      var ni: nat, od: nat, sz: nat, f: nat := Pow2(order) - n, 0, 1, start;
      while ni > 0
        invariant sz == Pow2(od) && ni == fr + Pow2(order) - f && Lengths()
        invariant Pad(fs0, tab[..], dir, lo, hi, FA, fr, order, n, f, od)
        decreases MAX_ORDER + 1 - od
      {
        AndPow2(ni, od);
        PadBound(fs0, tab[..], dir, lo, hi, FA, fr, order, n, f, od);
        if And(ni, sz) != 0 {
          PadPiece(fs0, tab[..], dir, lo, hi, FA, fr, order, n, f, od);
          ghost var next := f + Pow2(od);
          Enlist(f, od);
          f := f + sz;
          assert f == next;
          ni := ni - sz;
        } else {
          PadSkip(fs0, tab[..], dir, lo, hi, FA, fr, order, n, f, od);
        }
        od, sz := od + 1, sz * 2;
      }
      assert f == fr + Pow2(order);
      PadDone(fs0, tab[..], dir, lo, hi, FA, fr, order, n, od);
    }

    /** The block at fr is cut down to the n frames asked for. */
    method Trim(ghost fs0: Frames, fr: nat, order: nat, n: nat)
      requires Ok() && UsedHead(tab[..], fr) && tab[fr].order == order <= MAX_ORDER && 1 <= n <= Pow2(order)
      requires UsedKept(fs0, tab[..], {}) && Unused(fs0, fr, Pow2(order))
      modifies tab, this`dir, this`len
      ensures tab.Length == MAX_FRAME_NUM && Lengths()
      ensures Trimmed(fs0, tab[..], dir, lo, hi, old(Free()), fr, order, n)
    {
      hide Inv, UsedKept, Unused, FreeFrames, Pieces, And, Low, Bit, Aligned, Xor, Cut, Pad, Trimmed;
      if n != Pow2(order) {
        ghost var FA := Free();
        CutStart(fs0, tab[..], dir, lo, hi, fr, order, n);
        var f := CutPieces(fs0, FA, fr, order, n);
        PadRest(fs0, FA, fr, order, n, f);
      } else {
        WholePiece(fs0, tab[..], dir, lo, hi, fr, order);
      }
    }

    /** buddy_alloc_frames up to the conversion of the frame to an address. */
    method AllocRun(n: nat) returns (r: Option<nat>)
      requires Valid() && n >= 1
      modifies tab, this`dir, this`len, this`live
      ensures Valid()
      ensures r.None? <==> n > 1024 || !exists f: nat :: AlignedRun(old(Free()), f, CeilOrder(n))
      ensures r.None? ==> tab[..] == old(tab[..]) && dir == old(dir) && live == old(live)
      ensures r.Some? ==>
        && Run(r.value, n) <= old(Free()) && Free() == old(Free()) - Run(r.value, n)
        && r.value !in old(live) && live == old(live)[r.value := n]
        && FirstFit(old(dir), CeilOrder(n), r.value)
    {
      hide Inv, UsedKept, Unused, FreeFrames, Pieces, LiveOk, And, Low, Bit, Aligned, Xor, AlignedRun;
      ghost var fs0, F0, dir0 := tab[..], Free(), dir;
      var order := CeilOrderLoop(n);
      var b := AllocBlock(order);
      if order <= MAX_ORDER { Available(fs0, dir0, lo, hi, order); }
      if b.None? { return None; }
      var fr := b.value;
      CeilOrderIsLeast(n, order);
      if order > 0 { CeilOrderIsLeast(n, order - 1); }
      FreeRunUnused(fs0, dir0, lo, hi, fr, Pow2(order));
      Trim(fs0, fr, order, n);
      TrimmedFree(fs0, tab[..], dir, lo, hi, F0, fr, order, n);
      LiveAfterAlloc(fs0, tab[..], lo, hi, live, fr, n);
      live := live[fr := n];
      return Some(fr);
    }

    /** buddy_alloc_frames.  None stands for the NULL of a failed call. */
    method AllocFrames(n: nat) returns (r: Option<nat>)
      requires Valid() && n >= 1
      modifies tab, this`dir, this`len, this`live
      ensures Valid()
      ensures r.None? <==> n > 1024 || !exists f: nat :: AlignedRun(old(Free()), f, CeilOrder(n))
      ensures r.None? ==> tab[..] == old(tab[..]) && dir == old(dir) && live == old(live)
      ensures r.Some? ==>
        var f := r.value / FRAME_SIZE;
        && r.value == FRAME_SIZE * f
        && Run(f, n) <= old(Free()) && Free() == old(Free()) - Run(f, n) && |Free()| == |old(Free())| - n
        && f !in old(live) && live == old(live)[f := n]
        && FirstFit(old(dir), CeilOrder(n), f)
    {
      hide Inv, FreeFrames, LiveOk, AlignedRun, FirstFit, Run;
      var b := AllocRun(n);
      if b.None? { return None; }
      var fr := b.value;
      r := Some(fr * FRAME_SIZE);
      assert r.value / FRAME_SIZE == fr;
      RunSize(fr, n);
    }

    // ---- __buddy_free ----------------------------------------------------------------

    /** __buddy_free: gives the block headed by fr0 back, merged with its buddy
        for as long as that is a free block of the same order. */
    method FreeBlock(fr0: nat)
      requires Ok() && UsedHead(tab[..], fr0)
      modifies tab, this`dir, this`len
      ensures Ok() && UsedKept(old(tab[..]), tab[..], {fr0})
      ensures Free() == old(Free()) + Run(fr0, Pow2(old(tab[fr0].order)))
    {
      hide Inv, UsedKept, FreeFrames, And, Aligned, Xor, InListAt;
      ghost var fs0, F1 := tab[..], Free() + Run(fr0, Pow2(tab[fr0].order));
      MergeStart(fs0, dir, lo, hi, fr0);
      var idx, order := fr0, tab[fr0].order;
      var bd := 0;
      while true
        invariant Lengths() && idx < tab.Length
        invariant Merging(fs0, tab[..], dir, lo, hi, F1, fr0, idx, order)
        decreases MAX_ORDER - order
      {
        MergeMark(fs0, tab[..], dir, lo, hi, F1, fr0, idx, order);
        ghost var before := tab[..];
        tab[idx] := tab[idx].(free := true);
        assert tab[..] == before[idx := before[idx].(free := true)];
        BuddyInTable(idx, order);
        bd := Xor(idx, Pow2(order));
        MergeCheck(fs0, tab[..], dir, lo, hi, F1, fr0, idx, order, bd);
        if !(order < MAX_ORDER && order == tab[bd].order && tab[bd].valid && tab[bd].free) {
          break;
        }
        MergeUp(fs0, tab[..], dir, lo, hi, F1, fr0, idx, order);
        InListMember(dir, order, bd);
        before := tab[..];
        Delete(order, bd);
        idx := And(idx, bd);
        var buddy := Xor(idx, Pow2(order));
        tab[buddy] := tab[buddy].(free := false, order := NO_ORDER);
        tab[idx] := tab[idx].(order := order + 1);
        assert tab[..] == MergedFlags(before, idx, buddy, order);
        order := order + 1;
      }
      MergeDone(fs0, tab[..], dir, lo, hi, F1, fr0, idx, order);
      AddTail(order, idx);
    }

    // ---- buddy_free_frames -------------------------------------------------------------

    /** buddy_free_frames past its tests: frees the run at s. */
    method FreeRun(s: nat, n: nat)
      requires Valid() && s in live && live[s] == n
      modifies tab, this`dir, this`len, this`live
      ensures Valid() && live == old(live) - {s}
      ensures Run(s, n) !! old(Free()) && Free() == old(Free()) + Run(s, n)
    {
      hide Inv, UsedKept, FreeFrames, Pieces, PiecesBelow, LiveOk, And, Low, Bit, Aligned;
      ghost var fs0, F0 := tab[..], Free();
      LiveFacts(fs0, lo, hi, live, s);
      var order := CeilOrderLoop(n);
      CeilOrderIsLeast(n, order);
      Pow2Mono(order, order + 1);
      FreeStart(fs0, dir, lo, hi, s, n, order + 1);
      FreePieces(fs0, F0, s, n, order);
      LiveAfterFree(fs0, tab[..], lo, hi, live, s);
      live := live - {s};
    }

    /** The loop of buddy_free_frames: frees the pieces of the run at s, largest
        first. */
    method FreePieces(ghost fs0: Frames, ghost F0: set<nat>, s: nat, n: nat, order: nat)
      requires Ok() && Freeing(fs0, tab[..], dir, lo, hi, F0, s, n, order + 1) && Low(n, order + 1) == n
      requires order <= MAX_ORDER
      modifies tab, this`dir, this`len
      ensures Ok() && Free() == F0 + Run(s, n) && UsedKept(fs0, tab[..], Run(s, n))
    {
      hide Inv, UsedKept, FreeFrames, PiecesBelow, And, Low, Bit, Aligned;
      var ni: nat, od, sz: nat, f: nat := n, order as int, Pow2(order), s;
      while ni > 0
        invariant -1 <= od <= order && (od < 0 ==> ni == 0) && (od >= 0 ==> sz == Pow2(od))
        invariant ni == Low(n, od + 1) && f == s + n - ni && tab.Length == MAX_FRAME_NUM && Lengths()
        invariant Freeing(fs0, tab[..], dir, lo, hi, F0, s, n, od + 1)
        decreases od
      {
        AndPow2(ni, od); LowTop(n, od); LowStep(n, od);
        if And(ni, sz) != 0 {
          PieceAt(tab[..], s, n, od);
          ghost var before, dir0 := tab[..], dir;
          FreeBlock(f);
          FreePiece(fs0, before, dir0, tab[..], dir, lo, hi, F0, s, n, od);
          f := f + sz;
          ni := ni - sz;
        } else {
          FreeSkip(fs0, tab[..], dir, lo, hi, F0, s, n, od);
        }
        od, sz := od - 1, sz / 2;
      }
      assert n - Low(n, od + 1) == n;
    }

    /** buddy_free_frames.  A call that passes the three tests must give back
        exactly one outstanding allocation. */
    method FreeFramesAt(addr: nat, n: nat) returns (ok: bool)
      requires Valid()
      requires startAddr <= addr < endAddr && addr % FRAME_SIZE == 0 && 0 < n <= 1024 ==>
        addr / FRAME_SIZE in live && live[addr / FRAME_SIZE] == n
      modifies tab, this`dir, this`len, this`live
      ensures Valid()
      ensures ok <==> startAddr <= addr < endAddr && addr % FRAME_SIZE == 0 && n <= 1024
      ensures !ok || n == 0 ==> tab[..] == old(tab[..]) && dir == old(dir) && live == old(live)
      ensures ok && n > 0 ==>
        var s := addr / FRAME_SIZE;
        && live == old(live) - {s}
        && Run(s, n) !! old(Free()) && Free() == old(Free()) + Run(s, n) && |Free()| == |old(Free())| + n
    {
      hide Inv, FreeFrames, LiveOk, Run;
      if !(startAddr <= addr < endAddr) { return false; }
      if addr % FRAME_SIZE != 0 { return false; }
      var order := CeilOrderLoop(n);
      if order > MAX_ORDER { return false; }
      ok := true;
      if n > 0 {
        FreeRun(addr / FRAME_SIZE, n);
        RunSize(addr / FRAME_SIZE, n);
      }
    }
  }

  // ---- what holds over runs of calls -------------------------------------------------------

  /** An allocation followed by its release restores the free lists. */
  method AllocThenFree(b: Allocator, n: nat)
    requires b.Valid() && 1 <= n
    modifies b.tab, b`dir, b`len, b`live
    ensures b.Valid() && b.Free() == old(b.Free()) && b.live == old(b.live)
    ensures forall od :: 0 <= od <= MAX_ORDER ==> multiset(b.dir[od]) == multiset(old(b.dir)[od])
  {
    ghost var fs0, dir0 := b.tab[..], b.dir;
    var r := b.AllocRun(n);
    if r.Some? {
      b.FreeRun(r.value, n);
      assert b.Free() == old(b.Free());
    }
    forall od | 0 <= od <= MAX_ORDER ensures multiset(b.dir[od]) == multiset(dir0[od]) {
      Determined(b.tab[..], b.dir, b.lo, b.hi, fs0, dir0, b.lo, b.hi, od);
    }
  }

  ghost function Elems(s: seq<nat>): set<nat> {
    set x | x in s
  }

  /** The frames of the allocations that start at the members of S. */
  ghost function RunsOf(live: map<nat, nat>, S: set<nat>): set<nat>
    requires S <= live.Keys
  {
    set s, i | s in S && i in Run(s, live[s]) :: i
  }

  /** Frees the given outstanding allocations one after the other. */
  method FreeEach(b: Allocator, starts: seq<nat>, sizes: map<nat, nat>)
    requires b.Valid() && NoDup(starts) && (forall s :: s in starts ==> s in sizes) && sizes == b.live
    modifies b.tab, b`dir, b`len, b`live
    ensures b.Valid() && b.Free() == old(b.Free()) + RunsOf(sizes, Elems(starts))
  {
    hide FreeFrames, LiveOk, Inv;
    ghost var F0 := b.Free();
    assert RunsOf(sizes, {}) == {};
    var k := 0;
    while k < |starts|
      invariant 0 <= k <= |starts| && b.Valid()
      invariant forall j :: k <= j < |starts| ==> starts[j] in b.live && b.live[starts[j]] == sizes[starts[j]]
      invariant b.Free() == F0 + RunsOf(sizes, Elems(starts[..k]))
    {
      var s := starts[k];
      b.FreeRun(s, sizes[s]);
      RunsOfNext(sizes, starts, k);
      k := k + 1;
    }
    assert starts[..k] == starts;
  }

  lemma RunsOfNext(live: map<nat, nat>, starts: seq<nat>, k: nat)
    requires k < |starts| && forall j :: 0 <= j <= k ==> starts[j] in live
    ensures RunsOf(live, Elems(starts[..k + 1])) == RunsOf(live, Elems(starts[..k])) + Run(starts[k], live[starts[k]])
  {
    assert starts[..k + 1] == starts[..k] + [starts[k]];
  }

  /** Freeing the same allocations in two different orders leads two equal
      allocators to the same free lists, up to the order of their elements. */
  method FreeInTwoOrders(a: Allocator, b: Allocator, s: seq<nat>, t: seq<nat>, sizes: map<nat, nat>)
    requires a != b && a.tab != b.tab && a.Valid() && b.Valid()
    requires a.Free() == b.Free() && a.live == b.live == sizes
    requires NoDup(s) && NoDup(t) && (forall x :: x in s <==> x in t) && forall x :: x in s ==> x in sizes
    modifies a.tab, a`dir, a`len, a`live, b.tab, b`dir, b`len, b`live
    ensures a.Valid() && b.Valid() && a.Free() == b.Free()
    ensures forall od :: 0 <= od <= MAX_ORDER ==> multiset(a.dir[od]) == multiset(b.dir[od])
  {
    FreeEach(a, s, sizes);
    FreeEach(b, t, sizes);
    assert Elems(s) == Elems(t);
    forall od | 0 <= od <= MAX_ORDER ensures multiset(a.dir[od]) == multiset(b.dir[od]) {
      Determined(a.tab[..], a.dir, a.lo, a.hi, b.tab[..], b.dir, b.lo, b.hi, od);
    }
  }

  /** Once nothing is outstanding, every managed frame is free, and the lists
      are those of the state fs0, dir0 that buddy_init built, up to the order of
      their elements. */
  lemma AllReturned(a: Allocator, fs0: Frames, dir0: Lists)
    requires a.Valid() && a.live == map[]
    requires Closed(fs0, dir0, a.lo, a.hi) && FreeFrames(fs0) == Run(a.lo, a.hi - a.lo)
    ensures a.Free() == Run(a.lo, a.hi - a.lo)
    ensures forall od :: 0 <= od <= MAX_ORDER ==> multiset(a.dir[od]) == multiset(dir0[od])
  {
    forall i: nat ensures i in a.Free() <==> a.lo <= i < a.hi {
      if i in a.Free() { FreeIsManaged(a.tab[..], a.dir, a.lo, a.hi, i); }
      assert !Owned(a.live, i);
    }
    assert a.Free() == Run(a.lo, a.hi - a.lo);
    forall od | 0 <= od <= MAX_ORDER ensures multiset(a.dir[od]) == multiset(dir0[od]) {
      Determined(a.tab[..], a.dir, a.lo, a.hi, fs0, dir0, a.lo, a.hi, od);
    }
  }
}
