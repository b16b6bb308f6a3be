/** The loops of the buddy allocator, one lemma a step: what one round does to
    the flag words and the lists, stated on values. */
module BuddySteps {
  import opened Bits
  import opened BuddyBlocks
  import opened BuddyCanonical
  import opened Seqs

  // ---- splitting a block: __buddy_alloc ------------------------------------------

  /** During __buddy_alloc: the 2^od frames at fr are a hole, all else is as
      in a closed state with those frames missing from the free set F0. */
  ghost predicate InHand(fs0: Frames, fs: Frames, dir: Lists, lo: nat, hi: nat, F0: set<nat>, fr: nat, od: nat) {
    && lo <= fr && fr + Pow2(od) <= hi <= |fs| && Aligned(fr, od)
    && Inv(Unhead(fs, fr), dir, lo, hi, fr, fr + Pow2(od))
    && Run(fr, Pow2(od)) <= F0 && FreeFrames(Unhead(fs, fr)) == F0 - Run(fr, Pow2(od))
    && UsedKept(fs0, fs, {})
  }

  lemma TakeFirst(fs: Frames, dir: Lists, lo: nat, hi: nat, od: nat, fr: nat, order: nat)
    requires Closed(fs, dir, lo, hi) && od <= MAX_ORDER && dir[od] != [] && fr == dir[od][0]
    ensures fr < |fs| && fs[fr].valid && fr in dir[od]
    ensures InHand(fs, fs[fr := fs[fr].(free := false, order := order)], Drop(dir, od, fr), lo, hi, FreeFrames(fs),
      fr, od)
  {
    hide Aligned, Xor, Merged;
    assert InList(dir, od, fr) && FreeHead(fs, fr) && fs[fr].order == od;
    BlockIsFree(fs, dir, lo, hi, fr);
    assert BlockOk(fs, lo, hi, hi, hi, fr);
    MoveHole(fs, dir, lo, hi, hi, fr);
    Remove(fs, dir, lo, hi, fr, fr, fr, fr, fr + Pow2(od));
    var fs' := fs[fr := fs[fr].(free := false, order := order)];
    TakeKept(fs, fs', fr);
    AgreeInv(Unhead(fs, fr), Unhead(fs', fr), Drop(dir, od, fr), lo, hi, fr, fr + Pow2(od));
  }

  lemma UpperHalf(f: nat, k: nat)
    requires Aligned(f, k + 1)
    ensures Aligned(f, k) && Aligned(f + Pow2(k), k) && Pow2(k + 1) == 2 * Pow2(k)
    ensures Xor(f + Pow2(k), Pow2(k)) == f
  {
    AlignedUp(f, k); AlignedStep(f, k); XorPow2(f + Pow2(k), k);
  }

  lemma FillUpperHalf(g: Frames, dir: Lists, lo: nat, hi: nat, fr: nat, od: nat)
    requires od < MAX_ORDER && Aligned(fr, od + 1) && Inv(g, dir, lo, hi, fr, fr + Pow2(od + 1))
    ensures var buddy := fr + Pow2(od);
      && !Head(g, fr) && !Head(g, buddy) && Aligned(fr, od) && buddy < |g|
      && Inv(SetHead(g, buddy, od, true), Push(dir, od, buddy), lo, hi, fr, buddy)
      && FreeFrames(SetHead(g, buddy, od, true)) == FreeFrames(g) + Run(buddy, Pow2(od))
  {
    hide FreeFrames, Aligned, Xor;
    var buddy := fr + Pow2(od);
    HoleHasNoHead(g, lo, hi, fr, fr + Pow2(od + 1), fr);
    HoleHasNoHead(g, lo, hi, fr, fr + Pow2(od + 1), buddy);
    UpperHalf(fr, od);
    Fill(g, dir, lo, hi, fr, fr + Pow2(od + 1), buddy, od, true, fr, buddy);
  }

  /** One round of the splitting loop: the upper half of the block in hand
      becomes a free block of its own. */
  lemma SplitOff(fs0: Frames, fs: Frames, dir: Lists, lo: nat, hi: nat, F0: set<nat>, fr: nat, k: nat)
    requires 0 < k <= MAX_ORDER && InHand(fs0, fs, dir, lo, hi, F0, fr, k)
    ensures fr + Pow2(k - 1) < |fs|
    ensures InHand(fs0, SetHead(fs, fr + Pow2(k - 1), k - 1, true), Push(dir, k - 1, fr + Pow2(k - 1)), lo, hi, F0,
      fr, k - 1)
  {
    hide Inv, FreeFrames, Aligned, UsedKept;
    var g, od, buddy := Unhead(fs, fr), k - 1, fr + Pow2(k - 1);
    FillUpperHalf(g, dir, lo, hi, fr, od);
    SplitRun(fr, od);
    var fs' := SetHead(fs, buddy, od, true);
    assert Unhead(fs', fr) == SetHead(g, buddy, od, true);
    assert !Head(fs, buddy);
    KeptStep(fs0, fs, fs', buddy);
  }

  lemma KeepBlock(fs0: Frames, fs: Frames, dir: Lists, lo: nat, hi: nat, F0: set<nat>, fr: nat, od: nat)
    requires od <= MAX_ORDER && InHand(fs0, fs, dir, lo, hi, F0, fr, od) && fs[fr] == Frame(od, true, false)
    ensures Closed(fs, dir, lo, hi) && FreeFrames(fs) == F0 - Run(fr, Pow2(od))
  {
    var g := Unhead(fs, fr);
    HoleHasNoHead(g, lo, hi, fr, fr + Pow2(od), fr);
    Fill(g, dir, lo, hi, fr, fr + Pow2(od), fr, od, false, fr + Pow2(od), fr + Pow2(od));
    assert SetHead(g, fr, od, false) == fs;
    MoveHole(fs, dir, lo, hi, fr + Pow2(od), hi);
  }

  /** fs and fs' differ only in the flag word of frame x. */
  ghost predicate Agree(fs: Frames, fs': Frames, x: nat) {
    |fs| == |fs'| && x < |fs| && fs[x].valid == fs'[x].valid && forall i :: 0 <= i < |fs| && i != x ==> fs[i] == fs'[i]
  }

  /** The free bit of a frame that heads no block is irrelevant. */
  lemma AgreeInv(fs: Frames, fs': Frames, dir: Lists, lo: nat, hi: nat, a: nat, b: nat)
    requires Inv(fs, dir, lo, hi, a, b)
    requires |fs| == |fs'| && (forall i :: 0 <= i < |fs| ==> fs[i].valid == fs'[i].valid && fs[i].order == fs'[i].order)
    requires forall i: nat :: Head(fs, i) ==> fs'[i] == fs[i]
    ensures Inv(fs', dir, lo, hi, a, b) && FreeFrames(fs') == FreeFrames(fs)
  {
    assert forall i: nat :: Head(fs', i) <==> Head(fs, i);
    AgreeTiled(fs, fs', lo, hi, a, b);
    assert forall i: nat :: FreeHead(fs', i) <==> FreeHead(fs, i);
    forall g: nat, h: nat | FreeHead(fs', g) && FreeHead(fs', h) ensures !Mergeable(fs', g, h) {
      assert !Mergeable(fs, g, h);
    }
    forall i: nat ensures IsFree(fs', i) <==> IsFree(fs, i) {
      if IsFree(fs, i) {
        var h: nat :| FreeHead(fs, h) && Covers(fs, h, i);
        assert FreeHead(fs', h) && Covers(fs', h, i);
      }
      if IsFree(fs', i) {
        var h: nat :| FreeHead(fs', h) && Covers(fs', h, i);
        assert FreeHead(fs, h) && Covers(fs, h, i);
      }
    }
  }

  lemma AgreeTiled(fs: Frames, fs': Frames, lo: nat, hi: nat, a: nat, b: nat)
    requires Tiled(fs, lo, hi, a, b)
    requires |fs| == |fs'| && (forall i :: 0 <= i < |fs| ==> fs[i].valid == fs'[i].valid && fs[i].order == fs'[i].order)
    ensures Tiled(fs', lo, hi, a, b)
  {
    assert forall i: nat :: Head(fs', i) <==> Head(fs, i);
    forall h: nat | Head(fs', h)
      ensures BlockOk(fs', lo, hi, a, b, h) && Edge(fs', hi, a, b, End(fs', h))
    {
      assert BlockOk(fs, lo, hi, a, b, h) && Edge(fs, hi, a, b, End(fs, h));
    }
    forall g: nat, h: nat | Head(fs', g) && Head(fs', h) && g < h ensures Apart(fs', g, h) {
      assert Head(fs, g) && Head(fs, h) && Apart(fs, g, h);
    }
  }

  lemma TakeKept(fs: Frames, fs': Frames, f: nat)
    requires FreeHead(fs, f) && Agree(fs, fs', f)
    ensures UsedKept(fs, fs', {})
  {
  }

  lemma KeptStep(fs0: Frames, fs: Frames, fs': Frames, f: nat)
    requires UsedKept(fs0, fs, {}) && Agree(fs, fs', f) && !Head(fs, f)
    ensures UsedKept(fs0, fs', {})
  {
  }

  lemma SplitRun(f: nat, k: nat)
    ensures Run(f, Pow2(k + 1)) == Run(f, Pow2(k)) + Run(f + Pow2(k), Pow2(k))
    ensures Run(f, Pow2(k)) !! Run(f + Pow2(k), Pow2(k))
  {
  }

  /** f starts the first block of the first non-empty list of order >= od. */
  ghost predicate FirstFit(dir: Lists, od: nat, f: nat)
    requires |dir| == MAX_ORDER + 1
  {
    exists k :: od <= k <= MAX_ORDER && dir[k] != [] && dir[k][0] == f && forall j :: od <= j < k ==> dir[j] == []
  }

  // ---- cutting a block ------------------------------------------------------------------

  /** No frame of [f, f + n) heads an allocated block of fs. */
  ghost predicate Unused(fs: Frames, f: nat, n: nat) {
    forall h: nat :: f <= h < f + n ==> !UsedHead(fs, h)
  }

  lemma KeptAt(fs0: Frames, fs: Frames, fs': Frames, f: nat, fr: nat, n: nat)
    requires UsedKept(fs0, fs, {}) && Agree(fs, fs', f) && Unused(fs0, fr, n) && fr <= f < fr + n
    ensures UsedKept(fs0, fs', {})
  {
    assert !UsedHead(fs0, f);
  }

  lemma FreeRunUnused(fs: Frames, dir: Lists, lo: nat, hi: nat, f: nat, n: nat)
    requires Closed(fs, dir, lo, hi) && Run(f, n) <= FreeFrames(fs)
    ensures Unused(fs, f, n)
  {
    forall i: nat | f <= i < f + n ensures !UsedHead(fs, i) {
      assert i in Run(f, n);
      var h: nat :| FreeHead(fs, h) && Covers(fs, h, i);
      if Head(fs, i) { Disjoint(fs, lo, hi, hi, hi, h, i); }
    }
  }

  /** The tiling while fr is still headed by the block being cut. */
  ghost function Virtual(fs: Frames, fr: nat, f: nat): Frames
    requires fr < |fs|
  {
    if f == fr then Unhead(fs, fr) else fs
  }

  /** The pieces for the bits j and up are cut off; the rest of the block,
      from frame fr + n - Low(n, j) on, is a hole. */
  ghost predicate Cut(fs0: Frames, fs: Frames, dir: Lists, lo: nat, hi: nat, FA: set<nat>, fr: nat, order: nat,
                      n: nat, j: nat) {
    && order <= MAX_ORDER && j <= order && 1 <= n < Pow2(order) && Aligned(fr, order)
    && lo <= fr && fr + Pow2(order) <= hi <= |fs| && Low(n, j) <= n
    && (var f := fr + n - Low(n, j);
        && Inv(Virtual(fs, fr, f), dir, lo, hi, f, fr + Pow2(order))
        && FreeFrames(Virtual(fs, fr, f)) == FA
        && (forall g: nat :: fr <= g < f ==> !FreeHead(fs, g)))
    && PiecesFrom(fs, fr, n, j)
    && UsedKept(fs0, fs, {}) && Unused(fs0, fr, Pow2(order))
  }

  ghost predicate PiecesFrom(fs: Frames, s: nat, n: nat, j: nat) {
    forall k: nat {:trigger Bit(n, k)} :: j <= k <= MAX_ORDER && Bit(n, k) ==>
      var p := PieceStart(s, n, k); UsedHead(fs, p) && fs[p].order == k
  }

  lemma CutStart(fs0: Frames, fs: Frames, dir: Lists, lo: nat, hi: nat, fr: nat, order: nat, n: nat)
    requires Closed(fs, dir, lo, hi) && UsedHead(fs, fr) && fs[fr].order == order <= MAX_ORDER && 1 <= n < Pow2(order)
    requires UsedKept(fs0, fs, {}) && Unused(fs0, fr, Pow2(order))
    ensures order > 0 && Low(n, order) == n
    ensures Cut(fs0, fs, dir, lo, hi, FreeFrames(fs), fr, order, n, order)
  {
    assert BlockOk(fs, lo, hi, hi, hi, fr);
    MoveHole(fs, dir, lo, hi, hi, fr);
    Remove(fs, dir, lo, hi, fr, fr, fr, fr, fr + Pow2(order));
    LowAll(n, order);
    forall k: nat | order <= k ensures !Bit(n, k) { Pow2Mono(order, k); BitTop(n, k); }
  }

  lemma PieceFacts(fr: nat, order: nat, n: nat, od: nat)
    requires Aligned(fr, order) && od < order && n < Pow2(order)
    ensures Low(n, od) <= Low(n, od + 1) <= n
    ensures Aligned(fr + n - Low(n, od + 1), od)
    ensures Bit(n, od) ==> Low(n, od + 1) == Low(n, od) + Pow2(od)
    ensures !Bit(n, od) ==> Low(n, od + 1) == Low(n, od)
  {
    LowStep(n, od); LowStep(n, od + 1);
    var m := n - Low(n, od + 1);
    AlignedDown(m, od, od + 1);
    AlignedDown(fr, od, order);
    AlignedAdd(fr, m, od);
  }

  lemma CutPiece(fs0: Frames, fs: Frames, dir: Lists, lo: nat, hi: nat, FA: set<nat>, fr: nat, order: nat, n: nat,
                 od: nat)
    requires od < order && Cut(fs0, fs, dir, lo, hi, FA, fr, order, n, od + 1) && Bit(n, od)
    ensures fr + n - Low(n, od + 1) < |fs|
    ensures Cut(fs0, SetHead(fs, fr + n - Low(n, od + 1), od, false), dir, lo, hi, FA, fr, order, n, od)
  {
    hide Inv, FreeFrames, FreeHead, Pow2, Low, Bit, Aligned, UsedKept, Unused, Virtual, PiecesFrom;
    var f, e := fr + n - Low(n, od + 1), fr + Pow2(order);
    PieceFacts(fr, order, n, od);
    var fs' := SetHead(fs, f, od, false);
    CutFill(fs, dir, lo, hi, fr, f, e, od);
    assert f + Pow2(od) == fr + n - Low(n, od);
    KeptAt(fs0, fs, fs', f, fr, Pow2(order));
    PiecesAdd(fs, fr, n, od);
  }

  lemma CutFill(fs: Frames, dir: Lists, lo: nat, hi: nat, fr: nat, f: nat, e: nat, od: nat)
    requires fr <= f < |fs| && Inv(Virtual(fs, fr, f), dir, lo, hi, f, e)
    requires od <= MAX_ORDER && Aligned(f, od) && f + Pow2(od) <= e
    requires forall g: nat :: fr <= g < f ==> !FreeHead(fs, g)
    ensures var fs' := SetHead(fs, f, od, false);
      && Inv(Virtual(fs', fr, f + Pow2(od)), dir, lo, hi, f + Pow2(od), e)
      && FreeFrames(Virtual(fs', fr, f + Pow2(od))) == FreeFrames(Virtual(fs, fr, f))
      && (forall g: nat :: fr <= g < f + Pow2(od) ==> !FreeHead(fs', g))
  {
    var fs' := SetHead(fs, f, od, false);
    FillLow(Virtual(fs, fr, f), dir, lo, hi, f, e, od, false);
    assert SetHead(Virtual(fs, fr, f), f, od, false) == fs' == Virtual(fs', fr, f + Pow2(od));
    forall g: nat | fr <= g < f + Pow2(od) ensures !FreeHead(fs', g) {
      if g < f { assert !FreeHead(fs, g); }
    }
  }

  /** Fill at the lower end of the hole. */
  lemma FillLow(fs: Frames, dir: Lists, lo: nat, hi: nat, f: nat, e: nat, od: nat, free: bool)
    requires Inv(fs, dir, lo, hi, f, e) && od <= MAX_ORDER && Aligned(f, od) && f + Pow2(od) <= e
    requires free && od < MAX_ORDER ==>
      var g := Xor(f, Pow2(od)); !(FreeHead(fs, g) && fs[g].order == od)
    ensures var fs' := SetHead(fs, f, od, free);
      && Inv(fs', if free then Push(dir, od, f) else dir, lo, hi, f + Pow2(od), e)
      && FreeFrames(fs') == (if free then FreeFrames(fs) + Run(f, Pow2(od)) else FreeFrames(fs))
      && (forall g: nat :: f <= g < f + Pow2(od) ==> !Head(fs, g) && (g != f ==> !Head(fs', g)))
  {
    var fs' := SetHead(fs, f, od, free);
    forall g: nat | f <= g < f + Pow2(od) ensures !Head(fs, g) && (g != f ==> !Head(fs', g)) {
      HoleHasNoHead(fs, lo, hi, f, e, g);
    }
    Fill(fs, dir, lo, hi, f, e, f, od, free, f + Pow2(od), e);
  }

  lemma PiecesAdd(fs: Frames, fr: nat, n: nat, od: nat)
    requires PiecesFrom(fs, fr, n, od + 1) && Bit(n, od) && od <= MAX_ORDER
    requires var f := fr + n - Low(n, od + 1); 0 <= f < |fs|
    ensures var f := fr + n - Low(n, od + 1); PiecesFrom(SetHead(fs, f, od, false), fr, n, od)
  {
    hide Low, Bit;
    var f := fr + n - Low(n, od + 1);
    var fs' := SetHead(fs, f, od, false);
    forall k: nat | od <= k <= MAX_ORDER && Bit(n, k)
      ensures var p := PieceStart(fr, n, k); UsedHead(fs', p) && fs'[p].order == k
    {
      if k > od { LowLess(n, od + 1, k + 1, k); assert UsedHead(fs, PieceStart(fr, n, k)); }
    }
  }

  /** A one in bit k makes the low part strictly longer. */
  lemma {:induction false} LowLess(n: nat, i: nat, j: nat, k: nat)
    requires i <= k < j
    ensures Low(n, i) <= Low(n, j) && (Bit(n, k) ==> Low(n, i) < Low(n, j))
    decreases j
  {
    LowStep(n, j - 1);
    if k < j - 1 { LowLess(n, i, j - 1, k); }
    else if i < k { LowLess(n, i, k, i); }
  }

  lemma CutSkip(fs0: Frames, fs: Frames, dir: Lists, lo: nat, hi: nat, FA: set<nat>, fr: nat, order: nat, n: nat,
                od: nat)
    requires od < order && Cut(fs0, fs, dir, lo, hi, FA, fr, order, n, od + 1) && !Bit(n, od)
    ensures Cut(fs0, fs, dir, lo, hi, FA, fr, order, n, od)
  {
    hide Inv, FreeFrames, FreeHead, UsedHead, PieceStart, Pow2, Low, Bit, Aligned, UsedKept, Unused, Virtual;
    PieceFacts(fr, order, n, od);
  }

  /** The trimmed-off frames from f on are a hole; those before it are headed
      by free blocks of orders below od. */
  ghost predicate Pad(fs0: Frames, fs: Frames, dir: Lists, lo: nat, hi: nat, FA: set<nat>, fr: nat, order: nat,
                      n: nat, f: nat, od: nat) {
    && order <= MAX_ORDER && Aligned(fr, order) && Aligned(f, od)
    && lo <= fr < fr + n <= f <= fr + Pow2(order) <= hi <= |fs| && Aligned(fr + Pow2(order) - f, od)
    && Inv(fs, dir, lo, hi, f, fr + Pow2(order))
    && FreeFrames(fs) == FA + Run(fr + n, f - fr - n)
    && (forall g: nat :: fr <= g < f && FreeHead(fs, g) ==> fs[g].order < od)
    && Pieces(fs, fr, n) && UsedKept(fs0, fs, {}) && Unused(fs0, fr, Pow2(order))
  }

  lemma CutDone(fs0: Frames, fs: Frames, dir: Lists, lo: nat, hi: nat, FA: set<nat>, fr: nat, order: nat, n: nat,
                j: nat)
    requires Cut(fs0, fs, dir, lo, hi, FA, fr, order, n, j) && Low(n, j) == 0
    ensures Pad(fs0, fs, dir, lo, hi, FA, fr, order, n, fr + n, 0)
  {
    forall k: nat | Bit(n, k) && k < j ensures false {
      LowLess(n, 0, j, k);
    }
    assert PiecesFrom(fs, fr, n, j);
    assert Run(fr + n, 0) == {};
  }

  /** The remainder e - f and f agree on their lowest one. */
  lemma PadFacts(fr: nat, order: nat, f: nat, od: nat)
    requires Aligned(fr, order) && Aligned(f, od) && fr < f < fr + Pow2(order) && Aligned(fr + Pow2(order) - f, od)
    ensures od < order
    ensures var ni := fr + Pow2(order) - f;
      if Bit(ni, od)
      then Bit(f, od) && fr <= Xor(f, Pow2(od)) < f && f + Pow2(od) <= fr + Pow2(order)
        && Aligned(f + Pow2(od), od + 1) && Aligned(ni - Pow2(od), od + 1)
      else Aligned(f, od + 1) && Aligned(ni, od + 1)
  {
    var e, ni := fr + Pow2(order), fr + Pow2(order) - f;
    if order <= od { AlignedDown(ni, order, od); AlignedSmall(ni, order); }
    AlignedStep(fr, order);
    AlignedDown(e, od + 1, order); AlignedDown(fr, od + 1, order); AlignedUp(e, od); AlignedUp(fr, od);
    AlignedAdd(f, ni, od);
    AlignedUp(f, od); AlignedUp(ni, od);
    XorPow2(f, od);
    if Bit(ni, od) {
      BitLe(ni, od);
      AlignedStep(f, od); AlignedUp(f + Pow2(od), od);
      AlignedPow2(od); BitPow2(od, od);
      AlignedAdd(Pow2(od), ni - Pow2(od), od);
      AlignedUp(ni - Pow2(od), od);
      AlignedGap(fr, f, od);
    }
  }

  lemma PadBound(fs0: Frames, fs: Frames, dir: Lists, lo: nat, hi: nat, FA: set<nat>, fr: nat, order: nat, n: nat,
                 f: nat, od: nat)
    requires Pad(fs0, fs, dir, lo, hi, FA, fr, order, n, f, od) && f < fr + Pow2(order)
    ensures od < order <= MAX_ORDER
  {
    PadFacts(fr, order, f, od);
  }

  lemma PadPiece(fs0: Frames, fs: Frames, dir: Lists, lo: nat, hi: nat, FA: set<nat>, fr: nat, order: nat, n: nat,
                 f: nat, od: nat)
    requires Pad(fs0, fs, dir, lo, hi, FA, fr, order, n, f, od) && f < fr + Pow2(order)
    requires Bit(fr + Pow2(order) - f, od)
    ensures f + Pow2(od) <= fr + Pow2(order) && od <= MAX_ORDER
    ensures Pad(fs0, SetHead(fs, f, od, true), Push(dir, od, f), lo, hi, FA, fr, order, n, f + Pow2(od), od + 1)
  {
    hide Inv, FreeFrames, Low, Bit, Aligned, Xor, Pow2, UsedKept;
    PadFacts(fr, order, f, od);
    var e, fs' := fr + Pow2(order), SetHead(fs, f, od, true);
    PadFill(fs, dir, lo, hi, fr, f, e, od);
    RunAppend(fr + n, f - fr - n, Pow2(od));
    assert f + Pow2(od) - fr - n == f - fr - n + Pow2(od);
    KeptAt(fs0, fs, fs', f, fr, Pow2(order));
    PiecesElsewhere(fs, fs', f, fr, n);
    assert FreeFrames(fs') == FA + Run(fr + n, f + Pow2(od) - fr - n);
    assert Aligned(fr + Pow2(order) - (f + Pow2(od)), od + 1);
    assert Aligned(f + Pow2(od), od + 1);
  }

  lemma RunAppend(f: nat, m: nat, n: nat)
    ensures Run(f, m) + Run(f + m, n) == Run(f, m + n)
  {
  }

  lemma PadFill(fs: Frames, dir: Lists, lo: nat, hi: nat, fr: nat, f: nat, e: nat, od: nat)
    requires Inv(fs, dir, lo, hi, f, e) && od <= MAX_ORDER && Aligned(f, od) && f + Pow2(od) <= e
    requires fr <= Xor(f, Pow2(od)) < f
    requires forall g: nat :: fr <= g < f && FreeHead(fs, g) ==> fs[g].order < od
    ensures var fs' := SetHead(fs, f, od, true);
      && !Head(fs, f)
      && Inv(fs', Push(dir, od, f), lo, hi, f + Pow2(od), e)
      && FreeFrames(fs') == FreeFrames(fs) + Run(f, Pow2(od))
      && (forall g: nat :: fr <= g < f + Pow2(od) && FreeHead(fs', g) ==> fs'[g].order < od + 1)
  {
    var fs' := SetHead(fs, f, od, true);
    FillLow(fs, dir, lo, hi, f, e, od, true);
    forall g: nat | fr <= g < f + Pow2(od) && FreeHead(fs', g) ensures fs'[g].order < od + 1 {
      if g < f { assert FreeHead(fs, g); }
    }
  }

  lemma PiecesElsewhere(fs: Frames, fs': Frames, f: nat, s: nat, n: nat)
    requires Pieces(fs, s, n) && Agree(fs, fs', f) && s + n <= f
    ensures Pieces(fs', s, n)
  {
    forall k: nat | Bit(n, k) && k <= MAX_ORDER
      ensures var p := PieceStart(s, n, k); UsedHead(fs', p) && fs'[p].order == k
    {
      LowStep(n, k);
      assert UsedHead(fs, PieceStart(s, n, k));
    }
  }

  lemma PadSkip(fs0: Frames, fs: Frames, dir: Lists, lo: nat, hi: nat, FA: set<nat>, fr: nat, order: nat, n: nat,
                f: nat, od: nat)
    requires Pad(fs0, fs, dir, lo, hi, FA, fr, order, n, f, od) && f < fr + Pow2(order)
    requires !Bit(fr + Pow2(order) - f, od)
    ensures Pad(fs0, fs, dir, lo, hi, FA, fr, order, n, f, od + 1)
  {
    hide Inv, FreeFrames, FreeHead, Bit, Aligned, Pow2, UsedKept, Unused, Pieces;
    PadFacts(fr, order, f, od);
  }

  /** The outcome of the trimming: n allocated frames at fr, the rest of the
      block back among the free frames FA. */
  ghost predicate Trimmed(fs0: Frames, fs: Frames, dir: Lists, lo: nat, hi: nat, FA: set<nat>, fr: nat, order: nat,
                          n: nat) {
    && n <= Pow2(order) && fr + Pow2(order) <= hi && lo <= fr && Closed(fs, dir, lo, hi)
    && FreeFrames(fs) == FA + Run(fr + n, Pow2(order) - n)
    && Pieces(fs, fr, n) && UsedKept(fs0, fs, {})
  }

  lemma PadDone(fs0: Frames, fs: Frames, dir: Lists, lo: nat, hi: nat, FA: set<nat>, fr: nat, order: nat, n: nat,
                od: nat)
    requires Pad(fs0, fs, dir, lo, hi, FA, fr, order, n, fr + Pow2(order), od)
    ensures Trimmed(fs0, fs, dir, lo, hi, FA, fr, order, n)
  {
    MoveHole(fs, dir, lo, hi, fr + Pow2(order), hi);
  }

  lemma WholePiece(fs0: Frames, fs: Frames, dir: Lists, lo: nat, hi: nat, fr: nat, order: nat)
    requires Closed(fs, dir, lo, hi) && UsedHead(fs, fr) && fs[fr].order == order && UsedKept(fs0, fs, {})
    ensures Trimmed(fs0, fs, dir, lo, hi, FreeFrames(fs), fr, order, Pow2(order))
  {
    assert BlockOk(fs, lo, hi, hi, hi, fr);
    var n := Pow2(order);
    forall k: nat | Bit(n, k) && k <= MAX_ORDER
      ensures var p := PieceStart(fr, n, k); UsedHead(fs, p) && fs[p].order == k
    {
      BitPow2(order, k);
      LowAll(n, order + 1);
    }
    assert Run(fr + n, 0) == {};
  }

  lemma TrimmedFree(fs0: Frames, fs: Frames, dir: Lists, lo: nat, hi: nat, F0: set<nat>, fr: nat, order: nat, n: nat)
    requires Trimmed(fs0, fs, dir, lo, hi, F0 - Run(fr, Pow2(order)), fr, order, n) && Run(fr, Pow2(order)) <= F0
    ensures Run(fr, n) <= F0 && FreeFrames(fs) == F0 - Run(fr, n)
  {
    RunAppend(fr, n, Pow2(order) - n);
  }

  // ---- merging: __buddy_free ---------------------------------------------------------

  /** During __buddy_free of the block headed by s0: the 2^order frames at idx
      are a hole, made of that block and the buddies merged so far. */
  ghost predicate Merging(fs0: Frames, fs: Frames, dir: Lists, lo: nat, hi: nat, F1: set<nat>, s0: nat, idx: nat,
                          order: nat) {
    && order <= MAX_ORDER && Aligned(idx, order) && lo <= idx && idx + Pow2(order) <= hi <= |fs|
    && fs[idx].order == order && fs[idx].valid
    && Inv(Unhead(fs, idx), dir, lo, hi, idx, idx + Pow2(order))
    && FreeFrames(Unhead(fs, idx)) + Run(idx, Pow2(order)) == F1
    && UsedKept(fs0, fs, {s0}) && (UsedHead(fs0, idx) ==> idx == s0)
  }

  lemma MergeStart(fs: Frames, dir: Lists, lo: nat, hi: nat, s0: nat)
    requires Closed(fs, dir, lo, hi) && UsedHead(fs, s0)
    ensures Merging(fs, fs, dir, lo, hi, FreeFrames(fs) + Run(s0, Pow2(fs[s0].order)), s0, s0, fs[s0].order)
  {
    assert BlockOk(fs, lo, hi, hi, hi, s0);
    MoveHole(fs, dir, lo, hi, hi, s0);
    Remove(fs, dir, lo, hi, s0, s0, s0, s0, End(fs, s0));
  }

  lemma MergeMark(fs0: Frames, fs: Frames, dir: Lists, lo: nat, hi: nat, F1: set<nat>, s0: nat, idx: nat, order: nat)
    requires Merging(fs0, fs, dir, lo, hi, F1, s0, idx, order)
    ensures Merging(fs0, fs[idx := fs[idx].(free := true)], dir, lo, hi, F1, s0, idx, order)
  {
    var fs' := fs[idx := fs[idx].(free := true)];
    AgreeInv(Unhead(fs, idx), Unhead(fs', idx), dir, lo, hi, idx, idx + Pow2(order));
  }

  /** The buddy's index stays inside the frame table, even outside the managed
      range, so that the merge test may read it. */
  lemma BuddyInTable(idx: nat, order: nat)
    requires order <= MAX_ORDER && Aligned(idx, order) && idx < MAX_FRAME_NUM
    ensures Xor(idx, Pow2(order)) < MAX_FRAME_NUM && Xor(idx, Pow2(order)) != idx
  {
    TableSize();
    hide Aligned, Bit, Xor, Pow2;
    XorPow2(idx, order);
    if !Bit(idx, order) {
      AlignedUp(idx, order);
      AlignedPow2(13); AlignedDown(Pow2(13), order + 1, 13);
      AlignedGap(idx, Pow2(13), order + 1);
      Pow2Mono(order, order + 1);
    }
  }

  lemma TableSize()
    ensures Pow2(13) == MAX_FRAME_NUM
  {
    assert Pow2(5) == 32 && Pow2(9) == 512;
  }

  /** One merge: the buddy leaves its list, and the block of twice the size
      takes its place in hand. */
  function MergedFlags(fs: Frames, low: nat, high: nat, order: nat): (r: Frames)
    requires low < |fs| && high < |fs| && low != high
    ensures |r| == |fs|
  {
    fs[high := fs[high].(free := false, order := NO_ORDER)][low := fs[low].(order := order + 1)]
  }

  lemma MergeRemove(g: Frames, dir: Lists, lo: nat, hi: nat, idx: nat, order: nat)
    requires order < MAX_ORDER && Aligned(idx, order) && Inv(g, dir, lo, hi, idx, idx + Pow2(order))
    requires InListAt(dir, order, Xor(idx, Pow2(order)))
    ensures var bd := Xor(idx, Pow2(order)); var low := And(idx, bd);
      && FreeHead(g, bd) && !Head(g, idx) && Aligned(low, order + 1)
      && (low == bd || low == idx) && Xor(low, Pow2(order)) == low + Pow2(order) == idx + bd - low
      && lo <= low && low + Pow2(order + 1) <= hi <= |g|
      && Inv(Unhead(g, bd), Drop(dir, order, bd), lo, hi, low, low + Pow2(order + 1))
      && FreeFrames(Unhead(g, bd)) + Run(low, Pow2(order + 1)) == FreeFrames(g) + Run(idx, Pow2(order))
  {
    hide Aligned, Bit, Xor, And, Merged, FreeFrames;
    var bd := Xor(idx, Pow2(order));
    var low := And(idx, bd);
    BuddyPair(idx, order);
    AlignedUp(low, order); XorPow2(low, order);
    assert InList(dir, order, bd);
    assert FreeHead(g, bd) && g[bd].order == order;
    assert BlockOk(g, lo, hi, idx, idx + Pow2(order), bd);
    HoleHasNoHead(g, lo, hi, idx, idx + Pow2(order), idx);
    Remove(g, dir, lo, hi, idx, idx + Pow2(order), bd, low, low + Pow2(order + 1));
    SplitRun(low, order);
  }

  predicate InListAt(dir: Lists, od: nat, x: nat) {
    od < |dir| && InList(dir, od, x)
  }

  lemma MergeUp(fs0: Frames, fs: Frames, dir: Lists, lo: nat, hi: nat, F1: set<nat>, s0: nat, idx: nat, order: nat)
    requires order < MAX_ORDER && Merging(fs0, fs, dir, lo, hi, F1, s0, idx, order)
    requires InListAt(dir, order, Xor(idx, Pow2(order)))
    ensures var bd := Xor(idx, Pow2(order)); var low := And(idx, bd); var high := Xor(low, Pow2(order));
      && low < |fs| && high < |fs| && low != high && order < |dir|
      && Merging(fs0, MergedFlags(fs, low, high, order), Drop(dir, order, bd), lo, hi, F1, s0, low, order + 1)
  {
    hide Inv, Aligned, Xor, And, FreeFrames, UsedKept, InList, Without, Pow2;
    var bd := Xor(idx, Pow2(order));
    var low := And(idx, bd);
    var high := Xor(low, Pow2(order));
    var g := Unhead(fs, idx);
    MergeRemove(g, dir, lo, hi, idx, order);
    var fs' := MergedFlags(fs, low, high, order);
    assert {low, high} == {idx, bd};
    MergeFrames(g, fs, fs', idx, bd, low, high, order);
    AgreeInv(Unhead(g, bd), Unhead(fs', low), Drop(dir, order, bd), lo, hi, low, low + Pow2(order + 1));
    MergeValid(g, dir, lo, hi, idx, order, low);
    MergeKept(fs0, fs, fs', s0, idx, bd);
  }

  lemma MergeFrames(g: Frames, fs: Frames, fs': Frames, idx: nat, bd: nat, low: nat, high: nat, order: nat)
    requires idx < |fs| && g == Unhead(fs, idx) && Head(g, bd) && bd < |fs| && low < |fs| && high < |fs|
    requires {low, high} == {idx, bd} && low != high && fs' == MergedFlags(fs, low, high, order)
    ensures var u, v := Unhead(g, bd), Unhead(fs', low);
      && |u| == |v| && (forall i :: 0 <= i < |u| ==> u[i].valid == v[i].valid && u[i].order == v[i].order)
      && (forall i: nat :: Head(u, i) ==> v[i] == u[i])
  {
    assert (low == idx && high == bd) || (low == bd && high == idx) by {
      assert low in {idx, bd} && high in {idx, bd};
    }
  }

  lemma MergeValid(g: Frames, dir: Lists, lo: nat, hi: nat, idx: nat, order: nat, low: nat)
    requires Inv(g, dir, lo, hi, idx, idx + Pow2(order)) && lo <= low < hi
    ensures hi <= |g| && g[low].valid
  {
  }

  lemma MergeKept(fs0: Frames, fs: Frames, fs': Frames, s0: nat, idx: nat, bd: nat)
    requires UsedKept(fs0, fs, {s0}) && (UsedHead(fs0, idx) ==> idx == s0) && FreeHead(fs, bd)
    requires |fs'| == |fs| && forall i :: 0 <= i < |fs| && i != idx && i != bd ==> fs'[i] == fs[i]
    ensures UsedKept(fs0, fs', {s0}) && (UsedHead(fs0, bd) ==> bd == s0)
  {
  }

  /** The merge test on the raw flag words, with the frames at idx in hand. */
  lemma MergeCheck(fs0: Frames, fs: Frames, dir: Lists, lo: nat, hi: nat, F1: set<nat>, s0: nat, idx: nat, order: nat,
                   bd: nat)
    requires Merging(fs0, fs, dir, lo, hi, F1, s0, idx, order) && bd != idx && bd < |fs|
    ensures (order == fs[bd].order && fs[bd].valid && fs[bd].free) <==> InListAt(dir, order, bd)
  {
    MergeTest(Unhead(fs, idx), dir, lo, hi, idx, idx + Pow2(order), bd, order);
  }

  lemma MergeDone(fs0: Frames, fs: Frames, dir: Lists, lo: nat, hi: nat, F1: set<nat>, s0: nat, idx: nat, order: nat)
    requires Merging(fs0, fs, dir, lo, hi, F1, s0, idx, order) && fs[idx].free
    requires order < MAX_ORDER ==> !InListAt(dir, order, Xor(idx, Pow2(order)))
    ensures Closed(fs, Push(dir, order, idx), lo, hi) && FreeFrames(fs) == F1 && UsedKept(fs0, fs, {s0})
  {
    var g, bd := Unhead(fs, idx), Xor(idx, Pow2(order));
    assert InList(dir, order, bd) <==> FreeHead(g, bd) && g[bd].order == order;
    HoleHasNoHead(g, lo, hi, idx, idx + Pow2(order), idx);
    Fill(g, dir, lo, hi, idx, idx + Pow2(order), idx, order, true, idx + Pow2(order), idx + Pow2(order));
    assert SetHead(g, idx, order, true) == fs;
    MoveHole(fs, Push(dir, order, idx), lo, hi, idx + Pow2(order), hi);
  }

  // ---- piecewise freeing: buddy_free_frames --------------------------------------------

  /** The pieces of the run of n frames at s for the bits j and up are free
      again, the others still allocated. */
  ghost predicate Freeing(fs0: Frames, fs: Frames, dir: Lists, lo: nat, hi: nat, F0: set<nat>, s: nat, n: nat, j: nat) {
    && Closed(fs, dir, lo, hi) && Low(n, j) <= n
    && FreeFrames(fs) == F0 + Run(s, n - Low(n, j))
    && PiecesBelow(fs, s, n, j) && UsedKept(fs0, fs, Run(s, n))
  }

  ghost predicate PiecesBelow(fs: Frames, s: nat, n: nat, j: nat) {
    forall k: nat {:trigger Bit(n, k)} :: k < j && k <= MAX_ORDER && Bit(n, k) ==>
      var p := PieceStart(s, n, k); UsedHead(fs, p) && fs[p].order == k
  }

  lemma FreeStart(fs: Frames, dir: Lists, lo: nat, hi: nat, s: nat, n: nat, j: nat)
    requires Closed(fs, dir, lo, hi) && Pieces(fs, s, n) && n < Pow2(j)
    ensures Freeing(fs, fs, dir, lo, hi, FreeFrames(fs), s, n, j) && Low(n, j) == n
  {
    LowAll(n, j);
    assert Run(s, 0) == {};
  }

  lemma PieceAt(fs: Frames, s: nat, n: nat, od: nat)
    requires PiecesBelow(fs, s, n, od + 1) && Bit(n, od) && od <= MAX_ORDER
    ensures var p := PieceStart(s, n, od); UsedHead(fs, p) && fs[p].order == od
  {
  }

  lemma LiveFacts(fs: Frames, lo: nat, hi: nat, live: map<nat, nat>, s: nat)
    requires LiveOk(fs, lo, hi, live) && s in live
    ensures 1 <= live[s] <= Pow2(MAX_ORDER) == 1024 && lo <= s && s + live[s] <= hi && Pieces(fs, s, live[s])
  {
    assert Pow2(5) == 32;
  }

  lemma InListMember(dir: Lists, od: nat, x: nat)
    requires InListAt(dir, od, x)
    ensures od < |dir| && x in dir[od]
  {
  }

  lemma FreePiece(fs0: Frames, fs: Frames, dir: Lists, fs': Frames, dir': Lists, lo: nat, hi: nat, F0: set<nat>,
                  s: nat, n: nat, od: nat)
    requires Freeing(fs0, fs, dir, lo, hi, F0, s, n, od + 1) && Bit(n, od) && od <= MAX_ORDER
    requires var f := PieceStart(s, n, od);
      && 0 <= f && Closed(fs', dir', lo, hi) && UsedKept(fs, fs', {f})
      && FreeFrames(fs') == FreeFrames(fs) + Run(f, Pow2(od))
    ensures Freeing(fs0, fs', dir', lo, hi, F0, s, n, od)
  {
    hide Inv, FreeFrames, Low, Bit;
    var f: nat := PieceStart(s, n, od);
    LowStep(n, od); LowStep(n, od + 1);
    RunAppend(s, n - Low(n, od + 1), Pow2(od));
    assert n - Low(n, od) == n - Low(n, od + 1) + Pow2(od);
    assert FreeFrames(fs') == F0 + Run(s, n - Low(n, od));
    assert s <= f < s + n;
    forall k: nat | k < od && Bit(n, k)
      ensures var p := PieceStart(s, n, k); UsedHead(fs', p) && fs'[p].order == k
    {
      LowLess(n, k + 1, od + 1, od);
      assert UsedHead(fs, PieceStart(s, n, k));
    }
  }

  lemma FreeSkip(fs0: Frames, fs: Frames, dir: Lists, lo: nat, hi: nat, F0: set<nat>, s: nat, n: nat, od: nat)
    requires Freeing(fs0, fs, dir, lo, hi, F0, s, n, od + 1) && !Bit(n, od)
    ensures Freeing(fs0, fs, dir, lo, hi, F0, s, n, od)
  {
    hide Inv, FreeFrames, UsedHead, PieceStart, Low, Bit;
    LowStep(n, od);
  }

  // ---- initialisation: buddy_init ---------------------------------------------------------

  /** The managed frames below f are headed by free blocks, the rest is a hole. */
  ghost predicate Filled(fs: Frames, dir: Lists, lo: nat, hi: nat, f: nat) {
    lo <= f && Inv(fs, dir, lo, hi, f, hi) && FreeFrames(fs) == Run(lo, f - lo)
  }

  lemma FillNothing(fs: Frames, dir: Lists, lo: nat, hi: nat)
    requires lo <= hi <= |fs| && |dir| == MAX_ORDER + 1 && forall od :: 0 <= od <= MAX_ORDER ==> dir[od] == []
    requires forall i :: 0 <= i < |fs| ==> fs[i].order == NO_ORDER && (fs[i].valid <==> lo <= i < hi)
    ensures Filled(fs, dir, lo, hi, lo)
  {
    assert forall h: nat :: !Head(fs, h);
    assert FreeFrames(fs) == {};
    assert Run(lo, 0) == {};
    assert forall od: nat, x: nat :: od <= MAX_ORDER ==> !InList(dir, od, x);
  }

  lemma HoleInRange(fs: Frames, dir: Lists, lo: nat, hi: nat, f: nat)
    requires Inv(fs, dir, lo, hi, f, hi)
    ensures f <= hi <= |fs| && |dir| == MAX_ORDER + 1
  {
  }

  lemma FillNext(fs: Frames, dir: Lists, lo: nat, hi: nat, f: nat, od: nat)
    requires Filled(fs, dir, lo, hi, f) && od <= MAX_ORDER && Aligned(f, od) && f + Pow2(od) <= hi
    requires od < MAX_ORDER ==> var g := Xor(f, Pow2(od)); !(FreeHead(fs, g) && fs[g].order == od)
    ensures f < |fs| && Filled(SetHead(fs, f, od, true), Push(dir, od, f), lo, hi, f + Pow2(od))
    ensures !Head(fs, f)
  {
    hide Aligned, Xor, FreeFrames, Inv, Head, SetHead, Push, Run;
    HoleInRange(fs, dir, lo, hi, f);
    FillLow(fs, dir, lo, hi, f, hi, od, true);
    RunAppend(lo, f - lo, Pow2(od));
    assert f + Pow2(od) - lo == f - lo + Pow2(od);
  }

  /** The loop over the frames before the first multiple of 1024, bound. */
  ghost predicate HeadPart(fs: Frames, dir: Lists, lo: nat, hi: nat, bound: nat, f: nat, od: nat) {
    && Filled(fs, dir, lo, hi, f) && Aligned(bound, MAX_ORDER) && f <= bound <= hi && bound <= f + Pow2(MAX_ORDER)
    && (f < bound ==> Aligned(f, od) && Aligned(bound - f, od))
    && (forall h: nat :: Head(fs, h) ==> fs[h].order < od)
  }

  lemma HeadStart(fs: Frames, dir: Lists, lo: nat, hi: nat, f: nat, bound: nat)
    requires Filled(fs, dir, lo, hi, f) && f < bound <= hi && bound <= f + Pow2(MAX_ORDER) && Aligned(bound, MAX_ORDER)
    requires forall i :: 0 <= i < |fs| ==> fs[i].order == NO_ORDER
    ensures HeadPart(fs, dir, lo, hi, bound, f, 0)
  {
  }

  lemma HeadFacts(f: nat, bound: nat, od: nat)
    requires Aligned(bound, MAX_ORDER) && f < bound <= f + Pow2(MAX_ORDER) && Aligned(f, od) && Aligned(bound - f, od)
    ensures od <= MAX_ORDER
    ensures var ni := bound - f;
      if Bit(ni, od)
      then && f + Pow2(od) <= bound && (od < MAX_ORDER ==> Xor(f, Pow2(od)) < f)
           && (f + Pow2(od) < bound ==> Aligned(f + Pow2(od), od + 1) && Aligned(ni - Pow2(od), od + 1))
      else Aligned(f, od + 1) && Aligned(ni, od + 1)
  {
    hide Aligned, Bit, Xor;
    var ni := bound - f;
    AlignedZero(od); AlignedGap(0, ni, od);
    if od > MAX_ORDER { Pow2Mono(MAX_ORDER, od); assert false; }
    AlignedZero(MAX_ORDER); AlignedGap(0, bound, MAX_ORDER);
    var fr := bound - Pow2(MAX_ORDER);
    AlignedPow2(MAX_ORDER); AlignedAdd(Pow2(MAX_ORDER), fr, MAX_ORDER);
    if fr < f { PadFacts(fr, MAX_ORDER, f, od); }
    else {
      assert ni == Pow2(MAX_ORDER);
      BitPow2(MAX_ORDER, od);
      if od < MAX_ORDER { AlignedDown(f, od + 1, MAX_ORDER); AlignedDown(ni, od + 1, MAX_ORDER); }
    }
  }

  lemma HeadPiece(fs: Frames, dir: Lists, lo: nat, hi: nat, bound: nat, f: nat, od: nat)
    requires HeadPart(fs, dir, lo, hi, bound, f, od) && f < bound && Bit(bound - f, od)
    ensures od <= MAX_ORDER && f < |fs| && f + Pow2(od) <= bound
    ensures HeadPart(SetHead(fs, f, od, true), Push(dir, od, f), lo, hi, bound, f + Pow2(od), od + 1)
  {
    hide Inv, Aligned, Bit, Xor, FreeFrames;
    HeadFacts(f, bound, od);
    FillNext(fs, dir, lo, hi, f, od);
    var fs' := SetHead(fs, f, od, true);
    forall h: nat | Head(fs', h) ensures fs'[h].order < od + 1 {
      if h != f { assert Head(fs, h); }
    }
  }

  lemma HeadSkip(fs: Frames, dir: Lists, lo: nat, hi: nat, bound: nat, f: nat, od: nat)
    requires HeadPart(fs, dir, lo, hi, bound, f, od) && f < bound && !Bit(bound - f, od)
    ensures od < MAX_ORDER && HeadPart(fs, dir, lo, hi, bound, f, od + 1)
  {
    hide Inv, FreeFrames, FreeHead, Bit, Aligned, Pow2;
    HeadFacts(f, bound, od);
    if od == MAX_ORDER { AlignedUp(f, od); AlignedUp(bound - f, od); AlignedGap(f, bound, od); TopBit(bound - f); }
  }

  lemma TopBit(ni: nat)
    requires ni == Pow2(MAX_ORDER)
    ensures Bit(ni, MAX_ORDER)
  {
    BitPow2(MAX_ORDER, MAX_ORDER);
  }

  /** The loops over the frames from the first multiple of 1024 on. */
  ghost predicate TailPart(fs: Frames, dir: Lists, lo: nat, hi: nat, f: nat, od: nat) {
    && Filled(fs, dir, lo, hi, f) && od <= MAX_ORDER && Aligned(f, od) && f <= hi
    && (od < MAX_ORDER ==> hi - f < Pow2(od + 1) && (hi - f >= Pow2(od) ==> Aligned(f, od + 1)))
  }

  lemma TailStart(fs: Frames, dir: Lists, lo: nat, hi: nat, f: nat)
    requires Filled(fs, dir, lo, hi, f) && Aligned(f, MAX_ORDER) && f <= hi
    ensures TailPart(fs, dir, lo, hi, f, MAX_ORDER)
  {
  }

  /** Nothing past the hole heads a block. */
  lemma NoHeadAhead(fs: Frames, dir: Lists, lo: nat, hi: nat, f: nat, g: nat)
    requires Filled(fs, dir, lo, hi, f) && f <= g && f < hi
    ensures !Head(fs, g)
  {
    if g < hi { HoleHasNoHead(fs, lo, hi, f, hi, g); }
    assert Head(fs, g) ==> BlockOk(fs, lo, hi, f, hi, g);
  }

  lemma TailPiece(fs: Frames, dir: Lists, lo: nat, hi: nat, f: nat, od: nat)
    requires TailPart(fs, dir, lo, hi, f, od) && f + Pow2(od) <= hi
    ensures f < |fs| && TailPart(SetHead(fs, f, od, true), Push(dir, od, f), lo, hi, f + Pow2(od), od)
  {
    hide Filled, Aligned, Xor, Bit;
    if od < MAX_ORDER {
      AlignedUp(f, od);
      XorPow2(f, od);
      NoHeadAhead(fs, dir, lo, hi, f, f + Pow2(od));
    }
    FillNext(fs, dir, lo, hi, f, od);
    AlignedStep(f, od);
    hide Head, SetHead, Push;
  }

  lemma TailDown(fs: Frames, dir: Lists, lo: nat, hi: nat, f: nat, od: nat)
    requires od > 0 && TailPart(fs, dir, lo, hi, f, od) && hi < f + Pow2(od)
    ensures TailPart(fs, dir, lo, hi, f, od - 1)
  {
    AlignedDown(f, od - 1, od);
  }

  lemma NothingLive(fs: Frames, dir: Lists, lo: nat, hi: nat)
    requires Filled(fs, dir, lo, hi, hi)
    ensures lo <= hi && Closed(fs, dir, lo, hi) && FreeFrames(fs) == Run(lo, hi - lo) && LiveOk(fs, lo, hi, map[])
  {
  }

  lemma FreeIsManaged(fs: Frames, dir: Lists, lo: nat, hi: nat, i: nat)
    requires Closed(fs, dir, lo, hi) && i in FreeFrames(fs)
    ensures lo <= i < hi
  {
    var h: nat :| FreeHead(fs, h) && Covers(fs, h, i);
    assert BlockOk(fs, lo, hi, hi, hi, h);
  }
}
