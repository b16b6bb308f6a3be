/** The free lists are a function of the set of free frames: they hold exactly
    the maximal aligned blocks of order <= 10 inside it. */
module BuddyCanonical {
  import opened Bits
  import opened BuddyBlocks
  import opened Seqs

  /** Inv with no hole: the state between two calls. */
  ghost predicate Closed(fs: Frames, dir: Lists, lo: nat, hi: nat) {
    Inv(fs, dir, lo, hi, hi, hi)
  }

  /** [f, f + 2^od) is an aligned run of frames of F. */
  ghost predicate AlignedRun(F: set<nat>, f: nat, od: nat) {
    Aligned(f, od) && Run(f, Pow2(od)) <= F
  }

  /** An aligned run of F that is not one half of a larger admissible one. */
  ghost predicate Maximal(F: set<nat>, f: nat, od: nat) {
    && od <= MAX_ORDER && AlignedRun(F, f, od)
    && (od < MAX_ORDER ==> !AlignedRun(F, And(f, Xor(f, Pow2(od))), od + 1))
  }

  lemma BlockIsFree(fs: Frames, dir: Lists, lo: nat, hi: nat, h: nat)
    requires Closed(fs, dir, lo, hi) && FreeHead(fs, h)
    ensures fs[h].order <= MAX_ORDER && AlignedRun(FreeFrames(fs), h, fs[h].order)
  {
    assert BlockOk(fs, lo, hi, hi, hi, h);
    forall i: nat | h <= i < End(fs, h) ensures i in FreeFrames(fs) {
      assert FreeHead(fs, h) && Covers(fs, h, i);
    }
  }

  lemma SubRun(F: set<nat>, f: nat, m: nat, g: nat, n: nat)
    requires Run(g, n) <= F && g <= f && f + m <= g + n
    ensures Run(f, m) <= F
  {
    assert Run(f, m) <= Run(g, n);
  }

  lemma FreeHeadFacts(fs: Frames, dir: Lists, lo: nat, hi: nat, h: nat)
    requires Closed(fs, dir, lo, hi) && FreeHead(fs, h)
    ensures fs[h].order <= MAX_ORDER && Aligned(h, fs[h].order)
  {
    assert BlockOk(fs, lo, hi, hi, hi, h);
  }

  /** Two aligned blocks that cover the halves of an aligned block: one of them
      covers all of it, or they are the two halves. */
  lemma TwoHalves(f: nat, k: nat, h1: nat, o1: nat, h2: nat, o2: nat)
    requires Aligned(f, k + 1) && Aligned(h1, o1) && Aligned(h2, o2) && k <= o1 && k <= o2
    requires h1 <= f && f + Pow2(k) <= h1 + Pow2(o1)
    requires h2 <= f + Pow2(k) && f + Pow2(k + 1) <= h2 + Pow2(o2)
    ensures || (k < o1 && f + Pow2(k + 1) <= h1 + Pow2(o1))
            || (k < o2 && h2 <= f)
            || (o1 == k == o2 && h1 == f && h2 == Xor(f, Pow2(k)))
  {
    if k < o1 { Nested(f, k + 1, h1, o1); }
    else if k < o2 { Nested(f, k + 1, h2, o2); }
    else { AlignedUp(f, k); XorPow2(f, k); }
  }

  /** Every aligned run of free frames lies inside one free block. */
  lemma {:induction false} RunInBlock(fs: Frames, dir: Lists, lo: nat, hi: nat, f: nat, od: nat) returns (h: nat)
    requires Closed(fs, dir, lo, hi) && od <= MAX_ORDER && AlignedRun(FreeFrames(fs), f, od)
    ensures FreeHead(fs, h) && od <= fs[h].order <= MAX_ORDER
    ensures h <= f && f + Pow2(od) <= End(fs, h)
    decreases od
  {
    if od == 0 {
      h := BlockAt(fs, f);
      FreeHeadFacts(fs, dir, lo, hi, h);
    } else {
      var k := od - 1;
      var g := HalfRuns(FreeFrames(fs), f, k);
      var h1 := RunInBlock(fs, dir, lo, hi, f, k);
      var h2 := RunInBlock(fs, dir, lo, hi, g, k);
      h := JoinHalves(fs, dir, lo, hi, f, k, h1, h2);
    }
  }

  lemma BlockAt(fs: Frames, f: nat) returns (h: nat)
    requires AlignedRun(FreeFrames(fs), f, 0)
    ensures FreeHead(fs, h) && Covers(fs, h, f)
  {
    assert f in Run(f, 1);
    h :| FreeHead(fs, h) && Covers(fs, h, f);
  }

  lemma JoinHalves(fs: Frames, dir: Lists, lo: nat, hi: nat, f: nat, k: nat, h1: nat, h2: nat) returns (h: nat)
    requires Closed(fs, dir, lo, hi) && k < MAX_ORDER && Aligned(f, k + 1)
    requires FreeHead(fs, h1) && k <= fs[h1].order && h1 <= f && f + Pow2(k) <= End(fs, h1)
    requires FreeHead(fs, h2) && k <= fs[h2].order && h2 <= f + Pow2(k) && f + Pow2(k + 1) <= End(fs, h2)
    ensures FreeHead(fs, h) && k < fs[h].order <= MAX_ORDER
    ensures h <= f && f + Pow2(k + 1) <= End(fs, h)
  {
    FreeHeadFacts(fs, dir, lo, hi, h1); FreeHeadFacts(fs, dir, lo, hi, h2);
    TwoHalves(f, k, h1, fs[h1].order, h2, fs[h2].order);
    assert !Mergeable(fs, h1, h2);
    h := if fs[h1].order > k && f + Pow2(k + 1) <= End(fs, h1) then h1 else h2;
  }

  lemma HalfRuns(F: set<nat>, f: nat, k: nat) returns (g: nat)
    requires AlignedRun(F, f, k + 1)
    ensures g == f + Pow2(k) && AlignedRun(F, f, k) && AlignedRun(F, g, k)
  {
    g := f + Pow2(k);
    AlignedUp(f, k); AlignedStep(f, k);
    SubRun(F, f, Pow2(k), f, Pow2(k + 1));
    SubRun(F, f + Pow2(k), Pow2(k), f, Pow2(k + 1));
  }

  /** A larger aligned block around f contains the parent block of f. */
  lemma ParentInside(f: nat, od: nat, h: nat, o: nat)
    requires Aligned(f, od) && Aligned(h, o) && od < o && h <= f < h + Pow2(o)
    ensures var p := And(f, Xor(f, Pow2(od)));
      h <= p && p + Pow2(od + 1) <= h + Pow2(o) && p <= f < p + Pow2(od + 1) && Aligned(p, od + 1)
  {
    BuddyPair(f, od);
    Nested(And(f, Xor(f, Pow2(od))), od + 1, h, o);
  }

  lemma OneBlock(fs: Frames, dir: Lists, lo: nat, hi: nat, g: nat, h: nat)
    requires Closed(fs, dir, lo, hi) && FreeHead(fs, g) && FreeHead(fs, h) && Covers(fs, g, h)
    ensures g == h
  {
    Disjoint(fs, lo, hi, hi, hi, g, h);
  }

  lemma BlockIsMaximal(fs: Frames, dir: Lists, lo: nat, hi: nat, f: nat)
    requires Closed(fs, dir, lo, hi) && FreeHead(fs, f)
    ensures Maximal(FreeFrames(fs), f, fs[f].order)
  {
    var od := fs[f].order;
    var p := And(f, Xor(f, Pow2(od)));
    FreeHeadFacts(fs, dir, lo, hi, f);
    BuddyPair(f, od);
    if od < MAX_ORDER && AlignedRun(FreeFrames(fs), p, od + 1) {
      var h := RunInBlock(fs, dir, lo, hi, p, od + 1);
      OneBlock(fs, dir, lo, hi, h, f);
    }
    BlockIsFree(fs, dir, lo, hi, f);
  }

  lemma MaximalIsBlock(fs: Frames, dir: Lists, lo: nat, hi: nat, f: nat, od: nat)
    requires Closed(fs, dir, lo, hi) && Maximal(FreeFrames(fs), f, od)
    ensures FreeHead(fs, f) && fs[f].order == od
  {
    var h := RunInBlock(fs, dir, lo, hi, f, od);
    assert fs[h].order == od ==> h == f;
    BlockIsFree(fs, dir, lo, hi, h);
    if fs[h].order > od {
      ParentInside(f, od, h, fs[h].order);
      var p := And(f, Xor(f, Pow2(od)));
      SubRun(FreeFrames(fs), p, Pow2(od + 1), h, Pow2(fs[h].order));
      assert false;
    }
  }

  /** The free blocks are exactly the maximal aligned blocks of free frames. */
  lemma Canonical(fs: Frames, dir: Lists, lo: nat, hi: nat, f: nat, od: nat)
    requires Closed(fs, dir, lo, hi) && od <= MAX_ORDER
    ensures f in dir[od] <==> Maximal(FreeFrames(fs), f, od)
  {
    assert InList(dir, od, f) <==> FreeHead(fs, f) && fs[f].order == od;
    if f in dir[od] { BlockIsMaximal(fs, dir, lo, hi, f); }
    if Maximal(FreeFrames(fs), f, od) { MaximalIsBlock(fs, dir, lo, hi, f, od); }
  }

  lemma {:induction false} SameMembers(s: seq<nat>, t: seq<nat>)
    requires NoDup(s) && NoDup(t) && forall x :: x in s <==> x in t
    ensures multiset(s) == multiset(t) && |s| == |t|
  {
    forall x ensures multiset(s)[x] == multiset(t)[x] {
      OnceEach(s, x); OnceEach(t, x);
    }
    assert multiset(s) == multiset(t);
    assert |s| == |multiset(s)| && |t| == |multiset(t)|;
  }

  lemma {:induction false} OnceEach(s: seq<nat>, x: nat)
    requires NoDup(s)
    ensures multiset(s)[x] == if x in s then 1 else 0
  {
    if s != [] {
      var n := |s| - 1;
      assert s == s[..n] + [s[n]];
      OnceEach(s[..n], x);
    }
  }

  /** Two states over the same free frames have the same free lists up to the
      order of their elements, whatever calls led to them. */
  lemma Determined(fs: Frames, dir: Lists, lo: nat, hi: nat, fs': Frames, dir': Lists, lo': nat, hi': nat, od: nat)
    requires Closed(fs, dir, lo, hi) && Closed(fs', dir', lo', hi') && od <= MAX_ORDER
    requires FreeFrames(fs) == FreeFrames(fs')
    ensures multiset(dir[od]) == multiset(dir'[od]) && |dir[od]| == |dir'[od]|
  {
    forall x: nat ensures x in dir[od] <==> x in dir'[od] {
      Canonical(fs, dir, lo, hi, x, od);
      Canonical(fs', dir', lo', hi', x, od);
    }
    SameMembers(dir[od], dir'[od]);
  }

  /** Some list of order at least od is non-empty exactly when some aligned
      run of 2^od frames is free. */
  lemma Available(fs: Frames, dir: Lists, lo: nat, hi: nat, od: nat)
    requires Closed(fs, dir, lo, hi) && od <= MAX_ORDER
    ensures (exists k :: od <= k <= MAX_ORDER && dir[k] != []) <==>
            (exists f: nat :: AlignedRun(FreeFrames(fs), f, od))
  {
    var F := FreeFrames(fs);
    if k :| od <= k <= MAX_ORDER && dir[k] != [] {
      var f := dir[k][0];
      assert InList(dir, k, f);
      BlockIsFree(fs, dir, lo, hi, f);
      AlignedDown(f, od, k);
      Pow2Mono(od, k);
      assert Run(f, Pow2(od)) <= Run(f, Pow2(k));
      assert AlignedRun(F, f, od);
    }
    if f: nat :| AlignedRun(F, f, od) {
      var h := RunInBlock(fs, dir, lo, hi, f, od);
      assert InList(dir, fs[h].order, h);
    }
  }

  // ---- stale flags ------------------------------------------------------------------

  /** The merge test reads a frame's raw flag fields.  Although frames inside
      a block keep free bits of the past, the test succeeds exactly on the
      heads of free blocks of that order, which are in the list it edits. */
  lemma MergeTest(fs: Frames, dir: Lists, lo: nat, hi: nat, a: nat, b: nat, bd: nat, od: nat)
    requires Inv(fs, dir, lo, hi, a, b) && od <= MAX_ORDER && bd < |fs|
    ensures (od == fs[bd].order && fs[bd].valid && fs[bd].free) <==> bd in dir[od]
  {
    assert InList(dir, od, bd) <==> FreeHead(fs, bd) && fs[bd].order == od;
    if FreeHead(fs, bd) { assert BlockOk(fs, lo, hi, a, b, bd); }
  }

  // ---- outstanding allocations ----------------------------------------------------------

  ghost predicate UsedHead(fs: Frames, h: int) {
    Head(fs, h) && !fs[h].free
  }

  /** The piece of a request of n frames at s that stands for bit k of n. */
  function PieceStart(s: nat, n: nat, k: nat): int {
    s + n - Low(n, k + 1)
  }

  /** The n frames at s are headed as allocated blocks, one for every bit of
      n, the largest first. */
  ghost predicate Pieces(fs: Frames, s: nat, n: nat) {
    forall k: nat {:trigger Bit(n, k)} :: Bit(n, k) && k <= MAX_ORDER ==>
      var p := PieceStart(s, n, k); UsedHead(fs, p) && fs[p].order == k
  }

  ghost predicate Owned(live: map<nat, nat>, i: nat) {
    exists s :: s in live && s <= i < s + live[s]
  }

  /** `live` maps the start of every outstanding allocation to its size:
      together with the free frames they partition the managed range. */
  ghost predicate LiveOk(fs: Frames, lo: nat, hi: nat, live: map<nat, nat>) {
    && (forall s :: s in live ==> 1 <= live[s] <= Pow2(MAX_ORDER) && lo <= s && s + live[s] <= hi)
    && (forall s :: s in live ==> Pieces(fs, s, live[s]))
    && (forall s, t :: s in live && t in live && s < t ==> s + live[s] <= t)
    && (forall i: nat :: lo <= i < hi ==> (i in FreeFrames(fs) <==> !Owned(live, i)))
  }

  /** The used heads of fs, except those in `but`, are unchanged in fs'. */
  ghost predicate UsedKept(fs: Frames, fs': Frames, but: set<nat>) {
    && |fs| == |fs'|
    && forall h: nat :: UsedHead(fs, h) && h !in but ==> fs'[h] == fs[h]
  }

  lemma PiecesKept(fs: Frames, fs': Frames, but: set<nat>, s: nat, n: nat)
    requires Pieces(fs, s, n) && UsedKept(fs, fs', but) && n < Pow2(MAX_ORDER + 1)
    requires forall h :: h in but ==> !(s <= h < s + n)
    ensures Pieces(fs', s, n)
  {
    forall k: nat | Bit(n, k) && k <= MAX_ORDER
      ensures var p := PieceStart(s, n, k); UsedHead(fs', p) && fs'[p].order == k
    {
      var p := PieceStart(s, n, k);
      assert UsedHead(fs, p);
      LowStep(n, k + 1); LowStep(n, k);
      assert s <= p < s + n;
    }
  }

  lemma OwnedInsert(live: map<nat, nat>, f: nat, n: nat, i: nat)
    requires f !in live
    ensures Owned(live[f := n], i) <==> Owned(live, i) || f <= i < f + n
  {
    var live' := live[f := n];
    if Owned(live, i) { var s :| s in live && s <= i < s + live[s]; assert s in live' && live'[s] == live[s]; }
    if f <= i < f + n { assert f in live'; }
    if Owned(live', i) {
      var s :| s in live' && s <= i < s + live'[s];
      assert s != f ==> s in live && live'[s] == live[s];
    }
  }

  lemma OwnedRemove(live: map<nat, nat>, f: nat, i: nat)
    requires f in live && forall s, t :: s in live && t in live && s < t ==> s + live[s] <= t
    ensures Owned(live - {f}, i) <==> Owned(live, i) && !(f <= i < f + live[f])
  {
    var live' := live - {f};
    if Owned(live, i) && !(f <= i < f + live[f]) {
      var s :| s in live && s <= i < s + live[s];
      assert s in live' && live'[s] == live[s];
    }
    if Owned(live', i) {
      var s :| s in live' && s <= i < s + live'[s];
      assert s in live && live'[s] == live[s] && s != f;
    }
  }

  /** A run of free frames touches no outstanding allocation. */
  lemma FreshRun(fs: Frames, lo: nat, hi: nat, live: map<nat, nat>, f: nat, n: nat, s: nat)
    requires LiveOk(fs, lo, hi, live) && s in live && n >= 1 && lo <= f && f + n <= hi && Run(f, n) <= FreeFrames(fs)
    ensures s + live[s] <= f || f + n <= s
  {
    if f <= s < f + n { assert s in Run(f, n) && Owned(live, s); }
    if s <= f < s + live[s] { assert f in Run(f, n) && Owned(live, f); }
  }

  lemma LiveAfterAlloc(fs: Frames, fs': Frames, lo: nat, hi: nat, live: map<nat, nat>, f: nat, n: nat)
    requires LiveOk(fs, lo, hi, live) && UsedKept(fs, fs', {})
    requires 1 <= n <= Pow2(MAX_ORDER) && lo <= f && f + n <= hi && Pieces(fs', f, n)
    requires Run(f, n) <= FreeFrames(fs) && FreeFrames(fs') == FreeFrames(fs) - Run(f, n)
    ensures f !in live && LiveOk(fs', lo, hi, live[f := n])
  {
    Pow2Mono(MAX_ORDER, MAX_ORDER + 1);
    forall s | s in live ensures s + live[s] <= f || f + n <= s { FreshRun(fs, lo, hi, live, f, n, s); }
    forall s | s in live ensures Pieces(fs', s, live[s]) { PiecesKept(fs, fs', {}, s, live[s]); }
    forall i: nat | lo <= i < hi ensures i in FreeFrames(fs') <==> !Owned(live[f := n], i) {
      OwnedInsert(live, f, n, i);
    }
  }

  lemma LiveAfterFree(fs: Frames, fs': Frames, lo: nat, hi: nat, live: map<nat, nat>, f: nat)
    requires LiveOk(fs, lo, hi, live) && f in live && UsedKept(fs, fs', Run(f, live[f]))
    requires FreeFrames(fs') == FreeFrames(fs) + Run(f, live[f])
    ensures LiveOk(fs', lo, hi, live - {f})
    ensures FreeFrames(fs) !! Run(f, live[f])
  {
    Pow2Mono(MAX_ORDER, MAX_ORDER + 1);
    var n, live' := live[f], live - {f};
    forall i: nat | f <= i < f + n ensures i !in FreeFrames(fs) { assert Owned(live, i); }
    forall s | s in live' ensures Pieces(fs', s, live'[s]) {
      assert s + live[s] <= f || f + n <= s;
      PiecesKept(fs, fs', Run(f, n), s, live[s]);
    }
    forall i: nat | lo <= i < hi ensures i in FreeFrames(fs') <==> !Owned(live', i) {
      OwnedRemove(live, f, i);
    }
  }
}
