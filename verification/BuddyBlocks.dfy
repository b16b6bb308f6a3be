/** The state of the buddy system as values: the flag words of the frame table
    and the free lists, the invariant that ties them together, and the two
    elementary changes (heading a block, removing a head) that every loop of
    the allocator is made of.

    A frame is the head of a block exactly when its order field is not 15.
    The invariant is stated with one hole [a, b): a stretch of managed frames
    that no block covers at the moment.  Between calls the hole is empty. */
module BuddyBlocks {
  import opened Bits
  import opened Seqs

  const MAX_ORDER: nat := 10
  const NO_ORDER: nat := 15
  const MAX_FRAME_NUM: nat := 8192

  /** The three fields of frame_t.flag: bits 3-0, bit 4 and bit 5. */
  datatype Frame = Frame(order: nat, valid: bool, free: bool)

  type Frames = seq<Frame>
  type Lists = seq<seq<nat>>

  predicate Head(fs: Frames, i: int) {
    0 <= i < |fs| && fs[i].order != NO_ORDER
  }

  predicate FreeHead(fs: Frames, i: int) {
    Head(fs, i) && fs[i].free
  }

  function End(fs: Frames, i: nat): nat
    requires Head(fs, i)
  {
    i + Pow2(fs[i].order)
  }

  /** The frames [f, f + n). */
  function Run(f: nat, n: nat): set<nat> {
    set i: nat {:trigger Within(i, f, n)} | f <= i < f + n && Within(i, f, n)
  }

  predicate Within(i: nat, f: nat, n: nat) {
    f <= i < f + n
  }

  lemma {:induction false} RunSize(f: nat, n: nat)
    ensures |Run(f, n)| == n
  {
    if n > 0 {
      RunSize(f, n - 1);
      assert Run(f, n) == Run(f, n - 1) + {f + n - 1};
    }
  }

  ghost predicate Covers(fs: Frames, h: nat, i: nat) {
    Head(fs, h) && h <= i < End(fs, h)
  }

  ghost predicate IsFree(fs: Frames, i: nat) {
    exists h: nat :: FreeHead(fs, h) && Covers(fs, h, i)
  }

  /** The frames covered by free blocks. */
  ghost function FreeFrames(fs: Frames): set<nat> {
    set i | 0 <= i < |fs| && IsFree(fs, i)
  }

  // ---- the invariant -------------------------------------------------------

  ghost predicate BlockOk(fs: Frames, lo: nat, hi: nat, a: nat, b: nat, h: nat)
    requires Head(fs, h)
  {
    && fs[h].order <= MAX_ORDER
    && Aligned(h, fs[h].order)
    && lo <= h && End(fs, h) <= hi
    && (End(fs, h) <= a || b <= h)
  }

  ghost predicate Apart(fs: Frames, g: nat, h: nat)
    requires Head(fs, g)
  {
    End(fs, g) <= h
  }

  /** A block or the hole starts at x, or the managed range ends there. */
  ghost predicate Edge(fs: Frames, hi: nat, a: nat, b: nat, x: nat) {
    x == hi || Head(fs, x) || (a < b && x == a)
  }

  /** Blocks and the hole tile the managed frames [lo, hi). */
  ghost predicate Tiled(fs: Frames, lo: nat, hi: nat, a: nat, b: nat) {
    && lo <= a <= b <= hi <= |fs|
    && (forall i :: 0 <= i < |fs| ==> (fs[i].valid <==> lo <= i < hi))
    && (forall h: nat {:trigger BlockOk(fs, lo, hi, a, b, h)} :: Head(fs, h) ==> BlockOk(fs, lo, hi, a, b, h))
    && (forall g: nat, h: nat {:trigger Apart(fs, g, h)} :: Head(fs, g) && Head(fs, h) && g < h ==> Apart(fs, g, h))
    && Edge(fs, hi, a, b, lo) && Edge(fs, hi, a, b, b)
    && (forall h: nat {:trigger Edge(fs, hi, a, b, End(fs, h))} :: Head(fs, h) ==> Edge(fs, hi, a, b, End(fs, h)))
  }

  lemma Disjoint(fs: Frames, lo: nat, hi: nat, a: nat, b: nat, g: nat, h: nat)
    requires Tiled(fs, lo, hi, a, b) && Head(fs, g) && Head(fs, h)
    ensures g < h ==> End(fs, g) <= h
    ensures h < g ==> End(fs, h) <= g
    ensures BlockOk(fs, lo, hi, a, b, g)
  {
    assert g < h ==> Apart(fs, g, h);
    assert h < g ==> Apart(fs, h, g);
    assert BlockOk(fs, lo, hi, a, b, g);
  }

  predicate InList(dir: Lists, od: nat, x: nat)
    requires od < |dir|
  {
    x in dir[od]
  }

  /** List od holds exactly the free heads of order od, each once. */
  ghost predicate Listed(fs: Frames, dir: Lists) {
    && |dir| == MAX_ORDER + 1
    && (forall od :: 0 <= od <= MAX_ORDER ==> NoDup(dir[od]))
    && (forall od: nat, x: nat {:trigger InList(dir, od, x)} :: od <= MAX_ORDER ==>
          (InList(dir, od, x) <==> FreeHead(fs, x) && fs[x].order == od))
  }

  /** No two free blocks could be merged. */
  ghost predicate Merged(fs: Frames) {
    forall g: nat, h: nat {:trigger Mergeable(fs, g, h)} ::
      FreeHead(fs, g) && FreeHead(fs, h) ==> !Mergeable(fs, g, h)
  }

  ghost predicate Mergeable(fs: Frames, g: nat, h: nat)
    requires Head(fs, g) && Head(fs, h)
  {
    fs[g].order == fs[h].order < MAX_ORDER && h == Xor(g, Pow2(fs[g].order))
  }

  ghost predicate Inv(fs: Frames, dir: Lists, lo: nat, hi: nat, a: nat, b: nat) {
    Tiled(fs, lo, hi, a, b) && Listed(fs, dir) && Merged(fs)
  }

  // ---- the two elementary changes ---------------------------------------------

  /** Give frame f the order od and the free bit `free`. */
  function SetHead(fs: Frames, f: nat, od: nat, free: bool): (r: Frames)
    requires f < |fs|
    ensures |r| == |fs|
  {
    fs[f := Frame(od, fs[f].valid, free)]
  }

  function Push(dir: Lists, od: nat, f: nat): Lists
    requires od < |dir|
  {
    dir[od := dir[od] + [f]]
  }

  function Drop(dir: Lists, od: nat, f: nat): Lists
    requires od < |dir|
  {
    dir[od := Without(dir[od], f)]
  }

  /** (a', b') is the hole (a, b) after a block of 2^od frames starting at f
      has been taken from one of its ends. */
  ghost predicate Shrinks(f: nat, od: nat, a: nat, b: nat, a': nat, b': nat) {
    || (f == a && a' == a + Pow2(od) <= b && b' == b)
    || (f + Pow2(od) == b && a' == a <= f && b' == f)
  }

  lemma HoleHasNoHead(fs: Frames, lo: nat, hi: nat, a: nat, b: nat, f: nat)
    requires Tiled(fs, lo, hi, a, b) && a <= f < b
    ensures !Head(fs, f)
  {
    assert Head(fs, f) ==> BlockOk(fs, lo, hi, a, b, f);
  }

  lemma FillBlocks(fs: Frames, lo: nat, hi: nat, a: nat, b: nat, f: nat, od: nat, free: bool, a': nat, b': nat)
    requires Tiled(fs, lo, hi, a, b) && a < b
    requires od <= MAX_ORDER && Aligned(f, od) && Shrinks(f, od, a, b, a', b')
    ensures var fs' := SetHead(fs, f, od, free);
      && (forall h: nat {:trigger BlockOk(fs', lo, hi, a', b', h)} :: Head(fs', h) ==> BlockOk(fs', lo, hi, a', b', h))
      && (forall g: nat, h: nat {:trigger Apart(fs', g, h)} ::
        Head(fs', g) && Head(fs', h) && g < h ==> Apart(fs', g, h))
  {
    var fs' := SetHead(fs, f, od, free);
    forall h: nat | Head(fs', h) ensures BlockOk(fs', lo, hi, a', b', h) {
      if h != f { assert Head(fs, h) && BlockOk(fs, lo, hi, a, b, h); }
    }
    forall g: nat, h: nat | Head(fs', g) && Head(fs', h) && g < h ensures Apart(fs', g, h) {
      if g != f { assert Head(fs, g) && BlockOk(fs, lo, hi, a, b, g); }
      if h != f { assert Head(fs, h) && BlockOk(fs, lo, hi, a, b, h); }
      if g != f && h != f { assert Apart(fs, g, h); }
    }
  }

  /** Every edge survives the filling. */
  lemma FillEdges(fs: Frames, hi: nat, a: nat, b: nat, f: nat, od: nat, free: bool, a': nat, b': nat)
    requires a < b <= |fs| && !Head(fs, f) && Shrinks(f, od, a, b, a', b') && od <= MAX_ORDER
    ensures forall x: nat :: Edge(fs, hi, a, b, x) ==> Edge(SetHead(fs, f, od, free), hi, a', b', x)
  {
    var fs' := SetHead(fs, f, od, free);
    forall x: nat | Edge(fs, hi, a, b, x) ensures Edge(fs', hi, a', b', x) {
      if Head(fs, x) { assert Head(fs', x); }
      else if x == f { assert Head(fs', f); }
    }
  }

  lemma FillEnds(fs: Frames, lo: nat, hi: nat, a: nat, b: nat, f: nat, od: nat, free: bool, a': nat, b': nat, h: nat)
    requires Tiled(fs, lo, hi, a, b) && a < b && !Head(fs, f)
    requires od <= MAX_ORDER && Shrinks(f, od, a, b, a', b')
    requires Head(SetHead(fs, f, od, free), h)
    ensures Edge(SetHead(fs, f, od, free), hi, a', b', End(SetHead(fs, f, od, free), h))
  {
    var fs' := SetHead(fs, f, od, free);
    FillEdges(fs, hi, a, b, f, od, free, a', b');
    if h != f {
      assert Head(fs, h) && End(fs', h) == End(fs, h);
      assert Edge(fs, hi, a, b, End(fs, h));
    } else if End(fs', f) == b {
      assert Edge(fs, hi, a, b, b);
    } else {
      assert End(fs', f) == a' < b';
    }
  }

  lemma FillTiles(fs: Frames, lo: nat, hi: nat, a: nat, b: nat, f: nat, od: nat, free: bool, a': nat, b': nat)
    requires Tiled(fs, lo, hi, a, b) && a < b
    requires od <= MAX_ORDER && Aligned(f, od) && Shrinks(f, od, a, b, a', b')
    ensures !Head(fs, f)
    ensures Tiled(SetHead(fs, f, od, free), lo, hi, a', b')
  {
    var fs' := SetHead(fs, f, od, free);
    HoleHasNoHead(fs, lo, hi, a, b, f);
    FillBlocks(fs, lo, hi, a, b, f, od, free, a', b');
    FillEdges(fs, hi, a, b, f, od, free, a', b');
    assert Edge(fs', hi, a', b', b') by { if f != a { assert Head(fs', f); } }
    forall h: nat | Head(fs', h) ensures Edge(fs', hi, a', b', End(fs', h)) {
      FillEnds(fs, lo, hi, a, b, f, od, free, a', b', h);
    }
  }

  lemma FillLists(fs: Frames, dir: Lists, f: nat, od: nat)
    requires Listed(fs, dir) && f < |fs| && !Head(fs, f) && od <= MAX_ORDER
    ensures Listed(SetHead(fs, f, od, true), Push(dir, od, f))
    ensures Listed(SetHead(fs, f, od, false), dir)
  {
    assert !InList(dir, od, f);
    AppendMembers(dir[od], f);
    var fs', dir' := SetHead(fs, f, od, true), Push(dir, od, f);
    forall k: nat, x: nat | k <= MAX_ORDER
      ensures InList(dir', k, x) <==> FreeHead(fs', x) && fs'[x].order == k
    {
      assert InList(dir, k, x) <==> FreeHead(fs, x) && fs[x].order == k;
    }
    var fs2 := SetHead(fs, f, od, false);
    forall k: nat, x: nat | k <= MAX_ORDER
      ensures InList(dir, k, x) <==> FreeHead(fs2, x) && fs2[x].order == k
    {
      assert InList(dir, k, x) <==> FreeHead(fs, x) && fs[x].order == k;
    }
  }

  lemma FillMerged(fs: Frames, f: nat, od: nat, free: bool)
    requires Merged(fs) && f < |fs| && !Head(fs, f) && od <= MAX_ORDER && Aligned(f, od)
    requires free && od < MAX_ORDER ==>
      var g := Xor(f, Pow2(od)); !(FreeHead(fs, g) && fs[g].order == od)
    ensures Merged(SetHead(fs, f, od, free))
  {
    var fs' := SetHead(fs, f, od, free);
    BuddyPair(f, od);
    XorPow2(f, od);
    forall g: nat, h: nat | FreeHead(fs', g) && FreeHead(fs', h) ensures !Mergeable(fs', g, h) {
      if h == f { XorTwice(g, od); }
      if g != f && h != f { assert FreeHead(fs, g) && FreeHead(fs, h) && !Mergeable(fs, g, h); }
    }
  }

  lemma XorTwice(n: nat, k: nat)
    ensures Xor(Xor(n, Pow2(k)), Pow2(k)) == n
  {
    XorPow2(n, k);
    var m := Xor(n, Pow2(k));
    XorPow2(m, k);
    BitFlip(n, k);
  }

  lemma {:induction false} BitFlip(n: nat, k: nat)
    ensures Bit(n, k) <==> !Bit(n + Pow2(k), k)
    decreases k
  {
    if k > 0 { BitFlip(n / 2, k - 1); assert (n + Pow2(k)) / 2 == n / 2 + Pow2(k - 1); }
  }

  /** Heading a block at one end of the hole. */
  lemma Fill(fs: Frames, dir: Lists, lo: nat, hi: nat, a: nat, b: nat,
             f: nat, od: nat, free: bool, a': nat, b': nat)
    requires Inv(fs, dir, lo, hi, a, b) && a < b
    requires od <= MAX_ORDER && Aligned(f, od) && Shrinks(f, od, a, b, a', b')
    requires free && od < MAX_ORDER ==>
      var g := Xor(f, Pow2(od)); !(FreeHead(fs, g) && fs[g].order == od)
    ensures Inv(SetHead(fs, f, od, free), if free then Push(dir, od, f) else dir, lo, hi, a', b')
    ensures FreeFrames(SetHead(fs, f, od, free)) ==
            FreeFrames(fs) + (if free then Run(f, Pow2(od)) else {})
  {
    FillTiles(fs, lo, hi, a, b, f, od, free, a', b');
    FillLists(fs, dir, f, od);
    FillMerged(fs, f, od, free);
    FillFree(fs, f, od, free);
  }

  lemma FillFree(fs: Frames, f: nat, od: nat, free: bool)
    requires f < |fs| && !Head(fs, f) && od <= MAX_ORDER && f + Pow2(od) <= |fs|
    ensures FreeFrames(SetHead(fs, f, od, free)) ==
            FreeFrames(fs) + (if free then Run(f, Pow2(od)) else {})
  {
    var fs' := SetHead(fs, f, od, free);
    forall i: nat ensures IsFree(fs', i) <==> IsFree(fs, i) || (free && f <= i < f + Pow2(od)) {
      if IsFree(fs, i) {
        var h: nat :| FreeHead(fs, h) && Covers(fs, h, i);
        assert FreeHead(fs', h) && Covers(fs', h, i);
      }
      if IsFree(fs', i) {
        var h: nat :| FreeHead(fs', h) && Covers(fs', h, i);
        if h != f { assert FreeHead(fs, h) && Covers(fs, h, i); }
      }
      if free && f <= i < f + Pow2(od) { assert FreeHead(fs', f) && Covers(fs', f, i); }
    }
  }

  /** The frames with the head at x removed. */
  function Unhead(fs: Frames, x: nat): (r: Frames)
    requires x < |fs|
    ensures |r| == |fs|
  {
    fs[x := fs[x].(order := NO_ORDER)]
  }

  /** The hole (a, b) grows by the block at x, which touches it. */
  ghost predicate Grows(fs: Frames, x: nat, a: nat, b: nat, a': nat, b': nat)
    requires Head(fs, x)
  {
    || (x == b && a' == a && b' == End(fs, x))
    || (End(fs, x) == a && a' == x && b' == b)
  }

  lemma UnheadTiles(fs: Frames, lo: nat, hi: nat, a: nat, b: nat, x: nat, a': nat, b': nat)
    requires Tiled(fs, lo, hi, a, b) && Head(fs, x) && Grows(fs, x, a, b, a', b')
    ensures Tiled(Unhead(fs, x), lo, hi, a', b')
  {
    var fs' := Unhead(fs, x);
    assert BlockOk(fs, lo, hi, a, b, x);
    forall h: nat | Head(fs', h) ensures BlockOk(fs', lo, hi, a', b', h) && Edge(fs', hi, a', b', End(fs', h)) {
      assert Head(fs, h) && BlockOk(fs, lo, hi, a, b, h) && Edge(fs, hi, a, b, End(fs, h));
      Disjoint(fs, lo, hi, a, b, h, x);
    }
    forall g: nat, h: nat | Head(fs', g) && Head(fs', h) && g < h ensures Apart(fs', g, h) {
      assert Head(fs, g) && Head(fs, h) && Apart(fs, g, h);
    }
    assert Edge(fs, hi, a, b, End(fs, x));
  }

  lemma UnheadLists(fs: Frames, dir: Lists, x: nat)
    requires Listed(fs, dir) && Head(fs, x) && fs[x].order <= MAX_ORDER
    ensures Listed(Unhead(fs, x), if fs[x].free then Drop(dir, fs[x].order, x) else dir)
  {
    var fs' := Unhead(fs, x);
    var dir' := if fs[x].free then Drop(dir, fs[x].order, x) else dir;
    WithoutMembers(dir[fs[x].order], x);
    forall k: nat, y: nat | k <= MAX_ORDER
      ensures InList(dir', k, y) <==> FreeHead(fs', y) && fs'[y].order == k
    {
      assert InList(dir, k, y) <==> FreeHead(fs, y) && fs[y].order == k;
    }
  }

  lemma UnheadMerged(fs: Frames, x: nat)
    requires Merged(fs) && Head(fs, x)
    ensures Merged(Unhead(fs, x))
  {
    var fs' := Unhead(fs, x);
    forall g: nat, h: nat | FreeHead(fs', g) && FreeHead(fs', h) ensures !Mergeable(fs', g, h) {
      assert FreeHead(fs, g) && FreeHead(fs, h) && !Mergeable(fs, g, h);
    }
  }

  lemma UnheadFree(fs: Frames, lo: nat, hi: nat, a: nat, b: nat, x: nat)
    requires Tiled(fs, lo, hi, a, b) && Head(fs, x)
    ensures FreeFrames(Unhead(fs, x)) == FreeFrames(fs) - Run(x, Pow2(fs[x].order))
    ensures fs[x].free ==> Run(x, Pow2(fs[x].order)) <= FreeFrames(fs)
    ensures !fs[x].free ==> FreeFrames(Unhead(fs, x)) == FreeFrames(fs)
  {
    var fs' := Unhead(fs, x);
    assert BlockOk(fs, lo, hi, a, b, x);
    forall i: nat
      ensures IsFree(fs', i) <==> IsFree(fs, i) && !(x <= i < End(fs, x))
      ensures x <= i < End(fs, x) ==> (IsFree(fs, i) <==> fs[x].free)
    {
      if IsFree(fs', i) {
        var h: nat :| FreeHead(fs', h) && Covers(fs', h, i);
        assert FreeHead(fs, h) && Covers(fs, h, i);
        Disjoint(fs, lo, hi, a, b, h, x);
      }
      if IsFree(fs, i) {
        var h: nat :| FreeHead(fs, h) && Covers(fs, h, i);
        Disjoint(fs, lo, hi, a, b, h, x);
        if h != x { assert FreeHead(fs', h) && Covers(fs', h, i); }
      }
      if x <= i < End(fs, x) { assert Covers(fs, x, i); }
    }
  }

  /** Removing a head next to the hole. */
  lemma Remove(fs: Frames, dir: Lists, lo: nat, hi: nat, a: nat, b: nat, x: nat, a': nat, b': nat)
    requires Inv(fs, dir, lo, hi, a, b) && Head(fs, x) && Grows(fs, x, a, b, a', b')
    ensures fs[x].order <= MAX_ORDER
    ensures Inv(Unhead(fs, x), if fs[x].free then Drop(dir, fs[x].order, x) else dir, lo, hi, a', b')
    ensures FreeFrames(Unhead(fs, x)) == FreeFrames(fs) - Run(x, Pow2(fs[x].order))
    ensures fs[x].free ==> Run(x, Pow2(fs[x].order)) <= FreeFrames(fs)
    ensures !fs[x].free ==> FreeFrames(Unhead(fs, x)) == FreeFrames(fs)
  {
    assert BlockOk(fs, lo, hi, a, b, x);
    UnheadTiles(fs, lo, hi, a, b, x, a', b');
    UnheadLists(fs, dir, x);
    UnheadMerged(fs, x);
    UnheadFree(fs, lo, hi, a, b, x);
  }

  /** An empty hole may sit at any edge. */
  lemma MoveHole(fs: Frames, dir: Lists, lo: nat, hi: nat, a: nat, x: nat)
    requires Inv(fs, dir, lo, hi, a, a) && (Head(fs, x) || x == hi)
    ensures Inv(fs, dir, lo, hi, x, x)
  {
    if Head(fs, x) { assert BlockOk(fs, lo, hi, a, a, x); }
    forall h: nat | Head(fs, h) ensures BlockOk(fs, lo, hi, x, x, h) {
      assert BlockOk(fs, lo, hi, a, a, h);
      if Head(fs, x) { Disjoint(fs, lo, hi, a, a, h, x); }
    }
    forall h: nat | Head(fs, h) ensures Edge(fs, hi, x, x, End(fs, h)) {
      assert Edge(fs, hi, a, a, End(fs, h));
    }
  }

  // ---- what the tiling means -----------------------------------------------------

  /** Every managed frame outside the hole lies in exactly one block. */
  lemma {:induction false} HeadOf(fs: Frames, lo: nat, hi: nat, a: nat, b: nat, i: nat) returns (h: nat)
    requires Tiled(fs, lo, hi, a, b) && lo <= i < hi && !(a <= i < b)
    ensures Covers(fs, h, i)
    ensures forall g: nat :: Covers(fs, g, i) ==> g == h
    decreases i
  {
    if Edge(fs, hi, a, b, i) { h := i; }
    else {
      assert i != lo && i != b;
      if a <= i - 1 < b { assert false; }
      h := HeadOf(fs, lo, hi, a, b, i - 1);
      assert Edge(fs, hi, a, b, End(fs, h));
    }
    forall g: nat | Covers(fs, g, i) ensures g == h {
      Disjoint(fs, lo, hi, a, b, g, h);
    }
  }
}
