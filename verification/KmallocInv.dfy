/** The invariant of the bucket allocator, and what each change of memory does
    to it. */
module KmallocInv {
  import opened Seqs
  import opened KmallocState

  /** Memory: words, descriptors by address, the frame table's back pointers,
      the two directories and the list of unused descriptors. */
  datatype Heap = Heap(mem: map<nat, nat>, desc: map<nat, Desc>, back: map<nat, nat>, dir: seq<Dir>,
    cache: seq<Cache>, freeDesc: nat)

  /** What it stands for: the pages held and their buckets, the free list and
      the handed-out or cached objects of each page, the live objects, the
      descriptors of each bucket, the unused ones, and the caches. */
  datatype View = View(pages: map<nat, nat>, free: map<nat, seq<nat>>, used: map<nat, set<nat>>, live: set<nat>,
                       rings: seq<seq<nat>>, spare: seq<nat>, cached: seq<seq<nat>>)

  /** a is the address of an object of bucket i in the page p. */
  predicate IsSlot(a: nat, p: nat, i: nat) {
    i < NBUCKETS && a > 0 && a % 8 == 0 && a % SizeOf(i) == 0 && PageOf(a) == p
  }

  // ---- the caches ----------------------------------------------------------------------

  ghost predicate Caches(mem: map<nat, nat>, cache: seq<Cache>, cached: seq<seq<nat>>) {
    && |cache| == |SIZES| && |cached| == NBUCKETS && cache[NBUCKETS] == Cache(0, 0)
    && forall i: nat {:trigger cached[i]} :: i < NBUCKETS ==> CacheRing(mem, cache[i], cached[i])
  }

  // ---- the rings of descriptors ------------------------------------------------------------

  ghost predicate RingLink(desc: map<nat, Desc>, s: seq<nat>, k: nat)
    requires k < |s|
  {
    s[k] > 0 && s[k] in desc && desc[s[k]].next == s[Succ(k, |s|)]
  }

  /** The descriptor d belongs to bucket i, and its page points back to it. */
  ghost predicate Backed(desc: map<nat, Desc>, back: map<nat, nat>, pages: map<nat, nat>, d: nat, i: nat) {
    && i < NBUCKETS && d in desc && desc[d].objSize == SizeOf(i)
    && desc[d].page in pages && pages[desc[d].page] == i && desc[d].page in back && back[desc[d].page] == d
  }

  ghost predicate Ring(desc: map<nat, Desc>, c: Dir, s: seq<nat>) {
    && c.listLen == |s| && c.chain == (if s == [] then 0 else s[0]) && NoDup(s)
    && forall k: nat {:trigger RingLink(desc, s, k)} :: k < |s| ==> RingLink(desc, s, k)
  }

  ghost predicate Ringed(desc: map<nat, Desc>, back: map<nat, nat>, dir: seq<Dir>, pages: map<nat, nat>,
                         rings: seq<seq<nat>>) {
    && |dir| == |rings| == NBUCKETS
    && (forall i: nat {:trigger rings[i]} :: i < NBUCKETS ==> Ring(desc, dir[i], rings[i]))
    && (forall i: nat, d: nat {:trigger Backed(desc, back, pages, d, i)} ::
      i < NBUCKETS && d in rings[i] ==> Backed(desc, back, pages, d, i))
  }

  // ---- unused descriptors --------------------------------------------------------------------

  ghost predicate SpareLink(desc: map<nat, Desc>, s: seq<nat>, k: nat)
    requires k < |s|
  {
    s[k] > 0 && s[k] in desc && desc[s[k]].next == if k + 1 < |s| then s[k + 1] else 0
  }

  ghost predicate Spared(desc: map<nat, Desc>, freeDesc: nat, spare: seq<nat>, rings: seq<seq<nat>>) {
    && freeDesc == (if spare == [] then 0 else spare[0]) && NoDup(spare)
    && (forall k: nat {:trigger SpareLink(desc, spare, k)} :: k < |spare| ==> SpareLink(desc, spare, k))
    && (forall i: nat, d: nat {:trigger d in rings[i]} :: i < |rings| && d in rings[i] ==> d !in spare)
  }

  // ---- the pages ----------------------------------------------------------------------------------

  /** The descriptor of the page p is in the ring of its bucket, its free list
      is fs, and its count is the number of objects in us. */
  ghost predicate PageOk(mem: map<nat, nat>, desc: map<nat, Desc>, back: map<nat, nat>, rings: seq<seq<nat>>, p: nat,
                         i: nat, fs: seq<nat>, us: set<nat>) {
    && p > 0 && i < NBUCKETS && i < |rings| && p in back && back[p] in rings[i] && back[p] in desc
    && desc[back[p]].page == p
    && FreeChain(mem, desc[back[p]].freePtr, fs) && desc[back[p]].refCnt == |us|
  }

  ghost predicate Pages(mem: map<nat, nat>, desc: map<nat, Desc>, back: map<nat, nat>, pages: map<nat, nat>,
                        free: map<nat, seq<nat>>, used: map<nat, set<nat>>, rings: seq<seq<nat>>) {
    && pages.Keys == free.Keys == used.Keys
    && forall p :: p in pages ==> PageOk(mem, desc, back, rings, p, pages[p], free[p], used[p])
  }

  // ---- who owns which object ----------------------------------------------------------------------

  ghost predicate PageOwns(i: nat, fs: seq<nat>, us: set<nat>, p: nat, live: set<nat>, cached: seq<seq<nat>>) {
    && i < |cached| && NoDup(fs) && (forall a :: a in fs ==> IsSlot(a, p, i))
    && (forall a :: a in us ==> IsSlot(a, p, i) && a !in fs && (a in live <==> a !in cached[i]))
  }

  ghost predicate InUse(pages: map<nat, nat>, used: map<nat, set<nat>>, a: nat) {
    PageOf(a) in pages && PageOf(a) in used && a in used[PageOf(a)]
  }

  ghost predicate Owned(pages: map<nat, nat>, free: map<nat, seq<nat>>, used: map<nat, set<nat>>, live: set<nat>,
                        cached: seq<seq<nat>>) {
    && pages.Keys == free.Keys == used.Keys && |cached| == NBUCKETS
    && (forall p :: p in pages ==> PageOwns(pages[p], free[p], used[p], p, live, cached))
    && (forall a :: a in live ==> InUse(pages, used, a))
    && (forall i: nat, a: nat {:trigger a in cached[i]} ::
      i < NBUCKETS && a in cached[i] ==> InUse(pages, used, a) && pages[PageOf(a)] == i)
  }

  ghost predicate Inv(h: Heap, v: View) {
    && Caches(h.mem, h.cache, v.cached)
    && Ringed(h.desc, h.back, h.dir, v.pages, v.rings)
    && Spared(h.desc, h.freeDesc, v.spare, v.rings)
    && Pages(h.mem, h.desc, h.back, v.pages, v.free, v.used, v.rings)
    && Owned(v.pages, v.free, v.used, v.live, v.cached)
  }

  // ---- what the invariant says about objects --------------------------------------------------------

  /** An object lies within its page. */
  lemma SlotFits(a: nat, p: nat, i: nat)
    requires IsSlot(a, p, i)
    ensures p * PAGE_SIZE <= a && a + SizeOf(i) <= (p + 1) * PAGE_SIZE
  {
    Divides(i);
    hide SizeOf;
    var s := SizeOf(i);
    Regroup(p + 1, s, PAGE_SIZE / s);
    Grid(a, (p + 1) * (PAGE_SIZE / s), s);
  }

  lemma SlotsApart(a: nat, b: nat, p: nat, i: nat)
    requires IsSlot(a, p, i) && IsSlot(b, p, i) && a < b
    ensures a + SizeOf(i) <= b
  {
    Divides(i);
    hide SizeOf;
    var s := SizeOf(i);
    assert b == s * (b / s);
    Grid(a, b / s, s);
  }

  /** Live objects overlap neither each other, nor a cached object, nor an
      object on a free list; and each lies within one page. */
  lemma Disjoint(h: Heap, v: View, a: nat, b: nat)
    requires Inv(h, v) && a in v.live && a != b
    requires b in v.live || (exists i: nat :: i < NBUCKETS && b in v.cached[i])
      || (exists p :: p in v.free && b in v.free[p])
    ensures PageOf(a) in v.pages && v.pages[PageOf(a)] < NBUCKETS && PageOf(b) in v.pages
      && v.pages[PageOf(b)] < NBUCKETS
    ensures var s, t := SizeOf(v.pages[PageOf(a)]), SizeOf(v.pages[PageOf(b)]);
      (a + s <= b || b + t <= a) && PageOf(a) * PAGE_SIZE <= a && a + s <= (PageOf(a) + 1) * PAGE_SIZE
  {
    var p := PageOf(a);
    assert InUse(v.pages, v.used, a) && PageOwns(v.pages[p], v.free[p], v.used[p], p, v.live, v.cached);
    SlotFits(a, p, v.pages[p]);
    var q := OwnerPage(h, v, b);
    SlotFits(b, q, v.pages[q]);
    if p == q {
      if a < b { SlotsApart(a, b, p, v.pages[p]); } else { SlotsApart(b, a, p, v.pages[p]); }
    }
  }

  lemma OwnerPage(h: Heap, v: View, b: nat) returns (q: nat)
    requires Inv(h, v)
    requires b in v.live || (exists i: nat :: i < NBUCKETS && b in v.cached[i])
      || (exists p :: p in v.free && b in v.free[p])
    ensures q in v.pages && IsSlot(b, q, v.pages[q])
  {
    if b in v.live {
      q := PageOf(b);
      assert InUse(v.pages, v.used, b) && PageOwns(v.pages[q], v.free[q], v.used[q], q, v.live, v.cached);
    } else if i: nat :| i < NBUCKETS && b in v.cached[i] {
      q := PageOf(b);
      assert InUse(v.pages, v.used, b) && PageOwns(v.pages[q], v.free[q], v.used[q], q, v.live, v.cached);
    } else {
      q :| q in v.free && b in v.free[q];
      assert PageOwns(v.pages[q], v.free[q], v.used[q], q, v.live, v.cached);
    }
  }
}
