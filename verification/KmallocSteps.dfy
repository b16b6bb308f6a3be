/** Each change that kmalloc, kfree and free_cache make keeps the invariant. */
module KmallocSteps {
  import opened Seqs
  import opened KmallocState
  import opened KmallocInv

  // ---- framing ------------------------------------------------------------------------

  lemma CachesKeep(mem: map<nat, nat>, mem': map<nat, nat>, cache: seq<Cache>, cached: seq<seq<nat>>, X: set<nat>,
                   i: nat, c: Cache, s: seq<nat>)
    requires Caches(mem, cache, cached) && SameBut(mem, mem', X) && i < NBUCKETS && CacheRing(mem', c, s)
    requires forall j: nat, a: nat :: j < NBUCKETS && j != i && a in cached[j] ==> a !in X
    ensures Caches(mem', cache[i := c], cached[i := s])
  {
    var cached' := cached[i := s];
    forall j: nat | j < NBUCKETS ensures CacheRing(mem', cache[i := c][j], cached'[j]) {
      if j != i {
        assert cached[j] == cached'[j];
        CacheRingKeeps(mem, mem', X, cache[j], cached[j]);
      }
    }
  }

  lemma PagesKeep(mem: map<nat, nat>, mem': map<nat, nat>, desc: map<nat, Desc>, back: map<nat, nat>,
                  pages: map<nat, nat>,
                  free: map<nat, seq<nat>>, used: map<nat, set<nat>>, rings: seq<seq<nat>>, X: set<nat>)
    requires Pages(mem, desc, back, pages, free, used, rings) && SameBut(mem, mem', X)
    requires forall p, a: nat :: p in free && a in free[p] ==> a !in X
    ensures Pages(mem', desc, back, pages, free, used, rings)
  {
    forall p | p in pages ensures PageOk(mem', desc, back, rings, p, pages[p], free[p], used[p]) {
      assert PageOk(mem, desc, back, rings, p, pages[p], free[p], used[p]);
      FreeChainKeeps(mem, mem', X, desc[back[p]].freePtr, free[p]);
    }
  }

  /** A cached object is a slot of its bucket, not live, in no other cache and on
      no free list. */
  lemma CachedFacts(v: View, i: nat, a: nat)
    requires Owned(v.pages, v.free, v.used, v.live, v.cached) && i < NBUCKETS && a in v.cached[i]
    ensures IsSlot(a, PageOf(a), i) && InUse(v.pages, v.used, a) && v.pages[PageOf(a)] == i && a !in v.live
    ensures forall j: nat :: j < NBUCKETS && j != i ==> a !in v.cached[j]
    ensures forall p :: p in v.free ==> a !in v.free[p]
  {
    var p := PageOf(a);
    assert InUse(v.pages, v.used, a);
    assert PageOwns(v.pages[p], v.free[p], v.used[p], p, v.live, v.cached);
    forall q | q in v.free ensures a !in v.free[q] {
      assert PageOwns(v.pages[q], v.free[q], v.used[q], q, v.live, v.cached);
    }
  }

  lemma CacheApart(v: View, i: nat)
    requires Owned(v.pages, v.free, v.used, v.live, v.cached) && i < NBUCKETS
    ensures forall j: nat, a: nat :: j < NBUCKETS && j != i && a in v.cached[j] ==> a !in Objects(v.cached[i])
    ensures forall p, a: nat :: p in v.free && a in v.free[p] ==> a !in Objects(v.cached[i])
  {
    forall j: nat, a: nat | j < NBUCKETS && j != i && a in v.cached[j]
      ensures a !in v.cached[i] { CachedFacts(v, j, a); }
    forall p, a: nat | p in v.free && a in v.free[p] ensures a !in v.cached[i] {
      if a in v.cached[i] { CachedFacts(v, i, a); }
    }
  }

  // ---- an object leaves or enters a cache -----------------------------------------------------

  ghost predicate Untouched(v: View, i: nat, s: seq<nat>, live: set<nat>, a: nat)
    requires i < |v.cached|
  {
    (a in live <==> a in v.live) && (a in s <==> a in v.cached[i])
  }

  /** Objects pass only between the cache of bucket i, now s, and the live ones. */
  ghost predicate Recached(v: View, i: nat, s: seq<nat>, live: set<nat>)
    requires i < |v.cached|
  {
    forall a ::
      || Untouched(v, i, s, live, a)
      || (InUse(v.pages, v.used, a) && v.pages[PageOf(a)] == i && (a in live <==> a !in s))
  }

  lemma OwnedRecached(v: View, i: nat, s: seq<nat>, live: set<nat>)
    requires Owned(v.pages, v.free, v.used, v.live, v.cached) && i < NBUCKETS
    requires Recached(v, i, s, live)
    ensures Owned(v.pages, v.free, v.used, live, v.cached[i := s])
  {
    var cached := v.cached[i := s];
    forall p | p in v.pages ensures PageOwns(v.pages[p], v.free[p], v.used[p], p, live, cached) {
      assert PageOwns(v.pages[p], v.free[p], v.used[p], p, v.live, v.cached);
    }
    forall a | a in live ensures InUse(v.pages, v.used, a) {
      if a in v.live { assert InUse(v.pages, v.used, a); }
    }
    forall j: nat, a: nat | j < NBUCKETS && a in cached[j]
      ensures InUse(v.pages, v.used, a) && v.pages[PageOf(a)] == j {
      if j != i { assert a in v.cached[j]; }
    }
  }

  /** kmalloc hands out the head of a cache. */
  lemma TakeCachedKeeps(h: Heap, v: View, i: nat)
    requires Inv(h, v) && i < NBUCKETS && v.cached[i] != []
    ensures var s := v.cached[i]; var a := s[0];
      && h.cache[i].head == a && a !in v.live && v.pages.Keys == v.used.Keys && InUse(v.pages, v.used, a)
      && v.pages[PageOf(a)] == i
      && Inv(h.(mem := PopHead(h.mem, h.cache[i]).0, cache := h.cache[i := PopHead(h.mem, h.cache[i]).1]),
             v.(cached := v.cached[i := s[1..]], live := v.live + {a}))
  {
    hide Pages, Ringed, Spared, PopHead, InUse, PageOf;
    var s := v.cached[i];
    var a := s[0];
    assert CacheRing(h.mem, h.cache[i], s) && a in s;
    CachedFacts(v, i, a);
    CacheApart(v, i);
    PopHeadRing(h.mem, h.cache[i], s);
    var (m, c) := PopHead(h.mem, h.cache[i]);
    CachesKeep(h.mem, m, h.cache, v.cached, Objects(s), i, c, s[1..]);
    PagesKeep(h.mem, m, h.desc, h.back, v.pages, v.free, v.used, v.rings, Objects(s));
    HeadOff(s);
    OwnedRecached(v, i, s[1..], v.live + {a});
    hide Caches, Pages, Owned, Ringed, Spared;
  }

  lemma HeadOff(s: seq<nat>)
    requires s != [] && NoDup(s)
    ensures forall x :: x in s[1..] <==> x in s && x != s[0]
  {
    assert s == [s[0]] + s[1..];
  }

  /** kfree puts a live object in front of the cache of its bucket. */
  lemma GiveCachedKeeps(h: Heap, v: View, a: nat, i: nat)
    requires Inv(h, v) && a in v.live && InUse(v.pages, v.used, a) && v.pages[PageOf(a)] == i && i < NBUCKETS
    ensures Inv(h.(mem := PushHead(h.mem, h.cache[i], a).0, cache := h.cache[i := PushHead(h.mem, h.cache[i], a).1]),
                v.(cached := v.cached[i := [a] + v.cached[i]], live := v.live - {a}))
  {
    hide Pages, Ringed, Spared, PushHead, SizeOf;
    var s := v.cached[i];
    LiveFacts(v, a);
    CacheApart(v, i);
    assert CacheRing(h.mem, h.cache[i], s);
    PushHeadRing(h.mem, h.cache[i], s, a);
    var (m, c) := PushHead(h.mem, h.cache[i], a);
    var X := Objects([a] + s);
    CachesKeep(h.mem, m, h.cache, v.cached, X, i, c, [a] + s);
    PagesKeep(h.mem, m, h.desc, h.back, v.pages, v.free, v.used, v.rings, X);
    OwnedRecached(v, i, [a] + s, v.live - {a});
    hide Caches, Pages, Owned, Ringed, Spared;
  }

  /** A live object is a slot of its page, in no cache and on no free list. */
  lemma LiveFacts(v: View, a: nat)
    requires Owned(v.pages, v.free, v.used, v.live, v.cached) && a in v.live
    ensures InUse(v.pages, v.used, a) && IsSlot(a, PageOf(a), v.pages[PageOf(a)])
    ensures forall j: nat :: j < NBUCKETS ==> a !in v.cached[j]
    ensures forall p :: p in v.free ==> a !in v.free[p]
  {
    var p := PageOf(a);
    assert InUse(v.pages, v.used, a);
    assert PageOwns(v.pages[p], v.free[p], v.used[p], p, v.live, v.cached);
    forall j: nat | j < NBUCKETS ensures a !in v.cached[j] {
      if a in v.cached[j] { CachedFacts(v, j, a); }
    }
    forall q | q in v.free ensures a !in v.free[q] {
      assert PageOwns(v.pages[q], v.free[q], v.used[q], q, v.live, v.cached);
    }
  }

  // ---- an object leaves the free list of its page ---------------------------------------------------

  /** The descriptor d has another free list and count. */
  lemma RingedKeep(desc: map<nat, Desc>, back: map<nat, nat>, dir: seq<Dir>, pages: map<nat, nat>,
                   rings: seq<seq<nat>>, d: nat, e: Desc)
    requires Ringed(desc, back, dir, pages, rings) && d in desc
    requires e.page == desc[d].page && e.next == desc[d].next && e.objSize == desc[d].objSize
    ensures Ringed(desc[d := e], back, dir, pages, rings)
  {
    var desc' := desc[d := e];
    forall i: nat | i < NBUCKETS ensures Ring(desc', dir[i], rings[i]) {
      forall k: nat | k < |rings[i]| ensures RingLink(desc', rings[i], k) { assert RingLink(desc, rings[i], k); }
    }
    forall i: nat, b: nat | i < NBUCKETS && b in rings[i] ensures Backed(desc', back, pages, b, i) {
      assert Backed(desc, back, pages, b, i);
    }
  }

  lemma SparedKeep(desc: map<nat, Desc>, freeDesc: nat, spare: seq<nat>, rings: seq<seq<nat>>, d: nat, e: Desc)
    requires Spared(desc, freeDesc, spare, rings) && d !in spare
    ensures Spared(desc[d := e], freeDesc, spare, rings)
  {
    var desc' := desc[d := e];
    forall k: nat | k < |spare| ensures SpareLink(desc', spare, k) { assert SpareLink(desc, spare, k); }
  }

  /** The page of a descriptor in a ring. */
  lemma RingFacts(h: Heap, v: View, d: nat, i: nat)
    requires Inv(h, v) && i < NBUCKETS && d in v.rings[i]
    ensures d in h.desc && d !in v.spare && h.desc[d].objSize == SizeOf(i)
    ensures var p := h.desc[d].page;
      && p in v.pages && v.pages[p] == i && p in h.back && h.back[p] == d && p in v.free && p in v.used && p > 0
      && FreeChain(h.mem, h.desc[d].freePtr, v.free[p]) && h.desc[d].refCnt == |v.used[p]|
      && PageOwns(i, v.free[p], v.used[p], p, v.live, v.cached)
  {
    assert Backed(h.desc, h.back, v.pages, d, i);
    var p := h.desc[d].page;
    assert PageOk(h.mem, h.desc, h.back, v.rings, p, v.pages[p], v.free[p], v.used[p]);
    assert PageOwns(v.pages[p], v.free[p], v.used[p], p, v.live, v.cached);
  }

  /** The state after kmalloc has taken the first free object of the page of d. */
  function Taken(h: Heap, d: nat): Heap
    requires d in h.desc
  {
    var a := h.desc[d].freePtr;
    h.(mem := h.mem[a := 0], desc := h.desc[d := h.desc[d].(freePtr := Word(h.mem, a), refCnt := h.desc[d].refCnt + 1)])
  }

  function TakenView(v: View, p: nat, a: nat): View
    requires p in v.free && p in v.used && v.free[p] != []
  {
    v.(free := v.free[p := v.free[p][1..]], used := v.used[p := v.used[p] + {a}], live := v.live + {a})
  }

  lemma RingCount(h: Heap, v: View)
    requires Inv(h, v)
    ensures |v.rings| == NBUCKETS
  {
  }

  lemma SameKeys(h: Heap, v: View)
    requires Inv(h, v)
    ensures v.pages.Keys == v.free.Keys == v.used.Keys
  {
  }

  lemma TakenPages(h: Heap, v: View, d: nat, i: nat)
    requires Inv(h, v) && i < NBUCKETS && d in v.rings[i] && d in h.desc && h.desc[d].page in v.free
      && v.free[h.desc[d].page] != []
    requires h.desc[d].page in v.used
    ensures var p, a, h' := h.desc[d].page, h.desc[d].freePtr, Taken(h, d);
      Pages(h'.mem, h'.desc, h.back, v.pages, TakenView(v, p, a).free, TakenView(v, p, a).used, v.rings)
  {
    RingFacts(h, v, d, i);
    SameKeys(h, v);
    TakenPage(h, v, d, i);
    hide PageOk, Taken, Inv, FreeChain, PageOwns;
    var p, h' := h.desc[d].page, Taken(h, d);
    forall q | q in v.pages && q != p
      ensures PageOk(h'.mem, h'.desc, h.back, v.rings, q, v.pages[q], v.free[q], v.used[q]) {
      TakenOther(h, v, d, i, q);
    }
    PagesSet(h'.mem, h'.desc, h.back, v.pages, v.free, v.used, v.rings, p, v.free[p][1..],
      v.used[p] + {h.desc[d].freePtr});
  }

  /** One page has another free list and other objects in use. */
  lemma PagesSet(mem: map<nat, nat>, desc: map<nat, Desc>, back: map<nat, nat>, pages: map<nat, nat>,
                 free: map<nat, seq<nat>>, used: map<nat, set<nat>>, rings: seq<seq<nat>>, p: nat, fs: seq<nat>,
                   us: set<nat>)
    requires pages.Keys == free.Keys == used.Keys && p in pages && PageOk(mem, desc, back, rings, p, pages[p], fs, us)
    requires forall q :: q in pages && q != p ==> PageOk(mem, desc, back, rings, q, pages[q], free[q], used[q])
    ensures Pages(mem, desc, back, pages, free[p := fs], used[p := us], rings)
  {
    hide PageOk;
    var free', used' := free[p := fs], used[p := us];
    assert free'.Keys == free.Keys && used'.Keys == used.Keys;
  }

  lemma TakenOther(h: Heap, v: View, d: nat, i: nat, q: nat)
    requires Inv(h, v) && i < NBUCKETS && d in v.rings[i] && d in h.desc && h.desc[d].page in v.free
      && v.free[h.desc[d].page] != []
    requires q in v.pages && q != h.desc[d].page && q in v.free && q in v.used
    ensures PageOk(Taken(h, d).mem, Taken(h, d).desc, h.back, v.rings, q, v.pages[q], v.free[q], v.used[q])
  {
    RingFacts(h, v, d, i);
    var p, a := h.desc[d].page, h.desc[d].freePtr;
    assert PageOk(h.mem, h.desc, h.back, v.rings, q, v.pages[q], v.free[q], v.used[q]);
    assert PageOwns(v.pages[q], v.free[q], v.used[q], q, v.live, v.cached);
    assert a == v.free[p][0] && v.free[p][0] in v.free[p];
    assert IsSlot(a, p, i) && a !in v.free[q];
    hide Caches, Ringed, Spared, Owned, Pages, PageOwns;
    SetWord(h.mem, a, 0, {a});
    FreeChainKeeps(h.mem, Taken(h, d).mem, {a}, h.desc[h.back[q]].freePtr, v.free[q]);
    hide FreeChain, SameBut;
  }

  lemma TakenPage(h: Heap, v: View, d: nat, i: nat)
    requires Inv(h, v) && i < NBUCKETS && d in v.rings[i] && d in h.desc && h.desc[d].page in v.free
      && v.free[h.desc[d].page] != []
    requires h.desc[d].page in v.used && h.desc[d].page in v.pages
    ensures var p, a, h' := h.desc[d].page, h.desc[d].freePtr, Taken(h, d);
      PageOk(h'.mem, h'.desc, h.back, v.rings, p, v.pages[p], TakenView(v, p, a).free[p], TakenView(v, p, a).used[p])
  {
    RingFacts(h, v, d, i);
    var p, a, h' := h.desc[d].page, h.desc[d].freePtr, Taken(h, d);
    var fs := v.free[p];
    assert a == fs[0] && a in fs;
    assert a !in v.used[p];
    SetWord(h.mem, a, 0, {a});
    FreeChainTail(h.mem, a, fs);
    HeadOff(fs);
    FreeChainKeeps(h.mem, h'.mem, {a}, Word(h.mem, a), fs[1..]);
    hide Caches, Ringed, Spared, Owned, Pages, PageOwns, FreeChain, SameBut;
  }

  lemma TakenOwned(v: View, p: nat)
    requires Owned(v.pages, v.free, v.used, v.live, v.cached) && p in v.pages && v.free[p] != []
    ensures var v' := TakenView(v, p, v.free[p][0]); Owned(v'.pages, v'.free, v'.used, v'.live, v'.cached)
    ensures v.free[p][0] !in v.live && IsSlot(v.free[p][0], p, v.pages[p])
  {
    var fs := v.free[p];
    var a := fs[0];
    var v' := TakenView(v, p, a);
    assert a in fs && PageOwns(v.pages[p], fs, v.used[p], p, v.live, v.cached);
    HeadOff(fs);
    FreeFacts(v, p, a);
    forall q | q in v.pages ensures PageOwns(v.pages[q], v'.free[q], v'.used[q], q, v'.live, v.cached) {
      assert PageOwns(v.pages[q], v.free[q], v.used[q], q, v.live, v.cached);
    }
    forall b | b in v'.live ensures InUse(v.pages, v'.used, b) { if b in v.live { assert InUse(v.pages, v.used, b); } }
    forall j: nat, b: nat | j < NBUCKETS && b in v.cached[j]
      ensures InUse(v.pages, v'.used, b) && v.pages[PageOf(b)] == j {
      assert InUse(v.pages, v.used, b);
    }
  }

  /** An object on a free list is neither live nor cached. */
  lemma FreeFacts(v: View, p: nat, a: nat)
    requires Owned(v.pages, v.free, v.used, v.live, v.cached) && p in v.free && a in v.free[p]
    ensures p in v.pages && IsSlot(a, p, v.pages[p]) && a !in v.live && a !in v.used[p]
    ensures forall j: nat :: j < NBUCKETS ==> a !in v.cached[j]
  {
    assert PageOwns(v.pages[p], v.free[p], v.used[p], p, v.live, v.cached);
    if a in v.live { LiveFacts(v, a); }
    forall j: nat | j < NBUCKETS ensures a !in v.cached[j] { if a in v.cached[j] { CachedFacts(v, j, a); } }
  }

  lemma CachesApart(mem: map<nat, nat>, mem': map<nat, nat>, cache: seq<Cache>, cached: seq<seq<nat>>, a: nat)
    requires Caches(mem, cache, cached) && SameBut(mem, mem', {a}) && forall j: nat :: j < NBUCKETS ==> a !in cached[j]
    ensures Caches(mem', cache, cached)
  {
    forall j: nat | j < NBUCKETS ensures CacheRing(mem', cache[j], cached[j]) {
      CacheRingKeeps(mem, mem', {a}, cache[j], cached[j]);
    }
  }

  lemma TakeFreeKeeps(h: Heap, v: View, d: nat, i: nat)
    requires Inv(h, v) && i < NBUCKETS && d in v.rings[i] && d in h.desc && h.desc[d].freePtr != 0
    ensures var p, a := h.desc[d].page, h.desc[d].freePtr;
      && p in v.pages && p in v.free && p in v.used && v.pages[p] == i && v.free[p] != [] && a == v.free[p][0]
      && a !in v.live && IsSlot(a, p, i)
      && PageOf(a) == p && a > 0 && Word(Taken(h, d).mem, a) == 0 && Inv(Taken(h, d), TakenView(v, p, a))
      && TakenView(v, p, a).live == v.live + {a}
      && TakenView(v, p, a).pages == v.pages && TakenView(v, p, a).cached == v.cached
  {
    RingFacts(h, v, d, i);
    var p, a := h.desc[d].page, h.desc[d].freePtr;
    assert v.free[p] != [] && a == v.free[p][0] && a in v.free[p];
    TakenPages(h, v, d, i);
    TakenOwned(v, p);
    FreeFacts(v, p, a);
    SetWord(h.mem, a, 0, {a});
    CachesApart(h.mem, Taken(h, d).mem, h.cache, v.cached, a);
    var e := Taken(h, d).desc[d];
    RingedKeep(h.desc, h.back, h.dir, v.pages, v.rings, d, e);
    SparedKeep(h.desc, h.freeDesc, v.spare, v.rings, d, e);
    hide Caches, Pages, Owned, Ringed, Spared;
  }

  // ---- free_cache: one object leaves the cache -----------------------------------------------------------

  /** The state after the tail of the cache of bucket i has been given up.  The
      last two stores to the descriptor leave its free list as it was. */
  function Released(h: Heap, i: nat): Heap
    requires i < |h.cache| && PageOf(PopTail(h.mem, h.cache[i]).0) in h.back
      && h.back[PageOf(PopTail(h.mem, h.cache[i]).0)] in h.desc
    requires h.desc[h.back[PageOf(PopTail(h.mem, h.cache[i]).0)]].refCnt > 0
  {
    var (obj, m, c) := PopTail(h.mem, h.cache[i]);
    var d := h.back[PageOf(obj)];
    var m' := m[obj := h.desc[d].freePtr];
    h.(mem := m', cache := h.cache[i := c],
      desc := h.desc[d := h.desc[d].(freePtr := Word(m', obj), refCnt := h.desc[d].refCnt - 1)])
  }

  function ReleasedView(v: View, i: nat): View
    requires i < |v.cached| && v.cached[i] != [] && PageOf(v.cached[i][|v.cached[i]| - 1]) in v.used
  {
    var s := v.cached[i];
    var a := s[|s| - 1];
    var p := PageOf(a);
    v.(cached := v.cached[i := s[..|s| - 1]], used := v.used[p := v.used[p] - {a}])
  }

  lemma TailFacts(h: Heap, v: View, i: nat)
    requires Inv(h, v) && i < NBUCKETS && v.cached[i] != []
    ensures i < |h.cache| && h.cache[i].listLen == |v.cached[i]|
      && PopTail(h.mem, h.cache[i]).0 == v.cached[i][|v.cached[i]| - 1]
    ensures var a := PopTail(h.mem, h.cache[i]).0; var p := PageOf(a);
      && a in v.cached[i] && p in h.back && h.back[p] in h.desc && h.back[p] in v.rings[i]
      && h.desc[h.back[p]].page == p
      && p in v.pages && v.pages[p] == i && p in v.used && a in v.used[p] && h.desc[h.back[p]].refCnt == |v.used[p]| > 0
      && a !in v.live && IsSlot(a, p, i)
  {
    var s := v.cached[i];
    assert CacheRing(h.mem, h.cache[i], s);
    PopTailRing(h.mem, h.cache[i], s);
    var a := s[|s| - 1];
    CachedFacts(v, i, a);
    var p := PageOf(a);
    assert PageOk(h.mem, h.desc, h.back, v.rings, p, v.pages[p], v.free[p], v.used[p]);
  }

  lemma ReleasedMem(h: Heap, v: View, i: nat)
    requires Inv(h, v) && i < NBUCKETS && v.cached[i] != [] && i < |h.cache|
    requires var a := PopTail(h.mem, h.cache[i]).0;
      PageOf(a) in h.back && h.back[PageOf(a)] in h.desc && h.desc[h.back[PageOf(a)]].refCnt > 0
    ensures SameBut(h.mem, Released(h, i).mem, Objects(v.cached[i]))
    ensures Caches(Released(h, i).mem, Released(h, i).cache, v.cached[i := v.cached[i][..|v.cached[i]| - 1]])
  {
    TailFacts(h, v, i);
    var s := v.cached[i];
    assert CacheRing(h.mem, h.cache[i], s);
    PopTailRing(h.mem, h.cache[i], s);
    var (obj, m, c) := PopTail(h.mem, h.cache[i]);
    var h', t := Released(h, i), s[..|s| - 1];
    SetWord(m, obj, h.desc[h.back[PageOf(obj)]].freePtr, {obj});
    SameTrans(h.mem, m, h'.mem, Objects(s), {obj});
    assert Objects(s) + {obj} == Objects(s);
    OneLess(s);
    CacheRingKeeps(m, h'.mem, {obj}, c, t);
    CacheApart(v, i);
    CachesKeep(h.mem, h'.mem, h.cache, v.cached, Objects(s), i, c, t);
  }

  lemma ReleasedPages(h: Heap, v: View, i: nat)
    requires Inv(h, v) && i < NBUCKETS && v.cached[i] != [] && i < |h.cache|
    requires var a := PopTail(h.mem, h.cache[i]).0;
      PageOf(a) in h.back && h.back[PageOf(a)] in h.desc && h.desc[h.back[PageOf(a)]].refCnt > 0
    requires PageOf(v.cached[i][|v.cached[i]| - 1]) in v.used
    requires SameBut(h.mem, Released(h, i).mem, Objects(v.cached[i]))
    ensures var h', v' := Released(h, i), ReleasedView(v, i);
      Pages(h'.mem, h'.desc, h.back, v.pages, v.free, v'.used, v.rings)
  {
    hide FreeChain, SameBut, PopTail, Caches, Spared, IsSlot, PageOf, Ringed, Objects, SizeOf;
    TailFacts(h, v, i);
    CacheApart(v, i);
    var h', v' := Released(h, i), ReleasedView(v, i);
    var X, p := Objects(v.cached[i]), PageOf(PopTail(h.mem, h.cache[i]).0);
    PagesKeep(h.mem, h'.mem, h.desc, h.back, v.pages, v.free, v.used, v.rings, X);
    forall q | q in v.pages ensures PageOk(h'.mem, h'.desc, h.back, v.rings, q, v.pages[q], v.free[q], v'.used[q]) {
      assert PageOk(h'.mem, h.desc, h.back, v.rings, q, v.pages[q], v.free[q], v.used[q]);
    }
  }

  lemma ReleasedOwned(v: View, i: nat)
    requires Owned(v.pages, v.free, v.used, v.live, v.cached) && i < NBUCKETS && v.cached[i] != [] && NoDup(v.cached[i])
    ensures PageOf(v.cached[i][|v.cached[i]| - 1]) in v.used
    ensures var v' := ReleasedView(v, i); Owned(v'.pages, v'.free, v'.used, v'.live, v'.cached)
  {
    var s := v.cached[i];
    var a := s[|s| - 1];
    CachedFacts(v, i, a);
    var v', p := ReleasedView(v, i), PageOf(a);
    forall q | q in v.pages ensures PageOwns(v.pages[q], v.free[q], v'.used[q], q, v.live, v'.cached) {
      assert PageOwns(v.pages[q], v.free[q], v.used[q], q, v.live, v.cached);
      OneLess(s);
    }
    forall b | b in v.live ensures InUse(v.pages, v'.used, b) { assert InUse(v.pages, v.used, b); }
    forall j: nat, b: nat | j < NBUCKETS && b in v'.cached[j]
      ensures InUse(v.pages, v'.used, b) && v.pages[PageOf(b)] == j {
      OneLess(s);
      assert b in v.cached[j] && InUse(v.pages, v.used, b) && b != a;
    }
  }

  lemma OneLess(s: seq<nat>)
    requires s != []
    ensures forall x :: x in s[..|s| - 1] ==> x in s
    ensures forall x :: x in s && x != s[|s| - 1] ==> x in s[..|s| - 1]
    ensures NoDup(s) ==> s[|s| - 1] !in s[..|s| - 1]
  {
    assert s == s[..|s| - 1] + [s[|s| - 1]];
  }

  lemma ReleaseKeeps(h: Heap, v: View, i: nat)
    requires Inv(h, v) && i < NBUCKETS && v.cached[i] != []
    ensures i < |h.cache| && h.cache[i].listLen > 0
    ensures var a := PopTail(h.mem, h.cache[i]).0;
      PageOf(a) in h.back && h.back[PageOf(a)] in h.desc && h.desc[h.back[PageOf(a)]].refCnt > 0
    ensures PageOf(v.cached[i][|v.cached[i]| - 1]) in v.used && Inv(Released(h, i), ReleasedView(v, i))
  {
    TailFacts(h, v, i);
    assert CacheRing(h.mem, h.cache[i], v.cached[i]);
    ReleasedMem(h, v, i);
    ReleasedOwned(v, i);
    ReleasedPages(h, v, i);
    var d := h.back[PageOf(PopTail(h.mem, h.cache[i]).0)];
    var e := Released(h, i).desc[d];
    hide Caches, Pages, Owned;
    FreePtrKept(h, i);
    RingedKeep(h.desc, h.back, h.dir, v.pages, v.rings, d, e);
    SparedKeep(h.desc, h.freeDesc, v.spare, v.rings, d, e);
  }

  /** The store to free_ptr puts back what was there. */
  lemma FreePtrKept(h: Heap, i: nat)
    requires i < |h.cache|
    requires var a := PopTail(h.mem, h.cache[i]).0;
      PageOf(a) in h.back && h.back[PageOf(a)] in h.desc && h.desc[h.back[PageOf(a)]].refCnt > 0
    ensures var d := h.back[PageOf(PopTail(h.mem, h.cache[i]).0)];
      && Released(h, i).desc == h.desc[d := h.desc[d].(refCnt := h.desc[d].refCnt - 1)]
      && Released(h, i).back == h.back && Released(h, i).dir == h.dir && Released(h, i).freeDesc == h.freeDesc
  {
  }

  // ---- a new page -----------------------------------------------------------------------------------------------

  /** The objects of a page, from the address a on. */
  function Slots(a: nat, s: nat, n: nat): seq<nat>
    decreases n
  {
    if n == 0 then [] else [a] + Slots(a + s, s, n - 1)
  }

  /** Every object but the last points to the next one. */
  function Thread(mem: map<nat, nat>, a: nat, s: nat, n: nat): map<nat, nat>
    decreases n
  {
    if n <= 1 then mem[a := 0] else Thread(mem[a := a + s], a + s, s, n - 1)
  }

  lemma {:induction false} ThreadFrame(mem: map<nat, nat>, a: nat, s: nat, n: nat, b: nat)
    requires s > 0 && b < a
    ensures Word(Thread(mem, a, s, n), b) == Word(mem, b)
    decreases n
  {
    if n > 1 { ThreadFrame(mem[a := a + s], a + s, s, n - 1, b); }
  }

  lemma {:induction false} ThreadSame(mem: map<nat, nat>, a: nat, s: nat, n: nat)
    requires s > 0 && s % 8 == 0 && a % 8 == 0 && n > 0
    ensures SameBut(mem, Thread(mem, a, s, n), Objects(Slots(a, s, n)))
    decreases n
  {
    var m1 := mem[a := if n <= 1 then 0 else a + s];
    SetWord(mem, a, if n <= 1 then 0 else a + s, {a});
    if n > 1 {
      ThreadSame(m1, a + s, s, n - 1);
      SameTrans(mem, m1, Thread(mem, a, s, n), {a}, Objects(Slots(a + s, s, n - 1)));
    }
    assert Slots(a, s, n) == [a] + Slots(a + s, s, n - 1);
    assert Objects(Slots(a, s, n)) == {a} + Objects(Slots(a + s, s, n - 1));
  }

  lemma {:induction false} ThreadChain(mem: map<nat, nat>, a: nat, s: nat, n: nat)
    requires s > 0 && s % 8 == 0 && a % 8 == 0 && a > 0 && n > 0
    ensures FreeChain(Thread(mem, a, s, n), a, Slots(a, s, n))
    decreases n
  {
    var m, fs := Thread(mem, a, s, n), Slots(a, s, n);
    if n > 1 {
      ThreadChain(mem[a := a + s], a + s, s, n - 1);
      ThreadFrame(mem[a := a + s], a + s, s, n - 1, a);
      var t := Slots(a + s, s, n - 1);
      assert fs == [a] + t;
      forall k: nat | k < |fs| ensures FreeLink(m, fs, k) {
        if k > 0 { assert FreeLink(m, t, k - 1); }
      }
    } else {
      assert Slots(a + s, s, 0) == [] && fs == [a];
    }
  }

  lemma NextEighth(a: nat, s: nat)
    requires a % 8 == 0 && s % 8 == 0
    ensures (a + s) % 8 == 0
  {
  }

  lemma NextSlot(a: nat, i: nat)
    requires i < NBUCKETS && a % 8 == 0 && a % SizeOf(i) == 0
    ensures (a + SizeOf(i)) % 8 == 0 && (a + SizeOf(i)) % SizeOf(i) == 0 && SizeOf(i) >= 8
  {
    Divides(i);
    hide SizeOf;
    var s := SizeOf(i);
    NextMultiple(a, s);
    NextEighth(a, s);
  }

  lemma {:induction false} SlotsAre(a: nat, i: nat, n: nat, p: nat)
    requires i < NBUCKETS && p > 0 && p * PAGE_SIZE <= a && a + SizeOf(i) * n <= (p + 1) * PAGE_SIZE && a % 8 == 0
      && a % SizeOf(i) == 0
    ensures forall x :: x in Slots(a, SizeOf(i), n) ==> IsSlot(x, p, i) && x >= a
    ensures NoDup(Slots(a, SizeOf(i), n))
    decreases n
  {
    if n > 0 {
      var s := SizeOf(i);
      NextSlot(a, i);
      assert s * n == s + s * (n - 1) && s * (n - 1) >= 0;
      SlotsAre(a + s, i, n - 1, p);
      assert IsSlot(a, p, i);
    }
  }

  /** The whole page. */
  lemma PageSlots(p: nat, i: nat)
    requires i < NBUCKETS && p > 0
    ensures var s := SizeOf(i); var n := PAGE_SIZE / s; var a := p * PAGE_SIZE;
      && n > 0 && s > 0 && s % 8 == 0 && a % 8 == 0
      && NoDup(Slots(a, s, n)) && forall x :: x in Slots(a, s, n) ==> IsSlot(x, p, i)
  {
    PageDivides(p, i);
    SlotsAre(p * PAGE_SIZE, i, PAGE_SIZE / SizeOf(i), p);
    hide Slots;
  }

  lemma PageDivides(p: nat, i: nat)
    requires i < NBUCKETS
    ensures var s := SizeOf(i);
      s > 0 && s % 8 == 0 && PAGE_SIZE / s > 0 && s * (PAGE_SIZE / s) == PAGE_SIZE && (p * PAGE_SIZE) % s == 0
    ensures p * PAGE_SIZE % 8 == 0
  {
    Divides(i);
    hide SizeOf;
    var s := SizeOf(i);
    Regroup(p, s, PAGE_SIZE / s);
    MulMod(s, p * (PAGE_SIZE / s));
  }

  // ---- the holder of a live object writes into it -----------------------------------------------------------

  /** The object that holds the word w. */
  function Holder(w: nat): nat {
    w - w % 8
  }

  /** A word inside a live object is no word of a free or a cached object. */
  lemma InsideLive(h: Heap, v: View, a: nat, w: nat, b: nat)
    requires Inv(h, v) && a in v.live && PageOf(a) in v.pages && v.pages[PageOf(a)] < NBUCKETS
    requires a <= w < a + SizeOf(v.pages[PageOf(a)])
    requires (exists i: nat :: i < NBUCKETS && b in v.cached[i]) || (exists p :: p in v.free && b in v.free[p])
    ensures b != Holder(w)
  {
    if b in v.live {
      LiveFacts(v, b);
    } else {
      Disjoint(h, v, a, b);
      LiveFacts(v, a);
      Divides(v.pages[PageOf(b)]);
      hide Inv, SizeOf;
    }
  }

  lemma SetInside(mem: map<nat, nat>, w: nat, x: nat)
    requires w % 4 == 0
    ensures SameBut(mem, mem[w := x], {Holder(w)})
  {
    var b := Holder(w);
    assert w == b || w == b + 4;
    SetWord(mem, b, x, {b});
  }

  lemma WriteApart(h: Heap, v: View, a: nat, w: nat)
    requires Inv(h, v) && a in v.live && PageOf(a) in v.pages && v.pages[PageOf(a)] < NBUCKETS
    requires a <= w < a + SizeOf(v.pages[PageOf(a)])
    ensures forall p, f: nat :: p in v.free && f in v.free[p] ==> f !in {Holder(w)}
    ensures |v.cached| == NBUCKETS && forall j: nat :: j < NBUCKETS ==> Holder(w) !in v.cached[j]
  {
    hide Inv, SizeOf;
    forall p, f: nat | p in v.free && f in v.free[p] ensures f != Holder(w) { InsideLive(h, v, a, w, f); }
    CacheSize(h, v, 0);
    forall j: nat | j < NBUCKETS ensures Holder(w) !in v.cached[j] {
      if Holder(w) in v.cached[j] { InsideLive(h, v, a, w, Holder(w)); }
    }
  }

  lemma CacheSize(h: Heap, v: View, i: nat)
    requires Inv(h, v) && i < NBUCKETS
    ensures |h.cache| == |SIZES| && |v.cached| == NBUCKETS && h.cache[i].listLen == |v.cached[i]|
  {
    assert CacheRing(h.mem, h.cache[i], v.cached[i]);
  }

  lemma WriteKeeps(h: Heap, v: View, a: nat, w: nat, x: nat)
    requires Inv(h, v) && a in v.live && PageOf(a) in v.pages && v.pages[PageOf(a)] < NBUCKETS
    requires a <= w < a + SizeOf(v.pages[PageOf(a)]) && w % 4 == 0
    ensures Inv(h.(mem := h.mem[w := x]), v)
  {
    var mem := h.mem[w := x];
    WriteApart(h, v, a, w);
    SetInside(h.mem, w, x);
    hide Owned, Ringed, Spared, Pages, Caches, SameBut, Holder;
    PagesKeep(h.mem, mem, h.desc, h.back, v.pages, v.free, v.used, v.rings, {Holder(w)});
    CachesApart(h.mem, mem, h.cache, v.cached, Holder(w));
  }
}
