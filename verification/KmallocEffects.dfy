/** What each operation does to the pages, the free lists and the objects, and
    that it leaves the words of live objects alone. */
module KmallocEffects {
  import opened Seqs
  import opened KmallocState
  import opened KmallocInv
  import opened KmallocSteps

  // ---- which pages are held ------------------------------------------------------------

  /** Every page held has an object in use. */
  ghost predicate Held(v: View) {
    forall p :: p in v.pages ==> p in v.used && v.used[p] != {}
  }

  /** The live objects of the page p. */
  ghost function LiveIn(v: View, p: nat): set<nat> {
    set a | a in v.live && PageOf(a) == p
  }

  /** The pages held are those with a live object. */
  ghost predicate HeldForLive(v: View) {
    forall p :: p in v.pages <==> LiveIn(v, p) != {}
  }

  lemma UsedIsLive(v: View, p: nat)
    requires Owned(v.pages, v.free, v.used, v.live, v.cached) && p in v.pages
    requires forall i: nat :: i < NBUCKETS ==> v.cached[i] == []
    ensures v.used[p] == LiveIn(v, p)
  {
    hide IsSlot;
    forall a | a in v.used[p] ensures a in LiveIn(v, p) { UsedFacts(v, p, a); }
    forall a | a in v.live && PageOf(a) == p ensures a in v.used[p] { LiveInUse(v, a); }
  }

  lemma UsedFacts(v: View, p: nat, a: nat)
    requires Owned(v.pages, v.free, v.used, v.live, v.cached) && p in v.pages && a in v.used[p]
    ensures PageOf(a) == p && v.pages[p] < NBUCKETS && (a in v.live <==> a !in v.cached[v.pages[p]])
  {
    assert PageOwns(v.pages[p], v.free[p], v.used[p], p, v.live, v.cached);
  }

  lemma LiveInUse(v: View, a: nat)
    requires Owned(v.pages, v.free, v.used, v.live, v.cached) && a in v.live
    ensures InUse(v.pages, v.used, a)
  {
  }

  /** With empty caches, what is in use is live, and the pages held are exactly
      those of live objects. */
  lemma OnlyLive(h: Heap, v: View)
    requires Inv(h, v) && Held(v) && forall i: nat :: i < NBUCKETS ==> v.cached[i] == []
    ensures HeldForLive(v) && forall p :: p in v.pages ==> p in v.used && v.used[p] == LiveIn(v, p)
  {
    hide PageOf, Caches, Ringed, Spared, Pages, Owned;
    SameKeys(h, v);
    forall p | p in v.pages ensures p in v.used && v.used[p] == LiveIn(v, p) { UsedIsLive(v, p); }
    forall p | LiveIn(v, p) != {} ensures p in v.pages {
      var a :| a in LiveIn(v, p);
      LiveInUse(v, a);
    }
  }

  // ---- kmalloc ---------------------------------------------------------------------------

  /** Some page of bucket i has a free object. */
  ghost predicate HasFree(v: View, i: nat) {
    exists p :: p in v.pages && v.pages[p] == i && p in v.free && v.free[p] != []
  }

  /** The object a comes from the cache of its bucket, where it was the last to be
      freed; nothing else changes. */
  ghost predicate FromCache(v: View, v': View, a: nat, i: nat) {
    && i < |v.cached| && v.cached[i] != [] && a == v.cached[i][0]
    && v' == v.(cached := v.cached[i := v.cached[i][1..]], live := v.live + {a})
  }

  /** The object a was the first on the free list of a page of its bucket, and is
      now in use; the other pages stay as they are. */
  ghost predicate FromPage(v: View, v': View, a: nat, i: nat) {
    var p := PageOf(a);
    && p in v.pages && v.pages[p] == i && p in v.free && p in v.used && v.free[p] != [] && a == v.free[p][0]
    && v' == v.(free := v.free[p := v.free[p][1..]], used := v.used[p := v.used[p] + {a}], live := v.live + {a})
  }

  /** The objects of a page that is cut into those of bucket i. */
  function WholePage(page: nat, i: nat): seq<nat>
    requires i < NBUCKETS
  {
    Slots(page * PAGE_SIZE, SizeOf(i), PAGE_SIZE / SizeOf(i))
  }

  /** v1 is v with the new page for bucket i, all of whose objects are free. */
  ghost predicate WithPage(v: View, v1: View, i: nat, page: nat) {
    && i < NBUCKETS && v1.pages == v.pages[page := i] && v1.free == v.free[page := WholePage(page, i)]
    && v1.used == v.used[page := {}] && v1.live == v.live && v1.cached == v.cached
  }

  /** The object a is the first one of the new page of bucket i. */
  ghost predicate FromNew(v: View, v': View, a: nat, i: nat, page: nat) {
    && i < NBUCKETS && a == page * PAGE_SIZE && v'.pages == v.pages[page := i] && WholePage(page, i) != []
    && v'.free == v.free[page := WholePage(page, i)[1..]] && v'.used == v.used[page := {a}]
    && v'.live == v.live + {a} && v'.cached == v.cached
  }

  /** Where kmalloc takes the object a: from the cache of its bucket, else from a
      page of it, else from a new page. */
  ghost predicate Allotted(v: View, v': View, a: nat, i: nat, page: nat) {
    && i < |v.cached|
    && if v.cached[i] != [] then FromCache(v, v', a, i)
       else if HasFree(v, i) then FromPage(v, v', a, i) else FromNew(v, v', a, i, page)
  }

  lemma FirstOfNew(v: View, v1: View, v': View, a: nat, i: nat, page: nat)
    requires WithPage(v, v1, i, page) && FromPage(v1, v', a, i) && PageOf(a) == page
    ensures FromNew(v, v', a, i, page)
  {
    hide Slots, SizeOf, PageOf, WholePage;
    FirstSlot(page, i);
    assert v1.used[page] + {a} == {a};
    assert v1.free[page := v1.free[page][1..]] == v.free[page := v1.free[page][1..]];
    assert v1.used[page := {a}] == v.used[page := {a}];
  }

  lemma FirstSlot(page: nat, i: nat)
    requires i < NBUCKETS
    ensures WholePage(page, i) != [] && WholePage(page, i)[0] == page * PAGE_SIZE
  {
    Divides(i);
    hide SizeOf;
  }

  lemma CacheHeld(v: View, v': View, a: nat, i: nat)
    requires Held(v) && FromCache(v, v', a, i)
    ensures Held(v')
  {
  }

  lemma PageHeld(v: View, v': View, a: nat, i: nat)
    requires Held(v) && FromPage(v, v', a, i)
    ensures Held(v')
  {
    hide PageOf;
    assert v'.pages == v.pages;
    forall p | p in v'.pages ensures p in v'.used && v'.used[p] != {} { assert p == PageOf(a) ==> a in v'.used[p]; }
  }

  lemma NewHeld(v: View, v': View, a: nat, i: nat, page: nat)
    requires Held(v) && FromNew(v, v', a, i, page)
    ensures Held(v')
  {
    hide WholePage;
    assert a in v'.used[page];
  }

  lemma AllottedHeld(v: View, v': View, a: nat, i: nat, page: nat)
    requires Held(v) && Allotted(v, v', a, i, page)
    ensures Held(v')
  {
    hide Held, FromCache, FromPage, FromNew, HasFree;
    if v.cached[i] != [] {
      CacheHeld(v, v', a, i);
    } else if HasFree(v, i) {
      PageHeld(v, v', a, i);
    } else {
      NewHeld(v, v', a, i, page);
    }
  }

  /** The objects of a page are exactly the addresses that are multiples of the
      size in it. */
  lemma PageFilled(page: nat, i: nat)
    requires i < NBUCKETS && page > 0
    ensures forall x :: x in WholePage(page, i) <==> IsSlot(x, page, i)
  {
    PageSlots(page, i);
    PageDivides(page, i);
    forall x | IsSlot(x, page, i) ensures x in WholePage(page, i) {
      SlotFits(x, page, i);
      var s := SizeOf(i);
      hide SizeOf, Slots;
      InSlots(page * PAGE_SIZE, s, PAGE_SIZE / s, x);
    }
  }

  lemma {:induction false} InSlots(a: nat, s: nat, n: nat, x: nat)
    requires s > 0 && a % s == 0 && x % s == 0 && a <= x && x + s <= a + s * n
    ensures x in Slots(a, s, n)
    decreases n
  {
    if x != a {
      NextMultiple(a, s);
      assert s * n == s + s * (n - 1);
      assert x == s * (x / s);
      Grid(a, x / s, s);
      InSlots(a + s, s, n - 1, x);
    }
  }

  // ---- kfree -------------------------------------------------------------------------------

  /** The live object a enters the cache of its bucket as the last to be freed;
      nothing else changes. */
  ghost predicate FreedLast(v: View, v': View, a: nat) {
    && PageOf(a) in v.pages && v.pages[PageOf(a)] < |v.cached|
    && var i := v.pages[PageOf(a)]; v' == v.(cached := v.cached[i := [a] + v.cached[i]], live := v.live - {a})
  }

  // ---- free_cache ----------------------------------------------------------------------------

  /** The object a of the page p goes; the page is given back if nothing else of
      it is in use, and else keeps its free list. */
  ghost predicate WentOut(v: View, v': View, a: nat, given: bool) {
    var p := PageOf(a);
    && p in v.used && p in v.pages && a in v.used[p] && (given <==> v.used[p] == {a})
    && (if given then v'.pages == v.pages - {p} && v'.free == v.free - {p} && v'.used == v.used - {p}
        else v'.pages == v.pages && v'.free == v.free && v'.used == v.used[p := v.used[p] - {a}])
  }

  lemma WentOutHeld(v: View, v': View, a: nat, given: bool)
    requires Held(v) && WentOut(v, v', a, given)
    ensures Held(v')
  {
    hide PageOf;
  }

  /** The pages given back were held, are different, and are the only ones that
      go; the others keep their size classes and their free lists. */
  ghost predicate GivenBack(v: View, v': View, given: seq<nat>) {
    && NoDup(given) && (forall p :: p in given ==> p in v.pages)
    && (forall p :: p in v'.pages <==> p in v.pages && p !in given)
    && (forall p :: p in v'.pages ==> p in v.free && p in v'.free && Alike(v, v', p))
  }

  ghost predicate Alike(v: View, v': View, p: nat)
    requires p in v.pages && p in v'.pages && p in v.free && p in v'.free
  {
    v'.pages[p] == v.pages[p] && v'.free[p] == v.free[p]
  }

  lemma NothingGiven(h: Heap, v: View)
    requires Inv(h, v)
    ensures GivenBack(v, v, [])
  {
    SameKeys(h, v);
  }

  lemma GivenMore(v: View, v1: View, v2: View, g1: seq<nat>, g2: seq<nat>)
    requires GivenBack(v, v1, g1) && GivenBack(v1, v2, g2)
    ensures GivenBack(v, v2, g1 + g2)
  {
    forall p | p in v2.pages ensures p in v.free && p in v2.free && p in v.pages && Alike(v, v2, p) {
      assert Alike(v, v1, p) && Alike(v1, v2, p);
    }
    forall i, j | 0 <= i < j < |g1 + g2| ensures (g1 + g2)[i] != (g1 + g2)[j] {
      if i < |g1| <= j { assert g1[i] in g1 && g2[j - |g1|] in g2; }
    }
  }

  lemma GivenOne(h: Heap, v: View, h': Heap, v': View, a: nat, given: bool)
    requires Inv(h, v) && Inv(h', v') && WentOut(v, v', a, given)
    ensures GivenBack(v, v', if given then [PageOf(a)] else [])
  {
    hide Inv, PageOf;
    SameKeys(h, v);
    SameKeys(h', v');
  }

  // ---- the words of live objects ----------------------------------------------------------------

  /** w is the address of a word of the object a. */
  ghost predicate WordOf(v: View, a: nat, w: nat) {
    && PageOf(a) in v.pages && v.pages[PageOf(a)] < NBUCKETS && a <= w < a + SizeOf(v.pages[PageOf(a)]) && w % 4 == 0
  }

  /** All words of the objects in live are the same in mem' as in mem. */
  ghost predicate Undisturbed(v: View, mem: map<nat, nat>, mem': map<nat, nat>, live: set<nat>) {
    forall a, w: nat {:trigger WordOf(v, a, w)} :: a in live && WordOf(v, a, w) ==> Word(mem', w) == Word(mem, w)
  }

  lemma SameWord(mem: map<nat, nat>, mem': map<nat, nat>, X: set<nat>, w: nat)
    requires SameBut(mem, mem', X) && w % 4 == 0 && Holder(w) !in X
    ensures Word(mem', w) == Word(mem, w)
  {
    assert SameAt(mem, mem', Holder(w));
    assert w == Holder(w) || w == Holder(w) + 4;
  }

  /** b is cached or on a free list, or in a page that is not held. */
  ghost predicate NotInUse(v: View, b: nat) {
    || PageOf(b) !in v.pages
    || (exists i: nat :: i < NBUCKETS && i < |v.cached| && b in v.cached[i])
    || (exists p :: p in v.free && b in v.free[p])
  }

  lemma HolderPage(h: Heap, v: View, a: nat, w: nat)
    requires Inv(h, v) && a in v.live && WordOf(v, a, w)
    ensures PageOf(Holder(w)) in v.pages
  {
    hide Caches, Ringed, Spared, Pages, Owned, SizeOf, Holder, PageOf;
    LiveFacts(v, a);
    var p := PageOf(a);
    SlotFits(a, p, v.pages[p]);
    HolderBetween(a, w, SizeOf(v.pages[p]), p);
  }

  lemma HolderBetween(a: nat, w: nat, s: nat, p: nat)
    requires a % 8 == 0 && a <= w < a + s && p * PAGE_SIZE <= a && a + s <= (p + 1) * PAGE_SIZE
    ensures PageOf(Holder(w)) == p
  {
    var b := Holder(w);
    assert p * PAGE_SIZE <= a <= b < (p + 1) * PAGE_SIZE;
  }

  lemma WordApart(h: Heap, v: View, a: nat, w: nat, b: nat)
    requires Inv(h, v) && a in v.live && WordOf(v, a, w) && NotInUse(v, b)
    ensures b != Holder(w)
  {
    HolderPage(h, v, a, w);
    if PageOf(b) in v.pages { InsideLive(h, v, a, w, b); }
  }

  /** Changes of objects that are not in use leave the live ones alone. */
  lemma LiveUndisturbed(h: Heap, v: View, mem: map<nat, nat>, mem': map<nat, nat>, X: set<nat>)
    requires Inv(h, v) && SameBut(mem, mem', X) && forall b :: b in X ==> NotInUse(v, b)
    ensures Undisturbed(v, mem, mem', v.live)
  {
    hide Inv, WordOf, NotInUse, SameBut, Word, Holder;
    forall a, w: nat | a in v.live && WordOf(v, a, w) ensures Word(mem', w) == Word(mem, w) {
      if Holder(w) in X { WordApart(h, v, a, w, Holder(w)); }
      WordMultiple(v, a, w);
      SameWord(mem, mem', X, w);
    }
  }

  lemma WordMultiple(v: View, a: nat, w: nat)
    requires WordOf(v, a, w)
    ensures w % 4 == 0
  {
  }

  lemma CachedNotInUse(v: View, i: nat)
    requires i < NBUCKETS && i < |v.cached|
    ensures forall b :: b in Objects(v.cached[i]) ==> NotInUse(v, b)
  {
  }

  lemma TakeCachedUndisturbed(h: Heap, v: View, i: nat)
    requires Inv(h, v) && i < NBUCKETS && v.cached[i] != []
    ensures i < |h.cache| && Undisturbed(v, h.mem, PopHead(h.mem, h.cache[i]).0, v.live)
  {
    assert CacheRing(h.mem, h.cache[i], v.cached[i]);
    PopHeadSame(h.mem, h.cache[i], v.cached[i]);
    CachedNotInUse(v, i);
    hide Inv, PopHead, CacheRing, NotInUse, Undisturbed, SameBut;
    LiveUndisturbed(h, v, h.mem, PopHead(h.mem, h.cache[i]).0, Objects(v.cached[i]));
  }

  /** kfree writes the released object and others of its cache only. */
  lemma GiveCachedUndisturbed(h: Heap, v: View, a: nat, i: nat)
    requires Inv(h, v) && a in v.live && InUse(v.pages, v.used, a) && v.pages[PageOf(a)] == i && i < NBUCKETS
    ensures i < |h.cache| && Undisturbed(v, h.mem, PushHead(h.mem, h.cache[i], a).0, v.live - {a})
  {
    var s, v' := v.cached[i], v.(cached := v.cached[i := [a] + v.cached[i]], live := v.live - {a});
    var h' := h.(mem := PushHead(h.mem, h.cache[i], a).0, cache := h.cache[i := PushHead(h.mem, h.cache[i], a).1]);
    GiveCachedKeeps(h, v, a, i);
    assert CacheRing(h.mem, h.cache[i], s);
    LiveFacts(v, a);
    PushHeadSame(h.mem, h.cache[i], s, a);
    CachedNotInUse(v', i);
    hide Inv, PushHead, CacheRing, NotInUse, Undisturbed, SameBut, WordOf, InUse, IsSlot, PageOf;
    LiveUndisturbed(h', v', h.mem, h'.mem, Objects([a] + s));
    SameUndisturbed(v', v, h.mem, h'.mem, v.live - {a});
  }

  lemma SameUndisturbed(v: View, v': View, mem: map<nat, nat>, mem': map<nat, nat>, live: set<nat>)
    requires Undisturbed(v, mem, mem', live) && v.pages == v'.pages
    ensures Undisturbed(v', mem, mem', live)
  {
    hide PageOf, SizeOf, Word;
    forall a, w: nat | a in live && WordOf(v', a, w) ensures Word(mem', w) == Word(mem, w) {
      assert WordOf(v, a, w);
    }
  }

  /** Two changes, after the first of which the pages of the live objects are as
      before. */
  lemma UndisturbedTwice(v: View, v1: View, m0: map<nat, nat>, m1: map<nat, nat>, m2: map<nat, nat>, live: set<nat>)
    requires Undisturbed(v, m0, m1, live) && Undisturbed(v1, m1, m2, live)
    requires forall a :: a in live && PageOf(a) in v.pages ==> SameClass(v, v1, PageOf(a))
    ensures Undisturbed(v, m0, m2, live)
  {
    forall a, w: nat | a in live && WordOf(v, a, w) ensures Word(m2, w) == Word(m0, w) {
      assert SameClass(v, v1, PageOf(a));
      hide PageOf, SizeOf, Word;
      assert WordOf(v1, a, w);
    }
  }

  ghost predicate SameClass(v: View, v': View, p: nat) {
    p in v.pages && p in v'.pages && v'.pages[p] == v.pages[p]
  }

  lemma TakeFreeUndisturbed(h: Heap, v: View, d: nat, i: nat)
    requires Inv(h, v) && i < NBUCKETS && d in v.rings[i] && d in h.desc && h.desc[d].freePtr != 0
    ensures Undisturbed(v, h.mem, Taken(h, d).mem, v.live)
  {
    RingFacts(h, v, d, i);
    var p, a := h.desc[d].page, h.desc[d].freePtr;
    assert v.free[p] != [] && a == v.free[p][0] && a in v.free[p] && IsSlot(a, p, i);
    SetWord(h.mem, a, 0, {a});
    assert NotInUse(v, a);
    hide Inv, NotInUse, Undisturbed, SameBut;
    LiveUndisturbed(h, v, h.mem, Taken(h, d).mem, {a});
  }

  lemma NewPageUndisturbed(h: Heap, v: View, i: nat, page: nat)
    requires Inv(h, v) && i < NBUCKETS && page > 0 && page !in v.pages
    ensures Undisturbed(v, h.mem, Thread(h.mem, page * PAGE_SIZE, SizeOf(i), PAGE_SIZE / SizeOf(i)), v.live)
  {
    PageDivides(page, i);
    PageSlots(page, i);
    var s, n := SizeOf(i), PAGE_SIZE / SizeOf(i);
    hide SizeOf, Slots, Thread, Inv, Undisturbed;
    ThreadSame(h.mem, page * PAGE_SIZE, s, n);
    forall b | b in Objects(Slots(page * PAGE_SIZE, s, n)) ensures NotInUse(v, b) { assert IsSlot(b, page, i); }
    hide SameBut, NotInUse;
    LiveUndisturbed(h, v, h.mem, Thread(h.mem, page * PAGE_SIZE, s, n), Objects(Slots(page * PAGE_SIZE, s, n)));
  }

  lemma ReleaseUndisturbed(h: Heap, v: View, i: nat)
    requires Inv(h, v) && i < NBUCKETS && v.cached[i] != [] && i < |h.cache|
    requires var a := PopTail(h.mem, h.cache[i]).0;
      PageOf(a) in h.back && h.back[PageOf(a)] in h.desc && h.desc[h.back[PageOf(a)]].refCnt > 0
    ensures Undisturbed(v, h.mem, Released(h, i).mem, v.live)
  {
    ReleasedMem(h, v, i);
    CachedCounted(h, v);
    CachedNotInUse(v, i);
    hide Inv, Released, NotInUse, Undisturbed, SameBut;
    LiveUndisturbed(h, v, h.mem, Released(h, i).mem, Objects(v.cached[i]));
  }

  lemma CachedCounted(h: Heap, v: View)
    requires Inv(h, v)
    ensures |v.cached| == NBUCKETS
  {
  }
}
