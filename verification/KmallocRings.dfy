/** The rings of descriptors: a new one comes in as a copy of the head, and one
    goes out by being overwritten with its successor. */
module KmallocRings {
  import opened Seqs
  import opened KmallocState
  import opened KmallocInv
  import opened KmallocSteps

  /** The descriptors after kmalloc has put the unused descriptor nd into the
      ring with the given head (0 if it is empty), and the descriptor that is
      to get the new page. */
  function Inserted(desc: map<nat, Desc>, head: nat, nd: nat): (map<nat, Desc>, nat)
    requires nd in desc && (head != 0 ==> head in desc)
  {
    if head != 0 then (desc[nd := desc[head]][head := desc[head].(next := nd)], head)
    else (desc[nd := desc[nd].(next := nd)], nd)
  }

  function RingWith(s: seq<nat>, nd: nat): seq<nat> {
    if s == [] then [nd] else [s[0], nd] + s[1..]
  }

  /** What kmalloc reads when bucket i grows exists. */
  predicate GrowReads(h: Heap, i: nat) {
    i < NBUCKETS && i < |h.dir| && h.freeDesc in h.desc && (h.dir[i].chain != 0 ==> h.dir[i].chain in h.desc)
  }

  /** The state once bucket i has the new page p. */
  function Grown(h: Heap, i: nat, p: nat): Heap
    requires GrowReads(h, i)
  {
    var nd, head := h.freeDesc, h.dir[i].chain;
    var (desc, d) := Inserted(h.desc, head, nd);
    var back := if head != 0 then h.back[h.desc[head].page := nd] else h.back;
    Heap(Thread(h.mem, p * PAGE_SIZE, SizeOf(i), PAGE_SIZE / SizeOf(i)),
         desc[d := Desc(p, desc[d].next, p * PAGE_SIZE, 0, SizeOf(i))], back[p := d],
         h.dir[i := Dir(h.dir[i].listLen + 1, d)], h.cache, h.desc[nd].next)
  }

  function GrownView(v: View, i: nat, p: nat): View
    requires i < NBUCKETS && i < |v.rings| && v.spare != []
  {
    v.(pages := v.pages[p := i], free := v.free[p := Slots(p * PAGE_SIZE, SizeOf(i), PAGE_SIZE / SizeOf(i))],
       used := v.used[p := {}], rings := v.rings[i := RingWith(v.rings[i], v.spare[0])], spare := v.spare[1..])
  }

  /** Bucket i can get the page p. */
  ghost predicate CanGrow(h: Heap, v: View, i: nat, p: nat) {
    Inv(h, v) && p > 0 && p !in v.pages && v.spare != [] && GrowReads(h, i)
  }

  /** The first unused descriptor is no descriptor of a ring. */
  lemma SpareFacts(h: Heap, v: View, i: nat)
    requires Inv(h, v) && i < NBUCKETS && v.spare != []
    ensures h.freeDesc == v.spare[0] && h.freeDesc in h.desc && h.freeDesc > 0 && v.spare[0] in v.spare
    ensures forall j: nat :: j < NBUCKETS ==> v.spare[0] !in v.rings[j]
    ensures h.dir[i].chain == (if v.rings[i] == [] then 0 else v.rings[i][0]) && h.dir[i].listLen == |v.rings[i]|
    ensures v.rings[i] != [] ==> h.dir[i].chain > 0 && h.dir[i].chain in h.desc && v.rings[i][0] in v.rings[i]
  {
    assert SpareLink(h.desc, v.spare, 0);
    assert Ring(h.desc, h.dir[i], v.rings[i]);
    if v.rings[i] != [] { assert RingLink(h.desc, v.rings[i], 0); }
    assert v.spare[0] in v.spare;
  }

  lemma InsertedRing(desc: map<nat, Desc>, c: Dir, s: seq<nat>, nd: nat, e: Desc)
    requires Ring(desc, c, s) && nd in desc && nd > 0 && nd !in s && (s != [] ==> c.chain in desc)
    requires var (desc1, d) := Inserted(desc, c.chain, nd); e.next == desc1[d].next
    ensures var (desc1, d) := Inserted(desc, c.chain, nd); Ring(desc1[d := e], Dir(c.listLen + 1, d), RingWith(s, nd))
  {
    var (desc1, d) := Inserted(desc, c.chain, nd);
    var desc2, t, n := desc1[d := e], RingWith(s, nd), |s|;
    if s != [] {
      assert RingLink(desc, s, 0) && s[0] == c.chain == d;
      assert NoDup(t);
      forall k: nat | k < |t| ensures RingLink(desc2, t, k) {
        if k > 1 { assert RingLink(desc, s, k - 1) && s[k - 1] in s && s[k - 1] != s[0]; }
      }
    }
  }

  /** The other rings do not see a change of the descriptors in X. */
  lemma OtherRing(desc: map<nat, Desc>, desc': map<nat, Desc>, c: Dir, s: seq<nat>, X: set<nat>)
    requires Ring(desc, c, s) && forall d :: d in s ==> d !in X
    requires forall d :: d in desc && d !in X ==> d in desc' && desc'[d] == desc[d]
    ensures Ring(desc', c, s)
  {
    forall k: nat | k < |s| ensures RingLink(desc', s, k) { assert RingLink(desc, s, k) && s[k] in s; }
  }

  /** A descriptor is in one ring only. */
  lemma OneRing(h: Heap, v: View, i: nat, j: nat, d: nat)
    requires Inv(h, v) && i < NBUCKETS && j < NBUCKETS && d in v.rings[i] && d in v.rings[j]
    ensures i == j
  {
    assert Backed(h.desc, h.back, v.pages, d, i) && Backed(h.desc, h.back, v.pages, d, j);
  }

  lemma RingPositive(h: Heap, v: View, j: nat, b: nat)
    requires Inv(h, v) && j < NBUCKETS && b in v.rings[j]
    ensures b > 0 && Backed(h.desc, h.back, v.pages, b, j)
  {
    assert Ring(h.desc, h.dir[j], v.rings[j]);
    var k: nat :| k < |v.rings[j]| && v.rings[j][k] == b;
    assert RingLink(h.desc, v.rings[j], k);
  }

  lemma GrownRing(h: Heap, v: View, i: nat, p: nat, j: nat)
    requires CanGrow(h, v, i, p) && j < NBUCKETS
    ensures j < |GrownView(v, i, p).rings| && j < |h.dir|
    ensures Ring(Grown(h, i, p).desc, Grown(h, i, p).dir[j], GrownView(v, i, p).rings[j])
  {
    SpareFacts(h, v, i);
    var nd, head := h.freeDesc, h.dir[i].chain;
    var (desc, d) := Inserted(h.desc, head, nd);
    assert Ring(h.desc, h.dir[j], v.rings[j]);
    if j == i {
      InsertedRing(h.desc, h.dir[i], v.rings[i], nd, Desc(p, desc[d].next, p * PAGE_SIZE, 0, SizeOf(i)));
    } else {
      forall b | b in v.rings[j] ensures b != nd && b != head {
        RingPositive(h, v, j, b);
        if b == head { OneRing(h, v, i, j, b); }
      }
      OtherRing(h.desc, Grown(h, i, p).desc, h.dir[j], v.rings[j], {nd, head});
    }
  }

  lemma RingWithMembers(s: seq<nat>, nd: nat)
    ensures forall d :: d in RingWith(s, nd) <==> d in s || d == nd
  {
    if s != [] { assert s == [s[0]] + s[1..]; }
  }

  /** The back pointers of the page p, of the old head's page and of any other
      descriptor b, after the insertion. */
  lemma InsertedBacked(desc: map<nat, Desc>, back: map<nat, nat>, pages: map<nat, nat>, head: nat, nd: nat, i: nat,
                       p: nat, b: nat, j: nat)
    requires i < NBUCKETS && nd in desc && p !in pages && nd != head
    requires head != 0 ==> Backed(desc, back, pages, head, i)
    requires if b == nd then j == i else Backed(desc, back, pages, b, j) && b > 0 && (b == head ==> j == i)
    ensures head != 0 ==> head in desc
    ensures var (desc1, d) := Inserted(desc, head, nd);
      var back1 := if head != 0 then back[desc[head].page := nd] else back;
      Backed(desc1[d := Desc(p, desc1[d].next, p * PAGE_SIZE, 0, SizeOf(i))], back1[p := d], pages[p := i], b, j)
  {
    hide SizeOf;
  }

  lemma GrownBacked(h: Heap, v: View, i: nat, p: nat, j: nat, b: nat)
    requires CanGrow(h, v, i, p) && j < NBUCKETS && j < |GrownView(v, i, p).rings| && b in GrownView(v, i, p).rings[j]
    ensures Backed(Grown(h, i, p).desc, Grown(h, i, p).back, GrownView(v, i, p).pages, b, j)
  {
    SpareFacts(h, v, i);
    RingWithMembers(v.rings[i], h.freeDesc);
    hide Inv, RingWith, Backed, Thread;
    if v.rings[i] != [] { RingPositive(h, v, i, h.dir[i].chain); }
    if b != h.freeDesc {
      RingPositive(h, v, j, b);
      if b == h.dir[i].chain { OneRing(h, v, i, j, b); }
    }
    InsertedBacked(h.desc, h.back, v.pages, h.dir[i].chain, h.freeDesc, i, p, b, j);
  }

  lemma GrownSpare(h: Heap, v: View, i: nat, p: nat)
    requires CanGrow(h, v, i, p)
    ensures Spared(Grown(h, i, p).desc, Grown(h, i, p).freeDesc, GrownView(v, i, p).spare, GrownView(v, i, p).rings)
  {
    SpareFacts(h, v, i);
    RingWithMembers(v.rings[i], h.freeDesc);
    var h', v' := Grown(h, i, p), GrownView(v, i, p);
    var s, t := v.spare, v.spare[1..];
    assert SpareLink(h.desc, s, 0);
    HeadOff(s);
    forall k: nat | k < |t| ensures SpareLink(h'.desc, t, k) {
      assert SpareLink(h.desc, s, k + 1) && t[k] in s && t[k] != s[0];
    }
    forall j: nat, d: nat | j < |v'.rings| && d in v'.rings[j] ensures d !in t {
      if d != h.freeDesc { assert d in v.rings[j]; }
    }
  }

  lemma GrownPages(h: Heap, v: View, i: nat, p: nat)
    requires CanGrow(h, v, i, p)
    ensures var h', v' := Grown(h, i, p), GrownView(v, i, p);
      Pages(h'.mem, h'.desc, h'.back, v'.pages, v'.free, v'.used, v'.rings)
  {
    hide Inv, Grown, PageOk, Slots;
    SameKeys(h, v);
    RingCount(h, v);
    var h', v' := Grown(h, i, p), GrownView(v, i, p);
    assert v'.pages.Keys == v'.free.Keys == v'.used.Keys;
    GrownNew(h, v, i, p);
    forall q | q in v.pages ensures PageOk(h'.mem, h'.desc, h'.back, v'.rings, q, v.pages[q], v.free[q], v.used[q]) {
      GrownOld(h, v, i, p, q);
    }
  }

  lemma GrownNew(h: Heap, v: View, i: nat, p: nat)
    requires CanGrow(h, v, i, p)
    ensures var h', v' := Grown(h, i, p), GrownView(v, i, p);
      PageOk(h'.mem, h'.desc, h'.back, v'.rings, p, i, v'.free[p], v'.used[p])
  {
    SpareFacts(h, v, i);
    RingWithMembers(v.rings[i], h.freeDesc);
    PageDivides(p, i);
    ThreadChain(h.mem, p * PAGE_SIZE, SizeOf(i), PAGE_SIZE / SizeOf(i));
    hide Thread, Slots, FreeChain, Caches, Ringed, Spared, Pages, Owned;
  }

  /** The free list of another page is as it was. */
  lemma GrownFree(mem: map<nat, nat>, v: View, i: nat, p: nat, q: nat, ptr: nat)
    requires Owned(v.pages, v.free, v.used, v.live, v.cached) && i < NBUCKETS && p > 0 && p !in v.pages && q in v.pages
    requires FreeChain(mem, ptr, v.free[q])
    ensures FreeChain(Thread(mem, p * PAGE_SIZE, SizeOf(i), PAGE_SIZE / SizeOf(i)), ptr, v.free[q])
  {
    hide Thread, Slots, FreeChain, SizeOf;
    PageDivides(p, i);
    PageSlots(p, i);
    var s, n := SizeOf(i), PAGE_SIZE / SizeOf(i);
    ThreadSame(mem, p * PAGE_SIZE, s, n);
    assert PageOwns(v.pages[q], v.free[q], v.used[q], q, v.live, v.cached);
    hide SameBut;
    FreeChainKeeps(mem, Thread(mem, p * PAGE_SIZE, s, n), Objects(Slots(p * PAGE_SIZE, s, n)), ptr, v.free[q]);
  }

  lemma GrownOld(h: Heap, v: View, i: nat, p: nat, q: nat)
    requires CanGrow(h, v, i, p) && q in v.pages
    ensures q in v.free && q in v.used
    ensures var h', v' := Grown(h, i, p), GrownView(v, i, p);
      PageOk(h'.mem, h'.desc, h'.back, v'.rings, q, v.pages[q], v.free[q], v.used[q])
  {
    hide Thread, Slots, FreeChain, SizeOf, Caches, Spared, Owned;
    SpareFacts(h, v, i);
    RingWithMembers(v.rings[i], h.freeDesc);
    assert PageOk(h.mem, h.desc, h.back, v.rings, q, v.pages[q], v.free[q], v.used[q]);
    GrownFree(h.mem, v, i, p, q, h.desc[h.back[q]].freePtr);
    if v.rings[i] != [] { assert Backed(h.desc, h.back, v.pages, h.dir[i].chain, i); }
    hide Ringed, Pages, RingWith;
  }

  lemma GrownOwned(v: View, i: nat, p: nat)
    requires Owned(v.pages, v.free, v.used, v.live, v.cached)
    requires i < NBUCKETS && p > 0 && p !in v.pages && i < |v.rings| && v.spare != []
    ensures var v' := GrownView(v, i, p); Owned(v'.pages, v'.free, v'.used, v'.live, v'.cached)
  {
    PageSlots(p, i);
    hide Slots;
    var v' := GrownView(v, i, p);
    forall q | q in v'.pages ensures PageOwns(v'.pages[q], v'.free[q], v'.used[q], q, v.live, v.cached) {
      if q != p { assert PageOwns(v.pages[q], v.free[q], v.used[q], q, v.live, v.cached); }
    }
    forall a | a in v.live ensures InUse(v'.pages, v'.used, a) { assert InUse(v.pages, v.used, a); }
    forall j: nat, a: nat | j < NBUCKETS && a in v.cached[j]
      ensures InUse(v'.pages, v'.used, a) && v'.pages[PageOf(a)] == j {
      assert InUse(v.pages, v.used, a);
    }
  }

  lemma GrownCaches(h: Heap, v: View, i: nat, p: nat)
    requires Inv(h, v) && i < NBUCKETS && p > 0 && p !in v.pages
    ensures Caches(Thread(h.mem, p * PAGE_SIZE, SizeOf(i), PAGE_SIZE / SizeOf(i)), h.cache, v.cached)
  {
    PageDivides(p, i);
    PageSlots(p, i);
    var X := Objects(Slots(p * PAGE_SIZE, SizeOf(i), PAGE_SIZE / SizeOf(i)));
    ThreadSame(h.mem, p * PAGE_SIZE, SizeOf(i), PAGE_SIZE / SizeOf(i));
    hide Slots, Thread;
    var mem := Thread(h.mem, p * PAGE_SIZE, SizeOf(i), PAGE_SIZE / SizeOf(i));
    forall j: nat | j < NBUCKETS ensures CacheRing(mem, h.cache[j], v.cached[j]) {
      forall a | a in v.cached[j] ensures a !in X { CachedFacts(v, j, a); }
      CacheRingKeeps(h.mem, mem, X, h.cache[j], v.cached[j]);
    }
  }

  /** kmalloc gets a new page p for bucket i. */
  lemma GrownKeeps(h: Heap, v: View, i: nat, p: nat)
    requires Inv(h, v) && i < NBUCKETS && p > 0 && p !in v.pages && v.spare != []
    ensures GrowReads(h, i) && Inv(Grown(h, i, p), GrownView(v, i, p))
  {
    SpareFacts(h, v, i);
    GrownSpare(h, v, i, p);
    GrownPages(h, v, i, p);
    GrownOwned(v, i, p);
    GrownCaches(h, v, i, p);
    var h', v' := Grown(h, i, p), GrownView(v, i, p);
    forall j: nat | j < NBUCKETS ensures Ring(h'.desc, h'.dir[j], v'.rings[j]) { GrownRing(h, v, i, p, j); }
    forall j: nat, b: nat | j < NBUCKETS && b in v'.rings[j] ensures Backed(h'.desc, h'.back, v'.pages, b, j) {
      GrownBacked(h, v, i, p, j, b);
    }
    hide Caches, Pages, Owned, Spared, Ring;
  }

  // ---- free_cache gives an empty page back --------------------------------------------------------------------

  /** The successor's contents move to d, and the successor, or d itself if it is
      the only one, goes in front of the unused ones. */
  function Overwritten(desc: map<nat, Desc>, d: nat, freeDesc: nat): map<nat, Desc>
    requires d in desc && desc[d].next in desc
  {
    var nx := desc[d].next;
    var desc1 := if nx != d then desc[d := desc[nx]] else desc;
    desc1[nx := desc1[nx].(next := freeDesc)]
  }

  /** What free_cache reads when the page of d goes exists. */
  predicate DropReads(h: Heap, i: nat, d: nat) {
    i < |h.dir| && d in h.desc && h.desc[d].next in h.desc && h.dir[i].listLen > 0
  }

  /** The state once the page of d is gone. */
  function Dropped(h: Heap, i: nat, d: nat): Heap
    requires DropReads(h, i, d)
  {
    var nx := h.desc[d].next;
    var chain := if nx == d then 0 else if h.dir[i].chain == nx then d else h.dir[i].chain;
    var back := if nx != d then h.back[h.desc[nx].page := d] else h.back;
    h.(desc := Overwritten(h.desc, d, h.freeDesc), back := back, dir := h.dir[i := Dir(h.dir[i].listLen - 1, chain)],
      freeDesc := nx)
  }

  /** The ring without the element after k. */
  function RingWithout(s: seq<nat>, k: nat): seq<nat>
    requires k < |s|
  {
    if |s| == 1 then [] else if k + 1 < |s| then s[..k + 1] + s[k + 2..] else [s[k]] + s[1..k]
  }

  function DroppedView(v: View, i: nat, k: nat, p: nat): View
    requires i < |v.rings| && k < |v.rings[i]|
  {
    v.(pages := v.pages - {p}, free := v.free - {p}, used := v.used - {p},
       rings := v.rings[i := RingWithout(v.rings[i], k)], spare := [v.rings[i][Succ(k, |v.rings[i]|)]] + v.spare)
  }

  /** The page of the descriptor at k of the ring of bucket i can go. */
  ghost predicate CanDrop(h: Heap, v: View, i: nat, k: nat) {
    Inv(h, v) && i < NBUCKETS && i < |v.rings| && k < |v.rings[i]| && DropReads(h, i, v.rings[i][k])
  }

  /** What free_cache reads at the descriptor at k. */
  lemma DropFacts(h: Heap, v: View, i: nat, k: nat)
    requires Inv(h, v) && i < NBUCKETS && k < |v.rings[i]|
    ensures i < |h.dir| && Ring(h.desc, h.dir[i], v.rings[i]) && h.dir[i].listLen == |v.rings[i]| && NoDup(v.rings[i])
    ensures var d := v.rings[i][k];
      && d > 0 && d in h.desc && h.desc[d].next == v.rings[i][Succ(k, |v.rings[i]|)] && h.desc[d].next in h.desc
      && h.desc[d].next > 0
      && Backed(h.desc, h.back, v.pages, d, i) && Backed(h.desc, h.back, v.pages, h.desc[d].next, i)
      && d in v.rings[i] && h.desc[d].next in v.rings[i]
  {
    var s := v.rings[i];
    assert Ring(h.desc, h.dir[i], s);
    assert RingLink(h.desc, s, k) && RingLink(h.desc, s, Succ(k, |s|));
    assert s[k] in s && s[Succ(k, |s|)] in s;
  }

  lemma RingWithoutMembers(s: seq<nat>, k: nat)
    requires k < |s| && NoDup(s)
    ensures NoDup(RingWithout(s, k)) && forall d :: d in RingWithout(s, k) <==> d in s && d != s[Succ(k, |s|)]
  {
    var n := |s|;
    if n == 1 {
      assert s == [s[0]];
    } else if k + 1 < n {
      assert s == s[..k + 1] + [s[k + 1]] + s[k + 2..];
    } else {
      assert s == [s[0]] + s[1..k] + [s[k]];
    }
  }

  /** What follows what in the shorter ring, the element after k being inside ... */
  lemma WithoutInside(s: seq<nat>, k: nat, j: nat)
    requires k + 1 < |s| && j < |s| - 1
    ensures var t, m := RingWithout(s, k), if j <= k then j else j + 1;
      |t| == |s| - 1 && t[j] == s[m] && t[Succ(j, |t|)] == s[if m == k then Succ(k + 1, |s|) else Succ(m, |s|)]
  {
  }

  /** ... or the head. */
  lemma WithoutAround(s: seq<nat>, j: nat)
    requires |s| > 1 && j < |s| - 1
    ensures var k := |s| - 1; var t, m := RingWithout(s, k), if j == 0 then k else j;
      |t| == |s| - 1 && t[j] == s[m] && t[Succ(j, |t|)] == s[if m == k then Succ(0, |s|) else Succ(m, |s|)]
  {
  }

  lemma LinkInside(desc: map<nat, Desc>, c: Dir, s: seq<nat>, k: nat, f: nat, j: nat)
    requires Ring(desc, c, s) && k + 1 < |s| && j < |s| - 1 && s[k] in desc && desc[s[k]].next in desc
    ensures j < |RingWithout(s, k)| && RingLink(Overwritten(desc, s[k], f), RingWithout(s, k), j)
  {
    hide RingWithout;
    WithoutInside(s, k, j);
    var m := if j <= k then j else j + 1;
    assert RingLink(desc, s, k) && RingLink(desc, s, k + 1) && RingLink(desc, s, m);
    assert s[m] != s[k + 1] && (m != k ==> s[m] != s[k]);
    hide Ring, NoDup;
  }

  lemma LinkAround(desc: map<nat, Desc>, c: Dir, s: seq<nat>, f: nat, j: nat)
    requires Ring(desc, c, s) && |s| > 1 && j < |s| - 1
    requires var k := |s| - 1; s[k] in desc && desc[s[k]].next in desc
    ensures j < |RingWithout(s, |s| - 1)|
    ensures RingLink(Overwritten(desc, s[|s| - 1], f), RingWithout(s, |s| - 1), j)
  {
    hide RingWithout;
    WithoutAround(s, j);
    var k := |s| - 1;
    var m := if j == 0 then k else j;
    assert RingLink(desc, s, k) && RingLink(desc, s, 0) && RingLink(desc, s, m);
    assert s[m] != s[0] && (m != k ==> s[m] != s[k]);
    hide Ring, NoDup;
  }

  lemma WithoutHead(s: seq<nat>, k: nat)
    requires k < |s|
    ensures var t, n := RingWithout(s, k), s[Succ(k, |s|)];
      |t| == |s| - 1 && (t != [] ==> t[0] == if Succ(k, |s|) == 0 then s[k] else s[0])
  {
  }

  lemma OverwrittenRing(desc: map<nat, Desc>, c: Dir, s: seq<nat>, k: nat, f: nat)
    requires Ring(desc, c, s) && k < |s| && s[k] in desc && desc[s[k]].next in desc
    ensures var nx := desc[s[k]].next;
      Ring(Overwritten(desc, s[k], f),
        Dir(c.listLen - 1, if nx == s[k] then 0 else if c.chain == nx then s[k] else c.chain), RingWithout(s, k))
  {
    hide Overwritten, RingWithout;
    assert RingLink(desc, s, k);
    RingWithoutMembers(s, k);
    WithoutHead(s, k);
    forall j: nat | j < |s| - 1 ensures RingLink(Overwritten(desc, s[k], f), RingWithout(s, k), j) {
      if k + 1 < |s| { LinkInside(desc, c, s, k, f, j); } else { LinkAround(desc, c, s, f, j); }
    }
  }

  lemma DroppedRing(h: Heap, v: View, i: nat, k: nat)
    requires CanDrop(h, v, i, k)
    ensures var h' := Dropped(h, i, v.rings[i][k]); Ring(h'.desc, h'.dir[i], RingWithout(v.rings[i], k))
  {
    hide Inv, Overwritten, Ring, RingWithout, Backed, NoDup;
    DropFacts(h, v, i, k);
    OverwrittenRing(h.desc, h.dir[i], v.rings[i], k, h.freeDesc);
  }

  /** The back pointer of d, whose contents are its successor's, and of any other
      descriptor b that stays. */
  lemma OverwrittenBacked(desc: map<nat, Desc>, back: map<nat, nat>, pages: map<nat, nat>, d: nat, i: nat, f: nat,
                          b: nat, j: nat)
    requires Backed(desc, back, pages, d, i) && Backed(desc, back, pages, desc[d].next, i)
      && Backed(desc, back, pages, b, j)
    requires b != desc[d].next && (b == d ==> j == i)
    ensures var back' := if desc[d].next != d then back[desc[desc[d].next].page := d] else back;
      Backed(Overwritten(desc, d, f), back', pages - {desc[d].page}, b, j)
  {
    hide SizeOf;
  }

  lemma DroppedBacked(h: Heap, v: View, i: nat, k: nat, j: nat, b: nat)
    requires CanDrop(h, v, i, k) && j < NBUCKETS
    requires var v' := DroppedView(v, i, k, h.desc[v.rings[i][k]].page); j < |v'.rings| && b in v'.rings[j]
    ensures var d := v.rings[i][k]; Backed(Dropped(h, i, d).desc, Dropped(h, i, d).back, v.pages - {h.desc[d].page},
      b, j)
  {
    DropFacts(h, v, i, k);
    RingWithoutMembers(v.rings[i], k);
    hide Inv, RingWithout, Backed, Overwritten, Ring;
    var d := v.rings[i][k];
    RingPositive(h, v, j, b);
    if b == h.desc[d].next || b == d { OneRing(h, v, i, j, b); }
    OverwrittenBacked(h.desc, h.back, v.pages, d, i, h.freeDesc, b, j);
  }

  lemma DroppedOther(h: Heap, v: View, i: nat, k: nat, j: nat)
    requires CanDrop(h, v, i, k) && j < NBUCKETS && j != i
    ensures j < |h.dir| && Ring(Dropped(h, i, v.rings[i][k]).desc, h.dir[j], v.rings[j])
  {
    DropFacts(h, v, i, k);
    var d := v.rings[i][k];
    assert Ring(h.desc, h.dir[j], v.rings[j]);
    forall b | b in v.rings[j] ensures b != d && b != h.desc[d].next {
      if b == d || b == h.desc[d].next { OneRing(h, v, i, j, b); }
    }
    OtherRing(h.desc, Dropped(h, i, d).desc, h.dir[j], v.rings[j], {d, h.desc[d].next});
  }

  lemma OverwrittenSpare(desc: map<nat, Desc>, d: nat, f: nat, spare: seq<nat>)
    requires d in desc && desc[d].next in desc && desc[d].next > 0 && d !in spare && desc[d].next !in spare
    requires f == (if spare == [] then 0 else spare[0]) && NoDup(spare)
    requires forall k: nat {:trigger SpareLink(desc, spare, k)} :: k < |spare| ==> SpareLink(desc, spare, k)
    ensures var desc', t := Overwritten(desc, d, f), [desc[d].next] + spare;
      NoDup(t) && forall k: nat {:trigger SpareLink(desc', t, k)} :: k < |t| ==> SpareLink(desc', t, k)
  {
    var desc', t := Overwritten(desc, d, f), [desc[d].next] + spare;
    forall k: nat | k < |t| ensures SpareLink(desc', t, k) {
      if k > 0 { assert SpareLink(desc, spare, k - 1) && spare[k - 1] in spare; }
    }
  }

  lemma DroppedApart(h: Heap, v: View, i: nat, k: nat, j: nat, b: nat)
    requires CanDrop(h, v, i, k)
    requires var v' := DroppedView(v, i, k, h.desc[v.rings[i][k]].page); j < |v'.rings| && b in v'.rings[j]
    ensures b !in [h.desc[v.rings[i][k]].next] + v.spare
  {
    DropFacts(h, v, i, k);
    RingWithoutMembers(v.rings[i], k);
    assert b in v.rings[j];
    if b == h.desc[v.rings[i][k]].next && j != i { OneRing(h, v, i, j, b); }
    hide RingWithout, Ring, Backed, Caches, Pages, Owned;
  }

  lemma DroppedSpare(h: Heap, v: View, i: nat, k: nat)
    requires CanDrop(h, v, i, k)
    ensures var h', v' := Dropped(h, i, v.rings[i][k]), DroppedView(v, i, k, h.desc[v.rings[i][k]].page);
      Spared(h'.desc, h'.freeDesc, v'.spare, v'.rings)
  {
    DropFacts(h, v, i, k);
    var d := v.rings[i][k];
    var v' := DroppedView(v, i, k, h.desc[d].page);
    OverwrittenSpare(h.desc, d, h.freeDesc, v.spare);
    hide RingWithout, Ring, Backed, Inv, Overwritten, SpareLink, NoDup;
    forall j: nat, b: nat | j < |v'.rings| && b in v'.rings[j]
      ensures b !in v'.spare { DroppedApart(h, v, i, k, j, b); }
  }

  lemma DroppedPages(h: Heap, v: View, i: nat, k: nat)
    requires CanDrop(h, v, i, k)
    ensures var h', v' := Dropped(h, i, v.rings[i][k]), DroppedView(v, i, k, h.desc[v.rings[i][k]].page);
      Pages(h'.mem, h'.desc, h'.back, v'.pages, v'.free, v'.used, v'.rings)
  {
    var h', v' := Dropped(h, i, v.rings[i][k]), DroppedView(v, i, k, h.desc[v.rings[i][k]].page);
    forall q | q in v'.pages
      ensures PageOk(h'.mem, h'.desc, h'.back, v'.rings, q, v'.pages[q], v'.free[q], v'.used[q]) {
      DroppedPage(h, v, i, k, q);
    }
  }

  lemma DroppedPage(h: Heap, v: View, i: nat, k: nat, q: nat)
    requires CanDrop(h, v, i, k) && q in v.pages && q != h.desc[v.rings[i][k]].page
    ensures q in v.free && q in v.used
    ensures var h', v' := Dropped(h, i, v.rings[i][k]), DroppedView(v, i, k, h.desc[v.rings[i][k]].page);
      PageOk(h'.mem, h'.desc, h'.back, v'.rings, q, v.pages[q], v.free[q], v.used[q])
  {
    hide RingWithout, FreeChain, Ring, Caches, Spared, SizeOf;
    DropFacts(h, v, i, k);
    var d := v.rings[i][k];
    assert PageOk(h.mem, h.desc, h.back, v.rings, q, v.pages[q], v.free[q], v.used[q]);
    RingWithoutMembers(v.rings[i], k);
    var b := h.back[q];
    if b == h.desc[d].next { OneRing(h, v, i, v.pages[q], b); }
    hide Inv;
  }

  lemma DroppedOwned(v: View, p: nat)
    requires Owned(v.pages, v.free, v.used, v.live, v.cached) && p in v.pages && v.used[p] == {}
    ensures Owned(v.pages - {p}, v.free - {p}, v.used - {p}, v.live, v.cached)
  {
    var pages, free, used := v.pages - {p}, v.free - {p}, v.used - {p};
    forall q | q in pages ensures PageOwns(pages[q], free[q], used[q], q, v.live, v.cached) {
      assert PageOwns(v.pages[q], v.free[q], v.used[q], q, v.live, v.cached);
    }
    forall a | a in v.live ensures InUse(pages, used, a) { assert InUse(v.pages, v.used, a); }
    forall j: nat, a: nat | j < NBUCKETS && a in v.cached[j] ensures InUse(pages, used, a) && pages[PageOf(a)] == j {
      assert InUse(v.pages, v.used, a);
    }
  }

  /** A page with no live and no cached object leaves. */
  lemma DroppedKeeps(h: Heap, v: View, i: nat, k: nat)
    requires Inv(h, v) && i < NBUCKETS && k < |v.rings[i]| && v.rings[i][k] in h.desc
      && h.desc[v.rings[i][k]].refCnt == 0
    ensures DropReads(h, i, v.rings[i][k])
    ensures var p := h.desc[v.rings[i][k]].page;
      && p in v.pages && p in v.used && v.used[p] == {}
      && Inv(Dropped(h, i, v.rings[i][k]), DroppedView(v, i, k, p))
  {
    DropFacts(h, v, i, k);
    var d := v.rings[i][k];
    RingFacts(h, v, d, i);
    var p := h.desc[d].page;
    DroppedRing(h, v, i, k);
    DroppedSpare(h, v, i, k);
    DroppedPages(h, v, i, k);
    DroppedOwned(v, p);
    var h', v' := Dropped(h, i, d), DroppedView(v, i, k, p);
    forall j: nat, b: nat | j < NBUCKETS && b in v'.rings[j] ensures Backed(h'.desc, h'.back, v'.pages, b, j) {
      DroppedBacked(h, v, i, k, j, b);
    }
    forall j: nat | j < NBUCKETS
      ensures Ring(h'.desc, h'.dir[j], v'.rings[j]) { if j != i { DroppedOther(h, v, i, k, j); } }
    hide Caches, Pages, Owned, Spared, Ring;
  }
}
