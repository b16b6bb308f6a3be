/** kmalloc, kfree and free_cache over memory. */
module Kmalloc {
  import opened Seqs
  import opened KmallocState
  import opened KmallocInv
  import opened KmallocSteps
  import opened KmallocRings
  import opened KmallocEffects

  /** The scan of the size table stops exactly for requests up to its end mark. */
  lemma ScanStops(len: nat)
    ensures len <= 65535 <==> exists i: nat :: i < |SIZES| && SIZES[i] >= len
  {
    if len <= 65535 { assert SIZES[NBUCKETS] >= len; }
  }

  /** The smallest entry of the table that is not below len. */
  method FindSize(len: nat) returns (i: nat)
    requires len <= 65535
    ensures i < |SIZES| && SIZES[i] >= len && forall j: nat :: j < i ==> SIZES[j] < len
  {
    i := 0;
    while SIZES[i] < len
      invariant i < |SIZES| && forall j: nat :: j < i ==> SIZES[j] < len
      decreases |SIZES| - i
    {
      assert i != NBUCKETS;
      i := i + 1;
    }
  }

  class Kmalloc {
    var mem: map<nat, nat>
    var desc: map<nat, Desc>
    var back: map<nat, nat>
    var dir: seq<Dir>
    var cache: seq<Cache>
    var freeDesc: nat
    /** What memory stands for, and the request for each live object. */
    ghost var v: View
    ghost var want: map<nat, nat>

    ghost function H(): Heap
      reads this
    {
      Heap(mem, desc, back, dir, cache, freeDesc)
    }

    ghost predicate Sound()
      reads this
    {
      Inv(H(), v)
    }

    ghost predicate Valid()
      reads this
    {
      Sound() && Held(v) && Wanted(v, want)
    }

    constructor ()
      ensures Valid() && v.live == {} && v.pages == map[] && want == map[]
    {
      mem, desc, back, freeDesc := map[], map[], map[], 0;
      dir, cache := seq(NBUCKETS, i => Dir(0, 0)), seq(|SIZES|, i => Cache(0, 0));
      v := View(map[], map[], map[], {}, seq(NBUCKETS, i => []), [], seq(NBUCKETS, i => []));
      want := map[];
    }

    // ---- kmalloc ------------------------------------------------------------------------

    /** The head of the cache of bucket i is unlinked, and its two words cleared. */
    method UnlinkHead(i: nat) returns (ret: nat)
      requires i < |cache| && cache[i].listLen > 0
      modifies this`mem, this`cache
      ensures ret == old(cache[i].head)
      ensures H() == old(H()).(mem := PopHead(old(mem), old(cache[i])).0,
        cache := old(cache)[i := PopHead(old(mem), old(cache[i])).1])
    {
      ret := cache[i].head;
      if cache[i].listLen - 1 == 0 {
        cache := cache[i := Cache(0, 0)];
      } else {
        mem := mem[Word(mem, ret) + 4 := Word(mem, ret + 4)];
        mem := mem[Word(mem, ret + 4) := Word(mem, ret)];
        cache := cache[i := Cache(cache[i].listLen - 1, Word(mem, ret + 4))];
      }
      mem := mem[ret := 0];
      mem := mem[ret + 4 := 0];
    }

    /** The cache of bucket i is not empty: its head is handed out. */
    method PopCache(i: nat) returns (ret: nat)
      requires Sound() && i < NBUCKETS && i < |cache| && cache[i].listLen > 0
      modifies `mem, `desc, `back, `dir, `cache, `freeDesc, `v
      ensures Sound() && HandedOut(old(v), v, ret, i) && FromCache(old(v), v, ret, i)
      ensures Word(mem, ret) == 0 && Word(mem, ret + 4) == 0 && Undisturbed(old(v), old(mem), mem, old(v).live)
    {
      hide Inv, PopHead, IsSlot, PageOf, InUse, Undisturbed;
      CacheSize(H(), v, i);
      TakeCachedKeeps(H(), v, i);
      TakeCachedUndisturbed(H(), v, i);
      HeadFacts(H(), v, i);
      ret := UnlinkHead(i);
      v := v.(cached := v.cached[i := v.cached[i][1..]], live := v.live + {ret});
    }

    /** The first descriptor of bucket i with a free object, or the last one, or
        NULL. */
    method FindDesc(i: nat) returns (d: nat, ghost k: nat)
      requires Sound() && i < NBUCKETS
      ensures d == 0 <==> v.rings[i] == []
      ensures d != 0 ==> FirstFree(desc, v.rings[i], d, k)
    {
      assert Ring(desc, dir[i], v.rings[i]);
      d, k := dir[i].chain, 0;
      ghost var s := v.rings[i];
      assert s != [] ==> RingLink(desc, s, 0);
      if d != 0 {
        while desc[d].freePtr == 0 && desc[d].next != dir[i].chain
          invariant k < |s| && d == s[k] && d > 0 && d in desc
          invariant forall j: nat :: j < k ==> s[j] in desc && desc[s[j]].freePtr == 0
          decreases |s| - k
        {
          assert RingLink(desc, s, k);
          d := desc[d].next;
          k := k + 1;
          assert RingLink(desc, s, k);
        }
        assert RingLink(desc, s, k);
        assert desc[d].freePtr == 0 ==> Succ(k, |s|) == 0;
      }
    }

    /** The loop of bucket_init: the descriptors that fill the page dpage make up
        the list of unused ones. */
    method ChainSpares(dpage: nat)
      requires dpage > 0 && (forall a :: a in Spares(dpage * PAGE_SIZE) ==> a !in desc)
      modifies this`desc, this`freeDesc
      ensures freeDesc == dpage * PAGE_SIZE && Chained(desc, freeDesc, NumDescs()) && Extends(old(desc), desc)
    {
      ghost var base, n, desc0 := dpage * PAGE_SIZE, 1, desc;
      FirstSpare(desc, base);
      hide Slots, Chained, Extends, NumDescs;
      freeDesc := dpage * PAGE_SIZE;
      var d := freeDesc + (NumDescs() - 1) * 16;
      desc := desc[d := Desc(0, 0, 0, 0, 0)];
      while d > freeDesc
        invariant 1 <= n <= NumDescs() && d == base + (NumDescs() - n) * 16 && freeDesc == base
        invariant Chained(desc, d, n) && Extends(desc0, desc)
        decreases d
      {
        OneMoreSpare(desc, d, n);
        StillExtends(desc0, desc, base, n, Desc(0, d, 0, 0, 0));
        hide Slots, Chained, Extends;
        d := d - 16;
        desc := desc[d := Desc(0, d + 16, 0, 0, 0)];
        n := n + 1;
      }
    }

    /** bucket_init. */
    method BucketInit(dpage: nat)
      requires Sound() && v.spare == [] && dpage > 0 && (forall a :: a in Spares(dpage * PAGE_SIZE) ==> a !in desc)
      modifies `mem, `desc, `back, `dir, `cache, `freeDesc, `v
      ensures Sound() && v == old(v).(spare := Spares(dpage * PAGE_SIZE))
      ensures forall a :: a in Spares(dpage * PAGE_SIZE) <==> a % 16 == 0 && PageOf(a) == dpage
      ensures mem == old(mem) && cache == old(cache) && dir == old(dir) && back == old(back)
    {
      ghost var h := H();
      hide Inv, Spares, Chained, Extends, NumDescs;
      ChainSpares(dpage);
      SparesKeep(h, v, desc, freeDesc);
      SparesFill(dpage);
      v := v.(spare := Spares(dpage * PAGE_SIZE));
    }

    /** The loop that threads a new page. */
    method ThreadPage(a: nat, size: nat)
      requires 8 <= size <= PAGE_SIZE
      modifies this`mem
      ensures mem == Thread(old(mem), a, size, PAGE_SIZE / size)
    {
      ghost var m0 := mem;
      var obj: nat, k: nat, n: nat := a, 0, PAGE_SIZE / size;
      while k < n - 1
        invariant 0 <= k <= n - 1 && Thread(mem, obj, size, n - k) == Thread(m0, a, size, n)
      {
        mem := mem[obj := obj + size];
        obj := obj + size;
        k := k + 1;
      }
      mem := mem[obj := 0];
    }

    /** An unused descriptor enters the ring of bucket i, as a copy of the head,
        and the head, or the new descriptor of an empty ring, gets the page. */
    method InsertDesc(i: nat, page: nat) returns (d: nat)
      requires GrowReads(H(), i)
      modifies this`desc, this`back, this`dir, this`freeDesc
      ensures H() == Grown(old(H()), i, page).(mem := mem) && d == dir[i].chain
    {
      d := freeDesc;
      freeDesc := desc[d].next;
      var head := dir[i].chain;
      if head != 0 {
        back := back[desc[head].page := d];
        desc := desc[d := desc[head]];
        desc := desc[head := desc[head].(next := d)];
        d := head;
      } else {
        desc := desc[d := desc[d].(next := d)];
      }
      dir := dir[i := Dir(dir[i].listLen + 1, d)];
      desc := desc[d := Desc(page, desc[d].next, page * PAGE_SIZE, 0, SIZES[i])];
      back := back[page := d];
    }

    /** Bucket i has no free object: it gets a new page. */
    method NewPage(i: nat, page: nat) returns (d: nat)
      requires Sound() && i < NBUCKETS && v.spare != [] && page > 0 && page !in v.pages
      modifies `mem, `desc, `back, `dir, `cache, `freeDesc, `v
      ensures Sound() && WithPage(old(v), v, i, page) && (forall x :: x in v.free[page] <==> IsSlot(x, page, i))
      ensures i < |v.rings| && d in v.rings[i] && d in desc && desc[d].freePtr != 0 && desc[d].page == page
      ensures Undisturbed(old(v), old(mem), mem, old(v).live)
    {
      hide Inv, Thread, Slots, RingWith, Grown, GrowReads, PageOf, IsSlot, Undisturbed;
      PageFilled(page, i);
      NewPageUndisturbed(H(), v, i, page);
      GrownKeeps(H(), v, i, page);
      assert i < |v.rings| by { RingCount(H(), v); }
      NewHead(H(), v, i, page);
      GrownMem(H(), i, page);
      SizeRange(i);
      d := InsertDesc(i, page);
      ThreadPage(page * PAGE_SIZE, SIZES[i]);
      v := GrownView(v, i, page);
    }

    /** The first object is taken off the free list of d, and counted. */
    method UnlinkFree(d: nat) returns (ret: nat)
      requires d in desc
      modifies this`mem, this`desc
      ensures ret == old(desc[d].freePtr) && H() == Taken(old(H()), d)
    {
      ret := desc[d].freePtr;
      desc := desc[d := desc[d].(freePtr := Word(mem, ret))];
      desc := desc[d := desc[d].(refCnt := desc[d].refCnt + 1)];
      mem := mem[ret := 0];
    }

    /** The first free object of the page of d is handed out. */
    method PopFree(i: nat, d: nat) returns (ret: nat)
      requires Sound() && i < NBUCKETS && d in v.rings[i] && d in desc && desc[d].freePtr != 0
      modifies `mem, `desc, `back, `dir, `cache, `freeDesc, `v
      ensures Sound() && HandedOut(old(v), v, ret, i) && Word(mem, ret) == 0
      ensures FromPage(old(v), v, ret, i) && PageOf(ret) == old(desc[d].page)
      ensures Undisturbed(old(v), old(mem), mem, old(v).live)
    {
      hide Inv, Taken, IsSlot, PageOf, Undisturbed;
      ghost var h, p := H(), desc[d].page;
      TakeFreeKeeps(h, v, d, i);
      TakeFreeUndisturbed(h, v, d, i);
      ret := UnlinkFree(d);
      v := TakenView(v, p, ret);
    }

    /** A descriptor of bucket i with a free object, after a new page if there is
        none. */
    method ObtainDesc(i: nat, page: nat, dpage: nat) returns (d: nat)
      requires Sound() && i < NBUCKETS && page > 0 && page !in v.pages
      requires dpage > 0 && (forall a :: a in Spares(dpage * PAGE_SIZE) ==> a !in desc)
      modifies `mem, `desc, `back, `dir, `cache, `freeDesc, `v
      ensures Sound() && v.live == old(v.live) && v.cached == old(v.cached)
      ensures i < |v.rings| && d in v.rings[i] && d in desc && desc[d].freePtr != 0
      ensures if HasFree(old(v), i) then v == old(v) && mem == old(mem)
        else WithPage(old(v), v, i, page) && desc[d].page == page && Undisturbed(old(v), old(mem), mem, old(v).live)
    {
      hide Inv, Spares, NumDescs, Undisturbed, WholePage;
      RingCount(H(), v);
      ghost var k;
      d, k := FindDesc(i);
      FreeFound(H(), v, i, d, k);
      if d == 0 || desc[d].freePtr == 0 {
        if freeDesc == 0 {
          NoSpare(H(), v);
          BucketInit(dpage);
          SparesApart(dpage * PAGE_SIZE);
        } else {
          SomeSpare(H(), v);
        }
        ghost var v1 := v;
        d := NewPage(i, page);
        SameUndisturbed(v1, old(v), old(mem), mem, v1.live);
      }
    }

    /** kmalloc up to the books of the requests. */
    method TakeObject(len: nat, page: nat, dpage: nat) returns (ret: nat)
      requires Sound() && len <= 65535 && page > 0 && page !in v.pages
      requires dpage > 0 && (forall a :: a in Spares(dpage * PAGE_SIZE) ==> a !in desc)
      modifies `mem, `desc, `back, `dir, `cache, `freeDesc, `v
      ensures Sound() && (ret == 0 <==> len > PAGE_SIZE) && (ret == 0 ==> v == old(v) && mem == old(mem))
      ensures ret != 0 ==>
        && ret !in old(v.live) && v.live == old(v.live) + {ret}
        && PageOf(ret) in v.pages && Fits(v.pages[PageOf(ret)], len) && IsSlot(ret, PageOf(ret), v.pages[PageOf(ret)])
        && Allotted(old(v), v, ret, v.pages[PageOf(ret)], page) && Undisturbed(old(v), old(mem), mem, old(v).live)
        && Word(mem, ret) == 0 && (WasCached(old(v), v, ret) ==> Word(mem, ret + 4) == 0)
    {
      hide Inv, Spares, IsSlot, PageOf, Undisturbed, HasFree, WithPage, FromPage, FromCache, FromNew;
      var i := FindSize(len);
      Tables(H(), v);
      CacheSize(H(), v, if i < NBUCKETS then i else 0);
      if cache[i].listLen > 0 {
        ret := PopCache(i);
        return;
      }
      assert i == NBUCKETS ==> SIZES[NBUCKETS - 1] < len;
      if SIZES[i] == 65535 {
        ret := 0;
        return;
      }
      var d := ObtainDesc(i, page, dpage);
      ghost var v1, m1 := v, mem;
      ret := PopFree(i, d);
      TakenFrom(old(v), v1, v, ret, i, page, old(mem), m1, mem);
    }

    /** kmalloc.  Two pages that the page allocator would supply are given: one
        for objects, and one in case the descriptors have run out. */
    method Alloc(len: nat, page: nat, dpage: nat) returns (ret: nat)
      requires Valid() && len <= 65535 && page > 0 && page !in v.pages
      requires dpage > 0 && (forall a :: a in Spares(dpage * PAGE_SIZE) ==> a !in desc)
      modifies this
      ensures Valid() && (ret == 0 <==> len > PAGE_SIZE)
      ensures ret == 0 ==> v == old(v) && want == old(want) && mem == old(mem)
      ensures ret != 0 ==>
        && ret !in old(v.live) && v.live == old(v.live) + {ret} && want == old(want)[ret := len]
        && PageOf(ret) in v.pages && Fits(v.pages[PageOf(ret)], len) && IsSlot(ret, PageOf(ret), v.pages[PageOf(ret)])
        && Allotted(old(v), v, ret, v.pages[PageOf(ret)], page) && Undisturbed(old(v), old(mem), mem, old(v).live)
        && Word(mem, ret) == 0 && (WasCached(old(v), v, ret) ==> Word(mem, ret + 4) == 0)
    {
      hide Inv, Spares, Undisturbed, HasFree, FromPage, FromCache, FromNew, Held, IsSlot, SizeOf, PageOf, Wanted;
      ghost var v0, want0 := v, want;
      ret := TakeObject(len, page, dpage);
      if ret != 0 {
        want := want[ret := len];
        AllottedHeld(v0, v, ret, v.pages[PageOf(ret)], page);
        WantedMore(v0, v, want0, ret, len, page);
      }
    }

    /** The holder of a live object writes a word of it. */
    method Write(a: nat, w: nat, x: nat)
      requires Valid() && a in v.live && PageOf(a) in v.pages && v.pages[PageOf(a)] < NBUCKETS
      requires a <= w < a + SizeOf(v.pages[PageOf(a)]) && w % 4 == 0
      modifies `mem
      ensures Valid() && mem == old(mem)[w := x]
    {
      hide Inv, Wanted, Held, SizeOf, PageOf;
      WriteKeeps(H(), v, a, w, x);
      mem := mem[w := x];
    }

    // ---- kfree ---------------------------------------------------------------------------------

    /** A released object enters the cache of bucket i at the front. */
    method LinkHead(va: nat, i: nat)
      requires i < |cache|
      modifies this`mem, this`cache
      ensures H() == old(H()).(mem := PushHead(old(mem), old(cache[i]), va).0,
        cache := old(cache)[i := PushHead(old(mem), old(cache[i]), va).1])
    {
      var obj := cache[i].head;
      if obj == 0 {
        mem := mem[va + 4 := va];
        mem := mem[va := va];
      } else {
        mem := mem[va + 4 := obj];
        mem := mem[va := Word(mem, obj)];
        mem := mem[Word(mem, obj) + 4 := va];
        mem := mem[obj := va];
      }
      cache := cache[i := Cache(cache[i].listLen + 1, va)];
    }

    /** The cache for a live object, found through its page's descriptor. */
    method FindCache(va: nat) returns (i: nat)
      requires Sound() && va in v.live
      ensures InUse(v.pages, v.used, va) && i == v.pages[PageOf(va)] && i < NBUCKETS && i < |cache|
    {
      hide Inv, InUse;
      FreeReads(H(), v, va);
      Tables(H(), v);
      var d := back[PageOf(va)];
      i := FindSize(desc[d].objSize);
      SizesGrow(i, v.pages[PageOf(va)]);
    }

    /** kfree up to the books of the requests. */
    method GiveObject(va: nat)
      requires Sound() && va in v.live
      modifies `mem, `cache, `v
      ensures Sound() && FreedLast(old(v), v, va) && Undisturbed(old(v), old(mem), mem, v.live)
    {
      hide Inv, PushHead, Undisturbed;
      var i := FindCache(va);
      GiveCachedKeeps(H(), v, va, i);
      GiveCachedUndisturbed(H(), v, va, i);
      CachedCounted(H(), v);
      LinkHead(va, i);
      v := v.(cached := v.cached[i := [va] + v.cached[i]], live := v.live - {va});
    }

    /** kfree of a live object. */
    method Free(va: nat)
      requires Valid() && va in v.live
      modifies `mem, `cache, `v, `want
      ensures Valid() && FreedLast(old(v), v, va) && want == old(want) - {va}
      ensures v.live == old(v.live) - {va} && Undisturbed(old(v), old(mem), mem, v.live)
    {
      hide Inv, Undisturbed, SizeOf, PageOf;
      GiveObject(va);
      want := want - {va};
    }

    // ---- free_cache -------------------------------------------------------------------------------

    /** The tail of the cache of bucket i is unlinked. */
    method UnlinkTail(i: nat) returns (obj: nat)
      requires i < |cache| && cache[i].listLen > 0
      modifies this`mem, this`cache
      ensures var r := PopTail(old(mem), old(cache[i])); obj == r.0 && mem == r.1 && cache == old(cache)[i := r.2]
    {
      obj := Word(mem, cache[i].head);
      mem := mem[Word(mem, obj) + 4 := cache[i].head];
      mem := mem[cache[i].head := Word(mem, obj)];
      cache := cache[i := Cache(cache[i].listLen - 1, cache[i].head)];
      if cache[i].listLen == 0 {
        cache := cache[i := Cache(0, 0)];
      }
    }

    /** The object is counted out.  Its word gets the address of the first free
        object, and the free list the word of the object, which is the same. */
    method CountOut(d: nat, obj: nat)
      requires d in desc && desc[d].refCnt > 0
      modifies this`mem, this`desc
      ensures mem == old(mem)[obj := old(desc[d].freePtr)]
      ensures desc == old(desc)[d := old(desc[d]).(freePtr := Word(mem, obj), refCnt := old(desc[d].refCnt) - 1)]
    {
      mem := mem[obj := desc[d].freePtr];
      desc := desc[d := desc[d].(freePtr := Word(mem, obj))];
      desc := desc[d := desc[d].(refCnt := desc[d].refCnt - 1)];
    }

    /** The page of d is given back, and d, or its successor, becomes unused. */
    method RemoveDesc(i: nat, d: nat)
      requires DropReads(H(), i, d)
      modifies this`desc, this`back, this`dir, this`freeDesc
      ensures H() == Dropped(old(H()), i, d)
    {
      var freed := d;
      if desc[d].next != d {
        freed := desc[d].next;
        desc := desc[d := desc[freed]];
        if dir[i].chain == freed {
          dir := dir[i := Dir(dir[i].listLen, d)];
        }
        back := back[desc[freed].page := d];
      } else {
        dir := dir[i := Dir(dir[i].listLen, 0)];
      }
      dir := dir[i := Dir(dir[i].listLen - 1, dir[i].chain)];
      desc := desc[freed := desc[freed].(next := freeDesc)];
      freeDesc := freed;
    }

    /** One round of the inner loop of free_cache.  The object goes nowhere: it is
        on no free list afterwards, and its page can be used again as a whole
        only, which happens exactly if no other object of it is in use. */
    method ReleaseOne(i: nat) returns (obj: nat, given: bool)
      requires Sound() && i < NBUCKETS && i < |cache| && cache[i].listLen > 0
      modifies `mem, `desc, `back, `dir, `cache, `freeDesc, `v
      ensures Sound() && v.live == old(v.live) && obj !in v.live && |cache| == |SIZES|
      ensures WentOut(old(v), v, obj, given) && Undisturbed(old(v), old(mem), mem, old(v).live)
      ensures |old(v.cached[i])| > 0 && v.cached == old(v.cached)[i := old(v.cached[i])[..|old(v.cached[i])| - 1]]
      ensures obj == old(v.cached[i])[|old(v.cached[i])| - 1]
      ensures PageOf(obj) in old(v.used)
      ensures (forall q :: q in v.free ==> obj !in v.free[q])
        && (Reusable(v, obj) <==> old(v.used)[PageOf(obj)] == {obj})
    {
      hide Inv, Released, PopTail, ReleasedView, Dropped, RingWithout, Undisturbed;
      ghost var h, w := H(), v;
      ReleaseReady(h, w, i);
      ReleaseUndisturbed(h, w, i);
      obj := UnlinkTail(i);
      var d := back[PageOf(obj)];
      CountOut(d, obj);
      v := ReleasedView(w, i);
      ReleasedIs(h, i);
      given := desc[d].refCnt == 0;
      Tables(H(), v);
      if given { DropPage(i, d); }
    }

    /** The page of d has no object in use: it is given back. */
    method DropPage(i: nat, d: nat)
      requires Sound() && i < NBUCKETS && d in v.rings[i] && d in desc && desc[d].refCnt == 0
      modifies `desc, `back, `dir, `freeDesc, `v
      ensures Sound() && v.live == old(v.live) && v.cached == old(v.cached)
      ensures v.pages == old(v.pages) - {old(desc[d].page)} && v.free == old(v.free) - {old(desc[d].page)}
        && v.used == old(v.used) - {old(desc[d].page)}
    {
      ghost var k: nat :| k < |v.rings[i]| && v.rings[i][k] == d;
      DroppedKeeps(H(), v, i, k);
      hide Inv, Dropped, RingWithout;
      ghost var p := desc[d].page;
      RemoveDesc(i, d);
      v := DroppedView(v, i, k, p);
    }

    /** The inner loop of free_cache, with no threshold. */
    method EmptyCache(i: nat) returns (given: seq<nat>)
      requires Sound() && Held(v) && i < NBUCKETS
      modifies `mem, `desc, `back, `dir, `cache, `freeDesc, `v
      ensures Sound() && Held(v) && v.live == old(v.live) && |old(v.cached)| == NBUCKETS
        && v.cached == old(v.cached)[i := []]
      ensures GivenBack(old(v), v, given) && Undisturbed(old(v), old(mem), mem, v.live)
    {
      hide Inv, GivenBack, Undisturbed, WentOut, Held, PageOf;
      given := [];
      CacheSize(H(), v, i);
      NothingGiven(H(), v);
      NothingDisturbed(v, mem);
      while cache[i].listLen * SIZES[i] > 0
        invariant Sound() && Held(v) && |cache| == |SIZES| && |v.cached| == NBUCKETS && v.live == old(v.live)
          && cache[i].listLen == |v.cached[i]|
        invariant |old(v.cached)| == NBUCKETS && v.cached == old(v.cached)[i := v.cached[i]]
        invariant GivenBack(old(v), v, given) && Undisturbed(old(v), old(mem), mem, v.live)
        decreases |v.cached[i]|
      {
        ghost var h1, v1, m1, g1 := H(), v, mem, given;
        var obj, gone := ReleaseOne(i);
        if gone { given := given + [PageOf(obj)]; }
        assert gone || g1 + [] == given;
        WentOutHeld(v1, v, obj, gone);
        GivenOne(h1, v1, H(), v, obj, gone);
        GivenStep(H(), old(v), v1, v, g1, if gone then [PageOf(obj)] else [], old(mem), m1, mem);
        CacheSize(H(), v, i);
      }
      assert SIZES[i] > 0;
    }

    /** free_cache empties the caches.  Every live object stays live, with its
        size class and its words; the pages that stay are those with a live
        object, and keep their free lists. */
    method FreeCache() returns (given: seq<nat>)
      requires Valid()
      modifies `mem, `desc, `back, `dir, `cache, `freeDesc, `v
      ensures Valid() && v.live == old(v.live) && |v.cached| == NBUCKETS
        && forall i: nat :: i < NBUCKETS ==> v.cached[i] == []
      ensures GivenBack(old(v), v, given) && Undisturbed(old(v), old(mem), mem, v.live)
      ensures HeldForLive(v) && forall p :: p in v.pages ==> p in v.used && v.used[p] == LiveIn(v, p)
    {
      hide Inv, GivenBack, Undisturbed, Held, LiveIn, HeldForLive;
      var i := 0;
      given := [];
      ghost var h0 := H();
      CacheSize(H(), v, 0);
      NothingGiven(H(), v);
      NothingDisturbed(v, mem);
      while SIZES[i] != 65535
        invariant i <= NBUCKETS && Sound() && Held(v) && |v.cached| == NBUCKETS && v.live == old(v.live)
        invariant forall j: nat :: j < i ==> v.cached[j] == []
        invariant GivenBack(old(v), v, given) && Undisturbed(old(v), old(mem), mem, v.live)
        decreases NBUCKETS - i
      {
        CacheSize(H(), v, i);
        if cache[i].listLen * SIZES[i] > 0 {
          ghost var v1, m1 := v, mem;
          var more := EmptyCache(i);
          GivenStep(H(), old(v), v1, v, given, more, old(mem), m1, mem);
          given := given + more;
        } else {
          assert SIZES[i] > 0;
        }
        i := i + 1;
      }
      OnlyLive(H(), v);
      WantedStill(h0, old(v), H(), v, given, want);
    }
  }

  /** A freed object is the next one to be handed out for requests of its size,
      and everything is as before. */
  method FreeThenAlloc(k: Kmalloc, va: nat, len: nat, page: nat, dpage: nat) returns (ret: nat)
    requires k.Valid() && va in k.v.live && PageOf(va) in k.v.pages && Fits(k.v.pages[PageOf(va)], len)
    requires page > 0 && page !in k.v.pages
    requires dpage > 0 && (forall a :: a in Spares(dpage * PAGE_SIZE) ==> a !in k.desc)
    modifies k
    ensures k.Valid() && ret == va && k.v == old(k.v) && k.want == old(k.want)[va := len]
    ensures Word(k.mem, va) == 0 && Word(k.mem, va + 4) == 0
  {
    hide Inv, Spares, NumDescs, Fits, IsSlot, Wanted, PageOf, Held, Undisturbed, Allotted;
    ghost var v0, i := k.v, k.v.pages[PageOf(va)];
    FitsAtMost(i, len);
    CachedCount(k.H(), k.v);
    k.Free(va);
    ghost var v1 := k.v;
    ret := k.Alloc(len, page, dpage);
    OneFit(i, k.v.pages[PageOf(ret)], len);
    BackAgain(v0, v1, k.v, va, ret, page);
  }

  lemma BackAgain(v0: View, v1: View, v2: View, va: nat, a: nat, page: nat)
    requires FreedLast(v0, v1, va) && va in v0.live && Allotted(v1, v2, a, v0.pages[PageOf(va)], page)
    ensures a == va && v2 == v0
  {
    var i := v0.pages[PageOf(va)];
    hide PageOf, FromPage, FromNew, HasFree;
    assert v0.live - {va} + {va} == v0.live;
    assert ([va] + v0.cached[i])[1..] == v0.cached[i];
    assert v0.cached[i := [va] + v0.cached[i]][i := v0.cached[i]] == v0.cached;
  }

  /** kmalloc without a cached object. */
  lemma TakenFrom(v0: View, v1: View, v2: View, a: nat, i: nat, page: nat, m0: map<nat, nat>, m1: map<nat, nat>,
                  m2: map<nat, nat>)
    requires i < |v0.cached| && v0.cached[i] == [] && page !in v0.pages && FromPage(v1, v2, a, i)
    requires Undisturbed(v1, m1, m2, v1.live)
    requires if HasFree(v0, i) then v1 == v0 && m1 == m0
      else WithPage(v0, v1, i, page) && PageOf(a) == page && Undisturbed(v0, m0, m1, v0.live)
    ensures Allotted(v0, v2, a, i, page) && Undisturbed(v0, m0, m2, v0.live)
  {
    hide Undisturbed, HasFree, PageOf, FromPage, FromNew, WholePage;
    if !HasFree(v0, i) {
      FirstOfNew(v0, v1, v2, a, i, page);
      UndisturbedTwice(v0, v1, m0, m1, m2, v0.live);
    }
  }

  lemma NothingDisturbed(v: View, mem: map<nat, nat>)
    ensures Undisturbed(v, mem, mem, v.live)
  {
  }

  lemma GivenStep(h2: Heap, v0: View, v1: View, v2: View, g1: seq<nat>, g2: seq<nat>, m0: map<nat, nat>,
                  m1: map<nat, nat>, m2: map<nat, nat>)
    requires GivenBack(v0, v1, g1) && GivenBack(v1, v2, g2) && Inv(h2, v2) && v2.live == v1.live == v0.live
    requires Undisturbed(v0, m0, m1, v0.live) && Undisturbed(v1, m1, m2, v1.live)
    ensures GivenBack(v0, v2, g1 + g2) && Undisturbed(v0, m0, m2, v0.live)
  {
    GivenMore(v0, v1, v2, g1, g2);
    forall a | a in v0.live && PageOf(a) in v0.pages ensures SameClass(v0, v1, PageOf(a)) {
      LiveFacts(v2, a);
      assert Alike(v0, v1, PageOf(a));
    }
    hide Inv, GivenBack, Undisturbed, PageOf;
    UndisturbedTwice(v0, v1, m0, m1, m2, v0.live);
  }

  /** The pages that stay keep their classes, so the objects stay large enough. */
  lemma WantedStill(h: Heap, v: View, h': Heap, v': View, given: seq<nat>, want: map<nat, nat>)
    requires Inv(h, v) && Inv(h', v') && Wanted(v, want) && v'.live == v.live && GivenBack(v, v', given)
    ensures Wanted(v', want)
  {
    forall a | a in v'.live ensures LargeEnough(v', a, want[a]) {
      LiveFacts(v', a);
      assert LargeEnough(v, a, want[a]) && Alike(v, v', PageOf(a));
    }
  }

  lemma WantedMore(v: View, v': View, want: map<nat, nat>, a: nat, len: nat, page: nat)
    requires Wanted(v, want) && PageOf(a) in v'.pages && page !in v.pages && v'.live == v.live + {a}
    requires Allotted(v, v', a, v'.pages[PageOf(a)], page) && Fits(v'.pages[PageOf(a)], len)
    ensures Wanted(v', want[a := len])
  {
    hide SizeOf, PageOf, HasFree, WholePage;
    forall b | b in v'.live ensures LargeEnough(v', b, want[a := len][b]) {
      if b != a { assert LargeEnough(v, b, want[b]); }
    }
  }

  lemma CachedCount(h: Heap, v: View)
    requires Inv(h, v)
    ensures |v.cached| == NBUCKETS
  {
  }

  lemma FitsAtMost(i: nat, len: nat)
    requires Fits(i, len)
    ensures len <= PAGE_SIZE
  {
    SizeRange(i);
  }

  lemma OneFit(i: nat, j: nat, len: nat)
    requires Fits(i, len) && Fits(j, len)
    ensures i == j
  {
  }

  ghost predicate Chained(desc: map<nat, Desc>, a: nat, n: nat) {
    forall k: nat {:trigger SpareLink(desc, Slots(a, 16, n), k)} ::
      k < |Slots(a, 16, n)| ==> SpareLink(desc, Slots(a, 16, n), k)
  }

  ghost predicate Extends(desc: map<nat, Desc>, desc': map<nat, Desc>) {
    forall d :: d in desc ==> d in desc' && desc'[d] == desc[d]
  }

  /** How many descriptors of 16 bytes fill a page. */
  function NumDescs(): (n: nat)
    ensures n >= 1
  {
    PAGE_SIZE / 16
  }

  /** The addresses of the descriptors of a page that starts at base. */
  function Spares(base: nat): seq<nat> {
    Slots(base, 16, NumDescs())
  }

  lemma {:induction false} SlotAt(a: nat, n: nat, k: nat)
    requires k < n
    ensures |Slots(a, 16, n)| == n && Slots(a, 16, n)[k] == a + 16 * k
    decreases n
  {
    if n > 1 { SlotAt(a + 16, n - 1, if k > 0 then k - 1 else 0); }
  }

  lemma StillExtends(desc0: map<nat, Desc>, desc: map<nat, Desc>, base: nat, n: nat, e: Desc)
    requires Extends(desc0, desc) && 1 <= n < NumDescs() && forall a :: a in Spares(base) ==> a !in desc0
    ensures Extends(desc0, desc[base + (NumDescs() - 1 - n) * 16 := e])
  {
    hide NumDescs, Slots;
    var k: nat := NumDescs() - 1 - n;
    SlotAt(base, NumDescs(), k);
    assert Spares(base)[k] in Spares(base);
    assert base + k * 16 == base + 16 * k;
  }

  lemma OneSlot(a: nat)
    ensures Slots(a, 16, 1) == [a]
  {
    assert Slots(a + 16, 16, 0) == [];
  }

  lemma FirstSpare(desc: map<nat, Desc>, base: nat)
    requires base > 0 && forall a :: a in Spares(base) ==> a !in desc
    ensures var d := base + (NumDescs() - 1) * 16; var desc' := desc[d := Desc(0, 0, 0, 0, 0)];
      Chained(desc', d, 1) && Extends(desc, desc')
  {
    hide NumDescs, Slots;
    var n := NumDescs();
    SlotAt(base, n, n - 1);
    assert Spares(base)[n - 1] in Spares(base);
    OneSlot(base + (n - 1) * 16);
  }

  /** One more descriptor in front of the list. */
  lemma OneMoreSpare(desc: map<nat, Desc>, d: nat, n: nat)
    requires Chained(desc, d, n) && 1 <= n && d > 16
    ensures Chained(desc[d - 16 := Desc(0, d, 0, 0, 0)], d - 16, n + 1)
  {
    var s, t := Slots(d, 16, n), Slots(d - 16, 16, n + 1);
    assert t == [d - 16] + s;
    SlotAt(d, n, 0);
    var desc' := desc[d - 16 := Desc(0, d, 0, 0, 0)];
    forall k: nat | k < |t| ensures SpareLink(desc', t, k) {
      if k > 0 {
        assert SpareLink(desc, s, k - 1);
        SlotAt(d, n, k - 1);
      }
    }
  }

  lemma SparesKeep(h: Heap, v: View, desc: map<nat, Desc>, base: nat)
    requires Inv(h, v) && v.spare == [] && base > 0 && Chained(desc, base, NumDescs()) && Extends(h.desc, desc)
    requires forall a :: a in Spares(base) ==> a !in h.desc
    ensures Inv(h.(desc := desc, freeDesc := base), v.(spare := Spares(base)))
  {
    hide NumDescs, Caches, Owned, SizeOf, FreeChain, NoDup;
    SparesApart(base);
    SpareBacked(h, v, desc, base);
    forall i: nat | i < NBUCKETS ensures Ring(desc, h.dir[i], v.rings[i]) {
      assert Ring(h.desc, h.dir[i], v.rings[i]);
      forall k: nat | k < |v.rings[i]| ensures RingLink(desc, v.rings[i], k) { assert RingLink(h.desc, v.rings[i], k); }
    }
    forall p | p in v.pages ensures PageOk(h.mem, desc, h.back, v.rings, p, v.pages[p], v.free[p], v.used[p]) {
      assert PageOk(h.mem, h.desc, h.back, v.rings, p, v.pages[p], v.free[p], v.used[p]);
    }
    hide PageOk, Ring, Slots;
  }

  lemma SparesApart(base: nat)
    ensures |Spares(base)| == NumDescs() && NoDup(Spares(base)) && Spares(base)[0] == base
  {
    hide NumDescs;
    var s, n := Spares(base), NumDescs();
    SlotAt(base, n, 0);
    forall i, j | 0 <= i < j < |s| ensures s[i] != s[j] { SlotAt(base, n, i); SlotAt(base, n, j); }
  }

  /** The descriptors fill the page. */
  lemma SparesFill(dpage: nat)
    ensures forall a :: a in Spares(dpage * PAGE_SIZE) <==> a % 16 == 0 && PageOf(a) == dpage
  {
    hide Slots, PageOf, Spares, NumDescs;
    forall a | a in Spares(dpage * PAGE_SIZE) ensures a % 16 == 0 && PageOf(a) == dpage { SpareInPage(dpage, a); }
    forall a | a % 16 == 0 && PageOf(a) == dpage ensures a in Spares(dpage * PAGE_SIZE) { InPageSpare(dpage, a); }
  }

  lemma SpareInPage(dpage: nat, a: nat)
    requires a in Spares(dpage * PAGE_SIZE)
    ensures a % 16 == 0 && PageOf(a) == dpage
  {
    hide Slots, PageOf;
    var base, n := dpage * PAGE_SIZE, NumDescs();
    SlotAt(base, n, 0);
    var k: nat :| k < |Spares(base)| && Spares(base)[k] == a;
    SlotAt(base, n, k);
    InPage(dpage, k);
  }

  lemma InPage(dpage: nat, k: nat)
    requires k < 256
    ensures (dpage * PAGE_SIZE + 16 * k) % 16 == 0 && PageOf(dpage * PAGE_SIZE + 16 * k) == dpage
  {
    assert dpage * PAGE_SIZE + 16 * k == 16 * (256 * dpage + k);
    var r := 16 * k;
    assert 0 <= r < PAGE_SIZE;
  }

  lemma InPageSpare(dpage: nat, a: nat)
    requires a % 16 == 0 && PageOf(a) == dpage
    ensures a in Spares(dpage * PAGE_SIZE)
  {
    hide Slots;
    InSlots(dpage * PAGE_SIZE, 16, NumDescs(), a);
  }

  lemma SpareBacked(h: Heap, v: View, desc: map<nat, Desc>, base: nat)
    requires Inv(h, v) && Extends(h.desc, desc) && forall a :: a in Spares(base) ==> a !in h.desc
    ensures forall i: nat, d: nat {:trigger d in v.rings[i]} ::
      i < NBUCKETS && d in v.rings[i] ==> Backed(desc, h.back, v.pages, d, i) && d !in Spares(base)
  {
    hide Slots, Spares;
    forall i: nat, d: nat | i < NBUCKETS && d in v.rings[i]
      ensures Backed(desc, h.back, v.pages, d, i) && d !in Spares(base) {
      assert Backed(h.desc, h.back, v.pages, d, i);
    }
  }

  /** i is the bucket for requests of len bytes: the least that is large enough. */
  predicate Fits(i: nat, len: nat) {
    i < NBUCKETS && SizeOf(i) >= len && forall j: nat :: j < i ==> SizeOf(j) < len
  }

  /** The directories, and the end mark of the caches, which stays empty. */
  lemma Tables(h: Heap, v: View)
    requires Inv(h, v)
    ensures |h.cache| == |SIZES| && |h.dir| == NBUCKETS && h.cache[NBUCKETS].listLen == 0
  {
  }

  lemma NoSpare(h: Heap, v: View)
    requires Inv(h, v) && h.freeDesc == 0
    ensures v.spare == []
  {
    assert v.spare != [] ==> SpareLink(h.desc, v.spare, 0);
  }

  lemma SomeSpare(h: Heap, v: View)
    requires Inv(h, v) && h.freeDesc != 0
    ensures v.spare != []
  {
  }

  lemma GrownMem(h: Heap, i: nat, page: nat)
    requires GrowReads(h, i)
    ensures i < |Grown(h, i, page).dir|
    ensures Grown(h, i, page).mem == Thread(h.mem, page * PAGE_SIZE, SizeOf(i), PAGE_SIZE / SizeOf(i))
  {
  }

  /** The descriptor with the new page is the head of its ring. */
  lemma NewHead(h: Heap, v: View, i: nat, page: nat)
    requires Inv(h, v) && v.spare != [] && page > 0 && GrowReads(h, i)
    ensures var d := Grown(h, i, page).dir[i].chain;
      && d in GrownView(v, i, page).rings[i] && d in Grown(h, i, page).desc && Grown(h, i, page).desc[d].freePtr != 0
      && Grown(h, i, page).desc[d].page == page
  {
    SpareFacts(h, v, i);
    RingWithMembers(v.rings[i], v.spare[0]);
    hide Inv, RingWith, Thread;
  }

  /** What kfree finds from the address of a live object. */
  lemma FreeReads(h: Heap, v: View, a: nat)
    requires Inv(h, v) && a in v.live
    ensures var p := PageOf(a);
      && p in v.pages && InUse(v.pages, v.used, a) && v.pages[p] < NBUCKETS && p in h.back && h.back[p] in h.desc
      && h.desc[h.back[p]].objSize == SizeOf(v.pages[p])
  {
    LiveFacts(v, a);
    var p := PageOf(a);
    assert PageOk(h.mem, h.desc, h.back, v.rings, p, v.pages[p], v.free[p], v.used[p]);
    RingFacts(h, v, h.back[p], v.pages[p]);
  }

  /** The table is strictly increasing. */
  lemma SizesGrow(i: nat, j: nat)
    requires i < |SIZES| && j < NBUCKETS && SIZES[i] >= SIZES[j] && forall k: nat :: k < i ==> SIZES[k] < SIZES[j]
    ensures i == j && SIZES[j] <= 65535
  {
    if i < j { Increasing(i, j); }
  }

  lemma {:induction false} Increasing(i: nat, j: nat)
    requires i < j < |SIZES|
    ensures SIZES[i] < SIZES[j]
    decreases j
  {
    assert SIZES[j - 1] < SIZES[j];
    if i < j - 1 { Increasing(i, j - 1); }
  }

  lemma LastOne(s: set<nat>, x: nat)
    requires x in s
    ensures |s| == 1 <==> s == {x}
    ensures |s - {x}| == |s| - 1
  {
    if |s| == 1 { assert |s - {x}| == 0; }
  }

  /** d, at k of the ring, is its first descriptor with a free object, or its last
      one if none has. */
  ghost predicate FirstFree(desc: map<nat, Desc>, ring: seq<nat>, d: nat, k: nat) {
    && k < |ring| && ring[k] == d && d in desc
    && (forall j: nat :: j < k ==> ring[j] in desc && desc[ring[j]].freePtr == 0)
    && (desc[d].freePtr == 0 ==> k == |ring| - 1)
  }

  lemma FreeFound(h: Heap, v: View, i: nat, d: nat, k: nat)
    requires Inv(h, v) && i < NBUCKETS && (d == 0 <==> v.rings[i] == [])
      && (d != 0 ==> FirstFree(h.desc, v.rings[i], d, k))
    ensures d != 0 ==> d in v.rings[i] && d in h.desc
    ensures d != 0 && h.desc[d].freePtr != 0 <==> HasFree(v, i)
  {
    hide Inv;
    if d != 0 { RingFacts(h, v, d, i); }
    forall p | p in v.pages && v.pages[p] == i && p in v.free && v.free[p] != []
      ensures d != 0 && h.desc[d].freePtr != 0
    {
      PageDesc(h, v, p);
    }
  }

  lemma PageDesc(h: Heap, v: View, p: nat)
    requires Inv(h, v) && p in v.pages && p in v.free
    ensures v.pages[p] < NBUCKETS && p in h.back && h.back[p] in v.rings[v.pages[p]] && h.back[p] in h.desc
    ensures h.desc[h.back[p]].freePtr == 0 <==> v.free[p] == []
  {
    assert PageOk(h.mem, h.desc, h.back, v.rings, p, v.pages[p], v.free[p], v.used[p]);
  }

  /** The cache of the bucket of the object a was not empty. */
  ghost predicate WasCached(v: View, v': View, a: nat) {
    && PageOf(a) in v'.pages && v'.pages[PageOf(a)] < |v.cached| && v.cached[v'.pages[PageOf(a)]] != []
  }

  /** What kmalloc says of an object it takes for bucket i. */
  ghost predicate HandedOut(v: View, v': View, a: nat, i: nat) {
    && a != 0 && a !in v.live && v'.live == v.live + {a} && v'.pages == v.pages
    && PageOf(a) in v'.pages && v'.pages[PageOf(a)] == i && IsSlot(a, PageOf(a), i)
  }

  lemma HeadFacts(h: Heap, v: View, i: nat)
    requires Inv(h, v) && i < NBUCKETS && i < |v.cached| && v.cached[i] != []
    ensures var a := v.cached[i][0];
      a != 0 && IsSlot(a, PageOf(a), i) && PageOf(a) in v.pages && v.pages[PageOf(a)] == i
    ensures i < |h.cache| && Word(PopHead(h.mem, h.cache[i]).0, h.cache[i].head) == 0
      && Word(PopHead(h.mem, h.cache[i]).0, h.cache[i].head + 4) == 0
  {
    CachedFacts(v, i, v.cached[i][0]);
  }

  lemma SizeRange(i: nat)
    requires i < NBUCKETS
    ensures 8 <= SizeOf(i) <= PAGE_SIZE
  {
    assert SIZES[i] in [8, 16, 32, 64, 128, 256, 512, 1024, 2048, 4096];
  }

  /** What free_cache relies on when the cache of bucket i is not empty. */
  lemma ReleaseReady(h: Heap, v: View, i: nat)
    requires Inv(h, v) && i < NBUCKETS && i < |h.cache| && h.cache[i].listLen > 0
    ensures |h.cache| == |SIZES| && |v.cached| == NBUCKETS && v.cached[i] != []
    ensures var a := v.cached[i][|v.cached[i]| - 1]; var p := PageOf(a);
      && PopTail(h.mem, h.cache[i]).0 == a && a !in v.live
      && p in v.used && p in v.pages && p in h.back && h.back[p] in h.desc && h.desc[h.back[p]].refCnt > 0
      && (h.desc[h.back[p]].refCnt == 1 <==> v.used[p] == {a}) && h.back[p] in v.rings[i] && h.desc[h.back[p]].page == p
      && (forall q :: q in v.free ==> a !in v.free[q])
    ensures Inv(Released(h, i), ReleasedView(v, i))
    ensures var v' := ReleasedView(v, i);
      && v'.live == v.live && v'.pages == v.pages && v'.free == v.free && v'.rings == v.rings
      && v'.cached == v.cached[i := v.cached[i][..|v.cached[i]| - 1]]
    ensures var a := v.cached[i][|v.cached[i]| - 1]; var p := PageOf(a);
      a in v.used[p] && ReleasedView(v, i).used == v.used[p := v.used[p] - {a}]
  {
    CacheSize(h, v, i);
    ReleaseKeeps(h, v, i);
    TailFacts(h, v, i);
    NeverRejoins(v, i);
    var a := v.cached[i][|v.cached[i]| - 1];
    LastOne(v.used[PageOf(a)], a);
    hide Inv, Released, PopTail;
  }

  /** The state after the two steps of a release. */
  lemma ReleasedIs(h: Heap, i: nat)
    requires i < |h.cache| && PageOf(PopTail(h.mem, h.cache[i]).0) in h.back
    requires h.back[PageOf(PopTail(h.mem, h.cache[i]).0)] in h.desc
      && h.desc[h.back[PageOf(PopTail(h.mem, h.cache[i]).0)]].refCnt > 0
    ensures var (obj, m, c) := PopTail(h.mem, h.cache[i]); var d := h.back[PageOf(obj)];
      Released(h, i) == h.(mem := m[obj := h.desc[d].freePtr], cache := h.cache[i := c],
        desc := h.desc[d := h.desc[d].(freePtr := h.desc[d].freePtr, refCnt := h.desc[d].refCnt - 1)])
  {
  }

  /** A released object was to go to the head of the free list of its page, and
      is on no free list at all. */
  lemma NeverRejoins(v: View, i: nat)
    requires Owned(v.pages, v.free, v.used, v.live, v.cached) && i < NBUCKETS && v.cached[i] != []
    ensures var a := v.cached[i][|v.cached[i]| - 1];
      PageOf(a) in v.used && ReleasedView(v, i).free == v.free && forall q :: q in v.free ==> a !in v.free[q]
  {
    CachedFacts(v, i, v.cached[i][|v.cached[i]| - 1]);
  }

  /** a can be handed out again, alone or with its page: its page has been given
      back, or it is on the free list of its page. */
  ghost predicate Reusable(v: View, a: nat) {
    PageOf(a) !in v.pages || (PageOf(a) in v.free && a in v.free[PageOf(a)])
  }

  // ---- a released object that is lost -------------------------------------------------

  /** Page 1 with two objects of 2048 bytes: 4096 is live, 6144 is cached. */
  function HalfCached(): Heap {
    Heap(map[6144 := 6144, 6148 := 6144], map[16 := Desc(1, 16, 0, 2, 2048)], map[1 := 16],
         seq(NBUCKETS, i => if i == 8 then Dir(1, 16) else Dir(0, 0)),
         seq(|SIZES|, i => if i == 8 then Cache(1, 6144) else Cache(0, 0)), 0)
  }

  function HalfCachedView(): View {
    View(map[1 := 8], map[1 := []], map[1 := {4096, 6144}], {4096},
         seq(NBUCKETS, i => if i == 8 then [16] else []), [], seq(NBUCKETS, i => if i == 8 then [6144] else []))
  }

  /** Once free_cache has released it, the object 6144 is neither live nor cached
      nor free, and its page is still held: kmalloc never hands it out again as
      long as 4096 is live. */
  lemma LostObject()
    ensures Inv(HalfCached(), HalfCachedView()) && HalfCachedView().cached[8] == [6144]
    ensures PageOf(6144) in HalfCachedView().used
    ensures var v := ReleasedView(HalfCachedView(), 8);
      && v.pages == map[1 := 8] && v.live == {4096} && v.cached[8] == [] && !Reusable(v, 6144)
  {
    HalfCachedRings();
    HalfCachedObjects();
    assert HalfCachedView().cached[8] == [6144] && PageOf(6144) == 1;
  }

  lemma HalfCachedRings()
    ensures var h, v := HalfCached(), HalfCachedView();
      && Caches(h.mem, h.cache, v.cached) && Ringed(h.desc, h.back, h.dir, v.pages, v.rings)
      && Spared(h.desc, h.freeDesc, v.spare, v.rings)
  {
    var h, v := HalfCached(), HalfCachedView();
    assert CacheLink(h.mem, [6144], 0) && RingLink(h.desc, [16], 0);
    assert Backed(h.desc, h.back, v.pages, 16, 8);
  }

  lemma HalfCachedObjects()
    ensures var h, v := HalfCached(), HalfCachedView();
      Pages(h.mem, h.desc, h.back, v.pages, v.free, v.used, v.rings) && Owned(v.pages, v.free, v.used, v.live, v.cached)
  {
    var h, v := HalfCached(), HalfCachedView();
    assert |{4096, 6144}| == 2;
    assert PageOk(h.mem, h.desc, h.back, v.rings, 1, 8, [], {4096, 6144});
    assert PageOwns(8, [], {4096, 6144}, 1, v.live, v.cached);
    assert InUse(v.pages, v.used, 4096) && InUse(v.pages, v.used, 6144);
  }

  /** Every live object is as large as was asked for. */
  ghost predicate Wanted(v: View, want: map<nat, nat>) {
    want.Keys == v.live && forall a :: a in v.live ==> LargeEnough(v, a, want[a])
  }

  predicate LargeEnough(v: View, a: nat, len: nat) {
    PageOf(a) in v.pages && v.pages[PageOf(a)] < NBUCKETS && len <= SizeOf(v.pages[PageOf(a)])
  }

  /** The stretches that the requests were for never overlap, and each lies in
      one page. */
  lemma RequestsDisjoint(h: Heap, v: View, want: map<nat, nat>, a: nat, b: nat)
    requires Inv(h, v) && Wanted(v, want) && a in v.live && b in v.live && a != b
    ensures a + want[a] <= b || b + want[b] <= a
    ensures PageOf(a) * PAGE_SIZE <= a && a + want[a] <= (PageOf(a) + 1) * PAGE_SIZE
  {
    Disjoint(h, v, a, b);
    assert LargeEnough(v, a, want[a]) && LargeEnough(v, b, want[b]);
    hide Inv;
  }
}
