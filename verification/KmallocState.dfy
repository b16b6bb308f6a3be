/** What the bucket allocator keeps in memory, as values: free lists and caches
    threaded through the objects, rings of descriptors, back pointers. */
module KmallocState {
  import opened Seqs

  const NBUCKETS: nat := 10
  const PAGE_SIZE: nat := 4096

  /** obj_size of bucket_dir and of cache_dir, with the end mark. */
  const SIZES: seq<nat> := [8, 16, 32, 64, 128, 256, 512, 1024, 2048, 4096, 65535]

  /** bucket_desc; addresses are numbers, NULL is 0, pages are counted. */
  datatype Desc = Desc(page: nat, next: nat, freePtr: nat, refCnt: nat, objSize: nat)
  datatype Dir = Dir(listLen: nat, chain: nat)
  datatype Cache = Cache(listLen: nat, head: nat)

  function PageOf(a: nat): nat { a / PAGE_SIZE }

  function SizeOf(i: nat): (s: nat)
    requires i < |SIZES|
    ensures s >= 8
  {
    SIZES[i]
  }

  // ---- multiples of an object size ----------------------------------------------------

  /** The sizes divide the page, and eight divides them. */
  lemma Divides(i: nat)
    requires i < NBUCKETS
    ensures var s := SizeOf(i); s >= 8 && s % 8 == 0 && PAGE_SIZE / s > 0 && s * (PAGE_SIZE / s) == PAGE_SIZE
  {
    assert SIZES[i] in [8, 16, 32, 64, 128, 256, 512, 1024, 2048, 4096];
  }

  lemma MulLe(s: nat, a: nat, b: nat)
    requires a <= b
    ensures s * a <= s * b
  {
  }

  /** A multiple of s below another one is below it by s at least. */
  lemma Grid(a: nat, r: nat, s: nat)
    requires s > 0 && a % s == 0 && a < s * r
    ensures a + s <= s * r
  {
    var q := a / s;
    assert a == s * q;
    if r <= q { MulLe(s, r, q); } else { MulLe(s, q + 1, r); }
  }

  lemma Regroup(m: nat, s: nat, k: nat)
    ensures m * (s * k) == s * (m * k)
  {
  }

  lemma MulMod(s: nat, n: nat)
    requires s > 0
    ensures (s * n) % s == 0
  {
    var q, r := (s * n) / s, (s * n) % s;
    assert s * n == s * q + r;
    if n > q { MulLe(s, q + 1, n); }
    if n < q { MulLe(s, n + 1, q); }
  }

  lemma NextMultiple(a: nat, s: nat)
    requires s > 0 && a % s == 0
    ensures (a + s) % s == 0
  {
    var q := a / s;
    assert a == s * q && s * (q + 1) == s * q + s;
    MulMod(s, q + 1);
  }

  // ---- memory words ---------------------------------------------------------------

  function Word(mem: map<nat, nat>, a: nat): nat {
    if a in mem then mem[a] else 0
  }

  /** Of all objects, only those in X have other words in mem' than in mem. */
  ghost predicate SameBut(mem: map<nat, nat>, mem': map<nat, nat>, X: set<nat>) {
    forall a: nat {:trigger SameAt(mem, mem', a)} :: a % 8 == 0 && a !in X ==> SameAt(mem, mem', a)
  }

  ghost predicate SameAt(mem: map<nat, nat>, mem': map<nat, nat>, a: nat) {
    Word(mem', a) == Word(mem, a) && Word(mem', a + 4) == Word(mem, a + 4)
  }

  lemma SetWord(mem: map<nat, nat>, a: nat, w: nat, X: set<nat>)
    requires a % 8 == 0 && a in X
    ensures SameBut(mem, mem[a := w], X) && SameBut(mem, mem[a + 4 := w], X)
  {
    forall b: nat | b % 8 == 0 && b !in X ensures SameAt(mem, mem[a := w], b) && SameAt(mem, mem[a + 4 := w], b) {}
  }

  lemma SameTrans(m0: map<nat, nat>, m1: map<nat, nat>, m2: map<nat, nat>, X: set<nat>, Y: set<nat>)
    requires SameBut(m0, m1, X) && SameBut(m1, m2, Y)
    ensures SameBut(m0, m2, X + Y)
  {
    forall b: nat | b % 8 == 0 && b !in X + Y ensures SameAt(m0, m2, b) {
      assert SameAt(m0, m1, b) && SameAt(m1, m2, b);
    }
  }

  /** Addresses of objects: not NULL, and on a boundary of eight bytes. */
  ghost predicate AllObjects(s: seq<nat>) {
    forall k :: 0 <= k < |s| ==> s[k] > 0 && s[k] % 8 == 0
  }

  // ---- a free list -------------------------------------------------------------------

  ghost predicate FreeLink(mem: map<nat, nat>, fs: seq<nat>, k: nat)
    requires k < |fs|
  {
    Word(mem, fs[k]) == if k + 1 < |fs| then fs[k + 1] else 0
  }

  /** The objects fs are linked from ptr on through their first words. */
  ghost predicate FreeChain(mem: map<nat, nat>, ptr: nat, fs: seq<nat>) {
    && ptr == (if fs == [] then 0 else fs[0])
    && AllObjects(fs)
    && forall k: nat {:trigger FreeLink(mem, fs, k)} :: k < |fs| ==> FreeLink(mem, fs, k)
  }

  lemma FreeChainKeeps(mem: map<nat, nat>, mem': map<nat, nat>, X: set<nat>, ptr: nat, fs: seq<nat>)
    requires FreeChain(mem, ptr, fs) && SameBut(mem, mem', X) && forall a :: a in fs ==> a !in X
    ensures FreeChain(mem', ptr, fs)
  {
    forall k: nat | k < |fs| ensures FreeLink(mem', fs, k) {
      assert FreeLink(mem, fs, k) && fs[k] in fs && SameAt(mem, mem', fs[k]);
    }
  }

  /** The first object is taken off. */
  lemma FreeChainTail(mem: map<nat, nat>, ptr: nat, fs: seq<nat>)
    requires FreeChain(mem, ptr, fs) && fs != []
    ensures FreeChain(mem, Word(mem, ptr), fs[1..])
  {
    assert FreeLink(mem, fs, 0) && fs == [fs[0]] + fs[1..];
    forall k: nat | k < |fs| - 1 ensures FreeLink(mem, fs[1..], k) { assert FreeLink(mem, fs, k + 1); }
  }

  // ---- a cache ----------------------------------------------------------------------------

  function Succ(k: nat, n: nat): nat { if k + 1 >= n then 0 else k + 1 }
  function Pred(k: nat, n: nat): nat { if k == 0 then (if n == 0 then 0 else n - 1) else k - 1 }

  ghost predicate CacheLink(mem: map<nat, nat>, s: seq<nat>, k: nat)
    requires k < |s|
  {
    Word(mem, s[k]) == s[Pred(k, |s|)] && Word(mem, s[k] + 4) == s[Succ(k, |s|)]
  }

  /** The objects s are linked both ways, in a ring, from the head of c. */
  ghost predicate CacheRing(mem: map<nat, nat>, c: Cache, s: seq<nat>) {
    && c.listLen == |s| && c.head == (if s == [] then 0 else s[0]) && NoDup(s)
    && AllObjects(s)
    && forall k: nat {:trigger CacheLink(mem, s, k)} :: k < |s| ==> CacheLink(mem, s, k)
  }

  lemma CacheRingKeeps(mem: map<nat, nat>, mem': map<nat, nat>, X: set<nat>, c: Cache, s: seq<nat>)
    requires CacheRing(mem, c, s) && SameBut(mem, mem', X) && forall a :: a in s ==> a !in X
    ensures CacheRing(mem', c, s)
  {
    forall k: nat | k < |s| ensures CacheLink(mem', s, k) {
      assert CacheLink(mem, s, k) && s[k] in s && SameAt(mem, mem', s[k]);
    }
  }

  /** kmalloc takes the head off the ring and clears its two words. */
  function PopHead(mem: map<nat, nat>, c: Cache): (map<nat, nat>, Cache) {
    var ret := c.head;
    if c.listLen == 1 then (mem[ret := 0][ret + 4 := 0], Cache(0, 0))
    else
      var m1 := mem[Word(mem, ret) + 4 := Word(mem, ret + 4)];
      var m2 := m1[Word(m1, ret + 4) := Word(m1, ret)];
      (m2[ret := 0][ret + 4 := 0], Cache(if c.listLen == 0 then 0 else c.listLen - 1, Word(m2, ret + 4)))
  }

  lemma Eights(s: seq<nat>, i: nat, j: nat)
    requires NoDup(s) && AllObjects(s) && i < |s| && j < |s| && i != j
    ensures s[i] != s[j] && s[i] + 4 != s[j] && s[i] != s[j] + 4
  {
    assert if i < j then s[i] != s[j] else s[j] != s[i];
  }

  /** The objects of a ring, for SameBut. */
  ghost function Objects(s: seq<nat>): set<nat> {
    set a | a in s
  }

  lemma PopHeadSame(mem: map<nat, nat>, c: Cache, s: seq<nat>)
    requires CacheRing(mem, c, s) && s != []
    ensures SameBut(mem, PopHead(mem, c).0, Objects(s))
  {
    var m := PopHead(mem, c).0;
    assert CacheLink(mem, s, 0) && s[0] in s && s[|s| - 1] in s && (|s| > 1 ==> s[1] in s);
    assert AllObjects(s);
    if |s| > 1 { Eights(s, 0, |s| - 1); }
    forall b: nat | b % 8 == 0 && b !in Objects(s) ensures SameAt(mem, m, b) {}
  }

  lemma PopHeadLink(mem: map<nat, nat>, c: Cache, s: seq<nat>, k: nat)
    requires CacheRing(mem, c, s) && k < |s| - 1
    ensures CacheLink(PopHead(mem, c).0, s[1..], k)
  {
    hide NoDup;
    var n := |s|;
    assert CacheLink(mem, s, 0) && CacheLink(mem, s, k + 1);
    Eights(s, 0, 1);
    Eights(s, 0, n - 1);
    Eights(s, 0, k + 1);
    if k + 1 != 1 { Eights(s, 1, k + 1); }
    if k + 1 != n - 1 { Eights(s, n - 1, k + 1); }
  }

  lemma PopHeadRing(mem: map<nat, nat>, c: Cache, s: seq<nat>)
    requires CacheRing(mem, c, s) && s != []
    ensures CacheRing(PopHead(mem, c).0, PopHead(mem, c).1, s[1..]) && SameBut(mem, PopHead(mem, c).0, Objects(s))
  {
    PopHeadSame(mem, c, s);
    forall k: nat | k < |s| - 1 ensures CacheLink(PopHead(mem, c).0, s[1..], k) { PopHeadLink(mem, c, s, k); }
    PopHeadFields(mem, c, s);
    hide PopHead, CacheLink;
  }

  lemma PopHeadFields(mem: map<nat, nat>, c: Cache, s: seq<nat>)
    requires CacheRing(mem, c, s) && s != []
    ensures var d := PopHead(mem, c).1; d.listLen == |s| - 1 && d.head == if |s| > 1 then s[1] else 0
  {
    assert CacheLink(mem, s, 0);
    if |s| > 1 { Eights(s, 0, 1); Eights(s, 0, |s| - 1); }
  }

  /** kfree puts an object in front of the ring. */
  function PushHead(mem: map<nat, nat>, c: Cache, va: nat): (map<nat, nat>, Cache) {
    var obj := c.head;
    (if obj == 0 then mem[va + 4 := va][va := va]
     else
       var m1 := mem[va + 4 := obj];
       var m2 := m1[va := Word(m1, obj)];
       var m3 := m2[Word(m2, obj) + 4 := va];
       m3[obj := va],
     Cache(c.listLen + 1, va))
  }

  lemma PushHeadSame(mem: map<nat, nat>, c: Cache, s: seq<nat>, va: nat)
    requires CacheRing(mem, c, s) && va > 0 && va % 8 == 0 && va !in s
    ensures SameBut(mem, PushHead(mem, c, va).0, Objects([va] + s))
  {
    var m, t := PushHead(mem, c, va).0, [va] + s;
    if s != [] { assert CacheLink(mem, s, 0) && s[0] in s && s[|s| - 1] in s; }
    assert AllObjects(s) && va in t && (s != [] ==> s[0] in t && s[|s| - 1] in t);
    forall b: nat | b % 8 == 0 && b !in Objects(t) ensures SameAt(mem, m, b) {}
  }

  lemma PushHeadLink(mem: map<nat, nat>, c: Cache, s: seq<nat>, va: nat, k: nat)
    requires CacheRing(mem, c, s) && va > 0 && va % 8 == 0 && NoDup([va] + s) && k <= |s|
    ensures CacheLink(PushHead(mem, c, va).0, [va] + s, k)
  {
    hide NoDup;
    var n, t := |s|, [va] + s;
    if n > 0 {
      assert CacheLink(mem, s, 0) && t[1] == s[0] && t[n] == s[n - 1] && AllObjects(t);
      Eights(t, 0, 1);
      Eights(t, 0, n);
      if k > 0 {
        assert CacheLink(mem, s, k - 1) && t[k] == s[k - 1];
        Eights(t, 0, k);
        if k != 1 { Eights(t, 1, k); }
        if k != n { Eights(t, n, k); }
      }
    }
  }

  lemma PushHeadRing(mem: map<nat, nat>, c: Cache, s: seq<nat>, va: nat)
    requires CacheRing(mem, c, s) && va > 0 && va % 8 == 0 && va !in s
    ensures CacheRing(PushHead(mem, c, va).0, PushHead(mem, c, va).1, [va] + s)
    ensures SameBut(mem, PushHead(mem, c, va).0, Objects([va] + s))
  {
    PushHeadSame(mem, c, s, va);
    assert NoDup([va] + s);
    forall k: nat | k <= |s| ensures CacheLink(PushHead(mem, c, va).0, [va] + s, k) { PushHeadLink(mem, c, s, va, k); }
    hide CacheLink;
  }

  /** free_cache takes the tail off the ring. */
  function PopTail(mem: map<nat, nat>, c: Cache): (nat, map<nat, nat>, Cache) {
    var obj := Word(mem, c.head);
    var m1 := mem[Word(mem, obj) + 4 := c.head];
    var m2 := m1[c.head := Word(m1, obj)];
    (obj, m2, Cache(if c.listLen == 0 then 0 else c.listLen - 1, if c.listLen <= 1 then 0 else c.head))
  }

  lemma PopTailRing(mem: map<nat, nat>, c: Cache, s: seq<nat>)
    requires CacheRing(mem, c, s) && s != []
    ensures var r := PopTail(mem, c);
      r.0 == s[|s| - 1] && CacheRing(r.1, r.2, s[..|s| - 1]) && SameBut(mem, r.1, Objects(s))
  {
    PopTailSame(mem, c, s);
    var m, t := PopTail(mem, c).1, s[..|s| - 1];
    forall k: nat | k < |t| ensures CacheLink(m, t, k) { PopTailLink(mem, c, s, k); }
    hide CacheLink, PopTail, SameBut;
  }

  lemma PopTailSame(mem: map<nat, nat>, c: Cache, s: seq<nat>)
    requires CacheRing(mem, c, s) && s != []
    ensures var r, n := PopTail(mem, c), |s|;
      && r.0 == s[n - 1] && SameBut(mem, r.1, Objects(s))
      && r.2 == Cache(n - 1, if n == 1 then 0 else s[0])
  {
    var n := |s|;
    var r := PopTail(mem, c);
    assert CacheLink(mem, s, 0) && CacheLink(mem, s, n - 1);
    assert s[0] in s && s[n - 1] in s && (n > 1 ==> s[n - 2] in s);
    assert AllObjects(s);
    if n > 1 { Eights(s, 0, n - 1); }
    hide NoDup;
    forall b: nat | b % 8 == 0 && b !in Objects(s) ensures SameAt(mem, r.1, b) {}
  }

  lemma PopTailLink(mem: map<nat, nat>, c: Cache, s: seq<nat>, k: nat)
    requires CacheRing(mem, c, s) && k < |s| - 1
    ensures CacheLink(PopTail(mem, c).1, s[..|s| - 1], k)
  {
    hide NoDup;
    var n := |s|;
    assert CacheLink(mem, s, 0) && CacheLink(mem, s, n - 1) && CacheLink(mem, s, k);
    Eights(s, 0, n - 1);
    Eights(s, n - 2, n - 1);
    if k != 0 { Eights(s, 0, k); }
    if k != n - 2 { Eights(s, n - 2, k); }
  }
}
