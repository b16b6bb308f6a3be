/** list.h: circular doubly linked lists threaded through their nodes, seen as
    sequences whose first element is the head. */
module Rings {
  import opened Seqs

  class ListNode {
    var prev: ListNode
    var next: ListNode

    /** list_node_init. */
    constructor ()
      ensures Ring([this])
    {
      prev, next := this, this;
    }
  }

  function After(i: nat, n: nat): nat { if i + 1 >= n then 0 else i + 1 }
  function Before(i: nat, n: nat): nat { if i == 0 then (if n == 0 then 0 else n - 1) else i - 1 }

  ghost predicate Linked(s: seq<ListNode>, i: nat)
    requires i < |s|
    reads s
  {
    s[i].next == s[After(i, |s|)] && s[i].prev == s[Before(i, |s|)]
  }

  /** The nodes of s, linked in this order and back to the first. */
  ghost predicate Ring(s: seq<ListNode>)
    reads s
  {
    |s| > 0 && NoDup(s) && forall i: nat {:trigger Linked(s, i)} :: i < |s| ==> Linked(s, i)
  }

  /** __list_add between the neighbours at k and after k. */
  method LinkBetween(nd: ListNode, prev: ListNode, next: ListNode, ghost s: seq<ListNode>, ghost k: nat)
    requires Ring(s) && k < |s| && s[k] == prev && s[After(k, |s|)] == next && nd !in s
    modifies nd, prev, next
    ensures Ring(s[..k + 1] + [nd] + s[k + 1..])
  {
    prev.next := nd;
    next.prev := nd;
    nd.prev := prev;
    nd.next := next;
    ghost var t, n := s[..k + 1] + [nd] + s[k + 1..], |s|;
    InsertNoDup(s, k, nd);
    forall i: nat | i < |t| ensures Linked(t, i) {
      InsertIndex(s, k, nd, i);
      InsertIndex(s, k, nd, After(i, |t|));
      InsertIndex(s, k, nd, Before(i, |t|));
      if i != k + 1 {
        assert old(Linked(s, if i <= k then i else i - 1));
      }
    }
  }

  lemma InsertIndex(s: seq<ListNode>, k: nat, nd: ListNode, i: nat)
    requires k < |s| && i <= |s|
    ensures (s[..k + 1] + [nd] + s[k + 1..])[i] == if i <= k then s[i] else if i == k + 1 then nd else s[i - 1]
  {
  }

  lemma InsertNoDup(s: seq<ListNode>, k: nat, nd: ListNode)
    requires NoDup(s) && k < |s| && nd !in s
    ensures NoDup(s[..k + 1] + [nd] + s[k + 1..])
  {
    var t := s[..k + 1] + [nd] + s[k + 1..];
    forall i, j | 0 <= i < j < |t| ensures t[i] != t[j] {
      assert i != k + 1 ==> t[i] == s[if i <= k then i else i - 1];
      assert j != k + 1 ==> t[j] == s[if j <= k then j else j - 1];
    }
  }

  /** list_add: behind pos. */
  method Add(nd: ListNode, pos: ListNode, ghost s: seq<ListNode>)
    requires Ring(s) && s[0] == pos && nd !in s
    modifies nd, s
    ensures Ring([pos, nd] + s[1..])
  {
    assert s[..0 + 1] + [nd] + s[0 + 1..] == [pos, nd] + s[1..];
    assert Linked(s, 0);
    LinkBetween(nd, pos, pos.next, s, 0);
  }

  /** list_add_tail: at the end of the list headed by pos. */
  method AddTail(nd: ListNode, pos: ListNode, ghost s: seq<ListNode>)
    requires Ring(s) && s[0] == pos && nd !in s
    modifies nd, s
    ensures Ring(s + [nd])
  {
    ghost var k := |s| - 1;
    assert s[..k + 1] + [nd] + s[k + 1..] == s + [nd];
    assert Linked(s, 0) && s[After(k, |s|)] == s[0];
    LinkBetween(nd, pos.prev, pos, s, k);
  }

  /** list_del: the neighbours of nd are linked to each other; nd's own links
      stay as they were. */
  method Del(nd: ListNode, ghost s: seq<ListNode>, ghost k: nat)
    requires Ring(s) && 0 < k < |s| && s[k] == nd
    modifies s
    ensures Ring(s[..k] + s[k + 1..])
    ensures nd.next == old(nd.next) && nd.prev == old(nd.prev)
  {
    assert Linked(s, k);
    var prev, next := nd.prev, nd.next;
    prev.next := next;
    next.prev := prev;
    ghost var t, n := s[..k] + s[k + 1..], |s|;
    RemoveNoDup(s, k);
    forall i: nat | i < |t| ensures Linked(t, i) {
      var j := if i < k then i else i + 1;
      assert old(Linked(s, j));
      assert t[i] == s[j];
    }
  }

  lemma RemoveNoDup(s: seq<ListNode>, k: nat)
    requires NoDup(s) && k < |s|
    ensures NoDup(s[..k] + s[k + 1..])
  {
    var t := s[..k] + s[k + 1..];
    forall i, j | 0 <= i < j < |t| ensures t[i] != t[j] {
      assert t[i] == s[if i < k then i else i + 1] && t[j] == s[if j < k then j else j + 1];
    }
  }

  /** The list without the node at k of its items. */
  lemma Removed(head: ListNode, items: seq<ListNode>, k: nat)
    requires Ring([head] + items) && k < |items|
    ensures var s, r := [head] + items, items[..k] + items[k + 1..];
      s[..k + 1] + s[k + 2..] == [head] + r && Without(items, items[k]) == r
  {
    Tail(head, items);
    WithoutAt(items, k);
    hide Ring, NoDup, Without;
  }

  lemma Tail(x: ListNode, s: seq<ListNode>)
    requires NoDup([x] + s)
    ensures NoDup(s) && x !in s
  {
    assert forall i :: 0 <= i < |s| ==> s[i] == ([x] + s)[i + 1];
    assert ([x] + s)[0] == x;
  }

  /** list_is_empty and list_first on the list headed by s[0]. */
  lemma Reads(s: seq<ListNode>)
    requires Ring(s)
    ensures s[0] == s[0].next <==> |s| == 1
    ensures |s| > 1 ==> s[0].next == s[1] && s[0].prev == s[|s| - 1]
  {
    assert Linked(s, 0);
  }

  ghost predicate Inside(s: seq<ListNode>, S: set<ListNode>) {
    forall x :: x in s ==> x in S
  }

  ghost predicate Disjoint(s: seq<ListNode>, u: seq<ListNode>) {
    forall x :: x in s ==> x !in u
  }

  // ---- traversals that move nodes to other lists ------------------------------------

  /** The lists headed by the keys of ls have no node in common. */
  ghost predicate Separate(ls: map<ListNode, seq<ListNode>>) {
    forall t, u :: t in ls && u in ls && t != u ==> Disjoint([t] + ls[t], [u] + ls[u])
  }

  ghost predicate ApartFrom(s: seq<ListNode>, ls: map<ListNode, seq<ListNode>>) {
    forall t :: t in ls ==> Disjoint(s, [t] + ls[t])
  }

  ghost predicate AllRings(ls: map<ListNode, seq<ListNode>>)
    reads Members(ls)
  {
    forall t :: t in ls ==> (assert forall x :: x in [t] + ls[t] ==> x in Members(ls); Ring([t] + ls[t]))
  }

  ghost function Members(ls: map<ListNode, seq<ListNode>>): set<ListNode> {
    set t, x | t in ls && x in [t] + ls[t] :: x
  }

  /** The nodes of s that go to the list headed by t, or those that stay if t is
      null, in order. */
  function Sent(s: seq<ListNode>, to: ListNode -> ListNode?, t: ListNode?): seq<ListNode> {
    if s == [] then [] else (if to(s[0]) == t then [s[0]] else []) + Sent(s[1..], to, t)
  }

  lemma {:induction false} SentSnoc(s: seq<ListNode>, x: ListNode, to: ListNode -> ListNode?, t: ListNode?)
    ensures Sent(s + [x], to, t) == Sent(s, to, t) + (if to(x) == t then [x] else [])
    decreases |s|
  {
    var u := s + [x];
    if s == [] {
      assert u[1..] == [] && Sent(u[1..], to, t) == [];
    } else {
      assert u[0] == s[0] && u[1..] == s[1..] + [x];
      SentSnoc(s[1..], x, to, t);
    }
  }

  /** One move: list_del, the link saved in the copy, list_add_tail.  The nodes
      before p are a, those behind it r. */
  method MoveOne(p: ListNode, to: ListNode, ghost a: seq<ListNode>, ghost r: seq<ListNode>, ghost b: seq<ListNode>)
    returns (next: ListNode)
    requires a != [] && b != [] && b[0] == to && Ring(a + [p] + r) && Ring(b) && Disjoint(a + [p] + r, b)
    modifies a + [p] + r, b
    ensures Ring(a + r) && Ring(b + [p])
    ensures next == if r == [] then a[0] else r[0]
  {
    ghost var c := a + [p] + r;
    assert c[|a|] == p && c[..|a|] + c[|a| + 1..] == a + r;
    SuccessorOf(c, |a|);
    Apart(a, p, r);
    assert forall x :: x in a + r ==> x in c;
    assert forall x :: x in b ==> x !in c;
    Del(p, c, |a|);
    next := p.next;
    forall i: nat | i < |b| ensures Linked(b, i) {
      assert old(Linked(b, i)) && b[i] in b;
    }
    label L:
    assert forall x :: x in a + r ==> x !in b && x != p;
    AddTail(p, to, b);
    forall i: nat | i < |a + r| ensures Linked(a + r, i) {
      assert old@L(Linked(a + r, i)) && (a + r)[i] in a + r;
    }
  }

  /** The lists once p has gone to the one headed by t. */
  ghost function WithNode(ls: map<ListNode, seq<ListNode>>, t: ListNode, p: ListNode): map<ListNode, seq<ListNode>>
    requires t in ls
  {
    ls[t := ls[t] + [p]]
  }

  lemma StillSeparate(ls: map<ListNode, seq<ListNode>>, t: ListNode, p: ListNode, c: seq<ListNode>, r: seq<ListNode>)
    requires Separate(ls) && t in ls && ApartFrom(c, ls) && p in c && p !in r && forall x :: x in r ==> x in c
    ensures Separate(WithNode(ls, t, p)) && ApartFrom(r, WithNode(ls, t, p))
  {
    var ls' := WithNode(ls, t, p);
    assert [t] + ls'[t] == [t] + ls[t] + [p];
    forall u, w | u in ls' && w in ls' && u != w ensures Disjoint([u] + ls'[u], [w] + ls'[w]) {
      assert Disjoint([u] + ls[u], [w] + ls[w]) && Disjoint(c, [u] + ls[u]) && Disjoint(c, [w] + ls[w]);
    }
    forall u | u in ls' ensures Disjoint(r, [u] + ls'[u]) { assert Disjoint(c, [u] + ls[u]); }
  }

  /** The same move among many lists. */
  method MoveTo(p: ListNode, to: ListNode, ghost a: seq<ListNode>, ghost r: seq<ListNode>,
                ghost ls: map<ListNode, seq<ListNode>>,
                ghost S: set<ListNode>)
    returns (next: ListNode)
    requires a != [] && to in ls && Ring(a + [p] + r) && AllRings(ls) && Separate(ls) && ApartFrom(a + [p] + r, ls)
    requires Inside(a + [p] + r, S) && Inside([to] + ls[to], S)
    modifies S
    ensures Ring(a + r) && AllRings(WithNode(ls, to, p)) && Separate(WithNode(ls, to, p))
      && ApartFrom(a + r, WithNode(ls, to, p))
    ensures next == if r == [] then a[0] else r[0]
  {
    ghost var b := [to] + ls[to];
    Apart(a, p, r);
    StillSeparate(ls, to, p, a + [p] + r, a + r);
    next := MoveOne(p, to, a, r, b);
    assert b + [p] == [to] + WithNode(ls, to, p)[to];
    forall u | u in ls && u != to ensures Ring([u] + ls[u]) {
      ghost var c := [u] + ls[u];
      assert old(Ring(c)) && Disjoint(a + [p] + r, c) && Disjoint(b, c);
      forall i: nat | i < |c| ensures Linked(c, i) { assert old(Linked(c, i)) && c[i] in c; }
    }
  }

  /** The lists once the nodes done have gone where they go. */
  ghost function Delivered(ls: map<ListNode, seq<ListNode>>, done: seq<ListNode>,
                           to: ListNode -> ListNode?): map<ListNode, seq<ListNode>> {
    map t | t in ls :: ls[t] + Sent(done, to, t)
  }

  lemma DeliveredNone(ls: map<ListNode, seq<ListNode>>, to: ListNode -> ListNode?)
    ensures Delivered(ls, [], to) == ls
  {
    assert forall t :: t in ls ==> ls[t] + Sent([], to, t) == ls[t];
  }

  lemma DeliveredSnoc(ls: map<ListNode, seq<ListNode>>, done: seq<ListNode>, to: ListNode -> ListNode?, p: ListNode)
    ensures to(p) == null ==> Delivered(ls, done + [p], to) == Delivered(ls, done, to)
    ensures to(p) in ls ==> Delivered(ls, done + [p], to) == WithNode(Delivered(ls, done, to), to(p), p)
  {
    var m0, m1 := Delivered(ls, done, to), Delivered(ls, done + [p], to);
    forall t | t in ls ensures m1[t] == if to(p) == t then m0[t] + [p] else m0[t] {
      SentSnoc(done, p, to, t);
      hide Sent;
      assert ls[t] + (Sent(done, to, t) + [p]) == m0[t] + [p] && Sent(done, to, t) + [] == Sent(done, to, t);
    }
    hide Sent;
  }

  lemma ProgressNone(ls: map<ListNode, seq<ListNode>>, head: ListNode, to: ListNode -> ListNode?)
    ensures Progress(ls, head, [], to, [head], ls)
  {
    DeliveredNone(ls, to);
  }

  lemma ProgressIs(ls: map<ListNode, seq<ListNode>>, head: ListNode, done: seq<ListNode>, to: ListNode -> ListNode?,
                   a: seq<ListNode>, now: map<ListNode, seq<ListNode>>)
    requires Progress(ls, head, done, to, a, now)
    ensures a == [head] + Sent(done, to, null) && now == Delivered(ls, done, to)
  {
  }

  lemma HeadApart(head: ListNode, s: seq<ListNode>)
    requires Ring([head] + s)
    ensures head !in s
  {
    forall i | 0 <= i < |s| ensures s[i] != head { assert ([head] + s)[0] != ([head] + s)[i + 1]; }
  }

  /** After the nodes done, those that stay are a, and now holds the lists. */
  ghost predicate Progress(ls: map<ListNode, seq<ListNode>>, head: ListNode, done: seq<ListNode>,
                           to: ListNode -> ListNode?,
                           a: seq<ListNode>, now: map<ListNode, seq<ListNode>>) {
    a == [head] + Sent(done, to, null) && now == Delivered(ls, done, to)
  }

  lemma ProgressStep(ls: map<ListNode, seq<ListNode>>, head: ListNode, done: seq<ListNode>, to: ListNode -> ListNode?,
                     a: seq<ListNode>, now: map<ListNode, seq<ListNode>>, p: ListNode)
    requires Progress(ls, head, done, to, a, now)
    ensures now.Keys == ls.Keys
    ensures to(p) == null ==> Progress(ls, head, done + [p], to, a + [p], now)
    ensures to(p) in ls ==> Progress(ls, head, done + [p], to, a, WithNode(now, to(p), p))
  {
    hide Sent, Delivered;
    SentSnoc(done, p, to, null);
    DeliveredSnoc(ls, done, to, p);
    assert now.Keys == ls.Keys by { DeliveredKeys(ls, done, to); }
    assert [head] + Sent(done, to, null) + [p] == [head] + (Sent(done, to, null) + [p]);
  }

  lemma DeliveredKeys(ls: map<ListNode, seq<ListNode>>, done: seq<ListNode>, to: ListNode -> ListNode?)
    ensures Delivered(ls, done, to).Keys == ls.Keys
  {
  }

  lemma InMembers(ls: map<ListNode, seq<ListNode>>, t: ListNode)
    requires t in ls
    ensures forall x :: x in [t] + ls[t] ==> x in Members(ls)
  {
  }

  lemma MoreMembers(ls: map<ListNode, seq<ListNode>>, t: ListNode, p: ListNode, S: set<ListNode>)
    requires t in ls && Members(ls) <= S && p in S
    ensures Members(WithNode(ls, t, p)) <= S
  {
    var ls' := WithNode(ls, t, p);
    forall u, x | u in ls' && x in [u] + ls'[u] ensures x in S {
      if x != p { assert x in [u] + ls[u] && x in Members(ls); }
    }
  }

  /** The traversal of task_exit and of sched_tick: nodes are moved to the ends
      of other lists on the way.  The link to go on with is saved in a copy of
      the node, after it has left its list and before it enters the other one.
      Here to(x) is the head of the list that x goes to, or null if x stays. */
  method MovePicked(head: ListNode, to: ListNode -> ListNode?, ghost s: seq<ListNode>,
                    ghost ls: map<ListNode, seq<ListNode>>)
    requires Ring([head] + s) && AllRings(ls) && Separate(ls) && ApartFrom([head] + s, ls)
    requires forall x :: x in s && to(x) != null ==> to(x) in ls
    modifies [head] + s, Members(ls)
    ensures Ring([head] + Sent(s, to, null))
    ensures AllRings(Delivered(ls, s, to))
  {
    hide Sent, Delivered, Progress, Ring, AllRings, Separate, ApartFrom, WithNode;
    ghost var a, r, done := [head], s, [];
    ghost var now: map<ListNode, seq<ListNode>> := ls;
    ghost var S := Members(ls) + set x | x in [head] + s;
    assert [] + [head] + s == [head] + s;
    HeadApart(head, s);
    FirstOf([head] + s);
    ProgressNone(ls, head, to);
    var p := head.next;
    while p != head
      invariant done + r == s && head !in r && Progress(ls, head, done, to, a, now)
      invariant a != [] && a[0] == head
      invariant Ring(a + r) && AllRings(now) && Separate(now) && ApartFrom(a + r, now)
      invariant Inside(a + r, S) && Members(now) <= S
      invariant p == if r == [] then head else r[0]
      decreases |r|
    {
      ghost var q := r[1..];
      assert r == [p] + q && a + r == a + [p] + q;
      ProgressStep(ls, head, done, to, a, now, p);
      assert p in s;
      if to(p) != null {
        var t: ListNode := to(p);
        InMembers(now, t);
        assert Inside(a + [p] + q, S) && Inside([t] + now[t], S);
        p := MoveTo(p, t, a, q, now, S);
        MoreMembers(now, t, r[0], S);
        now := WithNode(now, t, r[0]);
      } else {
        SuccessorOf(a + r, |a|);
        a := a + [p];
        p := p.next;
      }
      done := done + [r[0]];
      r := q;
    }
    assert r == [] && done == s && a + r == a;
    ProgressIs(ls, head, done, to, a, now);
  }

  /** The lists once the nodes of the one headed by head have been moved. */
  ghost function AfterMoves(ls: map<ListNode, seq<ListNode>>, head: ListNode, to: ListNode -> ListNode?)
    : map<ListNode, seq<ListNode>>
    requires head in ls
  {
    Delivered(ls - {head}, ls[head], to)[head := Sent(ls[head], to, null)]
  }

  /** The traversal of one of many lists. */
  method MoveAmong(head: ListNode, to: ListNode -> ListNode?, ghost ls: map<ListNode, seq<ListNode>>)
    requires head in ls && AllRings(ls) && Separate(ls)
    requires forall x :: x in ls[head] && to(x) != null ==> to(x) in ls && to(x) != head
    modifies Members(ls)
    ensures AllRings(AfterMoves(ls, head, to))
  {
    ghost var others := ls - {head};
    assert ApartFrom([head] + ls[head], others);
    InMembers(ls, head);
    forall t, x | t in others && x in [t] + others[t] ensures x in Members(ls) { InMembers(ls, t); }
    assert Members(others) <= Members(ls);
    hide Sent, Delivered, Ring;
    MovePicked(head, to, ls[head], others);
  }

  /** The traversal of task_exit: all nodes go to the end of one other list, in
      their order. */
  method MoveWhole(head: ListNode, other: ListNode, ghost ls: map<ListNode, seq<ListNode>>)
    requires head in ls && other in ls && head != other && AllRings(ls) && Separate(ls)
    modifies Members(ls)
    ensures AllRings(ls[head := []][other := ls[other] + ls[head]])
  {
    var to: ListNode -> ListNode? := _ => other;
    WholeSent(head, other, to, ls);
    hide Sent, AfterMoves;
    MoveAmong(head, to, ls);
  }

  lemma WholeSent(head: ListNode, other: ListNode, to: ListNode -> ListNode?, ls: map<ListNode, seq<ListNode>>)
    requires head in ls && other in ls && head != other && forall x :: to(x) == other
    ensures AfterMoves(ls, head, to) == ls[head := []][other := ls[other] + ls[head]]
  {
    var m0, m1 := AfterMoves(ls, head, to), ls[head := []][other := ls[other] + ls[head]];
    assert m0.Keys == m1.Keys;
    forall t | t in m0 ensures m0[t] == m1[t] {
      AllSent(ls[head], other, to, t);
      AllSent(ls[head], other, to, null);
      assert t in ls ==> ls[t] + [] == ls[t];
      hide Sent;
    }
  }

  lemma {:induction false} AllSent(s: seq<ListNode>, other: ListNode, to: ListNode -> ListNode?, t: ListNode?)
    requires forall x :: to(x) == other
    ensures Sent(s, to, t) == if t == other then s else []
  {
    if s != [] {
      AllSent(s[1..], other, to, t);
      assert s == [s[0]] + s[1..];
    }
  }

  /** A node leaves its list ... */
  method Leave(p: ListNode, ghost head: ListNode, ghost ls: map<ListNode, seq<ListNode>>)
    requires head in ls && p in ls[head] && AllRings(ls) && Separate(ls)
    modifies Members(ls)
    ensures AllRings(ls[head := Without(ls[head], p)])
  {
    ghost var s := [head] + ls[head];
    ghost var k: nat :| k < |ls[head]| && ls[head][k] == p;
    Removed(head, ls[head], k);
    InMembers(ls, head);
    Del(p, s, k + 1);
    forall u | u in ls && u != head ensures Ring([u] + ls[u]) {
      ghost var c := [u] + ls[u];
      assert old(Ring(c)) && Disjoint(s, c);
      forall i: nat | i < |c| ensures Linked(c, i) { assert old(Linked(c, i)) && c[i] in c; }
    }
  }

  /** ... and enters one, at the end. */
  method Enter(p: ListNode, to: ListNode, ghost ls: map<ListNode, seq<ListNode>>)
    requires to in ls && p !in Members(ls) && AllRings(ls) && Separate(ls)
    modifies Members(ls), p
    ensures AllRings(WithNode(ls, to, p))
  {
    ghost var s := [to] + ls[to];
    InMembers(ls, to);
    AddTail(p, to, s);
    assert s + [p] == [to] + WithNode(ls, to, p)[to];
    forall u | u in ls && u != to ensures Ring([u] + ls[u]) {
      ghost var c := [u] + ls[u];
      InMembers(ls, u);
      assert old(Ring(c)) && Disjoint(s, c) && p !in c;
      forall i: nat | i < |c| ensures Linked(c, i) { assert old(Linked(c, i)) && c[i] in c; }
    }
  }

  lemma Apart(a: seq<ListNode>, x: ListNode, b: seq<ListNode>)
    requires NoDup(a + [x] + b)
    ensures x !in a + b
  {
    var s := a + [x] + b;
    forall i | 0 <= i < |a + b| ensures (a + b)[i] != x {
      assert s[|a|] == x && s[if i < |a| then i else i + 1] == (a + b)[i];
    }
  }

  lemma FirstOf(s: seq<ListNode>)
    requires Ring(s)
    ensures s[0].next == if |s| > 1 then s[1] else s[0]
  {
    assert Linked(s, 0);
  }

  lemma SuccessorOf(s: seq<ListNode>, k: nat)
    requires Ring(s) && k < |s|
    ensures s[k].next == if k + 1 < |s| then s[k + 1] else s[0]
  {
    assert Linked(s, k);
  }
}
