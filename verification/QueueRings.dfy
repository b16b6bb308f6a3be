/** The queues of the scheduler on rings: every task has one list node for the
    queue it is in, every queue has a head, and each change of the queues that
    the steps make is carried out by unlinking and linking nodes. */
module QueueRings {
  import opened Seqs
  import opened RoundRobin
  import opened Rings
  import opened Tasks
  import opened Steps

  /** queue_node of each task, the heads of the queues, and container_of. */
  datatype Layout = Layout(node: Task -> ListNode, head: Place -> ListNode, owner: ListNode -> Task)

  function Nodes(L: Layout, s: seq<Task>): (r: seq<ListNode>)
    ensures |r| == |s| && forall i :: 0 <= i < |s| ==> r[i] == L.node(s[i])
  {
    if s == [] then [] else [L.node(s[0])] + Nodes(L, s[1..])
  }

  /** The places of all queues. */
  ghost function AllPlaces(q: Queues): set<Place> {
    {AtSleep, AtZombie} + (set k: nat | k < |q.ready| :: AtReady(k)) + (set s | s in q.sems :: AtSem(s))
  }

  /** Different tasks have different nodes, different queues different heads, and
      no node is a head. */
  ghost predicate Distinct(L: Layout, place: map<Task, Place>, q: Queues) {
    && (forall t :: t in place ==> L.owner(L.node(t)) == t)
    && HeadsApart(L, q)
    && (forall t, p :: t in place && p in AllPlaces(q) ==> L.node(t) != L.head(p))
  }

  ghost function Heads(L: Layout, q: Queues): set<ListNode> {
    set p | p in AllPlaces(q) :: L.head(p)
  }

  ghost function HeadedBy(L: Layout, q: Queues, h: ListNode): (p: Place)
    requires h in Heads(L, q)
    ensures p in AllPlaces(q) && L.head(p) == h
  {
    var p :| p in AllPlaces(q) && L.head(p) == h;
    p
  }

  /** The queues by their heads. */
  ghost function Lists(L: Layout, q: Queues): map<ListNode, seq<ListNode>> {
    map h | h in Heads(L, q) :: Nodes(L, Content(q, HeadedBy(L, q, h)))
  }

  ghost predicate HeadsApart(L: Layout, q: Queues) {
    forall p, r :: p in AllPlaces(q) && r in AllPlaces(q) && p != r ==> L.head(p) != L.head(r)
  }

  ghost function Content(q: Queues, p: Place): seq<Task> {
    if Known(q, p) then At(q, p) else []
  }

  lemma PlacesAreKnown(q: Queues, p: Place)
    ensures p in AllPlaces(q) <==> Known(q, p)
  {
  }

  lemma ListsAt(L: Layout, q: Queues, p: Place)
    requires HeadsApart(L, q) && Known(q, p)
    ensures L.head(p) in Lists(L, q) && Lists(L, q)[L.head(p)] == Nodes(L, At(q, p))
  {
    PlacesAreKnown(q, p);
    assert L.head(p) in Heads(L, q);
  }

  lemma ListsKey(L: Layout, q: Queues, h: ListNode) returns (p: Place)
    requires HeadsApart(L, q) && h in Lists(L, q)
    ensures Known(q, p) && L.head(p) == h && Lists(L, q)[h] == Nodes(L, At(q, p))
  {
    p := HeadedBy(L, q, h);
    PlacesAreKnown(q, p);
    ListsAt(L, q, p);
  }

  /** m has, for each head, the nodes of its queue. */
  lemma ListsAre(L: Layout, q: Queues, m: map<ListNode, seq<ListNode>>)
    requires HeadsApart(L, q) && m.Keys == Heads(L, q)
    requires forall p :: p in AllPlaces(q) ==> L.head(p) in m && m[L.head(p)] == Nodes(L, Content(q, p))
    ensures Lists(L, q) == m
  {
    hide AllPlaces, Content, Nodes;
  }

  lemma NodesHave(L: Layout, s: seq<Task>, x: ListNode)
    ensures x in Nodes(L, s) <==> exists t :: t in s && L.node(t) == x
  {
    if x in Nodes(L, s) {
      var i :| 0 <= i < |s| && Nodes(L, s)[i] == x;
      assert s[i] in s;
    }
    if t :| t in s && L.node(t) == x {
      var i :| 0 <= i < |s| && s[i] == t;
      assert Nodes(L, s)[i] == x;
    }
  }

  /** No node is in two queues, since no task is. */
  lemma QueuesSeparate(L: Layout, place: map<Task, Place>, q: Queues)
    requires Consistent(place, q) && Distinct(L, place, q)
    ensures HeadsApart(L, q) && Separate(Lists(L, q))
  {
    var ls := Lists(L, q);
    forall h, g | h in ls && g in ls && h != g ensures Rings.Disjoint([h] + ls[h], [g] + ls[g]) {
      var p := ListsKey(L, q, h);
      var r := ListsKey(L, q, g);
      QueuesApart(L, place, q, p, r);
    }
  }

  lemma QueuesApart(L: Layout, place: map<Task, Place>, q: Queues, p: Place, r: Place)
    requires Consistent(place, q) && Distinct(L, place, q) && Known(q, p) && Known(q, r) && p != r
    ensures Rings.Disjoint([L.head(p)] + Nodes(L, At(q, p)), [L.head(r)] + Nodes(L, At(q, r)))
  {
    assert Holds(place, q, p) && Holds(place, q, r);
    PlacesAreKnown(q, p);
    PlacesAreKnown(q, r);
    forall x | x in [L.head(p)] + Nodes(L, At(q, p)) ensures x !in [L.head(r)] + Nodes(L, At(q, r)) {
      NodesHave(L, At(q, p), x);
      NodesHave(L, At(q, r), x);
    }
  }

  // ---- a task leaves or enters a queue ---------------------------------------------------

  lemma {:induction false} NodesWithout(L: Layout, s: seq<Task>, t: Task)
    requires forall u :: u in s ==> L.owner(L.node(u)) == u
    requires L.owner(L.node(t)) == t
    ensures Nodes(L, Without(s, t)) == Without(Nodes(L, s), L.node(t))
  {
    if s != [] && s[0] != t {
      NodesWithout(L, s[1..], t);
      var w := Without(s[1..], t);
      assert ([s[0]] + w)[1..] == w;
      assert Nodes(L, s)[1..] == Nodes(L, s[1..]);
    }
  }

  lemma {:induction false} NodesJoin(L: Layout, a: seq<Task>, b: seq<Task>)
    ensures Nodes(L, a + b) == Nodes(L, a) + Nodes(L, b)
  {
    if a == [] {
      assert a + b == b;
    } else {
      assert (a + b)[1..] == a[1..] + b;
      NodesJoin(L, a[1..], b);
    }
  }

  /** The lists after the queue at p has been replaced. */
  lemma ListsPut(L: Layout, q: Queues, p: Place, s: seq<Task>)
    requires HeadsApart(L, q) && Known(q, p)
    ensures HeadsApart(L, Put(q, p, s)) && Lists(L, Put(q, p, s)) == Lists(L, q)[L.head(p) := Nodes(L, s)]
  {
    PutPlaces(q, p, s);
    hide AllPlaces, Put, Known, At, Nodes;
    var q' := Put(q, p, s);
    var m := Lists(L, q)[L.head(p) := Nodes(L, s)];
    PlacesAreKnown(q, p);
    forall r | r in AllPlaces(q') ensures L.head(r) in m && m[L.head(r)] == Nodes(L, Content(q', r)) {
      PutContent(L, q, p, s, r);
    }
    hide Lists, Content;
    ListsKeys(L, q);
    ListsAre(L, q', m);
  }

  lemma PutPlaces(q: Queues, p: Place, s: seq<Task>)
    requires Known(q, p)
    ensures AllPlaces(Put(q, p, s)) == AllPlaces(q)
  {
    assert |Put(q, p, s).ready| == |q.ready| && Put(q, p, s).sems.Keys == q.sems.Keys;
  }

  lemma PutContent(L: Layout, q: Queues, p: Place, s: seq<Task>, r: Place)
    requires HeadsApart(L, q) && Known(q, p) && r in AllPlaces(q)
    ensures Content(Put(q, p, s), r) == (if r == p then s else Content(q, r))
    ensures L.head(r) in Lists(L, q) && Lists(L, q)[L.head(r)] == Nodes(L, Content(q, r))
    ensures r != p ==> L.head(r) != L.head(p)
  {
    hide AllPlaces, Put, At, Nodes;
    PutAt(q, p, s, r);
    PlacesAreKnown(q, r);
    PlacesAreKnown(q, p);
    ListsAt(L, q, r);
  }

  lemma ListsKeys(L: Layout, q: Queues)
    ensures Lists(L, q).Keys == Heads(L, q)
  {
  }

  /** list_del of a task's node from the queue the task is in. */
  method Unlink(L: Layout, t: Task, ghost place: map<Task, Place>, ghost q: Queues)
    requires Consistent(place, q) && Distinct(L, place, q) && AllRings(Lists(L, q))
    requires t in place && place[t] != Nowhere && Known(q, place[t])
    modifies Members(Lists(L, q))
    ensures HeadsApart(L, Left(q, place[t], t)) && AllRings(Lists(L, Left(q, place[t], t)))
  {
    ghost var p, ls := place[t], Lists(L, q);
    UnlinkReady(L, place, q, t);
    hide Lists, AllRings, Separate, HeadsApart, Consistent, Distinct, Nodes, Known, At, Put, Without;
    Rings.Leave(L.node(t), L.head(p), ls);
  }

  lemma UnlinkReady(L: Layout, place: map<Task, Place>, q: Queues, t: Task)
    requires Consistent(place, q) && Distinct(L, place, q) && t in place && place[t] != Nowhere
    requires Known(q, place[t])
    ensures var p, ls := place[t], Lists(L, q);
      && Separate(ls) && L.head(p) in ls && L.node(t) in ls[L.head(p)] && HeadsApart(L, Left(q, p, t))
      && Lists(L, Left(q, p, t)) == ls[L.head(p) := Without(ls[L.head(p)], L.node(t))]
  {
    var p := place[t];
    assert Held(place, q, t) && Holds(place, q, p);
    QueuesSeparate(L, place, q);
    ListsAt(L, q, p);
    NodesHave(L, At(q, p), L.node(t));
    NodesWithout(L, At(q, p), t);
    ListsPut(L, q, p, Without(At(q, p), t));
  }

  /** list_add_tail of the node of a task that is in no queue. */
  method Link(L: Layout, t: Task, p: Place, ghost place: map<Task, Place>, ghost q: Queues)
    requires Consistent(place, q) && Distinct(L, place, q) && AllRings(Lists(L, q))
    requires t in place && place[t] == Nowhere && Known(q, p)
    modifies Members(Lists(L, q)), L.node(t)
    ensures HeadsApart(L, Entered(q, p, t)) && AllRings(Lists(L, Entered(q, p, t)))
  {
    LinkReady(L, place, q, t, p);
    hide Lists, AllRings, Separate, HeadsApart, Consistent, Distinct, Nodes, Known, At, Put;
    Rings.Enter(L.node(t), L.head(p), Lists(L, q));
  }

  lemma LinkReady(L: Layout, place: map<Task, Place>, q: Queues, t: Task, p: Place)
    requires Consistent(place, q) && Distinct(L, place, q) && t in place && place[t] == Nowhere
    requires Known(q, p)
    ensures var ls := Lists(L, q);
      && Separate(ls) && L.head(p) in ls && L.node(t) !in Members(ls) && HeadsApart(L, Entered(q, p, t))
      && Lists(L, Entered(q, p, t)) == WithNode(ls, L.head(p), L.node(t))
  {
    QueuesSeparate(L, place, q);
    ListsAt(L, q, p);
    NodesJoin(L, At(q, p), [t]);
    assert [t][1..] == [] && Nodes(L, [t]) == [L.node(t)];
    ListsPut(L, q, p, At(q, p) + [t]);
    NotQueued(L, place, q, t);
  }

  lemma NotQueued(L: Layout, place: map<Task, Place>, q: Queues, t: Task)
    requires Consistent(place, q) && Distinct(L, place, q) && t in place && place[t] == Nowhere
    ensures L.node(t) !in Members(Lists(L, q))
  {
    var ls := Lists(L, q);
    forall h, x | h in ls && x in [h] + ls[h] ensures x != L.node(t) {
      var p := ListsKey(L, q, h);
      PlacesAreKnown(q, p);
      assert Holds(place, q, p);
      NodesHave(L, At(q, p), x);
    }
  }

  /** A task changes from its queue to another one, as in the steps: its record
      becomes r. */
  method Requeue(L: Layout, t: Task, from: Place, to: Place, ghost S: State, ghost r: Rec)
    requires Core(S) && t in S.recs && from == PlaceOf(S.recs[t]) && to == PlaceOf(r)
      && (to == Nowhere || Known(S.q, to))
    requires Distinct(L, Places(S.recs), S.q) && AllRings(Lists(L, S.q))
    modifies Members(Lists(L, S.q)), L.node(t)
    ensures HeadsApart(L, Moved(S, t, r).q) && AllRings(Lists(L, Moved(S, t, r).q))
  {
    ghost var place, q1 := Places(S.recs), Take(S.q, from, t);
    RequeueReady(L, S, t, to);
    hide Core, Lists, AllRings, HeadsApart, Consistent, Distinct, Known, Members, Places, PlaceOf, Left, Entered;
    if from != Nowhere {
      Unlink(L, t, place, S.q);
    }
    if to != Nowhere {
      Link(L, t, to, place[t := Nowhere], q1);
    }
  }

  lemma RequeueReady(L: Layout, S: State, t: Task, to: Place)
    requires Core(S) && t in S.recs && (to == Nowhere || Known(S.q, to)) && Distinct(L, Places(S.recs), S.q)
    ensures var place, from := Places(S.recs), PlaceOf(S.recs[t]); var q1 := Take(S.q, from, t);
      && t in place && place[t] == from && (from != Nowhere <==> Known(S.q, from))
      && Consistent(place, S.q) && Consistent(place[t := Nowhere], q1) && Distinct(L, place[t := Nowhere], q1)
      && (to != Nowhere ==> Known(q1, to)) && HeadsApart(L, q1) && Members(Lists(L, q1)) <= Members(Lists(L, S.q))
  {
    hide Rooted, Numbered, AllWellFormed;
    var place, from := Places(S.recs), PlaceOf(S.recs[t]);
    var q1 := Take(S.q, from, t);
    assert Held(place, S.q, t);
    if from == Nowhere {
      assert place[t := Nowhere] == place;
    } else {
      Tasks.Leave(place, S.q, t);
      PutPlaces(S.q, from, Without(At(S.q, from), t));
      PutAt(S.q, from, Without(At(S.q, from), t), to);
      UnlinkReady(L, place, S.q, t);
      hide Consistent, Lists, At, Known;
      assert Heads(L, q1) == Heads(L, S.q);
      FewerMembers(Lists(L, S.q), L.head(from), L.node(t));
    }
  }

  lemma FewerMembers(ls: map<ListNode, seq<ListNode>>, h: ListNode, x: ListNode)
    requires h in ls
    ensures Members(ls[h := Without(ls[h], x)]) <= Members(ls)
  {
    var ls' := ls[h := Without(ls[h], x)];
    WithoutIn(ls[h], x);
    forall y | y in Members(ls') ensures y in Members(ls) {
      var t :| t in ls' && y in [t] + ls'[t];
      assert y in [t] + ls[t];
    }
  }

  lemma {:induction false} WithoutIn(s: seq<ListNode>, x: ListNode)
    ensures forall y :: y in Without(s, x) ==> y in s
  {
    if s != [] && s[0] != x { WithoutIn(s[1..], x); }
  }

  // ---- the scheduler picks --------------------------------------------------------------------

  /** rr_pick_next on the ring it has chosen: the first node goes to the end. */
  method Turn(L: Layout, ghost place: map<Task, Place>, ghost q: Queues, p: Place) returns (next: ListNode)
    requires Consistent(place, q) && Distinct(L, place, q) && AllRings(Lists(L, q))
    requires Known(q, p) && At(q, p) != []
    modifies Members(Lists(L, q))
    ensures HeadsApart(L, Put(q, p, Rotate(At(q, p)))) && AllRings(Lists(L, Put(q, p, Rotate(At(q, p)))))
    ensures next == L.node(At(q, p)[0])
  {
    ghost var ls := Lists(L, q);
    TurnReady(L, place, q, p);
    InMembers(ls, L.head(p));
    FirstOf([L.head(p)] + ls[L.head(p)]);
    next := L.head(p).next;
    hide Lists, AllRings, Separate, HeadsApart, Consistent, Distinct, Nodes, Known, At, Put, Without, Rotate, Members;
    Rings.Leave(next, L.head(p), ls);
    Rings.Enter(next, L.head(p), ls[L.head(p) := Without(ls[L.head(p)], next)]);
  }

  lemma TurnReady(L: Layout, place: map<Task, Place>, q: Queues, p: Place)
    requires Consistent(place, q) && Distinct(L, place, q) && Known(q, p) && At(q, p) != []
    ensures var ls, h, x := Lists(L, q), L.head(p), L.node(At(q, p)[0]);
      && Separate(ls) && h in ls && ls[h] != [] && ls[h][0] == x && HeadsApart(L, Put(q, p, Rotate(At(q, p))))
      && var ls1 := ls[h := Without(ls[h], x)];
         Separate(ls1) && x !in Members(ls1) && Members(ls1) <= Members(ls)
         && Lists(L, Put(q, p, Rotate(At(q, p)))) == WithNode(ls1, h, x)
  {
    hide Consistent, Distinct, Known, At, Put, Lists, Members, Separate, Without;
    QueuesSeparate(L, place, q);
    ListsAt(L, q, p);
    ListsPut(L, q, p, Rotate(At(q, p)));
    RotateNodes(L, At(q, p));
    TurnApart(L, place, q, p);
  }

  lemma RotateNodes(L: Layout, s: seq<Task>)
    requires s != []
    ensures Nodes(L, s) != [] && Nodes(L, s)[0] == L.node(s[0])
    ensures Nodes(L, Rotate(s)) == Without(Nodes(L, s), L.node(s[0])) + [L.node(s[0])]
  {
    var t := s[0];
    NodesJoin(L, s[1..], [t]);
    assert [t][1..] == [] && Nodes(L, [t]) == [L.node(t)];
    assert Nodes(L, s) == [L.node(t)] + Nodes(L, s[1..]);
    assert Without(Nodes(L, s), L.node(t)) == Nodes(L, s)[1..] == Nodes(L, s[1..]);
  }

  /** Without its first node, the ring at p does not have it any more, and the
      others never had. */
  lemma TurnApart(L: Layout, place: map<Task, Place>, q: Queues, p: Place)
    requires Consistent(place, q) && Distinct(L, place, q) && Known(q, p) && At(q, p) != []
    ensures L.head(p) in Lists(L, q)
    ensures var ls, h, x := Lists(L, q), L.head(p), L.node(At(q, p)[0]); var ls1 := ls[h := Without(ls[h], x)];
      Separate(ls1) && x !in Members(ls1) && Members(ls1) <= Members(ls)
  {
    ListsAt(L, q, p);
    QueuesSeparate(L, place, q);
    assert Holds(place, q, p);
    var ls, h, s := Lists(L, q), L.head(p), At(q, p);
    var x := L.node(s[0]);
    NodesHave(L, s, x);
    NodesApart(L, place, q, p);
    WithoutMembers(ls[h], x);
    PlacesAreKnown(q, p);
    hide Lists, Nodes, Consistent, Distinct, Known, At;
    LessSeparate(ls, h, x);
  }

  lemma NodesApart(L: Layout, place: map<Task, Place>, q: Queues, p: Place)
    requires Consistent(place, q) && Distinct(L, place, q) && Known(q, p)
    ensures NoDup(Nodes(L, At(q, p)))
    ensures forall t :: t in At(q, p) ==> L.node(t) != L.head(p)
  {
    assert Holds(place, q, p);
    PlacesAreKnown(q, p);
    var s := At(q, p);
    forall i, j | 0 <= i < j < |s| ensures L.node(s[i]) != L.node(s[j]) {
      assert s[i] in s && s[j] in s && L.owner(L.node(s[i])) == s[i] && L.owner(L.node(s[j])) == s[j];
    }
  }

  lemma LessSeparate(ls: map<ListNode, seq<ListNode>>, h: ListNode, x: ListNode)
    requires Separate(ls) && h in ls && x in ls[h] && x != h && NoDup(ls[h])
    ensures var ls1 := ls[h := Without(ls[h], x)]; Separate(ls1) && x !in Members(ls1) && Members(ls1) <= Members(ls)
  {
    WithoutMembers(ls[h], x);
    var ls1 := ls[h := Without(ls[h], x)];
    assert x in [h] + ls[h];
    forall t, y | t in ls1 && y in [t] + ls1[t] ensures y in [t] + ls[t] && y != x {
      if t != h { assert Rings.Disjoint([h] + ls[h], [t] + ls[t]); }
    }
    forall t, u | t in ls1 && u in ls1 && t != u ensures Rings.Disjoint([t] + ls1[t], [u] + ls1[u]) {
      assert Rings.Disjoint([t] + ls[t], [u] + ls[u]);
    }
  }

  // ---- sched_tick ----------------------------------------------------------------------------------

  /** Where the traversal of sched_tick sends a node: to the ready queue of its
      task if the task is due. */
  function WakeTo(L: Layout, recs: map<Task, Rec>): ListNode -> ListNode? {
    x => if L.owner(x) in recs && recs[L.owner(x)].sleepTicks == 1 then L.head(AtReady(recs[L.owner(x)].prio)) else null
  }

  lemma {:induction false} SentIs(L: Layout, recs: map<Task, Rec>, s: seq<Task>, p: Place)
    requires forall t :: t in s ==> t in recs && L.owner(L.node(t)) == t
    requires forall t :: t in s && L.head(AtReady(recs[t].prio)) == L.head(p) ==> p == AtReady(recs[t].prio)
    ensures Sent(Nodes(L, s), WakeTo(L, recs), null) == Nodes(L, Kept(s, Due(recs)))
    ensures Sent(Nodes(L, s), WakeTo(L, recs), L.head(p)) ==
      match p case AtReady(k) => Nodes(L, Picked(s, DueAt(recs, k))) case _ => []
    decreases |s|
  {
    if s != [] {
      var t, rest := s[0], s[1..];
      assert s == [t] + rest;
      SentIs(L, recs, rest, p);
      SentCons(L, recs, t, rest, null);
      SentCons(L, recs, t, rest, L.head(p));
      PickedCons(t, rest, Due(recs));
      NodesCons(L, t, Kept(rest, Due(recs)));
      if p.AtReady? {
        PickedCons(t, rest, DueAt(recs, p.prio));
        NodesCons(L, t, Picked(rest, DueAt(recs, p.prio)));
      }
      hide Nodes, Kept, Picked, Sent;
    }
  }

  lemma NodesCons(L: Layout, t: Task, rest: seq<Task>)
    ensures Nodes(L, [t] + rest) == [L.node(t)] + Nodes(L, rest)
    ensures [] + rest == rest
  {
    assert ([t] + rest)[1..] == rest;
  }

  lemma SentCons(L: Layout, recs: map<Task, Rec>, t: Task, rest: seq<Task>, h: ListNode?)
    ensures Sent(Nodes(L, [t] + rest), WakeTo(L, recs), h) ==
      (if WakeTo(L, recs)(L.node(t)) == h then [L.node(t)] else []) + Sent(Nodes(L, rest), WakeTo(L, recs), h)
  {
    NodesCons(L, t, rest);
    var u := [L.node(t)] + Nodes(L, rest);
    assert u[1..] == Nodes(L, rest);
    hide Nodes, WakeTo;
  }

  /** sched_tick over the sleep queue: the rings are afterwards those of the
      queues in which exactly the sleepers that were due have moved. */
  method WakeDue(L: Layout, ghost S: State, recs: map<Task, Rec>)
    requires Inv(S) && recs == S.recs && Distinct(L, Places(recs), S.q) && AllRings(Lists(L, S.q))
    modifies Members(Lists(L, S.q))
    ensures HeadsApart(L, CountedDown(S.q, recs)) && AllRings(Lists(L, CountedDown(S.q, recs)))
  {
    hide Inv;
    WakeReady(L, S);
    hide Lists, AllRings, Separate, HeadsApart, Distinct, Places, Known, CountedDown, WakeTo, AfterMoves;
    MoveAmong(L.head(AtSleep), WakeTo(L, recs), Lists(L, S.q));
  }

  function CountedQueue(q: Queues, recs: map<Task, Rec>, p: Place): seq<Task>
    requires Known(q, p)
  {
    match p
    case AtReady(k) => q.ready[k] + Picked(q.sleep, DueAt(recs, k))
    case AtSleep => Kept(q.sleep, Due(recs))
    case _ => At(q, p)
  }

  lemma CountedAt(q: Queues, recs: map<Task, Rec>, p: Place)
    ensures Known(CountedDown(q, recs), p) == Known(q, p)
    ensures Known(q, p) ==> At(CountedDown(q, recs), p) == CountedQueue(q, recs, p)
  {
    hide Picked, Kept, Due, DueAt;
  }

  /** What WakeDue needs to know about the sleepers. */
  ghost predicate Rested(L: Layout, recs: map<Task, Rec>, q: Queues) {
    forall t :: t in q.sleep ==> t in recs && L.owner(L.node(t)) == t && Known(q, AtReady(recs[t].prio))
  }

  lemma SleepersRest(L: Layout, S: State)
    requires Inv(S) && Distinct(L, Places(S.recs), S.q)
    ensures Rested(L, S.recs, S.q)
  {
    Sleepers(S);
    forall t | t in S.q.sleep ensures L.owner(L.node(t)) == t && Known(S.q, AtReady(S.recs[t].prio)) {
      RecordFine(S, t);
      assert t in Places(S.recs);
    }
  }

  /** The list of the queue at p, afterwards. */
  lemma WakeAt(L: Layout, q: Queues, recs: map<Task, Rec>, p: Place)
    requires HeadsApart(L, q) && Rested(L, recs, q) && Known(q, p) && L.head(AtSleep) in Lists(L, q)
    requires Known(CountedDown(q, recs), p)
    ensures L.head(p) in AfterMoves(Lists(L, q), L.head(AtSleep), WakeTo(L, recs))
    ensures AfterMoves(Lists(L, q), L.head(AtSleep), WakeTo(L, recs))[L.head(p)] ==
      Nodes(L, At(CountedDown(q, recs), p))
  {
    hide HeadsApart, Lists, CountedDown, AfterMoves, Nodes, Kept, Picked, Sent, WakeTo;
    ListsAt(L, q, AtSleep);
    ListsAt(L, q, p);
    CountedAt(q, recs, p);
    AfterMovesAt(Lists(L, q), L.head(AtSleep), WakeTo(L, recs), L.head(p));
    HeadsDiffer(L, q, p, AtSleep);
    forall t | t in q.sleep ensures L.head(AtReady(recs[t].prio)) == L.head(p) ==> p == AtReady(recs[t].prio) {
      HeadsDiffer(L, q, AtReady(recs[t].prio), p);
    }
    SentIs(L, recs, q.sleep, p);
    if p.AtReady? { NodesJoin(L, q.ready[p.prio], Picked(q.sleep, DueAt(recs, p.prio))); }
    assert Nodes(L, At(q, p)) + [] == Nodes(L, At(q, p));
  }

  lemma AfterMovesAt(ls: map<ListNode, seq<ListNode>>, h: ListNode, to: ListNode -> ListNode?, g: ListNode)
    requires h in ls && g in ls
    ensures g in AfterMoves(ls, h, to)
    ensures AfterMoves(ls, h, to)[g] == if g == h then Sent(ls[h], to, null) else ls[g] + Sent(ls[h], to, g)
  {
    hide Sent;
  }

  lemma HeadsDiffer(L: Layout, q: Queues, p: Place, r: Place)
    requires HeadsApart(L, q) && Known(q, p) && Known(q, r)
    ensures L.head(p) == L.head(r) ==> p == r
  {
    PlacesAreKnown(q, p);
    PlacesAreKnown(q, r);
  }

  lemma SamePlaces(L: Layout, q: Queues, recs: map<Task, Rec>)
    requires HeadsApart(L, q)
    ensures AllPlaces(CountedDown(q, recs)) == AllPlaces(q) && HeadsApart(L, CountedDown(q, recs))
  {
    forall p ensures p in AllPlaces(CountedDown(q, recs)) <==> p in AllPlaces(q) {
      CountedAt(q, recs, p);
      PlacesAreKnown(q, p);
      PlacesAreKnown(CountedDown(q, recs), p);
    }
  }

  lemma AfterMovesKeys(ls: map<ListNode, seq<ListNode>>, h: ListNode, to: ListNode -> ListNode?)
    requires h in ls
    ensures AfterMoves(ls, h, to).Keys == ls.Keys
  {
    DeliveredKeys(ls - {h}, ls[h], to);
  }

  lemma WakeLists(L: Layout, q: Queues, recs: map<Task, Rec>)
    requires HeadsApart(L, q) && Rested(L, recs, q)
    ensures L.head(AtSleep) in Lists(L, q) && HeadsApart(L, CountedDown(q, recs))
    ensures Lists(L, CountedDown(q, recs)) == AfterMoves(Lists(L, q), L.head(AtSleep), WakeTo(L, recs))
  {
    hide AfterMoves, CountedDown, WakeTo, Nodes, Lists, AllPlaces, Rested, HeadsApart;
    ListsAt(L, q, AtSleep);
    SamePlaces(L, q, recs);
    var q' := CountedDown(q, recs);
    var m := AfterMoves(Lists(L, q), L.head(AtSleep), WakeTo(L, recs));
    ListsKeys(L, q);
    AfterMovesKeys(Lists(L, q), L.head(AtSleep), WakeTo(L, recs));
    forall p | p in AllPlaces(q') ensures L.head(p) in m && m[L.head(p)] == Nodes(L, Content(q', p)) {
      PlacesAreKnown(q', p);
      CountedAt(q, recs, p);
      WakeAt(L, q, recs, p);
    }
    ListsAre(L, q', m);
  }

  lemma WakeReady(L: Layout, S: State)
    requires Inv(S) && Distinct(L, Places(S.recs), S.q)
    ensures var ls, h, to, q' := Lists(L, S.q), L.head(AtSleep), WakeTo(L, S.recs), CountedDown(S.q, S.recs);
      && h in ls && Separate(ls) && (forall x :: x in ls[h] && to(x) != null ==> to(x) in ls && to(x) != h)
      && HeadsApart(L, q') && Lists(L, q') == AfterMoves(ls, h, to)
  {
    hide CountedDown, AfterMoves, Lists, Rooted, Numbered, AllWellFormed, Metered;
    QueuesSeparate(L, Places(S.recs), S.q);
    SleepersRest(L, S);
    WakeLists(L, S.q, S.recs);
    ListsAt(L, S.q, AtSleep);
    hide Inv, Distinct, Separate;
    forall x | x in Lists(L, S.q)[L.head(AtSleep)] && WakeTo(L, S.recs)(x) != null
      ensures WakeTo(L, S.recs)(x) in Lists(L, S.q) && WakeTo(L, S.recs)(x) != L.head(AtSleep)
    {
      WakeGoes(L, S.q, S.recs, x);
    }
  }

  lemma WakeGoes(L: Layout, q: Queues, recs: map<Task, Rec>, x: ListNode)
    requires HeadsApart(L, q) && Rested(L, recs, q) && x in Nodes(L, q.sleep) && WakeTo(L, recs)(x) != null
    ensures WakeTo(L, recs)(x) in Lists(L, q) && WakeTo(L, recs)(x) != L.head(AtSleep)
  {
    NodesHave(L, q.sleep, x);
    var t :| t in q.sleep && L.node(t) == x;
    ListsAt(L, q, AtReady(recs[t].prio));
    HeadsDiffer(L, q, AtReady(recs[t].prio), AtSleep);
  }
}
