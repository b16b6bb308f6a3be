/** Semaphores over whole runs, counted by the calls of sem_wait and sem_post
    and by who is seen in the queue, not by any books. */
module SemaphoreRuns {
  import opened Seqs
  import opened Tasks
  import opened Steps
  import opened Runs
  import opened Effects

  // ---- one step -------------------------------------------------------------------------

  predicate SemEvent(e: Event) {
    e.NewSem? || e.SemWait? || e.SemPost?
  }

  /** Other calls leave all semaphores alone. */
  lemma OtherEvents(S: State, e: Event)
    requires Inv(S) && Enabled(S, e) && !SemEvent(e)
    ensures Defined(S, e) && Apply(S, e).meters == S.meters && Apply(S, e).q.sems == S.q.sems
  {
    hide Inv, Picks, OutOf, Into, Apply, AfterTick, AfterExit, LastGone;
    match e
    case Schedule => ScheduleEffect(S);
    case Sleep(k) => SleepEffect(S, k);
    case Wait => WaitEffect(S);
    case Wakeup(t) => WakeupEffect(S, t);
    case SetPrio(t, prio) => PrioEffect(S, t, prio);
    case Tick => TickQueuesEffect(S);
    case Spawn(t, prio, pid) => SpawnEffect(S, t, prio, pid);
    case Exit => ExitEffect(S);
    case Reap => ReapEffect(S);
  }

  /** Only the calls for s change its count and its queue. */
  lemma SemStep(S: State, e: Event, s: Semaphore)
    requires Inv(S) && Enabled(S, e) && s in S.meters && s in S.q.sems
    ensures Defined(S, e) && s in Apply(S, e).meters && s in Apply(S, e).q.sems
    ensures Apply(S, e).meters[s].count ==
      S.meters[s].count + (if e == SemPost(s) then 1 else 0) - (if e == SemWait(s) then 1 else 0)
    ensures var q := S.q.sems[s];
      Apply(S, e).q.sems[s] ==
        if e == SemWait(s) && S.meters[s].count <= 0 then q + [S.current]
        else if e == SemPost(s) && q != [] then q[1..] else q
  {
    hide Inv, Picks, OutOf, Into, Apply;
    if !SemEvent(e) {
      OtherEvents(S, e);
    } else {
      match e
      case NewSem(r, c) => NewSemEffect(S, r, c);
      case SemWait(r) => SemWaitEffect(S, r);
      case SemPost(r) => SemPostEffect(S, r);
    }
  }

  lemma QueueFacts(S: State, s: Semaphore)
    requires Inv(S) && s in S.meters
    ensures s in S.q.sems && NoDup(S.q.sems[s]) && S.current !in S.q.sems[s]
    ensures |S.q.sems[s]| == if S.meters[s].count < 0 then -S.meters[s].count else 0
  {
    SemHas(S, s);
    Running(S);
    Whereabouts(S, S.current, AtSem(s));
  }

  // ---- the count -----------------------------------------------------------------------------

  function Waits(es: seq<Event>, s: Semaphore): nat {
    if es == [] then 0 else (if es[0] == SemWait(s) then 1 else 0) + Waits(es[1..], s)
  }

  function Posts(es: seq<Event>, s: Semaphore): nat {
    if es == [] then 0 else (if es[0] == SemPost(s) then 1 else 0) + Posts(es[1..], s)
  }

  /** Over any run the count changes by the calls of sem_post less those of
      sem_wait, and as many tasks are in the queue as it is below zero. */
  lemma {:induction false} CountOfRun(S: State, es: seq<Event>, s: Semaphore)
    requires Inv(S) && Feasible(S, es) && s in S.meters
    ensures s in Final(S, es).meters && s in Final(S, es).q.sems
    ensures Final(S, es).meters[s].count == S.meters[s].count + Posts(es, s) - Waits(es, s)
    ensures var c := Final(S, es).meters[s].count; |Final(S, es).q.sems[s]| == if c < 0 then -c else 0
    decreases |es|
  {
    hide Inv;
    QueueFacts(S, s);
    if es != [] {
      FeasibleHead(S, es);
      SemStep(S, es[0], s);
      var S1 := Apply(S, es[0]);
      hide Feasible, Final, Apply;
      CountOfRun(S1, es[1..], s);
    }
  }

  // ---- who waits, and in which order --------------------------------------------------------

  /** The elements of a that are not in b, in order. */
  function NotIn(a: seq<Task>, b: seq<Task>): seq<Task> {
    if a == [] then [] else (if a[0] in b then [] else [a[0]]) + NotIn(a[1..], b)
  }

  lemma {:induction false} NotInNone(a: seq<Task>, b: seq<Task>)
    requires forall x :: x in a ==> x in b
    ensures NotIn(a, b) == []
  {
    if a != [] {
      assert a[0] in a;
      NotInNone(a[1..], b);
    }
  }

  lemma {:induction false} NotInLast(a: seq<Task>, x: Task, b: seq<Task>)
    requires (forall y :: y in a ==> y in b) && x !in b
    ensures NotIn(a + [x], b) == [x]
  {
    if a == [] {
      assert (a + [x])[1..] == [];
    } else {
      assert a[0] in a && (a + [x])[1..] == a[1..] + [x];
      NotInLast(a[1..], x, b);
    }
  }

  /** Those who come to the queue of s in one step, and those who leave it. */
  ghost function Came(S: State, e: Event, s: Semaphore): seq<Task>
    requires Defined(S, e)
  {
    if s in S.q.sems && s in Apply(S, e).q.sems then NotIn(Apply(S, e).q.sems[s], S.q.sems[s]) else []
  }

  ghost function Went(S: State, e: Event, s: Semaphore): seq<Task>
    requires Defined(S, e)
  {
    if s in S.q.sems && s in Apply(S, e).q.sems then NotIn(S.q.sems[s], Apply(S, e).q.sems[s]) else []
  }

  /** One step of the queue: exactly a sem_wait at a count of zero or less makes
      its caller come, and exactly a sem_post lets the first one go. */
  lemma QueueStep(S: State, e: Event, s: Semaphore)
    requires Inv(S) && Enabled(S, e) && s in S.meters
    ensures Defined(S, e) && s in S.q.sems && s in Apply(S, e).meters && s in Apply(S, e).q.sems
    ensures S.q.sems[s] + Came(S, e, s) == Went(S, e, s) + Apply(S, e).q.sems[s]
    ensures Came(S, e, s) == if e == SemWait(s) && S.meters[s].count <= 0 then [S.current] else []
    ensures Went(S, e, s) == if e == SemPost(s) && S.q.sems[s] != [] then [S.q.sems[s][0]] else []
  {
    hide Inv, Apply;
    QueueFacts(S, s);
    SemStep(S, e, s);
    var q, q' := S.q.sems[s], Apply(S, e).q.sems[s];
    if e == SemWait(s) && S.meters[s].count <= 0 {
      NotInLast(q, S.current, q);
      NotInNone(q, q');
    } else if e == SemPost(s) && q != [] {
      assert q == [q[0]] + q[1..];
      assert forall i :: 0 < i < |q| ==> q[i] != q[0];
      NotInFirst(q[0], q[1..]);
      NotInNone(q', q);
    } else {
      NotInNone(q, q);
    }
  }

  lemma NotInFirst(x: Task, a: seq<Task>)
    requires x !in a
    ensures NotIn([x] + a, a) == [x]
  {
    assert ([x] + a)[1..] == a;
    NotInNone(a, a);
  }

  ghost function Arrivals(S: State, es: seq<Event>, s: Semaphore): seq<Task>
    requires Inv(S) && Feasible(S, es)
    decreases |es|
  {
    if es == [] then []
    else (FeasibleHead(S, es); Came(S, es[0], s) + Arrivals(Apply(S, es[0]), es[1..], s))
  }

  ghost function Departures(S: State, es: seq<Event>, s: Semaphore): seq<Task>
    requires Inv(S) && Feasible(S, es)
    decreases |es|
  {
    if es == [] then []
    else (FeasibleHead(S, es); Went(S, es[0], s) + Departures(Apply(S, es[0]), es[1..], s))
  }

  /** The calls of sem_wait whose caller does not come to the queue. */
  ghost function AtOnce(S: State, es: seq<Event>, s: Semaphore): nat
    requires Inv(S) && Feasible(S, es)
    decreases |es|
  {
    if es == [] then 0
    else
      (FeasibleHead(S, es);
       (if es[0] == SemWait(s) && Came(S, es[0], s) == [] then 1 else 0) + AtOnce(Apply(S, es[0]), es[1..], s))
  }

  lemma Unrolled(S: State, es: seq<Event>, s: Semaphore)
    requires Inv(S) && Feasible(S, es) && es != []
    ensures Enabled(S, es[0]) && Defined(S, es[0]) && Inv(Apply(S, es[0])) && Feasible(Apply(S, es[0]), es[1..])
    ensures var S1, rest := Apply(S, es[0]), es[1..];
      && Final(S, es) == Final(S1, rest)
      && Arrivals(S, es, s) == Came(S, es[0], s) + Arrivals(S1, rest, s)
      && Departures(S, es, s) == Went(S, es[0], s) + Departures(S1, rest, s)
      && AtOnce(S, es, s) == (if es[0] == SemWait(s) && Came(S, es[0], s) == [] then 1 else 0) + AtOnce(S1, rest, s)
      && Waits(es, s) == (if es[0] == SemWait(s) then 1 else 0) + Waits(rest, s)
  {
    FeasibleHead(S, es);
    hide Inv, Came, Went, Apply;
  }

  lemma NotStarted(S: State, s: Semaphore)
    requires Inv(S) && s in S.q.sems
    ensures Feasible(S, []) && Final(S, []) == S && Waits([], s) == AtOnce(S, [], s) == 0
    ensures S.q.sems[s] + Arrivals(S, [], s) == Departures(S, [], s) + S.q.sems[s] && Arrivals(S, [], s) == []
  {
  }

  /** Over any run, the tasks leave the queue in the order in which they came. */
  lemma {:induction false} FirstInFirstOut(S: State, es: seq<Event>, s: Semaphore)
    requires Inv(S) && Feasible(S, es) && s in S.meters
    ensures s in S.q.sems && s in Final(S, es).q.sems
    ensures S.q.sems[s] + Arrivals(S, es, s) == Departures(S, es, s) + Final(S, es).q.sems[s]
    ensures AtOnce(S, es, s) + |Arrivals(S, es, s)| == Waits(es, s)
    decreases |es|
  {
    hide *;
    QueueFacts(S, s);
    if es == [] {
      NotStarted(S, s);
    } else {
      Unrolled(S, es, s);
      QueueStep(S, es[0], s);
      var S1, rest := Apply(S, es[0]), es[1..];
      FirstInFirstOut(S1, rest, s);
      JoinSteps(S.q.sems[s], Came(S, es[0], s), Arrivals(S1, rest, s), Went(S, es[0], s), S1.q.sems[s],
                Departures(S1, rest, s), Final(S1, rest).q.sems[s]);
    }
  }

  lemma JoinSteps(q: seq<Task>, a: seq<Task>, A: seq<Task>, d: seq<Task>, q1: seq<Task>, D: seq<Task>, q2: seq<Task>)
    requires q + a == d + q1 && q1 + A == D + q2
    ensures q + (a + A) == (d + D) + q2
  {
    assert q + (a + A) == (q + a) + A == d + (q1 + A);
    assert d + (D + q2) == (d + D) + q2;
  }

  /** The calls of sem_wait that have returned, at once or later, are as many as
      there were units for: the initial count and one for each sem_post. */
  lemma GotThrough(S: State, es: seq<Event>, s: Semaphore)
    requires Inv(S) && Feasible(S, es) && s in S.meters && S.meters[s].count >= 0
    ensures var units := S.meters[s].count + Posts(es, s);
      AtOnce(S, es, s) + |Departures(S, es, s)| == if Waits(es, s) <= units then Waits(es, s) else units
    ensures |Departures(S, es, s)| <= |Arrivals(S, es, s)|
    ensures Departures(S, es, s) == Arrivals(S, es, s)[..|Departures(S, es, s)|]
  {
    hide Inv, Feasible, Final, Arrivals, Departures, AtOnce;
    QueueFacts(S, s);
    CountOfRun(S, es, s);
    FirstInFirstOut(S, es, s);
    var A, D, q := Arrivals(S, es, s), Departures(S, es, s), Final(S, es).q.sems[s];
    assert S.q.sems[s] + A == A;
    assert |A| == |D| + |q|;
  }
}
