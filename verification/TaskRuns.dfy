/** What becomes of single tasks over whole runs: those that call sleep, those
    that wait for their children, and those that have ended. */
module TaskRuns {
  import opened Seqs
  import opened Tasks
  import opened Steps
  import opened Runs
  import opened Effects

  // ---- sleep ----------------------------------------------------------------------------

  /** The ticks that sleep(k) lasts: k of them, but 2^32 for zero. */
  function Lasting(k: nat): nat {
    if k == 0 then 0x1_0000_0000 else k
  }

  lemma SleepCalled(S: State, k: nat)
    requires Inv(S) && Enabled(S, Sleep(k))
    ensures Defined(S, Sleep(k)) && Inv(Apply(S, Sleep(k))) && S.current in Apply(S, Sleep(k)).recs
    ensures var r := Apply(S, Sleep(k)).recs[S.current]; r.stat == SLEEP && TicksLeft(r) == Lasting(k)
  {
    hide Inv, Apply, Picks, OutOf;
    ApplyKeeps(S, Sleep(k));
    SleepEffect(S, k);
  }

  /** A task that calls sleep(k) sleeps through all runs with fewer ticks than
      that, whatever else happens, unless it is woken. */
  lemma SleepLasts(S: State, k: nat, es: seq<Event>)
    requires Inv(S) && Enabled(S, Sleep(k)) && Defined(S, Sleep(k)) && Inv(Apply(S, Sleep(k)))
    requires Feasible(Apply(S, Sleep(k)), es) && Wakeup(S.current) !in es && Ticks(es) < Lasting(k)
    ensures var S' := Final(Apply(S, Sleep(k)), es); S.current in S'.recs && S'.recs[S.current].stat == SLEEP
  {
    hide Inv, Apply, Feasible, Final;
    SleepCalled(S, k);
    SleepRun(Apply(S, Sleep(k)), es, S.current);
  }

  /** And it is ready after the k-th tick. */
  lemma SleepEnds(S: State, k: nat, es: seq<Event>)
    requires Inv(S) && Enabled(S, Sleep(k)) && Defined(S, Sleep(k)) && Inv(Apply(S, Sleep(k)))
    requires Feasible(Apply(S, Sleep(k)), es) && Wakeup(S.current) !in es && Ticks(es) == Lasting(k) - 1
    ensures var S1 := Final(Apply(S, Sleep(k)), es);
      Defined(S1, Tick) && S.current in Apply(S1, Tick).recs && Apply(S1, Tick).recs[S.current].stat == READY
  {
    hide Inv, Apply, Feasible, Final;
    SleepCalled(S, k);
    WokenInTime(Apply(S, Sleep(k)), es, S.current);
  }

  // ---- wait for children --------------------------------------------------------------------

  /** p waits for its children to end. */
  predicate Waiting(S: State, p: Task) {
    p in S.recs && S.recs[p].stat == WAITING && S.recs[p].waitFor == null
  }

  /** In this step a child of p ends, and p has no children afterwards. */
  predicate LastChildEnds(S: State, e: Event, p: Task)
    requires Defined(S, e)
  {
    e.Exit? && S.recs[S.current].parent == p && p in Apply(S, e).recs && Apply(S, e).recs[p].children == []
  }

  /** A waiting task is none of those that a step touches but for its end of a
      child. */
  lemma NotTouched(S: State, p: Task)
    requires Inv(S) && Waiting(S, p)
    ensures S.current in S.recs && S.current != p && p !in S.q.sleep && p !in S.q.zombie
    ensures forall s :: s in S.q.sems ==> p !in S.q.sems[s]
  {
    Running(S);
    Whereabouts(S, p, AtSleep);
    Whereabouts(S, p, AtZombie);
    forall s | s in S.q.sems ensures p !in S.q.sems[s] { Whereabouts(S, p, AtSem(s)); }
  }

  /** A task that waits for its children becomes ready in a step exactly if its
      last child ends in it, and waits on otherwise. */
  lemma WaitStepwise(S: State, e: Event, p: Task)
    requires Inv(S) && Enabled(S, e) && Waiting(S, p)
    ensures Defined(S, e) && p in Apply(S, e).recs
    ensures Apply(S, e).recs[p].stat == READY <==> LastChildEnds(S, e, p)
    ensures !LastChildEnds(S, e, p) ==> Waiting(Apply(S, e), p)
  {
    hide Inv, Picks, OutOf, Into, Apply;
    NotTouched(S, p);
    match e
    case Schedule => ScheduleEffect(S);
    case Sleep(k) => SleepEffect(S, k);
    case Wait => WaitEffect(S);
    case Wakeup(t) => WakeupEffect(S, t);
    case SetPrio(t, prio) => PrioEffect(S, t, prio);
    case Tick => TickEffect(S, p);
    case Spawn(t, prio, pid) => SpawnEffect(S, t, prio, pid);
    case Exit => ExitEffect(S);
    case Reap => ReapEffect(S);
    case NewSem(r, c) => NewSemEffect(S, r, c);
    case SemWait(r) => SemWaitEffect(S, r);
    case SemPost(r) => SemPostEffect(S, r);
  }

  /** In no step of the run does the last child of p end. */
  ghost predicate ChildrenLeft(S: State, es: seq<Event>, p: Task)
    requires Inv(S) && Feasible(S, es)
    decreases |es|
  {
    es == [] || (FeasibleHead(S, es); !LastChildEnds(S, es[0], p) && ChildrenLeft(Apply(S, es[0]), es[1..], p))
  }

  /** Over any run, a task that waits for its children waits until the last one
      ends ... */
  lemma {:induction false} WaitsOn(S: State, es: seq<Event>, p: Task)
    requires Inv(S) && Feasible(S, es) && Waiting(S, p) && ChildrenLeft(S, es, p)
    ensures Waiting(Final(S, es), p)
    decreases |es|
  {
    hide Inv, Waiting, LastChildEnds;
    if es != [] {
      FeasibleHead(S, es);
      WaitStepwise(S, es[0], p);
      var S1 := Apply(S, es[0]);
      assert ChildrenLeft(S1, es[1..], p);
      hide Feasible, Final, Apply, ChildrenLeft;
      WaitsOn(S1, es[1..], p);
    }
  }

  /** If the running task ends now, p is ready exactly if that was its last child. */
  ghost predicate ReadyAfterLast(S: State, p: Task) {
    && Defined(S, Exit) && p in Apply(S, Exit).recs
    && (Apply(S, Exit).recs[p].stat == READY <==> LastChildEnds(S, Exit, p))
  }

  /** ... and is ready then.  This is what wait() is for. */
  lemma WaitsForLastChild(S: State, es: seq<Event>)
    requires Inv(S) && Enabled(S, Wait) && Defined(S, Wait) && Inv(Apply(S, Wait))
    requires Feasible(Apply(S, Wait), es) && ChildrenLeft(Apply(S, Wait), es, S.current)
    ensures var p, S1 := S.current, Final(Apply(S, Wait), es);
      Waiting(S1, p) && (Enabled(S1, Exit) ==> ReadyAfterLast(S1, p))
  {
    hide Inv, Feasible, Final, ChildrenLeft, LastChildEnds, Picks, OutOf, Apply;
    WaitEffect(S);
    var S1 := Final(Apply(S, Wait), es);
    WaitsOn(Apply(S, Wait), es, S.current);
    if Enabled(S1, Exit) { WaitStepwise(S1, Exit, S.current); }
  }

  /** Without children nobody ever ends the wait. */
  lemma ChildlessStep(S: State, e: Event, p: Task)
    requires Inv(S) && Enabled(S, e) && Waiting(S, p) && S.recs[p].children == []
    ensures Defined(S, e) && Waiting(Apply(S, e), p) && Apply(S, e).recs[p].children == []
  {
    hide Inv, Picks, OutOf, Into, Apply;
    NotTouched(S, p);
    WaitStepwise(S, e, p);
    match e
    case Schedule => ScheduleEffect(S);
    case Sleep(k) => SleepEffect(S, k);
    case Wait => WaitEffect(S);
    case Wakeup(t) => WakeupEffect(S, t);
    case SetPrio(t, prio) => PrioEffect(S, t, prio);
    case Tick => TickEffect(S, p);
    case Spawn(t, prio, pid) => SpawnEffect(S, t, prio, pid);
    case Exit =>
      ExitEffect(S);
      NoChild(S, p);
    case Reap => ReapEffect(S);
    case NewSem(r, c) => NewSemEffect(S, r, c);
    case SemWait(r) => SemWaitEffect(S, r);
    case SemPost(r) => SemPostEffect(S, r);
  }

  lemma NoChild(S: State, p: Task)
    requires Inv(S) && S.current != S.idle && p in S.recs && S.recs[p].stat == WAITING && S.recs[p].children == []
    ensures S.current in S.recs && S.recs[S.current].parent != p
  {
    Running(S);
    FamilyTree(S, S.current, p);
  }

  /** A task that waits for children without having any waits for ever. */
  lemma {:induction false} ChildlessForEver(S: State, es: seq<Event>, p: Task)
    requires Inv(S) && Feasible(S, es) && Waiting(S, p) && S.recs[p].children == []
    ensures Waiting(Final(S, es), p)
    decreases |es|
  {
    hide Inv, Waiting;
    if es != [] {
      FeasibleHead(S, es);
      ChildlessStep(S, es[0], p);
      var S1 := Apply(S, es[0]);
      hide Feasible, Final, Apply;
      ChildlessForEver(S1, es[1..], p);
    }
  }

  // ---- the reaper -------------------------------------------------------------------------------

  /** n rounds of kkill_zombie. */
  function Rounds(n: nat): (es: seq<Event>)
    ensures |es| == n
  {
    if n == 0 then [] else [Reap] + Rounds(n - 1)
  }

  function NumbersOf(recs: map<Task, Rec>, ts: seq<Task>): set<nat> {
    set t | t in ts && t in recs :: recs[t].pid
  }

  function Members(ts: seq<Task>): set<Task> {
    set t | t in ts
  }

  /** As many rounds as there are zombies, or fewer, remove that many of them, the
      first ones first, with their numbers, and touch nothing else. */
  lemma {:induction false} ReapRounds(S: State, n: nat)
    requires Inv(S) && n <= |S.q.zombie|
    ensures Feasible(S, Rounds(n))
    ensures var S', gone := Final(S, Rounds(n)), S.q.zombie[..n];
      && S'.q == S.q.(zombie := S.q.zombie[n..]) && S'.recs == S.recs - Members(gone)
      && S'.used == S.used - NumbersOf(S.recs, gone) && S'.current == S.current
    decreases n
  {
    hide Inv, Apply;
    if n == 0 {
      NoRounds(S);
    } else {
      ReapEffect(S);
      ApplyKeeps(S, Reap);
      var S1, z, rest := Apply(S, Reap), S.q.zombie[0], S.q.zombie[1..n];
      Slices(S.q.zombie, n);
      ReapRounds(S1, n - 1);
      GoneOne(S.recs, z, rest);
      OneRound(S, n);
      hide Rounds, Feasible, Final, NumbersOf, Members;
    }
  }

  lemma Slices(s: seq<Task>, n: nat)
    requires 0 < n <= |s|
    ensures s[..n] == [s[0]] + s[1..n] && s[1..][..n - 1] == s[1..n] && s[1..][n - 1..] == s[n..]
  {
  }

  lemma NoRounds(S: State)
    requires Inv(S)
    ensures Feasible(S, Rounds(0)) && Final(S, Rounds(0)) == S
    ensures S.recs == S.recs - Members([]) && S.used == S.used - NumbersOf(S.recs, [])
  {
    hide Inv;
    assert Rounds(0) == [];
  }

  lemma OneRound(S: State, n: nat)
    requires Inv(S) && n > 0 && Defined(S, Reap) && Inv(Apply(S, Reap)) && Feasible(Apply(S, Reap), Rounds(n - 1))
    ensures Feasible(S, Rounds(n)) && Final(S, Rounds(n)) == Final(Apply(S, Reap), Rounds(n - 1))
  {
    hide Inv, Apply;
    assert Rounds(n)[0] == Reap && Rounds(n)[1..] == Rounds(n - 1);
  }

  lemma GoneOne(recs: map<Task, Rec>, z: Task, rest: seq<Task>)
    requires z in recs
    ensures Members([z] + rest) == {z} + Members(rest)
    ensures NumbersOf(recs, [z] + rest) == {recs[z].pid} + NumbersOf(recs - {z}, rest)
  {
    var s := [z] + rest;
    assert z in s && forall t :: t in rest ==> t in s;
    forall k | k in NumbersOf(recs, s) ensures k in {recs[z].pid} + NumbersOf(recs - {z}, rest) {
      var t :| t in s && t in recs && recs[t].pid == k;
      if t != z { assert t in rest && t in recs - {z}; }
    }
    forall k | k in NumbersOf(recs - {z}, rest) ensures k in NumbersOf(recs, s) {
      var t :| t in rest && t in recs - {z} && recs[t].pid == k;
      assert t in s;
    }
  }

  /** The number of a killed task can be given to a new one. */
  lemma NumberAgain(S: State, t: Task, prio: nat)
    requires Inv(S) && S.q.zombie != [] && t !in S.recs && prio < 64
    ensures Defined(S, Reap) && S.q.zombie[0] in S.recs
    ensures Enabled(Apply(S, Reap), Spawn(t, prio, S.recs[S.q.zombie[0]].pid))
  {
    hide Inv, Apply;
    FirstZombie(S);
    Basics(S, S.q.zombie[0]);
    ReapEffect(S);
  }
}
