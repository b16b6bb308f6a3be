/** Runs of the scheduler: sequences of entry points in any order, and what
    holds over all of them. */
module Runs {
  import opened Seqs
  import opened Tasks
  import opened Steps

  /** One entry point with its arguments.  In Spawn, pid is the number that
      alloc_pid hands out. */
  datatype Event =
    | Schedule | Sleep(ticks: nat) | Wait | Wakeup(t: Task) | SetPrio(t: Task, prio: nat) | Tick
    | Spawn(t: Task, prio: nat, pid: nat) | Exit | Reap
    | NewSem(s: Semaphore, c: nat) | SemWait(s: Semaphore) | SemPost(s: Semaphore)

  /** What an entry point asks of its caller. */
  predicate Enabled(S: State, e: Event) {
    match e
    case Schedule => true
    case Sleep(ticks) => S.current != S.idle && ticks < 0x1_0000_0000
    case Wait => S.current != S.idle
    case Wakeup(t) => t in S.recs && S.recs[t].stat == SLEEP
    case SetPrio(t, prio) => t in S.recs && prio < 64
    case Tick => true
    case Spawn(t, prio, pid) => t !in S.recs && prio < 64 && pid < 256 && pid !in S.used
    case Exit => S.current != S.idle
    case Reap => true
    case NewSem(s, c) => s !in S.meters && c < 0x8000_0000
    case SemWait(s) => s in S.meters && S.current != S.idle
    case SemPost(s) => s in S.meters && S.meters[s].count < 0x7FFF_FFFF
  }

  /** What the step functions read exists. */
  predicate Defined(S: State, e: Event) {
    && S.current in S.recs
    && match e
       case Wakeup(t) => t in S.recs
       case SetPrio(t, prio) => t in S.recs
       case Tick => Asleep(S.recs, S.q.sleep)
       case Spawn(t, prio, pid) => prio < |S.q.ready| && pid < |S.table|
       case Exit => S.recs[S.current].parent in S.recs && S.recs[S.current].prio < |S.q.ready|
       case Reap => S.q.zombie != [] ==> S.q.zombie[0] in S.recs && S.recs[S.q.zombie[0]].pid < |S.table|
       case SemWait(s) => s in S.meters
       case SemPost(s) => s in S.meters && s in S.q.sems
         && (S.meters[s].count + 1 <= 0 ==> S.q.sems[s] != [] && S.q.sems[s][0] in S.recs)
       case _ => true
  }

  function Apply(S: State, e: Event): State
    requires Defined(S, e)
  {
    match e
    case Schedule => Rescheduled(S)
    case Sleep(ticks) => SleepStep(S, ticks)
    case Wait => WaitStep(S)
    case Wakeup(t) => WakeupStep(S, t)
    case SetPrio(t, prio) => PrioStep(S, t, prio)
    case Tick => TickStep(S)
    case Spawn(t, prio, pid) => SpawnStep(S, t, prio, pid)
    case Exit => ExitStep(S)
    case Reap => ReapStep(S)
    case NewSem(s, c) => NewSemStep(S, s, c)
    case SemWait(s) => SemWaitStep(S, s)
    case SemPost(s) => SemPostStep(S, s)
  }

  lemma Running(S: State)
    requires Inv(S)
    ensures S.current in S.recs && S.recs[S.current].stat == READY
  {
  }

  lemma ApplyKeeps(S: State, e: Event)
    requires Inv(S) && Enabled(S, e)
    ensures Defined(S, e) && Inv(Apply(S, e))
  {
    hide Inv;
    Running(S);
    match e
    case Schedule => YieldKeeps(S);
    case Sleep(ticks) => SleepKeeps(S, ticks);
    case Wait => WaitKeeps(S);
    case Wakeup(t) => WakeupKeeps(S, t);
    case SetPrio(t, prio) => PrioKeeps(S, t, prio);
    case Tick => TickKeeps(S);
    case Spawn(t, prio, pid) => SpawnKeeps(S, t, prio, pid);
    case Exit => ExitKeeps(S);
    case Reap => ReapKeeps(S);
    case NewSem(s, c) => NewSemKeeps(S, s, c);
    case SemWait(s) => SemWaitKeeps(S, s);
    case SemPost(s) => SemPostKeeps(S, s);
  }

  // ---- runs ------------------------------------------------------------------------------

  ghost predicate Feasible(S: State, es: seq<Event>)
    requires Inv(S)
    decreases |es|
  {
    es == [] || (Enabled(S, es[0]) && (ApplyKeeps(S, es[0]); Feasible(Apply(S, es[0]), es[1..])))
  }

  ghost function Final(S: State, es: seq<Event>): (S': State)
    requires Inv(S) && Feasible(S, es)
    ensures Inv(S')
    decreases |es|
  {
    if es == [] then S else (ApplyKeeps(S, es[0]); Final(Apply(S, es[0]), es[1..]))
  }

  /** The state of the system when sched_init returns. */
  ghost predicate Initial(S: State) {
    && S.recs.Keys == {S.idle} && S.current == S.idle
    && S.recs[S.idle] == Rec(0, 63, READY, null, [], 64, 64, 0, 0, null)
    && |S.q.ready| == 64 && S.q.ready[63] == [S.idle] && (forall p :: 0 <= p < 63 ==> S.q.ready[p] == [])
    && S.q.sleep == [] && S.q.zombie == [] && S.q.sems == map[] && S.meters == map[]
    && |S.table| == 256 && S.table[0] == S.idle && (forall p :: 0 < p < 256 ==> S.table[p] == null)
    && S.used == {0} && S.birth == map[S.idle := 0] && S.births == 1
  }

  lemma InitialKeeps(S: State)
    requires Initial(S)
    ensures Inv(S)
  {
    First(S.q, S.idle);
    assert Places(S.recs) == map[S.idle := AtReady(63)];
    assert Kids(S.recs) == map[S.idle := []] && Par(S.idle, S.recs) == map[];
    hide Consistent;
  }

  // ---- consequences of the invariant -----------------------------------------------------------

  /** Every task is where its fields say, and nowhere else. */
  lemma Whereabouts(S: State, t: Task, p: Place)
    requires Inv(S) && t in S.recs && Known(S.q, p)
    ensures t in At(S.q, p) <==> p == PlaceOf(S.recs[t])
    ensures NoDup(At(S.q, p))
  {
    assert Holds(Places(S.recs), S.q, p) && Held(Places(S.recs), S.q, t);
    assert Places(S.recs)[t] == PlaceOf(S.recs[t]);
  }

  /** The parents of all tasks but the zombies lead to idle, over tasks that are
      not zombies; and each of these tasks is on the list of its parent, once,
      and on no other list. */
  lemma FamilyTree(S: State, t: Task, p: Task)
    requires Inv(S) && t in S.recs && S.recs[t].stat != ZOMBIE && t != S.idle
    requires p in S.recs && S.recs[p].stat != ZOMBIE
    ensures t in S.recs[p].children <==> S.recs[t].parent == p
    ensures NoDup(S.recs[p].children)
    ensures S.recs[t].parent in S.recs && S.recs[S.recs[t].parent].stat != ZOMBIE
    ensures exists r: seq<Task> :: r != [] && r[0] == t && r[|r| - 1] == S.idle && ParentChain(S.recs, r)
  {
    var par, kids := Par(S.idle, S.recs), Kids(S.recs);
    assert t in kids && t in par && p in kids;
    assert Child(par, kids, S.birth, t) && Siblings(par, kids, p);
    var r := Ancestry(S.idle, par, kids, S.birth, t);
    assert ParentChain(S.recs, r);
  }

  ghost predicate ParentChain(recs: map<Task, Rec>, r: seq<Task>) {
    forall i :: 0 <= i < |r| - 1 ==> r[i] in recs && recs[r[i]].stat != ZOMBIE && recs[r[i]].parent == r[i + 1]
  }

  /** Two tasks never share a number. */
  lemma DistinctNumbers(S: State, t: Task, u: Task)
    requires Inv(S) && t in S.recs && u in S.recs && S.recs[t].pid == S.recs[u].pid
    ensures t == u
  {
    assert S.table[S.recs[t].pid] == t && S.table[S.recs[u].pid] == u;
  }

  /** One sched_tick takes exactly the sleepers that are due out of the sleep
      queue, each to the end of its ready queue, in their order; then, if there
      was one or the time slice was over, the scheduler picks. */
  lemma TickWakes(S: State)
    requires Inv(S)
    ensures Defined(S, Tick)
    ensures var q := CountedDown(S.q, S.recs);
      if S.recs[S.current].restTicks == 1 || exists t :: t in S.q.sleep && Due(S.recs)(t)
      then Pickable(q) && Apply(S, Tick).q == Scheduled(q) && Apply(S, Tick).current == Next(q)
      else Apply(S, Tick).q == q && Apply(S, Tick).current == S.current
  {
    hide Inv;
    Running(S);
    CountdownQueues(S);
    CountdownPicks(S);
    KeptFewer(S.q.sleep, Due(S.recs));
    hide TickAll, Kept, Picked, Due, Scheduled, Pickable, Next;
  }

  lemma CountdownPicks(S: State)
    requires Inv(S) && Asleep(ChargeStep(S).recs, S.q.sleep)
    ensures Pickable(TickAll(ChargeStep(S), S.q.sleep).q) && TickAll(ChargeStep(S), S.q.sleep).current == S.current
  {
    ChargeKeeps(S);
    Sleepers(S);
    RunningStays(S);
    hide Inv, TickAll, ChargeStep, Rescheduled, Pickable, Asleep;
    CountdownKeeps(S, ChargeStep(S));
    MustPick(TickAll(ChargeStep(S), S.q.sleep));
  }

  // ---- sleeping -------------------------------------------------------------------------------------

  /** The ticks that a sleeper has before it: its count, but 2^32 for zero. */
  function TicksLeft(r: Rec): nat {
    if r.sleepTicks == 0 then 0x1_0000_0000 else r.sleepTicks
  }

  function Ticks(es: seq<Event>): nat {
    if es == [] then 0 else (if es[0].Tick? then 1 else 0) + Ticks(es[1..])
  }

  /** A record that sleeps on, up to its place in the family and its priority. */
  predicate SleepsOn(r0: Rec, r: Rec) {
    r.stat == SLEEP && r.sleepTicks == r0.sleepTicks
  }

  /** What becomes of the record of a sleeper in one step. */
  predicate SleeperStep(e: Event, r0: Rec, r: Rec) {
    if !e.Tick? then SleepsOn(r0, r)
    else if r0.sleepTicks == 1 then r.stat == READY
    else r.stat == SLEEP && r.sleepTicks == Dec(r0.sleepTicks)
  }

  lemma TickedSleeper(S: State, t: Task)
    requires Inv(S) && t in S.recs && S.recs[t].stat == SLEEP && Defined(S, Tick)
    ensures t in TickStep(S).recs && SleeperStep(Tick, S.recs[t], TickStep(S).recs[t])
  {
    hide TickAll, Rescheduled;
    Whereabouts(S, t, AtSleep);
    Running(S);
    RunningStaysOut(S);
    hide Inv;
    TickRecords(ChargeStep(S), S.q.sleep);
    RescheduledRecs(TickAll(ChargeStep(S), S.q.sleep));
  }

  lemma RunningStaysOut(S: State)
    requires Inv(S)
    ensures NoDup(S.q.sleep) && Asleep(ChargeStep(S).recs, S.q.sleep)
  {
    Sleepers(S);
  }

  lemma RescheduledRecs(S: State)
    ensures Rescheduled(S).recs == S.recs
  {
  }

  lemma MovedRecs(S: State, u: Task, r: Rec)
    requires u in S.recs
    ensures Moved(S, u, r).recs == S.recs[u := r] && Rescheduled(Moved(S, u, r)).recs == S.recs[u := r]
  {
  }

  /** The tasks whose status an entry point other than sched_tick may change. */
  function Touched(S: State, e: Event): set<Task> {
    match e
    case Wakeup(t) => {t}
    case Spawn(t, _, _) => {t}
    case Exit =>
      {S.current} +
      (if S.current in S.recs && S.recs[S.current].parent in S.recs then {S.recs[S.current].parent} else {})
    case Reap => if S.q.zombie != [] then {S.q.zombie[0]} else {}
    case SemPost(s) => if s in S.q.sems && S.q.sems[s] != [] then {S.q.sems[s][0]} else {}
    case _ => {S.current}
  }

  lemma ExitLeaves(S: State, t: Task)
    requires Defined(S, Exit) && t in S.recs && t !in Touched(S, Exit)
    ensures t in ExitStep(S).recs && SleepsOn(S.recs[t].(stat := SLEEP), ExitStep(S).recs[t].(stat := SLEEP))
      && ExitStep(S).recs[t].stat == S.recs[t].stat
  {
    hide Rescheduled, Moved, Without;
    var S1, p: Task := Dead(S), S.recs[S.current].parent;
    RescheduledRecs(Relieved(S1, p));
    if WaitsForChildren(S1.recs[p]) { MovedRecs(S1, p, S1.recs[p].(stat := READY)); }
  }

  lemma Untouched(S: State, e: Event, t: Task)
    requires Defined(S, e) && !e.Tick? && t in S.recs && t !in Touched(S, e)
    ensures t in Apply(S, e).recs && Apply(S, e).recs[t].stat == S.recs[t].stat
      && Apply(S, e).recs[t].sleepTicks == S.recs[t].sleepTicks
  {
    hide Rescheduled, Moved, ExitStep;
    var c := S.current;
    match e
    case Schedule => RescheduledRecs(S);
    case Sleep(ticks) => MovedRecs(S, c, S.recs[c].(sleepTicks := ticks, stat := SLEEP));
    case Wait => MovedRecs(S, c, S.recs[c].(stat := WAITING));
    case Wakeup(u) => MovedRecs(S, u, S.recs[u].(sleepTicks := 0, stat := READY));
    case SetPrio(u, prio) =>
      MovedRecs(S, u, Reprioritized(S.recs[u], prio));
      RescheduledRecs(S.(recs := S.recs[u := Reprioritized(S.recs[u], prio)]));
    case Spawn(u, prio, pid) => SpawnLeaves(S, u, prio, pid, t);
    case Exit => ExitLeaves(S, t);
    case Reap => RescheduledRecs(S);
    case NewSem(s, n) =>
    case SemWait(s) => SemWaitLeaves(S, s, t);
    case SemPost(s) => SemPostLeaves(S, s, t);
  }

  lemma SpawnLeaves(S: State, u: Task, prio: nat, pid: nat, t: Task)
    requires Defined(S, Spawn(u, prio, pid)) && t in S.recs && t != u
    ensures var S' := SpawnStep(S, u, prio, pid);
      t in S'.recs && S'.recs[t].stat == S.recs[t].stat && S'.recs[t].sleepTicks == S.recs[t].sleepTicks
  {
    hide Entered;
  }

  lemma SemWaitLeaves(S: State, s: Semaphore, t: Task)
    requires Defined(S, SemWait(s)) && t in S.recs && t != S.current
    ensures t in SemWaitStep(S, s).recs && SemWaitStep(S, s).recs[t] == S.recs[t]
  {
    hide Take, Give;
  }

  lemma SemPostLeaves(S: State, s: Semaphore, t: Task)
    requires Defined(S, SemPost(s)) && t in S.recs && t !in Touched(S, SemPost(s))
    ensures t in SemPostStep(S, s).recs && SemPostStep(S, s).recs[t] == S.recs[t]
  {
    hide Take, Give;
  }

  /** Tasks whose status may change in such a step are not asleep, but for the
      one that wakeup is called for. */
  lemma SleepersUntouched(S: State, e: Event, t: Task)
    requires Inv(S) && Enabled(S, e) && Defined(S, e) && !e.Tick? && t in S.recs && S.recs[t].stat == SLEEP
      && e != Wakeup(t)
    ensures t !in Touched(S, e) || (e.Exit? && t == S.recs[S.current].parent && t != S.current)
  {
    hide Inv;
    Running(S);
    if e.Reap? && S.q.zombie != [] { Whereabouts(S, t, AtZombie); }
    if e.SemPost? && S.q.sems[e.s] != [] { Whereabouts(S, t, AtSem(e.s)); }
  }

  /** A parent that sleeps is not woken by the end of a child. */
  lemma ExitSleeper(S: State, p: Task)
    requires Defined(S, Exit) && p == S.recs[S.current].parent && p != S.current && S.recs[p].stat == SLEEP
    ensures p in ExitStep(S).recs && SleepsOn(S.recs[p], ExitStep(S).recs[p])
  {
    hide Rescheduled, Moved, Without;
    RescheduledRecs(Relieved(Dead(S), p));
  }

  /** A step leaves a sleeper alone, unless it is a tick or its wakeup. */
  lemma SleepsThrough(S: State, e: Event, t: Task)
    requires Inv(S) && Enabled(S, e) && Defined(S, e) && t in S.recs && S.recs[t].stat == SLEEP && e != Wakeup(t)
    ensures t in Apply(S, e).recs && SleeperStep(e, S.recs[t], Apply(S, e).recs[t])
  {
    hide Inv, TickStep, ExitStep, Touched, Defined;
    if e.Tick? {
      TickedSleeper(S, t);
    } else {
      SleepersUntouched(S, e, t);
      if t !in Touched(S, e) { Untouched(S, e, t); } else { ExitSleeper(S, t); }
    }
    hide Enabled;
  }

  // ---- whole runs of a sleeper ---------------------------------------------------------------------------

  lemma FeasibleHead(S: State, es: seq<Event>)
    requires Inv(S) && Feasible(S, es) && es != []
    ensures Enabled(S, es[0]) && Defined(S, es[0]) && Inv(Apply(S, es[0]))
    ensures Feasible(Apply(S, es[0]), es[1..]) && Final(S, es) == Final(Apply(S, es[0]), es[1..])
  {
    ApplyKeeps(S, es[0]);
  }

  /** Over any run without its wakeup and with fewer ticks than it has before
      it, a sleeper sleeps on, and has that many ticks fewer before it. */
  lemma {:induction false} SleepRun(S: State, es: seq<Event>, t: Task)
    requires Inv(S) && Feasible(S, es) && t in S.recs && S.recs[t].stat == SLEEP
    requires Wakeup(t) !in es && Ticks(es) < TicksLeft(S.recs[t])
    ensures t in Final(S, es).recs
    ensures var r := Final(S, es).recs[t]; r.stat == SLEEP && TicksLeft(r) == TicksLeft(S.recs[t]) - Ticks(es)
    decreases |es|
  {
    hide Inv;
    if es != [] {
      FeasibleHead(S, es);
      assert es == [es[0]] + es[1..];
      SleepsThrough(S, es[0], t);
      RecordBound(S, t);
      var S1 := Apply(S, es[0]);
      hide Feasible, Final, Apply;
      SleepRun(S1, es[1..], t);
    }
  }

  lemma RecordBound(S: State, t: Task)
    requires Inv(S) && t in S.recs
    ensures S.recs[t].sleepTicks < 0x1_0000_0000
  {
    RecordFine(S, t);
  }

  /** A task that sleeps for k ticks is woken by the k-th tick that follows,
      whatever else happens in between, unless it is woken before; for k = 0
      it takes 2^32 ticks. */
  lemma WokenInTime(S: State, es: seq<Event>, t: Task)
    requires Inv(S) && Feasible(S, es) && t in S.recs && S.recs[t].stat == SLEEP
    requires Wakeup(t) !in es && Ticks(es) == TicksLeft(S.recs[t]) - 1
    ensures var S1 := Final(S, es);
      Defined(S1, Tick) && t in Apply(S1, Tick).recs && Apply(S1, Tick).recs[t].stat == READY
  {
    SleepRun(S, es, t);
    var S1 := Final(S, es);
    ApplyKeeps(S1, Tick);
    SleepsThrough(S1, Tick, t);
    hide Inv, Apply, Final;
  }
}
