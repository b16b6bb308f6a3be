/** What each entry point does to the records, the queues, the table and the
    counts, field by field; all that is not mentioned stays as it was. */
module Effects {
  import opened Seqs
  import opened RoundRobin
  import opened Tasks
  import opened Steps
  import opened Runs

  /** next is the first task of the first nonempty queue, and goes to its end. */
  ghost predicate Picks(ready: seq<seq<Task>>, ready': seq<seq<Task>>, next: Task) {
    exists p: nat :: PicksAt(ready, ready', next, p)
  }

  ghost predicate PicksAt(ready: seq<seq<Task>>, ready': seq<seq<Task>>, next: Task, p: nat) {
    && p < |ready| && ready[p] != [] && (forall k :: 0 <= k < p ==> ready[k] == [])
    && next == ready[p][0] && ready' == ready[p := ready[p][1..] + [ready[p][0]]]
  }

  /** From S to S', the scheduler has picked, and nothing else has happened. */
  ghost predicate Switched(S: State, S': State) {
    S' == S.(current := S'.current, q := S.q.(ready := S'.q.ready)) && Picks(S.q.ready, S'.q.ready, S'.current)
  }

  lemma RescheduledSwitches(S: State)
    requires Inv(Rescheduled(S))
    ensures Switched(S, Rescheduled(S))
  {
    MustPick(S);
    ScanLeast(S.q.ready);
    hide Inv;
    assert PicksAt(S.q.ready, Rescheduled(S).q.ready, Rescheduled(S).current, Scan(S.q.ready));
  }

  lemma Basics(S: State, t: Task)
    requires Inv(S) && t in S.recs
    ensures S.recs[t].prio < 64 == |S.q.ready| && |S.table| == 256 && S.recs[t].pid < 256
    ensures S.recs[t].timeTicks == S.recs[t].prio + 1 && S.recs[t].restTicks >= 1
    ensures S.recs[t].stat != WAITING ==> S.recs[t].waitFor == null
    ensures S.current in S.recs && S.recs[S.current].stat == READY
  {
    RecordFine(S, t);
  }

  /** schedule. */
  lemma ScheduleEffect(S: State)
    requires Inv(S)
    ensures Defined(S, Schedule) && Switched(S, Apply(S, Schedule))
  {
    Running(S);
    YieldKeeps(S);
    hide Inv;
    RescheduledSwitches(S);
  }

  /** The queue of priority p without t, and with t at its end. */
  function OutOf(ready: seq<seq<Task>>, p: nat, t: Task): seq<seq<Task>>
    requires p < |ready|
  {
    ready[p := Without(ready[p], t)]
  }

  function Into(ready: seq<seq<Task>>, p: nat, t: Task): seq<seq<Task>>
    requires p < |ready|
  {
    ready[p := ready[p] + [t]]
  }

  lemma OutLength(ready: seq<seq<Task>>, p: nat, t: Task)
    requires p < |ready|
    ensures |OutOf(ready, p, t)| == |Into(ready, p, t)| == |ready|
  {
  }

  lemma TakeReady(q: Queues, p: nat, t: Task)
    requires p < |q.ready|
    ensures Take(q, AtReady(p), t) == q.(ready := OutOf(q.ready, p, t))
    ensures Give(q, AtReady(p), t) == q.(ready := Into(q.ready, p, t))
  {
  }

  lemma TakeSleep(q: Queues, t: Task)
    ensures Take(q, AtSleep, t) == q.(sleep := Without(q.sleep, t))
    ensures Give(q, AtSleep, t) == q.(sleep := q.sleep + [t])
  {
  }

  lemma TakeSem(q: Queues, s: Semaphore, t: Task)
    requires s in q.sems
    ensures Take(q, AtSem(s), t) == q.(sems := q.sems[s := Without(q.sems[s], t)])
    ensures Give(q, AtSem(s), t) == q.(sems := q.sems[s := q.sems[s] + [t]])
  {
  }

  lemma TakeNowhere(q: Queues, t: Task)
    ensures Take(q, Nowhere, t) == Give(q, Nowhere, t) == q
  {
  }

  /** sleep: the caller sleeps, with the ticks it asked for. */
  lemma SleepEffect(S: State, k: nat)
    requires Inv(S) && Enabled(S, Sleep(k))
    ensures Defined(S, Sleep(k)) && S.recs[S.current].prio < |S.q.ready|
    ensures var c, r := S.current, S.recs[S.current];
      Switched(S.(recs := S.recs[c := r.(sleepTicks := k, stat := SLEEP)],
                  q := S.q.(ready := OutOf(S.q.ready, r.prio, c), sleep := S.q.sleep + [c])),
               Apply(S, Sleep(k)))
  {
    hide Inv, Switched, OutOf, Take, Give, Rescheduled;
    Running(S);
    Basics(S, S.current);
    SleepKeeps(S, k);
    TakeReady(S.q, S.recs[S.current].prio, S.current);
    TakeSleep(Take(S.q, AtReady(S.recs[S.current].prio), S.current), S.current);
    var c, r := S.current, S.recs[S.current];
    RescheduledSwitches(Moved(S, c, r.(sleepTicks := k, stat := SLEEP)));
  }

  /** wait: the caller waits, in no queue. */
  lemma WaitEffect(S: State)
    requires Inv(S) && Enabled(S, Wait)
    ensures Defined(S, Wait) && S.recs[S.current].prio < |S.q.ready| && S.recs[S.current].waitFor == null
    ensures var c, r := S.current, S.recs[S.current];
      Switched(S.(recs := S.recs[c := r.(stat := WAITING)], q := S.q.(ready := OutOf(S.q.ready, r.prio, c))),
               Apply(S, Wait))
  {
    hide Inv, Switched, OutOf, Take, Give, Rescheduled;
    Running(S);
    Basics(S, S.current);
    WaitKeeps(S);
    TakeReady(S.q, S.recs[S.current].prio, S.current);
    TakeNowhere(Take(S.q, AtReady(S.recs[S.current].prio), S.current), S.current);
    var c, r := S.current, S.recs[S.current];
    RescheduledSwitches(Moved(S, c, r.(stat := WAITING)));
  }

  /** wakeup: the sleeper is ready, at the end of its queue. */
  lemma WakeupEffect(S: State, t: Task)
    requires Inv(S) && Enabled(S, Wakeup(t))
    ensures Defined(S, Wakeup(t)) && S.recs[t].prio < |S.q.ready|
    ensures var r := S.recs[t];
      Switched(S.(recs := S.recs[t := r.(sleepTicks := 0, stat := READY)],
                  q := S.q.(ready := Into(S.q.ready, r.prio, t), sleep := Without(S.q.sleep, t))),
               Apply(S, Wakeup(t)))
  {
    hide Inv, Switched, Into, Take, Give, Rescheduled;
    Basics(S, t);
    WakeupKeeps(S, t);
    TakeSleep(S.q, t);
    TakeReady(Take(S.q, AtSleep, t), S.recs[t].prio, t);
    RescheduledSwitches(Moved(S, t, S.recs[t].(sleepTicks := 0, stat := READY)));
  }

  /** task_reset_prio: the priority and the time slice are the new ones; a ready
      task changes its queue, and the running task lets the scheduler pick. */
  lemma PrioEffect(S: State, t: Task, prio: nat)
    requires Inv(S) && Enabled(S, SetPrio(t, prio))
    ensures Defined(S, SetPrio(t, prio)) && S.recs[t].prio < |S.q.ready| && prio < |S.q.ready|
    ensures var r := S.recs[t];
      var ready := if r.stat == READY then Into(OutOf(S.q.ready, r.prio, t), prio, t) else S.q.ready;
      var S1 := S.(recs := S.recs[t := r.(prio := prio, timeTicks := prio + 1)], q := S.q.(ready := ready));
      if t == S.current then Switched(S1, Apply(S, SetPrio(t, prio))) else Apply(S, SetPrio(t, prio)) == S1
  {
    hide Inv, Switched, OutOf, Into, Take, Give, Rescheduled;
    Basics(S, t);
    PrioKeeps(S, t, prio);
    TakeReady(S.q, S.recs[t].prio, t);
    assert |OutOf(S.q.ready, S.recs[t].prio, t)| == 64 by { OutLength(S.q.ready, S.recs[t].prio, t); }
    TakeReady(Take(S.q, AtReady(S.recs[t].prio), t), prio, t);
    var r := Reprioritized(S.recs[t], prio);
    var S1 := if r.stat == READY then Moved(S, t, r) else S.(recs := S.recs[t := r]);
    if t == S.current { RescheduledSwitches(S1); }
  }

  /** What one tick makes of a record: the running task's slice goes on or starts
      anew, a sleeper is counted down on 32 bits and wakes at zero. */
  function AfterTick(S: State, t: Task): Rec
    requires t in S.recs
  {
    var r := S.recs[t];
    if t == S.current then
      r.(restTicks := if r.restTicks == 1 then r.timeTicks else if r.restTicks ==
        0 then 0xFFFF_FFFF else r.restTicks - 1,
         totalTicks := (r.totalTicks + 1) % 0x1_0000_0000)
    else if r.stat != SLEEP then r
    else if r.sleepTicks == 1 then r.(sleepTicks := 0, stat := READY)
    else r.(sleepTicks := if r.sleepTicks == 0 then 0xFFFF_FFFF else r.sleepTicks - 1)
  }

  lemma AfterTickIs(S: State, t: Task)
    requires Inv(S) && t in S.recs
    ensures S.current in S.recs && ChargeStep(S).recs.Keys == S.recs.Keys
    ensures AfterTick(S, t) == (if t in S.q.sleep then Ticked(ChargeStep(S).recs[t]) else ChargeStep(S).recs[t])
  {
    hide Inv, AfterTick, Ticked, Charged;
    Running(S);
    Whereabouts(S, t, AtSleep);
    ChargedIs(S, t);
  }

  lemma ChargedIs(S: State, t: Task)
    requires t in S.recs && S.current in S.recs && S.recs[S.current].stat == READY
    ensures var r := ChargeStep(S).recs[t];
      AfterTick(S, t) == if S.recs[t].stat == SLEEP then Ticked(r) else r
  {
  }

  lemma TickRecs(S: State)
    requires Inv(S)
    ensures Defined(S, Tick) && S.current in S.recs
    ensures var S', S1 := Apply(S, Tick), ChargeStep(S);
      && S' == S.(recs := S'.recs, q := S'.q, current := S'.current) && S'.recs.Keys == S.recs.Keys
      && forall t :: t in S1.recs ==>
        t in S'.recs && S'.recs[t] == if t in S.q.sleep then Ticked(S1.recs[t]) else S1.recs[t]
  {
    hide Inv, TickStep, TickAll, Asleep, Ticked, Charged;
    TickKeeps(S);
    Running(S);
    RunningStaysOut(S);
    TickRecords(ChargeStep(S), S.q.sleep);
    assert TickStep(S) == TickAll(ChargeStep(S), S.q.sleep).(q := TickStep(S).q, current := TickStep(S).current) by {
      TickStepFrame(S);
    }
  }

  lemma TickStepFrame(S: State)
    requires Defined(S, Tick) && Asleep(ChargeStep(S).recs, S.q.sleep)
    ensures var S', S2 := TickStep(S), TickAll(ChargeStep(S), S.q.sleep); S' == S2.(q := S'.q, current := S'.current)
  {
    hide TickAll, ChargeStep, Rescheduled;
    RescheduledFrame(TickAll(ChargeStep(S), S.q.sleep));
  }

  lemma RescheduledFrame(S: State)
    ensures var S' := Rescheduled(S); S' == S.(q := S'.q, current := S'.current)
  {
  }

  /** sched_tick, for the records; TickWakes says the rest. */
  lemma TickEffect(S: State, t: Task)
    requires Inv(S) && t in S.recs
    ensures Defined(S, Tick) && t in Apply(S, Tick).recs && Apply(S, Tick).recs[t] == AfterTick(S, t)
    ensures var S' := Apply(S, Tick);
      S' == S.(recs := S'.recs, q := S'.q, current := S'.current) && S'.recs.Keys == S.recs.Keys
  {
    hide Inv, Apply, AfterTick, Ticked, Defined, ChargeStep;
    AfterTickIs(S, t);
    TickRecs(S);
  }

  /** sched_tick, for the queues: the sleepers that are due have left, each for the
      end of its ready queue, in their order; the scheduler picks exactly if
      there was one or the time slice was over. */
  lemma TickQueuesEffect(S: State)
    requires Inv(S)
    ensures Defined(S, Tick)
    ensures var S' := Apply(S, Tick);
      var S1 := S.(recs := S'.recs, q := CountedDown(S.q, S.recs));
      if S.recs[S.current].restTicks == 1 || exists t :: t in S.q.sleep && S.recs[t].sleepTicks == 1
      then Switched(S1, S') else S' == S1
  {
    hide Inv, TickAll, Switched, Rescheduled, CountedDown, Kept, Ticked, Charged;
    Running(S);
    TickRecs(S);
    CountdownQueues(S);
    CountdownPicks(S);
    CountdownInv(S);
    RescheduledSwitches(TickAll(ChargeStep(S), S.q.sleep));
    RescheduledFrame(TickAll(ChargeStep(S), S.q.sleep));
    AllFrame(S);
    FewerSleep(S);
  }

  lemma AllFrame(S: State)
    requires Inv(S) && Asleep(ChargeStep(S).recs, S.q.sleep)
    ensures var S2 := TickAll(ChargeStep(S), S.q.sleep); S2 == S.(recs := S2.recs, q := S2.q)
  {
    RunningStaysOut(S);
    hide Inv, TickAll, Ticked, Charged;
    TickRecords(ChargeStep(S), S.q.sleep);
  }

  lemma FewerSleep(S: State)
    requires Asleep(S.recs, S.q.sleep)
    ensures |CountedDown(S.q, S.recs).sleep| < |S.q.sleep| <==> exists t :: t in S.q.sleep && S.recs[t].sleepTicks == 1
  {
    KeptFewer(S.q.sleep, Due(S.recs));
    hide Kept, Picked;
  }

  lemma CountdownInv(S: State)
    requires Inv(S) && Asleep(ChargeStep(S).recs, S.q.sleep)
    ensures Inv(Rescheduled(TickAll(ChargeStep(S), S.q.sleep)))
  {
    ChargeKeeps(S);
    Sleepers(S);
    RunningStays(S);
    hide Inv, TickAll, ChargeStep, Rescheduled, Asleep;
    CountdownKeeps(S, ChargeStep(S));
  }

  // ---- task_init, task_exit, task_kill --------------------------------------------------

  /** kernel_thread: a new task with a full slice, the last child of the caller,
      at the end of its queue, under its number in the table. */
  lemma SpawnEffect(S: State, t: Task, prio: nat, pid: nat)
    requires Inv(S) && Enabled(S, Spawn(t, prio, pid))
    ensures Defined(S, Spawn(t, prio, pid))
    ensures var c, r := S.current, S.recs[S.current];
      Switched(S.(recs := S.recs[c := r.(children := r.children + [t])]
                            [t := Rec(pid, prio, READY, c, [], prio + 1, prio + 1, 0, 0, null)],
                  q := S.q.(ready := Into(S.q.ready, prio, t)), table := S.table[pid := t],
                  used := S.used + {pid}, birth := S.birth[t := S.births], births := S.births + 1),
               Apply(S, Spawn(t, prio, pid)))
  {
    hide Inv, Switched, Rescheduled;
    Running(S);
    SpawnKeeps(S, t, prio, pid);
    var S1 := S.(recs := Spawned(S.recs, S.current, t, prio, pid), q := Entered(S.q, AtReady(prio), t),
                 table := S.table[pid := t], used := S.used + {pid}, birth := S.birth[t := S.births],
                 births := S.births + 1);
    RescheduledSwitches(S1);
  }

  /** The list of the parent of the running task once that has ended: the others,
      and then the children of the ended one. */
  function HeirsOf(S: State): seq<Task>
    requires S.current in S.recs && S.recs[S.current].parent in S.recs
  {
    Without(S.recs[S.recs[S.current].parent].children, S.current) + S.recs[S.current].children
  }

  /** The parent waits for its children to end, and the last one has ended. */
  predicate LastGone(S: State)
    requires S.current in S.recs && S.recs[S.current].parent in S.recs
  {
    var r := S.recs[S.recs[S.current].parent];
    r.stat == WAITING && r.waitFor == null && HeirsOf(S) == []
  }

  /** What the end of the running task makes of the record of t. */
  function AfterExit(S: State, t: Task): Rec
    requires t in S.recs && S.current in S.recs && S.recs[S.current].parent in S.recs
  {
    var p, r := S.recs[S.current].parent, S.recs[t];
    if t == S.current then r.(children := [], stat := ZOMBIE)
    else if t == p then r.(children := HeirsOf(S), stat := if LastGone(S) then READY else r.stat)
    else if t in S.recs[S.current].children then r.(parent := p)
    else r
  }

  lemma ExitRecs(S: State, t: Task)
    requires Defined(S, Exit) && t in S.recs && S.recs[S.current].parent != S.current
    ensures t in Ended(S).recs && Ended(S).recs[t] == AfterExit(S, t) && Ended(S).recs.Keys == S.recs.Keys
  {
    hide Take, Give, Without, PlaceOf;
  }

  lemma ExitQueues(S: State)
    requires Defined(S, Exit) && S.recs[S.current].parent != S.current
    requires var p: Task := S.recs[S.current].parent; S.recs[p].prio < |S.q.ready|
    ensures var c, p: Task := S.current, S.recs[S.current].parent;
      var ready := OutOf(S.q.ready, S.recs[c].prio, c);
      && Ended(S) == S.(recs := Ended(S).recs, q := Ended(S).q)
      && Ended(S).q == S.q.(zombie := S.q.zombie + [c],
                            ready := if LastGone(S) then Into(ready, S.recs[p].prio, p) else ready)
  {
    hide Without;
    var c, p: Task := S.current, S.recs[S.current].parent;
    var q1 := Entered(Left(S.q, AtReady(S.recs[c].prio), c), AtZombie, c);
    TakeNowhere(q1, p);
    TakeReady(q1, S.recs[p].prio, p);
    hide Take, Give, Into;
  }

  /** kthread_exit: the running task is a zombie, its children have moved to its
      parent, and the parent is ready if it waited for this. */
  lemma ExitEffect(S: State)
    requires Inv(S) && Enabled(S, Exit)
    ensures Defined(S, Exit) && S.recs[S.recs[S.current].parent].prio < |S.q.ready|
    ensures Apply(S, Exit).recs.Keys == S.recs.Keys
    ensures forall t :: t in S.recs ==> Apply(S, Exit).recs[t] == AfterExit(S, t)
    ensures var c, p: Task, S' := S.current, S.recs[S.current].parent, Apply(S, Exit);
      var ready := OutOf(S.q.ready, S.recs[c].prio, c);
      Switched(S.(recs := S'.recs,
                  q := S.q.(zombie := S.q.zombie + [c],
                            ready := if LastGone(S) then Into(ready, S.recs[p].prio, p) else ready)), S')
  {
    hide Inv, Switched, Rescheduled, Ended, AfterExit, LastGone, OutOf, Into;
    Running(S);
    ExitKeeps(S);
    OrphanedFamily(S);
    Basics(S, S.recs[S.current].parent);
    RescheduledSwitches(Ended(S));
    RescheduledRecs(Ended(S));
    ExitQueues(S);
    ExitRecs(S, S.current);
    forall t | t in S.recs ensures Apply(S, Exit).recs[t] == AfterExit(S, t) { ExitRecs(S, t); }
  }

  /** kkill_zombie: the first zombie is gone, with its entry in the table, and its
      number is free again; without a zombie the scheduler picks. */
  lemma ReapEffect(S: State)
    requires Inv(S)
    ensures Defined(S, Reap)
    ensures if S.q.zombie == [] then Switched(S, Apply(S, Reap))
      else
        var z := S.q.zombie[0];
        && z != S.current && S.recs[z].stat == ZOMBIE && S.recs[z].pid in S.used && S.table[S.recs[z].pid] == z
        && Apply(S, Reap) == S.(recs := S.recs - {z}, q := S.q.(zombie := S.q.zombie[1..]),
                                table := S.table[S.recs[z].pid := null], used := S.used - {S.recs[z].pid},
                                birth := S.birth - {z})
  {
    hide Inv, Switched, Rescheduled, KillStep;
    Running(S);
    ReapKeeps(S);
    if S.q.zombie == [] {
      RescheduledSwitches(S);
    } else {
      FirstZombie(S);
      KillIs(S, S.q.zombie[0]);
    }
  }

  lemma FirstZombie(S: State)
    requires Inv(S) && S.q.zombie != []
    ensures var z := S.q.zombie[0];
      && z in S.recs && S.recs[z].stat == ZOMBIE && S.recs[z].pid < |S.table|
      && S.recs[z].pid in S.used && S.table[S.recs[z].pid] == z
  {
    hide Rooted, Metered, AllWellFormed, NoDup, Held;
    assert Holds(Places(S.recs), S.q, AtZombie) && S.q.zombie[0] in At(S.q, AtZombie);
    assert PlaceOf(S.recs[S.q.zombie[0]]) == AtZombie;
  }

  lemma KillIs(S: State, z: Task)
    requires z in S.recs && S.recs[z].pid < |S.table| && S.q.zombie != [] && S.q.zombie[0] == z
    ensures KillStep(S, z) == S.(recs := S.recs - {z}, q := S.q.(zombie := S.q.zombie[1..]),
                                 table := S.table[S.recs[z].pid := null], used := S.used - {S.recs[z].pid},
                                 birth := S.birth - {z})
  {
  }

  // ---- semaphores ---------------------------------------------------------------------------

  /** Only the books of s differ, and the count is c. */
  ghost predicate Counted(S: State, S': State, s: Semaphore, c: int) {
    && s in S'.meters && S'.meters[s].count == c
    && S' == S.(meters := S.meters[s := S'.meters[s]])
  }

  /** sem_init. */
  lemma NewSemEffect(S: State, s: Semaphore, c: nat)
    requires Inv(S) && Enabled(S, NewSem(s, c))
    ensures Defined(S, NewSem(s, c))
    ensures Counted(S.(q := S.q.(sems := S.q.sems[s := []])), Apply(S, NewSem(s, c)), s, c)
  {
    hide Inv;
    Running(S);
  }

  lemma SemHas(S: State, s: Semaphore)
    requires Inv(S) && s in S.meters
    ensures s in S.q.sems && |S.q.sems[s]| == (if S.meters[s].count < 0 then -S.meters[s].count else 0)
    ensures S.meters[s].count >= -256
  {
    assert Balanced(S.meters[s], S.q.sems[s]);
    hide Core;
    assert At(S.q, AtSem(s)) == S.q.sems[s];
    QueueBound(S, AtSem(s));
  }

  /** sem_wait: a unit is taken if there is one; otherwise the caller waits, at
      the end of the queue.  The count falls by one in either case. */
  lemma SemWaitEffect(S: State, s: Semaphore)
    requires Inv(S) && Enabled(S, SemWait(s))
    ensures Defined(S, SemWait(s)) && s in S.q.sems && S.recs[S.current].prio < |S.q.ready|
    ensures var c, r, n, S' := S.current, S.recs[S.current], S.meters[s].count, Apply(S, SemWait(s));
      s in S'.meters &&
      if n > 0 then Counted(S, S', s, n - 1)
      else
        && S'.meters == S.meters[s := S'.meters[s]] && S'.meters[s].count == n - 1
        && Switched(S.(recs := S.recs[c := r.(stat := WAITING, waitFor := s)], meters := S'.meters,
                       q := S.q.(ready := OutOf(S.q.ready, r.prio, c), sems := S.q.sems[s := S.q.sems[s] + [c]])), S')
  {
    hide Inv, Switched, Rescheduled, OutOf, Take, Give;
    Running(S);
    Basics(S, S.current);
    SemHas(S, s);
    SemWaitKeeps(S, s);
    var c, r := S.current, S.recs[S.current];
    var m := S.meters[s].(count := S.meters[s].count - 1, waits := S.meters[s].waits + 1);
    if S.meters[s].count <= 0 {
      TakeReady(S.q, r.prio, c);
      TakeSem(Take(S.q, AtReady(r.prio), c), s, c);
      var S1 := Moved(S.(meters := S.meters[s := m.(blocked := m.blocked + [c])]), c,
        r.(stat := WAITING, waitFor := s));
      RescheduledSwitches(S1);
      RescheduledFrame(S1);
    }
  }

  /** sem_post: the first task that waits is ready, at the end of its queue, if
      there is one.  The count rises by one in either case. */
  lemma SemPostEffect(S: State, s: Semaphore)
    requires Inv(S) && Enabled(S, SemPost(s))
    ensures Defined(S, SemPost(s)) && s in S.q.sems
    ensures if S.q.sems[s] == [] then Counted(S, Apply(S, SemPost(s)), s, S.meters[s].count + 1)
      else
        var t := S.q.sems[s][0];
        && t in S.recs && S.recs[t].prio < |S.q.ready|
        && Counted(S.(recs := S.recs[t := S.recs[t].(stat := READY, waitFor := null)],
                      q := S.q.(ready := Into(S.q.ready, S.recs[t].prio, t), sems := S.q.sems[s := S.q.sems[s][1..]])),
                   Apply(S, SemPost(s)), s, S.meters[s].count + 1)
  {
    hide Inv, Into, Take, Give;
    Running(S);
    SemHas(S, s);
    SemPostKeeps(S, s);
    if S.q.sems[s] != [] {
      var t := S.q.sems[s][0];
      Waiter(S, s);
      Basics(S, t);
      TakeSem(S.q, s, t);
      TakeReady(Take(S.q, AtSem(s), t), S.recs[t].prio, t);
      assert Without(S.q.sems[s], t) == S.q.sems[s][1..];
    }
  }

  lemma Waiter(S: State, s: Semaphore)
    requires Inv(S) && s in S.q.sems && S.q.sems[s] != []
    ensures var t := S.q.sems[s][0]; t in S.recs && S.recs[t].stat == WAITING && S.recs[t].waitFor == s
  {
    hide Core;
    WaitsAt(S, s);
  }
}
