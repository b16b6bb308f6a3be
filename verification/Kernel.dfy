/** The scheduler as it runs: tasks, queues, table and bitmaps in memory.
    Every entry point is proved to be its step on states. */
module Kernel {
  import opened Seqs
  import opened RoundRobin
  import opened Pids
  import opened Tasks
  import opened Steps
  import opened Runs

  class Kernel {
    var current: Task
    const idle: Task
    const tbl: array<Task?>
    const pids: PidMap
    const rr: RoundRobin<Task>
    var sleepQ: seq<Task>
    var zombieQ: seq<Task>
    /** The state that the memory stands for. */
    ghost var abs: State

    ghost predicate QueuesAre(q: Queues)
      reads this`sleepQ, this`zombieQ, rr, rr.queue, rr.bitTbl, q.sems.Keys`queue
    {
      && rr.Valid() && rr.queue[..] == q.ready && sleepQ == q.sleep && zombieQ == q.zombie
      && forall s :: s in q.sems ==> s.queue == q.sems[s]
    }

    ghost predicate RecordsAre(recs: map<Task, Rec>)
      reads recs.Keys
    {
      forall t :: t in recs ==> RecordOf(t) == recs[t]
    }

    ghost predicate NumbersAre(table: seq<Task?>, used: set<nat>)
      reads tbl, pids, pids.tbl
    {
      tbl[..] == table && pids.Valid() && pids.Used() == used
    }

    ghost predicate CountsAre(meters: map<Semaphore, Meter>)
      reads meters.Keys`count
    {
      forall s :: s in meters ==> s.count == meters[s].count
    }

    /** The memory is as S says. */
    ghost predicate Shows(S: State)
      reads this`current, this`sleepQ, this`zombieQ, rr, rr.queue, rr.bitTbl, tbl, pids, pids.tbl
      reads S.recs.Keys, S.q.sems.Keys`queue, S.meters.Keys`count
    {
      && current == S.current && idle == S.idle && rr.bitTbl != pids.tbl
      && QueuesAre(S.q) && RecordsAre(S.recs) && NumbersAre(S.table, S.used) && CountsAre(S.meters)
    }

    ghost predicate Valid()
      reads this, rr, rr.queue, rr.bitTbl, tbl, pids, pids.tbl
      reads abs.recs.Keys, abs.q.sems.Keys`queue, abs.meters.Keys`count
    {
      Shows(abs) && Inv(abs)
    }

    /** sched_init, which runs as idle. */
    constructor ()
      ensures Valid() && Initial(abs) && fresh(idle)
    {
      hide Inv, Initial;
      var t := FirstTask();
      FirstHolds(t);
      var p := FirstNumber();
      var tab := new Task?[256](i => if i == 0 then t else null);
      assert tab[..] == FirstTable(t);
      var r := FirstReady(t);
      current, idle, tbl, pids, rr, sleepQ, zombieQ := t, t, tab, p, r, [], [];
      abs := FirstState(t);
      new;
      hide RoundRobin<Task>.Valid, PidMap.Valid, PidMap.Used, FirstQueues, FirstTable;
      assert tbl[..] == FirstTable(t);
      FirstShows(t);
      hide Shows, FirstState;
    }

    lemma FirstShows(t: Task)
      requires current == idle == t && sleepQ == zombieQ == [] && rr.bitTbl != pids.tbl
      requires rr.Valid() && rr.queue[..] == FirstQueues(t) && tbl[..] == FirstTable(t) && pids.Valid()
        && pids.Used() == {0}
      requires RecordOf(t) == Rec(0, 63, READY, null, [], 64, 64, 0, 0, null)
      ensures Shows(FirstState(t))
    {
      hide FirstQueues, FirstTable;
    }

    /** schedule, switch_to being the change of current. */
    method Resched(ghost S: State)
      requires Shows(S) && Pickable(S.q)
      modifies this`current, rr.queue
      ensures Shows(Rescheduled(S))
    {
      hide RecordsAre, NumbersAre, CountsAre;
      ghost var p := Scan(S.q.ready);
      assert rr.queue[p] != [] by { assert rr.queue[..][p] == rr.queue[p]; }
      hide Scan;
      current := rr.PickNext();
    }

    /** sched_ops->enqueue. */
    method EnqueueReady(t: Task, ghost S: State)
      requires Shows(S) && t.prio < |S.q.ready| == 64
      modifies rr, rr.queue, rr.bitTbl
      ensures Shows(S.(q := Give(S.q, AtReady(t.prio), t)))
    {
      hide RecordsAre, NumbersAre, CountsAre;
      rr.Enqueue(t, t.prio);
    }

    /** sched_ops->dequeue. */
    method DequeueReady(t: Task, ghost S: State)
      requires Shows(S) && t.prio < |S.q.ready| == 64 && t in S.q.ready[t.prio] && NoDup(S.q.ready[t.prio])
      modifies rr, rr.queue, rr.bitTbl
      ensures Shows(S.(q := Take(S.q, AtReady(t.prio), t)))
    {
      hide RecordsAre, NumbersAre, CountsAre;
      rr.Dequeue(t, t.prio);
    }

    /** A ready task is in the queue of its priority. */
    lemma InReady(S: State, t: Task)
      requires Inv(S) && Shows(S) && t in S.recs && S.recs[t].stat == READY
      ensures t.prio == S.recs[t].prio && t.prio < |S.q.ready| == 64
      ensures t in S.q.ready[t.prio] && NoDup(S.q.ready[t.prio]) && PlaceOf(S.recs[t]) == AtReady(t.prio)
    {
      RecordFine(S, t);
      assert RecordOf(t) == S.recs[t];
      hide Inv, RecordsAre;
      Whereabouts(S, t, AtReady(t.prio));
    }

    // ---- the queues of task_queue.c, and single fields ----------------------------------

    /** tq_enqueue; the place names the queue. */
    method TqEnqueue(tq: Place, t: Task, ghost S: State)
      requires Shows(S) && Known(S.q, tq) && !tq.AtReady?
      modifies this`sleepQ, this`zombieQ, (if tq.AtSem? then {tq.sem} else {})`queue
      ensures Shows(S.(q := Give(S.q, tq, t)))
    {
      hide RecordsAre, NumbersAre, CountsAre;
      match tq
      case AtSleep => sleepQ := sleepQ + [t];
      case AtZombie => zombieQ := zombieQ + [t];
      case AtSem(s) => s.queue := s.queue + [t];
    }

    /** tq_dequeue. */
    method TqDequeue(tq: Place, t: Task, ghost S: State)
      requires Shows(S) && Known(S.q, tq) && !tq.AtReady?
      modifies this`sleepQ, this`zombieQ, (if tq.AtSem? then {tq.sem} else {})`queue
      ensures Shows(S.(q := Take(S.q, tq, t)))
    {
      hide RecordsAre, NumbersAre, CountsAre;
      match tq
      case AtSleep => sleepQ := Without(sleepQ, t);
      case AtZombie => zombieQ := Without(zombieQ, t);
      case AtSem(s) => s.queue := Without(s.queue, t);
    }

    method SetStat(t: Task, stat: Stat, ghost S: State)
      requires Shows(S) && t in S.recs
      modifies t`stat
      ensures Shows(S.(recs := S.recs[t := S.recs[t].(stat := stat)]))
    {
      hide QueuesAre, NumbersAre, CountsAre;
      t.stat := stat;
    }

    method SetWaitFor(t: Task, s: Semaphore?, ghost S: State)
      requires Shows(S) && t in S.recs
      modifies t`waitFor
      ensures Shows(S.(recs := S.recs[t := S.recs[t].(waitFor := s)]))
    {
      hide QueuesAre, NumbersAre, CountsAre;
      t.waitFor := s;
    }

    method SetCount(s: Semaphore, c: int, ghost S: State, ghost m: Meter)
      requires Shows(S) && s in S.meters && m.count == c
      modifies s`count
      ensures Shows(S.(meters := S.meters[s := m]))
    {
      hide QueuesAre, NumbersAre, RecordsAre;
      s.count := c;
    }

    method SetPriority(t: Task, prio: nat, ghost S: State)
      requires Shows(S) && t in S.recs
      modifies t`prio, t`timeTicks
      ensures Shows(S.(recs := S.recs[t := Reprioritized(S.recs[t], prio)]))
    {
      hide QueuesAre, NumbersAre, CountsAre;
      t.prio := prio;
      t.timeTicks := prio + 1;
    }

    method SetSleepTicks(t: Task, k: nat, ghost S: State)
      requires Shows(S) && t in S.recs
      modifies t`sleepTicks
      ensures Shows(S.(recs := S.recs[t := S.recs[t].(sleepTicks := k)]))
    {
      hide QueuesAre, NumbersAre, CountsAre;
      t.sleepTicks := k;
    }

    // ---- the entry points ---------------------------------------------------------------------

    /** sleep. */
    method Sleep(ticks: nat)
      requires Valid() && Enabled(abs, Event.Sleep(ticks))
      modifies this`current, this`sleepQ, this`zombieQ, this`abs, rr, rr.queue, rr.bitTbl, current
      ensures Valid() && Defined(old(abs), Event.Sleep(ticks)) && abs == Apply(old(abs), Event.Sleep(ticks))
    {
      hide Inv, Shows, Take, Give, Rescheduled, Pickable;
      ghost var S := abs;
      ApplyKeeps(S, Event.Sleep(ticks));
      var t := current;
      RunningReady(S);
      DequeueReady(t, S);
      ghost var S1 := S.(q := Take(S.q, AtReady(t.prio), t));
      SetSleepTicks(t, ticks, S1);
      ghost var S2 := S1.(recs := S1.recs[t := S1.recs[t].(sleepTicks := ticks)]);
      SetStat(t, SLEEP, S2);
      ghost var S3 := S2.(recs := S2.recs[t := S2.recs[t].(stat := SLEEP)]);
      TqEnqueue(AtSleep, t, S3);
      ghost var S4 := S3.(q := Give(S3.q, AtSleep, t));
      AssembledInTwo(S, t, S.recs[t].(sleepTicks := ticks), S.recs[t].(sleepTicks := ticks, stat := SLEEP), S4);
      MustPick(S4);
      Resched(S4);
      abs := Rescheduled(S4);
    }

    /** wait. */
    method Wait()
      requires Valid() && Enabled(abs, Event.Wait)
      modifies this`current, this`abs, rr, rr.queue, rr.bitTbl, current
      ensures Valid() && Defined(old(abs), Event.Wait) && abs == Apply(old(abs), Event.Wait)
    {
      hide Inv, Shows, Take, Give, Rescheduled, Pickable;
      ghost var S := abs;
      ApplyKeeps(S, Event.Wait);
      var t := current;
      RunningReady(S);
      DequeueReady(t, S);
      ghost var S1 := S.(q := Take(S.q, AtReady(t.prio), t));
      SetStat(t, WAITING, S1);
      ghost var S2 := S1.(recs := S1.recs[t := S1.recs[t].(stat := WAITING)]);
      NotWaiting(S, t);
      GiveNowhere(S2.q, t);
      Assembled(S, t, S.recs[t].(stat := WAITING), S2);
      MustPick(S2);
      Resched(S2);
      abs := Rescheduled(S2);
    }

    /** wakeup of a sleeping task. */
    method Wakeup(t: Task)
      requires Valid() && Enabled(abs, Event.Wakeup(t))
      modifies this`current, this`sleepQ, this`zombieQ, this`abs, rr, rr.queue, rr.bitTbl, t
      ensures Valid() && Defined(old(abs), Event.Wakeup(t)) && abs == Apply(old(abs), Event.Wakeup(t))
    {
      hide Inv, Shows, Take, Give, Rescheduled, Pickable;
      ghost var S := abs;
      ApplyKeeps(S, Event.Wakeup(t));
      Sound(S, t);
      SizesKept(S.q, AtSleep, t);
      TqDequeue(AtSleep, t, S);
      ghost var S1 := S.(q := Take(S.q, AtSleep, t));
      SetSleepTicks(t, 0, S1);
      ghost var S2 := S1.(recs := S1.recs[t := S1.recs[t].(sleepTicks := 0)]);
      SetStat(t, READY, S2);
      ghost var S3 := S2.(recs := S2.recs[t := S2.recs[t].(stat := READY)]);
      FieldsOf(S3, t);
      EnqueueReady(t, S3);
      ghost var S4 := S3.(q := Give(S3.q, AtReady(t.prio), t));
      AssembledInTwo(S, t, S.recs[t].(sleepTicks := 0), S.recs[t].(sleepTicks := 0, stat := READY), S4);
      MustPick(S4);
      Resched(S4);
      abs := Rescheduled(S4);
    }

    lemma FieldsOf(S: State, t: Task)
      requires Shows(S) && t in S.recs
      ensures RecordOf(t) == S.recs[t] && |S.q.ready| == |rr.queue[..]|
    {
    }

    /** schedule, called from a timer interrupt or by a task that yields. */
    method Yield()
      requires Valid()
      modifies this`current, this`abs, rr.queue
      ensures Valid() && Defined(old(abs), Schedule) && abs == Apply(old(abs), Schedule)
    {
      hide Inv, Shows, Rescheduled, Pickable;
      ApplyKeeps(abs, Schedule);
      MustPick(abs);
      Resched(abs);
      abs := Rescheduled(abs);
    }

    /** task_reset_prio. */
    method ResetPrio(t: Task, prio: nat)
      requires Valid() && Enabled(abs, SetPrio(t, prio))
      modifies this`current, this`abs, rr, rr.queue, rr.bitTbl, t
      ensures Valid() && Defined(old(abs), SetPrio(t, prio)) && abs == Apply(old(abs), SetPrio(t, prio))
    {
      hide Inv, Shows, Take, Give, Rescheduled, Pickable;
      ghost var S := abs;
      ApplyKeeps(S, SetPrio(t, prio));
      FieldsOf(S, t);
      Sound(S, t);
      ghost var r := Reprioritized(S.recs[t], prio);
      ghost var S3;
      if t.stat == READY {
        InReady(S, t);
        SizesKept(S.q, AtReady(t.prio), t);
        DequeueReady(t, S);
        ghost var S1 := S.(q := Take(S.q, AtReady(t.prio), t));
        SetPriority(t, prio, S1);
        ghost var S2 := S1.(recs := S1.recs[t := r]);
        FieldsOf(S2, t);
        EnqueueReady(t, S2);
        S3 := S2.(q := Give(S2.q, AtReady(prio), t));
        Assembled(S, t, r, S3);
      } else {
        SetPriority(t, prio, S);
        S3 := S.(recs := S.recs[t := r]);
      }
      CurrentIs(S3);
      if t == current {
        MustPick(S3);
        Resched(S3);
        abs := Rescheduled(S3);
      } else {
        abs := S3;
      }
    }

    lemma CurrentIs(S: State)
      requires Shows(S)
      ensures current == S.current
    {
    }

    // ---- sched_tick ---------------------------------------------------------------------------------

    /** The running task is charged. */
    method Charge(ghost S: State) returns (over: bool)
      requires Shows(S) && current in S.recs && S.current == current
      modifies current`restTicks, current`totalTicks
      ensures Shows(ChargeStep(S)) && over == (S.recs[current].restTicks == 1)
    {
      hide QueuesAre, NumbersAre, CountsAre, Charged, Dec;
      over := false;
      assert RecordOf(current) == S.recs[current];
      current.restTicks := Dec(current.restTicks);
      current.totalTicks := (current.totalTicks + 1) % 0x1_0000_0000;
      if current.restTicks == 0 {
        current.restTicks := current.timeTicks;
        over := true;
      }
      DecOne(S.recs[current].restTicks);
      ChargedIs(S.recs[current], RecordOf(current));
    }

    /** The loop body of sched_tick, at the sleeper t. */
    method CountDown(t: Task, ghost S: State) returns (due: bool)
      requires Shows(S) && t in S.recs && S.recs[t].stat == SLEEP && S.recs[t].prio < |S.q.ready| == 64
      modifies this`sleepQ, this`zombieQ, rr, rr.queue, rr.bitTbl, t
      ensures Shows(TickOne(S, t)) && due == (S.recs[t].sleepTicks == 1)
    {
      hide Shows, Take, Give;
      FieldsOf(S, t);
      var k := Dec(t.sleepTicks);
      SetSleepTicks(t, k, S);
      ghost var S1 := S.(recs := S.recs[t := S.recs[t].(sleepTicks := k)]);
      due := k == 0;
      if due {
        SizesKept(S.q, AtSleep, t);
        TqDequeue(AtSleep, t, S1);
        ghost var S2 := S1.(q := Take(S1.q, AtSleep, t));
        SetStat(t, READY, S2);
        ghost var S3 := S2.(recs := S2.recs[t := S2.recs[t].(stat := READY)]);
        FieldsOf(S3, t);
        EnqueueReady(t, S3);
        ghost var S4 := S3.(q := Give(S3.q, AtReady(t.prio), t));
        AssembledInTwo(S, t, S.recs[t].(sleepTicks := 0), S.recs[t].(sleepTicks := 0, stat := READY), S4);
      }
    }

    /** The traversal of the sleep queue, from which sleepers are taken on the way. */
    method TickLoop(ghost S0: State) returns (woke: bool, ghost S: State)
      requires Shows(S0) && NoDup(S0.q.sleep) && |S0.q.ready| == 64 && Alike(S0.recs, S0.recs, S0.q.sleep)
      modifies this`sleepQ, this`zombieQ, rr, rr.queue, rr.bitTbl, S0.recs.Keys
      ensures Asleep(S0.recs, S0.q.sleep) && S == TickAll(S0, S0.q.sleep) && Shows(S)
      ensures woke == (|S.q.sleep| < |S0.q.sleep|)
    {
      hide Shows, NoDup, TickOne;
      S := S0;
      woke := false;
      var i := 0;
      ghost var kept, rest: seq<Task> := [], S0.q.sleep;
      assert kept + rest == S0.q.sleep;
      QueueIs(S);
      while i < |sleepQ|
        invariant Shows(S) && sleepQ == S.q.sleep && Walking(S, S0, kept, rest) && i == |kept|
        invariant woke == (|S.q.sleep| < |S0.q.sleep|)
        decreases |rest|
      {
        var t := sleepQ[i];
        WalkStep(S, S0, kept, rest);
        var due := CountDown(t, S);
        S, rest := TickOne(S, t), rest[1..];
        if due {
          woke := true;
        } else {
          kept := kept + [t];
          i := i + 1;
        }
        QueueIs(S);
      }
      WalkDone(S, S0, kept, rest);
    }

    lemma QueueIs(S: State)
      requires Shows(S)
      ensures sleepQ == S.q.sleep && zombieQ == S.q.zombie
    {
    }

    /** sched_tick. */
    method TimerTick()
      requires Valid()
      modifies this`current, this`sleepQ, this`zombieQ, this`abs, rr, rr.queue, rr.bitTbl, abs.recs.Keys
      ensures Valid() && Defined(old(abs), Tick) && abs == Apply(old(abs), Tick)
    {
      hide Inv, Shows, Rescheduled, Pickable, TickAll, ChargeStep, Asleep, Alike, NoDup;
      ghost var S := abs;
      ApplyKeeps(S, Tick);
      RunningReady(S);
      TickReady(S);
      var over := Charge(S);
      var woke;
      ghost var S2;
      woke, S2 := TickLoop(ChargeStep(S));
      if over || woke {
        MustPick(S2);
        Resched(S2);
        abs := Rescheduled(S2);
      } else {
        abs := S2;
      }
    }

    // ---- semaphores ----------------------------------------------------------------------------------

    /** sem_init of a new semaphore. */
    method SemInit(c: nat) returns (s: Semaphore)
      requires Valid() && c < 0x8000_0000
      modifies this`abs
      ensures Valid() && fresh(s) && s !in old(abs).meters
      ensures Defined(old(abs), NewSem(s, c)) && abs == Apply(old(abs), NewSem(s, c))
    {
      ghost var S := abs;
      s := new Semaphore(c);
      hide Inv, RecordsAre, NumbersAre, QueuesAre, CountsAre;
      assert s !in S.meters;
      NewSemKeeps(S, s, c);
      Running(S);
      ShowsNew(S, s, c);
      hide Shows, NewSemStep;
      abs := NewSemStep(S, s, c);
    }

    lemma ShowsNew(S: State, s: Semaphore, c: nat)
      requires Shows(S) && s.queue == [] && s.count == c
      ensures Shows(NewSemStep(S, s, c))
    {
      hide RecordsAre, NumbersAre;
    }

    /** sem_wait and __sem_wait. */
    method SemaphoreWait(s: Semaphore)
      requires Valid() && Enabled(abs, SemWait(s))
      modifies this`current, this`sleepQ, this`zombieQ, this`abs, rr, rr.queue, rr.bitTbl, current, s
      ensures Valid() && Defined(old(abs), SemWait(s)) && abs == Apply(old(abs), SemWait(s))
    {
      hide Inv, Shows, Take, Give, Rescheduled, Pickable, NoDup, PlaceOf;
      ghost var S := abs;
      ApplyKeeps(S, SemWait(s));
      SemKeys(S);
      CountIs(S, s);
      RunningReady(S);
      ghost var m := S.meters[s].(count := Decl(S.meters[s].count), waits := S.meters[s].waits + 1);
      if Decl(s.count) >= 0 {
        SetCount(s, Decl(s.count), S, m);
        abs := S.(meters := S.meters[s := m]);
      } else {
        ghost var m2 := m.(blocked := m.blocked + [S.current]);
        SetCount(s, Decl(s.count), S, m2);
        ghost var S1 := S.(meters := S.meters[s := m2]);
        assert S1.q == S.q && S1.recs == S.recs && S1.current == S.current;
        ghost var T := Moved(S1, S.current, S.recs[S.current].(stat := WAITING, waitFor := s));
        Block(s, S1);
        MustPick(T);
        Resched(T);
        abs := Rescheduled(T);
      }
    }

    /** The task gets a status and the semaphore it waits for, or NULL. */
    method SetWaiting(t: Task, stat: Stat, s: Semaphore?, ghost S: State)
      requires Shows(S) && t in S.recs
      modifies t`stat, t`waitFor
      ensures Shows(S.(recs := S.recs[t := S.recs[t].(stat := stat, waitFor := s)]))
    {
      hide Shows;
      SetStat(t, stat, S);
      ghost var r, recs: map<Task, Rec> := S.recs[t].(stat := stat), S.recs;
      SetWaitFor(t, s, S.(recs := recs[t := r]));
      assert recs[t := r][t := r.(waitFor := s)] == recs[t := r.(waitFor := s)];
    }

    /** __sem_wait up to schedule. */
    method Block(s: Semaphore, ghost S: State)
      requires Shows(S) && s in S.q.sems && current == S.current && current in S.recs
        && current.prio < |S.q.ready| == 64
      requires current in S.q.ready[current.prio] && NoDup(S.q.ready[current.prio])
        && PlaceOf(S.recs[current]) == AtReady(current.prio)
      modifies this`sleepQ, this`zombieQ, rr, rr.queue, rr.bitTbl, current, s`queue
      ensures Shows(Moved(S, current, S.recs[current].(stat := WAITING, waitFor := s)))
    {
      hide Shows, Take, Give;
      var t := current;
      SizesKept(S.q, AtReady(t.prio), t);
      DequeueReady(t, S);
      ghost var S1 := S.(q := Take(S.q, AtReady(t.prio), t));
      SetWaiting(t, WAITING, s, S1);
      ghost var r := S.recs[t].(stat := WAITING, waitFor := s);
      ghost var S2 := S1.(recs := S1.recs[t := r]);
      TqEnqueue(AtSem(s), t, S2);
      Assembled(S, t, r, S2.(q := Give(S2.q, AtSem(s), t)));
    }

    /** sem_post and __sem_post. */
    method SemaphorePost(s: Semaphore)
      requires Valid() && Enabled(abs, SemPost(s))
      modifies this`sleepQ, this`zombieQ, this`abs, rr, rr.queue, rr.bitTbl, s, s.queue
      ensures Valid() && Defined(old(abs), SemPost(s)) && abs == Apply(old(abs), SemPost(s))
    {
      hide Inv, Shows, Take, Give, Moved;
      ghost var S := abs;
      ApplyKeeps(S, SemPost(s));
      CountIs(S, s);
      SemQueueIs(S, s);
      ghost var m := S.meters[s].(count := Incl(S.meters[s].count), posts := S.meters[s].posts + 1);
      if s.count + 1 > 0 {
        SetCount(s, Incl(s.count), S, m);
        abs := S.(meters := S.meters[s := m]);
      } else {
        var t := s.queue[0];
        ghost var m2 := m.(released := m.released + [t]);
        FirstWaits(S, s);
        Sound(S, t);
        SetCount(s, Incl(s.count), S, m2);
        Release(s, t, S.(meters := S.meters[s := m2]));
      }
    }

    /** __sem_post. */
    method Release(s: Semaphore, t: Task, ghost S: State)
      requires Shows(S) && s in S.q.sems && t in S.recs && PlaceOf(S.recs[t]) == AtSem(s)
        && S.recs[t].prio < |S.q.ready| == 64
      modifies this`sleepQ, this`zombieQ, this`abs, rr, rr.queue, rr.bitTbl, s`queue, t
      ensures abs == Moved(S, t, S.recs[t].(stat := READY, waitFor := null)) && Shows(abs)
    {
      hide Shows, Take, Give;
      SizesKept(S.q, AtSem(s), t);
      TqDequeue(AtSem(s), t, S);
      ghost var S1 := S.(q := Take(S.q, AtSem(s), t));
      SetWaiting(t, READY, null, S1);
      ghost var r := S.recs[t].(stat := READY, waitFor := null);
      ghost var S2 := S1.(recs := S1.recs[t := r]);
      FieldsOf(S2, t);
      EnqueueReady(t, S2);
      ghost var S3 := S2.(q := Give(S2.q, AtReady(t.prio), t));
      Assembled(S, t, r, S3);
      abs := S3;
    }

    lemma SemQueueIs(S: State, s: Semaphore)
      requires Shows(S) && s in S.q.sems
      ensures s.queue == S.q.sems[s]
    {
    }

    lemma CountIs(S: State, s: Semaphore)
      requires Shows(S) && s in S.meters
      ensures s.count == S.meters[s].count
    {
    }

    // ---- kkill_zombie and task_kill ---------------------------------------------------------------------

    /** task_kill. */
    method Kill(z: Task, ghost S: State)
      requires Shows(S) && z in S.recs && S.recs[z].pid < 256 && |S.table| == 256
      modifies tbl, pids, pids.tbl
      ensures Shows(S.(recs := S.recs - {z}, table := S.table[S.recs[z].pid := null],
        used := S.used - {S.recs[z].pid}, birth := S.birth - {z}))
    {
      assert RecordOf(z) == S.recs[z];
      hide QueuesAre, CountsAre, Grouped, Marked;
      tbl[z.pid] := null;
      pids.Free(z.pid);
    }

    /** One round of the loop of kkill_zombie. */
    method KillZombie()
      requires Valid()
      modifies this`current, this`sleepQ, this`zombieQ, this`abs, rr.queue, tbl, pids, pids.tbl
      ensures Valid() && Defined(old(abs), Reap) && abs == Apply(old(abs), Reap)
    {
      hide Inv, Shows, Rescheduled, Pickable;
      ghost var S := abs;
      ApplyKeeps(S, Reap);
      QueueIs(S);
      CurrentIs(S);
      if zombieQ == [] || zombieQ[0] == current {
        MustPick(S);
        Resched(S);
        abs := Rescheduled(S);
      } else {
        var z := zombieQ[0];
        Sound(S, z);
        TableSize(S);
        TqDequeue(AtZombie, z, S);
        ghost var S1 := S.(q := Take(S.q, AtZombie, z));
        Kill(z, S1);
        abs := S1.(recs := S1.recs - {z}, table := S1.table[S1.recs[z].pid := null],
          used := S1.used - {S1.recs[z].pid}, birth := S1.birth - {z});
      }
    }

    // ---- kernel_thread and task_init ------------------------------------------------------------------------

    /** The number and the place in the table of a new task. */
    method NewNumber(t: Task, ghost S: State) returns (pid: nat)
      requires NumbersAre(S.table, S.used) && |S.table| == 256 && exists p: nat :: p < 256 && p !in S.used
      modifies tbl, pids, pids.tbl
      ensures pid < 256 && pid !in S.used && (forall p: nat :: p < pid ==> p in S.used)
      ensures NumbersAre(S.table[pid := t], S.used + {pid})
    {
      hide Grouped, Marked;
      pid := pids.Alloc();
      tbl[pid] := t;
    }

    /** The fields that task_init and kernel_thread set. */
    method FillIn(t: Task, prio: nat, pid: nat, ghost S: State)
      requires RecordsAre(S.recs) && t !in S.recs && current in S.recs
      modifies t`pid, t`prio, t`stat, t`parent, t`children, t`timeTicks, t`restTicks, t`totalTicks, t`sleepTicks,
        t`waitFor
      modifies current`children
      ensures RecordsAre(Spawned(S.recs, current, t, prio, pid))
    {
      var p := current;
      FillTask(t, prio, pid, p);
      AppendChild(p, t, S.recs);
      AddRecord(WithChild(S.recs, p, t), t, NewRecord(pid, prio, p));
    }

    method FillTask(t: Task, prio: nat, pid: nat, p: Task)
      modifies t`pid, t`prio, t`stat, t`parent, t`children, t`timeTicks, t`restTicks, t`totalTicks, t`sleepTicks,
        t`waitFor
      ensures RecordOf(t) == NewRecord(pid, prio, p)
    {
      t.pid := pid;
      t.prio := prio;
      t.parent := p;
      t.children := [];
      t.timeTicks := prio + 1;
      t.restTicks := t.timeTicks;
      t.totalTicks := 0;
      t.sleepTicks := 0;
      t.waitFor := null;
      t.stat := READY;
    }

    /** list_add_tail of the sibling node of t to the children of p. */
    method AppendChild(p: Task, t: Task, ghost recs: map<Task, Rec>)
      requires RecordsAre(recs) && p in recs
      modifies p`children
      ensures RecordsAre(WithChild(recs, p, t))
    {
      assert RecordOf(p) == recs[p];
      p.children := p.children + [t];
    }

    lemma AddRecord(recs: map<Task, Rec>, t: Task, r: Rec)
      requires RecordsAre(recs) && RecordOf(t) == r
      ensures RecordsAre(recs[t := r])
    {
    }

    /** task_init, the rest of the record included. */
    method InitTask(t: Task, prio: nat, ghost S: State) returns (pid: nat)
      requires Shows(S) && t !in S.recs && current in S.recs && |S.table| == 256
        && exists p: nat :: p < 256 && p !in S.used
      modifies tbl, pids, pids.tbl, t, current`children
      ensures pid < 256 && pid !in S.used && (forall p: nat :: p < pid ==> p in S.used)
      ensures S.current in S.recs && Shows(Joined(S, t, prio, pid))
    {
      hide QueuesAre, RecordsAre, NumbersAre, CountsAre;
      // Objects of different types are different objects.
      assert (rr.queue as object) != (tbl as object) && (rr.bitTbl as object) != (tbl as object);
      assert (rr.queue as object) != (pids.tbl as object) && (rr as object) != (pids as object);
      assert forall s :: s in S.q.sems ==> (s as object) != tbl && (s as object) != pids && (s as object) != pids.tbl;
      assert forall s :: s in S.q.sems ==> (s as object) != t;
      pid := NewNumber(t, S);
      FillIn(t, prio, pid, S);
    }

    /** kernel_thread. */
    method KernelThread(prio: nat) returns (pid: nat, ghost t: Task)
      requires Valid() && prio < 64 && exists p: nat :: p < 256 && p !in abs.used
      modifies this`current, this`abs, rr, rr.queue, rr.bitTbl, tbl, pids, pids.tbl, current`children
      ensures fresh(t) && Enabled(old(abs), Spawn(t, prio, pid)) && (forall p: nat :: p < pid ==> p in old(abs).used)
      ensures Valid() && Defined(old(abs), Spawn(t, prio, pid)) && abs == Apply(old(abs), Spawn(t, prio, pid))
    {
      hide Inv, Shows, Give, Rescheduled, Joined, Defined, Apply;
      ghost var S := abs;
      RunningReady(S);
      TableSize(S);
      var u := new Task();
      t := u;
      assert t !in S.recs;
      pid := InitTask(u, prio, S);
      SpawnAdmits(S, t, prio, pid);
      Admit(u, prio, Joined(S, t, prio, pid));
    }

    /** The new task enters its ready queue. */
    method Admit(t: Task, prio: nat, ghost S: State)
      requires Shows(S) && t in S.recs && S.recs[t].prio == prio && prio < |S.q.ready| == 64
      requires Inv(Rescheduled(S.(q := Give(S.q, AtReady(prio), t))))
      modifies this`current, this`abs, rr, rr.queue, rr.bitTbl
      ensures abs == Rescheduled(S.(q := Give(S.q, AtReady(prio), t))) && Shows(abs)
    {
      hide Inv, Shows, Give, Rescheduled, Pickable;
      FieldsOf(S, t);
      EnqueueReady(t, S);
      ghost var S1 := S.(q := Give(S.q, AtReady(prio), t));
      MustPick(S1);
      Resched(S1);
      abs := Rescheduled(S1);
    }

    lemma TableSize(S: State)
      requires Inv(S)
      ensures |S.table| == 256
    {
      Running(S);
      RecordFine(S, S.current);
    }

    // ---- task_exit and kthread_exit ---------------------------------------------------------------------------

    method SetChildren(t: Task, cs: seq<Task>, ghost recs: map<Task, Rec>)
      requires RecordsAre(recs) && t in recs
      modifies t`children
      ensures RecordsAre(recs[t := recs[t].(children := cs)])
    {
      t.children := cs;
    }

    method SetParent(t: Task, p: Task, ghost recs: map<Task, Rec>)
      requires RecordsAre(recs) && t in recs
      modifies t`parent
      ensures RecordsAre(recs[t := recs[t].(parent := p)])
    {
      t.parent := p;
    }

    lemma ChildrenAre(recs: map<Task, Rec>, t: Task)
      requires RecordsAre(recs) && t in recs
      ensures RecordOf(t) == recs[t]
    {
    }

    /** One child c of t leaves its list, enters the list of p at the end, and
        gets p as parent. */
    method MoveChild(t: Task, p: Task, c: Task, ghost recs: map<Task, Rec>, ghost i: nat)
      requires t in recs && p in recs && p != t && i < |recs[t].children| && NoDup(recs[t].children)
        && RecordsAre(Moving(recs, t, p, i))
      requires c == recs[t].children[i] && c in recs && c != t && c != p
      modifies t`children, p`children, c`parent
      ensures RecordsAre(Moving(recs, t, p, i + 1))
    {
      ghost var m := Moving(recs, t, p, i);
      MovingOne(recs, t, p, i);
      hide RecordsAre, Moving;
      ChildrenAre(m, t);
      ChildrenAre(m, p);
      SetChildren(t, t.children[1..], m);
      ghost var m1 := m[t := m[t].(children := m[t].children[1..])];
      SetChildren(p, p.children + [c], m1);
      ghost var m2 := m1[p := m1[p].(children := m1[p].children + [c])];
      SetParent(c, p, m2);
    }

    /** The loop of task_exit, after t has left the list of its parent p. */
    method MoveChildren(t: Task, p: Task, ghost recs: map<Task, Rec>)
      requires t in recs && p in recs && p != t && NoDup(recs[t].children) && RecordsAre(Moving(recs, t, p, 0))
      requires t !in recs[t].children && p !in recs[t].children && forall c :: c in recs[t].children ==> c in recs
      modifies recs.Keys`children, recs.Keys`parent
      ensures RecordsAre(Moving(recs, t, p, |recs[t].children|))
    {
      ghost var cs := recs[t].children;
      ghost var i := 0;
      ListLeft(recs, t, p, i);
      while t.children != []
        invariant 0 <= i <= |cs| && t.children == cs[i..] && RecordsAre(Moving(recs, t, p, i))
        decreases |t.children|
      {
        var c := t.children[0];
        assert c == cs[i] && c in cs;
        hide RecordsAre, Moving;
        MoveChild(t, p, c, recs, i);
        i := i + 1;
        ListLeft(recs, t, p, i);
      }
      assert i == |cs|;
    }

    lemma ListLeft(recs: map<Task, Rec>, t: Task, p: Task, i: nat)
      requires t in recs && p in recs && p != t && i <= |recs[t].children| && RecordsAre(Moving(recs, t, p, i))
      ensures t.children == recs[t].children[i..]
    {
      ChildrenAre(Moving(recs, t, p, i), t);
    }

    /** task_exit of t, whose parent is p. */
    method TaskExit(t: Task, p: Task, ghost S: State)
      requires Shows(S) && t in S.recs && p in S.recs && p != t && t.parent == p && |S.q.ready| == 64
      requires NoDup(S.recs[t].children) && t !in S.recs[t].children && p !in S.recs[t].children
      requires S.recs[p].prio < 64 && forall c :: c in S.recs[t].children ==> c in S.recs
      modifies S.recs.Keys`children, S.recs.Keys`parent, p`stat, rr, rr.queue, rr.bitTbl
      ensures Shows(Exiting(S, t, p))
    {
      hide QueuesAre, NumbersAre, CountsAre, RecordsAre, Moving, Give;
      ChildrenAre(S.recs, p);
      SetChildren(p, Without(p.children, t), S.recs);
      MovingNone(S.recs, t, p);
      MoveChildren(t, p, S.recs);
      ghost var S1 := S.(recs := Moving(S.recs, t, p, |S.recs[t].children|));
      MovingPrio(S.recs, t, p, |S.recs[t].children|);
      assert Shows(S1);
      hide Shows;
      FieldsOf(S1, p);
      if p.stat == WAITING && p.waitFor == null && p.children == [] {
        SetStat(p, READY, S1);
        ghost var S2 := S1.(recs := S1.recs[p := S1.recs[p].(stat := READY)]);
        FieldsOf(S2, p);
        EnqueueReady(p, S2);
      }
    }

    /** kthread_exit. */
    method KthreadExit(stat: int)
      requires Valid() && (stat == 0 ==> Enabled(abs, Exit))
      modifies this`current, this`sleepQ, this`zombieQ, this`abs, rr, rr.queue, rr.bitTbl, abs.recs.Keys
      ensures Valid() && (stat != 0 ==> abs == old(abs))
      ensures stat == 0 ==> Defined(old(abs), Exit) && abs == Apply(old(abs), Exit)
    {
      hide Inv, Shows, Rescheduled, Pickable, Ended;
      if stat == 0 {
        ghost var S := abs;
        ExitReady(S);
        CurrentIs(S);
        FieldsOf(S, current);
        BecomeZombie(current, current.parent);
        MustPick(Ended(S));
        Resched(Ended(S));
        abs := Rescheduled(Ended(S));
      }
    }

    /** kthread_exit up to schedule. */
    method BecomeZombie(t: Task, p: Task)
      requires Valid() && Enabled(abs, Exit) && Defined(abs, Exit) && t == current && p == t.parent && p in abs.recs
        && p != t
      modifies this`sleepQ, this`zombieQ, rr, rr.queue, rr.bitTbl, abs.recs.Keys
      ensures Shows(Ended(abs))
    {
      hide Inv, Shows, Take, Give, Rescheduled, Exiting, Ended;
      ghost var S := abs;
      RunningReady(S);
      FieldsOf(S, t);
      ExitFacts(S);
      SizesKept(S.q, AtReady(t.prio), t);
      DequeueReady(t, S);
      ghost var S1 := S.(q := Take(S.q, AtReady(t.prio), t));
      TaskExit(t, p, S1);
      ghost var S2 := Exiting(S1, t, p);
      ExitingHas(S1, t, p);
      SetStat(t, ZOMBIE, S2);
      ghost var S3 := S2.(recs := S2.recs[t := S2.recs[t].(stat := ZOMBIE)]);
      TqEnqueue(AtZombie, t, S3);
      ghost var S4 := S3.(q := Give(S3.q, AtZombie, t));
      ExitAssembled(S, t, p, S4);
    }

    lemma RunningReady(S: State)
      requires Inv(S) && Shows(S)
      ensures current == S.current && current in S.recs && S.recs[current].stat == READY
      ensures current.prio == S.recs[current].prio && current.prio < |S.q.ready| == 64
      ensures current in S.q.ready[current.prio] && NoDup(S.q.ready[current.prio])
        && PlaceOf(S.recs[current]) == AtReady(current.prio)
    {
      Running(S);
      InReady(S, S.current);
      hide Inv;
    }
  }

  /** task_init of idle. */
  method FirstTask() returns (t: Task)
    ensures fresh(t) && RecordOf(t) == Rec(0, 63, READY, null, [], 64, 64, 0, 0, null)
  {
    t := new Task();
    t.prio, t.timeTicks, t.restTicks := 63, 64, 64;
  }

  /** pid 0 is taken for idle. */
  method FirstNumber() returns (p: PidMap)
    ensures fresh(p) && fresh(p.tbl) && p.Valid() && p.Used() == {0}
  {
    p := new PidMap();
    assert 0 !in p.Used();
    var pid := p.Alloc();
    assert pid == 0;
  }

  function FirstQueues(t: Task): seq<seq<Task>> {
    seq(64, i => if i == 63 then [t] else [])
  }

  method FirstReady(t: Task) returns (r: RoundRobin<Task>)
    ensures fresh(r) && fresh(r.queue) && fresh(r.bitTbl) && r.Valid() && r.queue[..] == FirstQueues(t)
  {
    r := new RoundRobin<Task>();
    ghost var empty := r.queue[..];
    assert empty[63] == [] && [] + [t] == [t];
    r.Enqueue(t, 63);
    assert r.queue[..] == empty[63 := [t]];
    hide Indexed, Total;
    assert empty[63 := [t]] == FirstQueues(t);
  }

  function FirstTable(t: Task): seq<Task?> {
    seq(256, i => if i == 0 then t else null)
  }

  function FirstState(t: Task): State {
    State(t, t, map[t := Rec(0, 63, READY, null, [], 64, 64, 0, 0, null)], Queues(FirstQueues(t), [], [], map[]), map[],
          FirstTable(t), {0}, map[t := 0], 1)
  }

  lemma FirstHolds(t: Task)
    ensures Initial(FirstState(t)) && Inv(FirstState(t))
  {
    hide Inv;
    InitialKeeps(FirstState(t)) by { assert Initial(FirstState(t)); }
  }

  /** The same with the record written in two steps. */
  lemma AssembledInTwo(S: State, t: Task, x: Rec, r: Rec, T: State)
    requires t in S.recs && T == S.(recs := T.recs, q := T.q) && T.recs == S.recs[t := x][t := r]
    requires T.q == Give(Take(S.q, PlaceOf(S.recs[t]), t), PlaceOf(r), t)
    ensures T == Moved(S, t, r)
  {
    assert S.recs[t := x][t := r] == S.recs[t := r];
  }

  /** Dequeue, change of the record, enqueue: the task has moved. */
  lemma Assembled(S: State, t: Task, r: Rec, T: State)
    requires t in S.recs && T == S.(recs := T.recs, q := T.q) && T.recs == S.recs[t := r]
    requires T.q == Give(Take(S.q, PlaceOf(S.recs[t]), t), PlaceOf(r), t)
    ensures T == Moved(S, t, r)
  {
  }

  lemma ChargedIs(r: Rec, u: Rec)
    requires u == r.(restTicks := if Dec(r.restTicks) == 0 then r.timeTicks else Dec(r.restTicks),
      totalTicks := (r.totalTicks + 1) % 0x1_0000_0000)
    ensures u == Charged(r)
  {
  }

  lemma DecOne(w: nat)
    ensures Dec(w) == 0 <==> w == 1
  {
  }

  lemma Sound(S: State, t: Task)
    requires Inv(S) && t in S.recs
    ensures WellFormed(S.recs[t]) && |S.q.ready| == 64
  {
    RecordFine(S, t);
  }

  lemma SizesKept(q: Queues, p: Place, t: Task)
    ensures |Take(q, p, t).ready| == |Give(q, p, t).ready| == |q.ready|
    ensures Take(q, p, t).sems.Keys == Give(q, p, t).sems.Keys == q.sems.Keys
  {
  }

  lemma NotWaiting(S: State, t: Task)
    requires Inv(S) && t in S.recs && S.recs[t].stat == READY
    ensures S.recs[t].waitFor == null
  {
    RecordFine(S, t);
  }

  /** A task in no queue: wait() without a semaphore. */
  lemma GiveNowhere(q: Queues, t: Task)
    ensures Give(q, Nowhere, t) == q
  {
  }

  lemma TickReady(S: State)
    requires Inv(S)
    ensures S.current in S.recs
    ensures var S1 := ChargeStep(S);
      NoDup(S1.q.sleep) && |S1.q.ready| == 64 && Alike(S1.recs, S1.recs, S1.q.sleep) && S1.q == S.q
        && S1.recs.Keys == S.recs.Keys
  {
    Sleepers(S);
    RecordFine(S, S.current);
    forall t | t in S.q.sleep ensures S.recs[t].prio < 64 { RecordFine(S, t); }
  }

  /** Half way through the sleep queue: kept has been passed and left in place,
      rest is still to come. */
  ghost predicate Walking(S: State, S0: State, kept: seq<Task>, rest: seq<Task>) {
    && S.q.sleep == kept + rest && NoDup(kept + rest) && |S.q.ready| == 64
    && Alike(S.recs, S0.recs, rest) && Asleep(S.recs, rest) && Asleep(S0.recs, S0.q.sleep)
    && TickAll(S, rest) == TickAll(S0, S0.q.sleep) && |kept + rest| <= |S0.q.sleep|
  }

  lemma WalkStep(S: State, S0: State, kept: seq<Task>, rest: seq<Task>)
    requires Walking(S, S0, kept, rest) && |kept| < |S.q.sleep|
    ensures rest != [] && S.q.sleep[|kept|] == rest[0]
    ensures var t := rest[0];
      && t in S.recs && t in S0.recs && S.recs[t].stat == SLEEP && S.recs[t].prio < 64
      && (S.recs[t].sleepTicks == 1 ==>
            Walking(TickOne(S, t), S0, kept, rest[1..]) && |TickOne(S, t).q.sleep| < |S0.q.sleep|)
      && (S.recs[t].sleepTicks != 1 ==>
            Walking(TickOne(S, t), S0, kept + [t], rest[1..]) && |TickOne(S, t).q.sleep| == |S.q.sleep|)
  {
    var t, more := rest[0], rest[1..];
    assert rest == [t] + more;
    TickOneQueues(S, kept, t, more);
    AlikeRest(S.recs, S0.recs, kept, t, more);
    RestNoDup(kept, t, more);
    assert (kept + [t]) + more == kept + rest;
    assert TickAll(S, rest) == TickAll(TickOne(S, t), more);
    hide TickOne, TickAll, Ticked;
  }

  lemma WalkDone(S: State, S0: State, kept: seq<Task>, rest: seq<Task>)
    requires Walking(S, S0, kept, rest) && |kept| >= |S.q.sleep|
    ensures Asleep(S0.recs, S0.q.sleep) && S == TickAll(S0, S0.q.sleep)
  {
    assert rest == [];
  }

  lemma SemKeys(S: State)
    requires Inv(S)
    ensures S.meters.Keys == S.q.sems.Keys
  {
  }

  lemma FirstWaits(S: State, s: Semaphore)
    requires Inv(S) && s in S.q.sems && S.q.sems[s] != []
    ensures var t := S.q.sems[s][0]; t in S.recs && PlaceOf(S.recs[t]) == AtSem(s)
  {
    WaitsAt(S, s);
  }

  /** The state after task_init, the new task being in no queue yet. */
  function Joined(S: State, t: Task, prio: nat, pid: nat): State
    requires S.current in S.recs && pid < |S.table|
  {
    S.(recs := Spawned(S.recs, S.current, t, prio, pid), table := S.table[pid := t], used := S.used + {pid},
       birth := S.birth[t := S.births], births := S.births + 1)
  }

  lemma JoinedIs(S: State, t: Task, prio: nat, pid: nat)
    requires Defined(S, Spawn(t, prio, pid))
    ensures var S1 := Joined(S, t, prio, pid);
      && t in S1.recs && S1.recs[t].prio == prio && |S1.q.ready| == |S.q.ready|
      && Apply(S, Spawn(t, prio, pid)) == Rescheduled(S1.(q := Give(S1.q, AtReady(prio), t)))
  {
  }

  lemma SpawnAdmits(S: State, t: Task, prio: nat, pid: nat)
    requires Inv(S) && t !in S.recs && prio < 64 && pid < 256 && pid !in S.used
    ensures S.current in S.recs && pid < |S.table| && Defined(S, Spawn(t, prio, pid))
    ensures var S1 := Joined(S, t, prio, pid); var S2 := S1.(q := Give(S1.q, AtReady(prio), t));
      && t in S1.recs && S1.recs[t].prio == prio && |S1.q.ready| == 64
      && Inv(Rescheduled(S2)) && Apply(S, Spawn(t, prio, pid)) == Rescheduled(S2)
  {
    ApplyKeeps(S, Spawn(t, prio, pid));
    Running(S);
    RecordFine(S, S.current);
    JoinedIs(S, t, prio, pid);
    hide Inv, Apply, Joined, Rescheduled, Give;
  }

  /** The records once the first i children of t have moved to p. */
  function Moving(recs: map<Task, Rec>, t: Task, p: Task, i: nat): map<Task, Rec>
    requires t in recs && p in recs && i <= |recs[t].children|
  {
    var cs := recs[t].children;
    map u | u in recs ::
      if u == t then recs[t].(children := cs[i..])
      else if u == p then recs[p].(children := Without(recs[p].children, t) + cs[..i])
      else if u in cs[..i] then recs[u].(parent := p)
      else recs[u]
  }

  lemma MovingNone(recs: map<Task, Rec>, t: Task, p: Task)
    requires t in recs && p in recs && p != t
    ensures Moving(recs, t, p, 0) == recs[p := recs[p].(children := Without(recs[p].children, t))]
  {
    assert Without(recs[p].children, t) + [] == Without(recs[p].children, t);
  }

  lemma MovingOne(recs: map<Task, Rec>, t: Task, p: Task, i: nat)
    requires t in recs && p in recs && p != t && i < |recs[t].children| && NoDup(recs[t].children)
    requires var c := recs[t].children[i]; c in recs && c != t && c != p
    ensures var c, m := recs[t].children[i], Moving(recs, t, p, i);
      var m1 := m[t := m[t].(children := m[t].children[1..])];
      var m2 := m1[p := m1[p].(children := m1[p].children + [c])];
      Moving(recs, t, p, i + 1) == m2[c := m2[c].(parent := p)]
  {
    var cs := recs[t].children;
    var c, m, n := cs[i], Moving(recs, t, p, i), Moving(recs, t, p, i + 1);
    assert cs[..i + 1] == cs[..i] + [c] && cs[i..][1..] == cs[i + 1..];
    assert c !in cs[..i];
    var m1 := m[t := m[t].(children := m[t].children[1..])];
    var m2 := m1[p := m1[p].(children := m1[p].children + [c])];
    var m3 := m2[c := m2[c].(parent := p)];
    var w := Without(recs[p].children, t);
    assert w + cs[..i] + [c] == w + cs[..i + 1];
    hide Without;
    forall u | u in recs ensures n[u] == m3[u] {
      assert u in cs[..i + 1] <==> u in cs[..i] || u == c;
    }
    assert n.Keys == m3.Keys;
  }

  lemma MovingAll(recs: map<Task, Rec>, t: Task, p: Task)
    requires t in recs && p in recs && p != t
    ensures var m := Moving(recs, t, p, |recs[t].children|);
      Orphaned(recs, t, p) == m[t := m[t].(stat := ZOMBIE)]
  {
    var cs := recs[t].children;
    assert cs[..|cs|] == cs && cs[|cs|..] == [];
  }

  lemma MovingPrio(recs: map<Task, Rec>, t: Task, p: Task, i: nat)
    requires t in recs && p in recs && p != t && i <= |recs[t].children|
    ensures Moving(recs, t, p, i).Keys == recs.Keys && Moving(recs, t, p, i)[p].prio == recs[p].prio
  {
  }

  /** The state after task_exit, before t becomes a zombie. */
  function Exiting(S: State, t: Task, p: Task): State
    requires t in S.recs && p in S.recs
  {
    var S1 := S.(recs := Moving(S.recs, t, p, |S.recs[t].children|));
    if WaitsForChildren(S1.recs[p]) then
      S1.(recs := S1.recs[p := S1.recs[p].(stat := READY)], q := Give(S1.q, AtReady(S1.recs[p].prio), p))
    else S1
  }

  /** What task_exit relies on. */
  lemma ExitFacts(S: State)
    requires Inv(S) && S.current != S.idle
    ensures S.current in S.recs && S.recs[S.current].parent in S.recs && S.recs[S.current].parent != S.current
    ensures var t := S.current; var p: Task := S.recs[t].parent;
      NoDup(S.recs[t].children) && t !in S.recs[t].children && p !in S.recs[t].children && S.recs[p].prio < 64
    ensures forall c :: c in S.recs[S.current].children ==> c in S.recs
  {
    var t := S.current;
    var par, kids := Par(S.idle, S.recs), Kids(S.recs);
    hide Consistent, Numbered, Metered, AllWellFormed;
    assert t in kids && t in par && kids[t] == S.recs[t].children;
    ChildrenListed(S.idle, par, kids, S.birth, t);
    assert Siblings(par, kids, t);
    assert par[t] == S.recs[t].parent && par[t] in S.recs;
    hide Family, Kids;
    RecordFine(S, par[t]);
  }

  /** Entering the zombie queue and entering a ready queue commute. */
  lemma Commute(q: Queues, t: Task, k: nat, p: Task)
    ensures Give(Give(q, AtZombie, t), AtReady(k), p) == Give(Give(q, AtReady(k), p), AtZombie, t)
  {
  }

  lemma DeadIs(S: State, t: Task, p: Task)
    requires Defined(S, Exit) && t == S.current && p == S.recs[t].parent && p != t && S.recs[t].stat == READY
    ensures var S1 := S.(q := Take(S.q, AtReady(S.recs[t].prio), t));
      var m := Moving(S.recs, t, p, |S.recs[t].children|);
      Dead(S) == S1.(recs := m[t := m[t].(stat := ZOMBIE)], q := Give(S1.q, AtZombie, t))
  {
    MovingAll(S.recs, t, p);
    hide Moving, Orphaned, Without;
  }

  lemma ExitAssembled(S: State, t: Task, p: Task, T: State)
    requires Defined(S, Exit) && t == S.current && p == S.recs[t].parent && p != t && S.recs[t].stat == READY
    requires var S2 := Exiting(S.(q := Take(S.q, AtReady(S.recs[t].prio), t)), t, p);
      && t in S2.recs
      && T == S2.(recs := S2.recs[t := S2.recs[t].(stat := ZOMBIE)], q := Give(S2.q, AtZombie, t))
    ensures T == Ended(S)
  {
    DeadIs(S, t, p);
    hide Dead, Moving, Take, Give, Rescheduled;
    var S1 := S.(q := Take(S.q, AtReady(S.recs[t].prio), t));
    var m := Moving(S.recs, t, p, |S.recs[t].children|);
    var D := Dead(S);
    MovingPrio(S.recs, t, p, |S.recs[t].children|);
    assert D.recs[p] == m[p];
    if WaitsForChildren(m[p]) {
      var r := m[p].(stat := READY);
      Commute(S1.q, t, m[p].prio, p);
      NoTake(D.q, p);
      assert m[p := r][t := m[t].(stat := ZOMBIE)] == m[t := m[t].(stat := ZOMBIE)][p := r];
    }
  }

  lemma NoTake(q: Queues, t: Task)
    ensures Take(q, Nowhere, t) == q
  {
  }

  lemma ExitingHas(S: State, t: Task, p: Task)
    requires t in S.recs && p in S.recs
    ensures t in Exiting(S, t, p).recs
  {
  }

  lemma ExitReady(S: State)
    requires Inv(S) && Enabled(S, Exit)
    ensures Defined(S, Exit) && Apply(S, Exit) == Rescheduled(Ended(S)) && Inv(Rescheduled(Ended(S)))
    ensures S.recs[S.current].parent in S.recs && S.recs[S.current].parent != S.current
  {
    hide Inv, Rescheduled, Ended;
    ApplyKeeps(S, Exit);
    ExitFacts(S);
  }
}
