/** The entry points of the scheduler as steps on states, the invariant that
    every step keeps, and what follows for whole runs. */
module Steps {
  import opened Seqs
  import opened RoundRobin
  import opened Tasks

  /** A semaphore's count, and its run so far: the initial count, the calls of
      sem_wait and sem_post, the tasks that blocked and those released. */
  datatype Meter = Meter(count: int, start: int, waits: nat, posts: nat, blocked: seq<Task>, released: seq<Task>)

  datatype State = State(idle: Task, current: Task, recs: map<Task, Rec>, q: Queues, meters: map<Semaphore, Meter>,
                         table: seq<Task?>, used: set<nat>, birth: map<Task, nat>, births: nat)

  // ---- the invariant ---------------------------------------------------------------

  function Places(recs: map<Task, Rec>): map<Task, Place> {
    map t | t in recs :: PlaceOf(recs[t])
  }

  /** The children lists and the parents of all tasks that are not zombies. */
  function Kids(recs: map<Task, Rec>): map<Task, seq<Task>> {
    map t | t in recs && recs[t].stat != ZOMBIE :: recs[t].children
  }

  function Par(idle: Task, recs: map<Task, Rec>): map<Task, Task> {
    map t | t in recs && recs[t].stat != ZOMBIE && t != idle && recs[t].parent != null ::
      (var p: Task := recs[t].parent; p)
  }

  predicate WellFormed(r: Rec) {
    && r.pid < 256 && r.prio < 64 && r.timeTicks == r.prio + 1 && r.restTicks >= 1
    && r.sleepTicks < 0x1_0000_0000 && (r.stat != WAITING ==> r.waitFor == null)
  }

  ghost predicate AllWellFormed(recs: map<Task, Rec>) {
    forall t :: t in recs ==> WellFormed(recs[t])
  }

  /** The task table lists every task under its number, and nothing else; the
      numbers in use are those of the tasks. */
  ghost predicate Numbered(recs: map<Task, Rec>, table: seq<Task?>, used: set<nat>) {
    && |table| == 256 && (forall p :: p in used ==> p < 256)
    && (forall t :: t in recs ==> recs[t].pid < 256 && table[recs[t].pid] == t)
    && (forall p: nat {:trigger table[p]} :: p < 256 ==>
          (p in used <==> table[p] != null) && (table[p] != null ==> table[p] in recs && recs[table[p]].pid == p))
  }

  ghost predicate Rooted(idle: Task, recs: map<Task, Rec>, birth: map<Task, nat>, births: nat) {
    && Family(idle, Par(idle, recs), Kids(recs), birth) && birth.Keys == recs.Keys
    && BornBefore(birth, births)
  }

  ghost predicate BornBefore(birth: map<Task, nat>, n: nat) {
    forall t :: t in birth ==> birth[t] < n
  }

  /** The count is what was supplied less what was asked for; as many tasks
      wait as it is below zero, and they wait in the order of their arrival. */
  ghost predicate Balanced(m: Meter, queue: seq<Task>) {
    && -0x8000_0000 <= m.count < 0x8000_0000 && 0 <= m.start && m.count == m.start + m.posts - m.waits
    && |queue| == (if m.count < 0 then -m.count else 0)
    && m.blocked == m.released + queue
  }

  ghost predicate Metered(meters: map<Semaphore, Meter>, sems: map<Semaphore, seq<Task>>) {
    meters.Keys == sems.Keys && forall s :: s in meters ==> Balanced(meters[s], sems[s])
  }

  ghost predicate Core(S: State) {
    && Consistent(Places(S.recs), S.q)
    && Numbered(S.recs, S.table, S.used)
    && Rooted(S.idle, S.recs, S.birth, S.births)
    && AllWellFormed(S.recs)
    && S.idle in S.recs && S.recs[S.idle].stat == READY
  }

  ghost predicate Inv(S: State) {
    Core(S) && Metered(S.meters, S.q.sems) && S.current in S.recs && S.recs[S.current].stat == READY
  }

  lemma RecordFine(S: State, t: Task)
    requires Core(S) && t in S.recs
    ensures WellFormed(S.recs[t]) && |S.q.ready| == 64 && |S.table| == 256 && S.idle in S.recs
      && S.recs[S.idle].stat == READY
  {
    hide Rooted;
  }

  // ---- schedule ----------------------------------------------------------------------

  predicate Pickable(q: Queues) {
    Scan(q.ready) < |q.ready| && q.ready[Scan(q.ready)] != []
  }

  /** schedule: the choice is defined in all states that can be reached. */
  function Rescheduled(S: State): State {
    if Pickable(S.q) then S.(q := Scheduled(S.q), current := Next(S.q)) else S
  }

  lemma RescheduledKeeps(S: State)
    requires Core(S) && Metered(S.meters, S.q.sems)
    ensures Pickable(S.q) && Inv(Rescheduled(S))
  {
    var place := Places(S.recs);
    assert place[S.idle] == AtReady(S.recs[S.idle].prio);
    PickIsReady(place, S.q, S.idle);
    assert PlaceOf(S.recs[Next(S.q)]).AtReady?;
  }

  lemma MustPick(S: State)
    requires Inv(Rescheduled(S))
    ensures Pickable(S.q)
  {
    if !Pickable(S.q) { RescheduledKeeps(S); }
  }

  // ---- a task moves to another queue ------------------------------------------------------

  function Take(q: Queues, p: Place, t: Task): Queues {
    if Known(q, p) then Left(q, p, t) else q
  }

  function Give(q: Queues, p: Place, t: Task): Queues {
    if Known(q, p) then Entered(q, p, t) else q
  }

  /** The record of t becomes r, and t moves to the queue that r names. */
  function Moved(S: State, t: Task, r: Rec): State
    requires t in S.recs
  {
    S.(recs := S.recs[t := r], q := Give(Take(S.q, PlaceOf(S.recs[t]), t), PlaceOf(r), t))
  }

  lemma PlacesSet(recs: map<Task, Rec>, t: Task, r: Rec)
    ensures Places(recs[t := r]) == Places(recs)[t := PlaceOf(r)]
  {
  }

  lemma MoveQueues(place: map<Task, Place>, q: Queues, t: Task, p: Place)
    requires Consistent(place, q) && t in place && (p == Nowhere || Known(q, p))
    ensures Consistent(place[t := p], Give(Take(q, place[t], t), p, t))
  {
    assert Held(place, q, t);
    var q1 := Take(q, place[t], t);
    if place[t] != Nowhere { Leave(place, q, t); } else { assert place[t := Nowhere] == place; }
    assert Consistent(place[t := Nowhere], q1);
    assert Known(q1, p) == Known(q, p) by {
      if Known(q, place[t]) { PutAt(q, place[t], Without(At(q, place[t]), t), p); }
    }
    if p != Nowhere {
      Enter(place[t := Nowhere], q1, t, p);
      assert place[t := Nowhere][t := p] == place[t := p];
    }
  }

  /** r differs from the record r0 of a task in fields that do not concern the
      numbers and the family. */
  predicate SamePerson(r0: Rec, r: Rec) {
    r.pid == r0.pid && r.parent == r0.parent && r.children == r0.children && (r.stat == ZOMBIE <==> r0.stat == ZOMBIE)
  }

  lemma SameFamily(S: State, t: Task, r: Rec)
    requires t in S.recs && SamePerson(S.recs[t], r)
    ensures Kids(S.recs[t := r]) == Kids(S.recs) && Par(S.idle, S.recs[t := r]) == Par(S.idle, S.recs)
    ensures Numbered(S.recs, S.table, S.used) ==> Numbered(S.recs[t := r], S.table, S.used)
    ensures Rooted(S.idle, S.recs, S.birth, S.births) ==> Rooted(S.idle, S.recs[t := r], S.birth, S.births)
  {
  }

  lemma MovedKeeps(S: State, t: Task, r: Rec)
    requires Core(S) && t in S.recs && SamePerson(S.recs[t], r) && WellFormed(r) && (t == S.idle ==> r.stat == READY)
    requires r.waitFor != null ==> r.waitFor in S.q.sems
    ensures Core(Moved(S, t, r))
    ensures !PlaceOf(S.recs[t]).AtSem? && !PlaceOf(r).AtSem? ==> Moved(S, t, r).q.sems == S.q.sems
  {
    hide Consistent, Numbered, Rooted, SamePerson, Without, Take, Give, NoDup, Holds, Held;
    SameFamily(S, t, r);
    PlacesSet(S.recs, t, r);
    RecordFine(S, t);
    PlaceKnown(S.q, r);
    MoveQueues(Places(S.recs), S.q, t, PlaceOf(r));
    SemsKept(S.q, t, PlaceOf(S.recs[t]), PlaceOf(r));
    hide Known, PlaceOf;
  }

  lemma PlaceKnown(q: Queues, r: Rec)
    requires WellFormed(r) && |q.ready| == 64 && (r.waitFor != null ==> r.waitFor in q.sems)
    ensures PlaceOf(r) == Nowhere || Known(q, PlaceOf(r))
  {
  }

  lemma SemsKept(q: Queues, t: Task, p: Place, r: Place)
    ensures !p.AtSem? && !r.AtSem? ==> Give(Take(q, p, t), r, t).sems == q.sems
  {
  }

  /** Only the record of t changes. */
  lemma UpdatedKeeps(S: State, t: Task, r: Rec)
    requires Core(S) && t in S.recs && SamePerson(S.recs[t], r) && WellFormed(r) && PlaceOf(r) == PlaceOf(S.recs[t])
    requires t == S.idle ==> r.stat == READY
    ensures Core(S.(recs := S.recs[t := r]))
  {
    hide Consistent, Numbered, Rooted, PlaceOf, SamePerson, WellFormed;
    SameFamily(S, t, r);
    PlacesSet(S.recs, t, r);
    assert Places(S.recs)[t := PlaceOf(r)] == Places(S.recs);
  }

  // ---- sleep, wait, wakeup, task_reset_prio ------------------------------------------------

  function SleepStep(S: State, ticks: nat): State
    requires S.current in S.recs
  {
    Rescheduled(Moved(S, S.current, S.recs[S.current].(sleepTicks := ticks, stat := SLEEP)))
  }

  function WaitStep(S: State): State
    requires S.current in S.recs
  {
    Rescheduled(Moved(S, S.current, S.recs[S.current].(stat := WAITING)))
  }

  function WakeupStep(S: State, t: Task): State
    requires t in S.recs
  {
    Rescheduled(Moved(S, t, S.recs[t].(sleepTicks := 0, stat := READY)))
  }

  /** The record of a task with another priority. */
  function Reprioritized(r: Rec, prio: nat): Rec {
    r.(prio := prio, timeTicks := prio + 1)
  }

  function PrioStep(S: State, t: Task, prio: nat): State
    requires t in S.recs
  {
    var r := Reprioritized(S.recs[t], prio);
    var S1 := if r.stat == READY then Moved(S, t, r) else S.(recs := S.recs[t := r]);
    if t == S.current then Rescheduled(S1) else S1
  }

  lemma ParkKeeps(S: State, r: Rec)
    requires Inv(S) && S.current != S.idle && SamePerson(S.recs[S.current], r) && WellFormed(r)
    requires r.stat == SLEEP || (r.stat == WAITING && r.waitFor == null)
    ensures Inv(Rescheduled(Moved(S, S.current, r)))
  {
    MovedKeeps(S, S.current, r);
    RescheduledKeeps(Moved(S, S.current, r));
  }

  lemma YieldKeeps(S: State)
    requires Inv(S)
    ensures Inv(Rescheduled(S))
  {
    RescheduledKeeps(S);
  }

  lemma SleepKeeps(S: State, ticks: nat)
    requires Inv(S) && S.current != S.idle && ticks < 0x1_0000_0000
    ensures Inv(SleepStep(S, ticks))
  {
    RecordFine(S, S.current);
    hide Core;
    ParkKeeps(S, S.recs[S.current].(sleepTicks := ticks, stat := SLEEP));
  }

  lemma WaitKeeps(S: State)
    requires Inv(S) && S.current != S.idle
    ensures Inv(WaitStep(S))
  {
    RecordFine(S, S.current);
    hide Core;
    ParkKeeps(S, S.recs[S.current].(stat := WAITING));
  }

  lemma WakeupKeeps(S: State, t: Task)
    requires Inv(S) && t in S.recs && S.recs[t].stat == SLEEP
    ensures Inv(WakeupStep(S, t))
  {
    var r := S.recs[t].(sleepTicks := 0, stat := READY);
    MovedKeeps(S, t, r);
    RescheduledKeeps(Moved(S, t, r));
  }

  lemma PrioKeeps(S: State, t: Task, prio: nat)
    requires Inv(S) && t in S.recs && prio < 64
    ensures Inv(PrioStep(S, t, prio))
  {
    hide Core, Metered, Rescheduled, Take, Give, PlaceOf;
    var r := Reprioritized(S.recs[t], prio);
    RecordFine(S, t);
    if r.stat == READY {
      ReadyPlaces(S.recs[t], r);
      MovedKeeps(S, t, r);
      RescheduledKeeps(Moved(S, t, r));
    } else {
      ReadyPlaces(S.recs[t], r);
      UpdatedKeeps(S, t, r);
      RescheduledKeeps(S.(recs := S.recs[t := r]));
    }
  }

  lemma ReadyPlaces(r0: Rec, r: Rec)
    requires r.stat == r0.stat && r.waitFor == r0.waitFor
    ensures if r.stat == READY then PlaceOf(r0).AtReady? && PlaceOf(r).AtReady? else PlaceOf(r) == PlaceOf(r0)
  {
  }

  // ---- sched_tick -------------------------------------------------------------------------------

  /** `sleep_ticks--` on 32 bits. */
  function Dec(k: nat): nat {
    if k == 0 then 0xFFFF_FFFF else k - 1
  }

  /** One sleeper at one tick. */
  function TickOne(S: State, t: Task): State
    requires t in S.recs
  {
    var r := S.recs[t].(sleepTicks := Dec(S.recs[t].sleepTicks));
    if r.sleepTicks == 0 then Moved(S, t, r.(stat := READY)) else S.(recs := S.recs[t := r])
  }

  function TickAll(S: State, todo: seq<Task>): State
    requires forall t :: t in todo ==> t in S.recs
    decreases |todo|
  {
    if todo == [] then S else TickAll(TickOne(S, todo[0]), todo[1..])
  }

  /** The running task's time slice. */
  function Charged(r: Rec): Rec {
    var u := r.(restTicks := Dec(r.restTicks), totalTicks := (r.totalTicks + 1) % 0x1_0000_0000);
    if u.restTicks == 0 then u.(restTicks := r.timeTicks) else u
  }

  function ChargeStep(S: State): State
    requires S.current in S.recs
  {
    S.(recs := S.recs[S.current := Charged(S.recs[S.current])])
  }

  function TickStep(S: State): State
    requires S.current in S.recs && forall t :: t in S.q.sleep ==> t in S.recs
  {
    var S1 := TickAll(ChargeStep(S), S.q.sleep);
    if S.recs[S.current].restTicks == 1 || |S1.q.sleep| < |S.q.sleep| then Rescheduled(S1) else S1
  }

  predicate Asleep(recs: map<Task, Rec>, todo: seq<Task>) {
    forall t :: t in todo ==> t in recs && recs[t].stat == SLEEP
  }

  lemma Sleepers(S: State)
    requires Core(S)
    ensures Asleep(S.recs, S.q.sleep) && NoDup(S.q.sleep)
  {
    assert Holds(Places(S.recs), S.q, AtSleep);
    forall t | t in S.q.sleep ensures t in S.recs && S.recs[t].stat == SLEEP {
      assert Places(S.recs)[t] == AtSleep;
    }
  }

  lemma ChargeKeeps(S: State)
    requires Inv(S)
    ensures Inv(ChargeStep(S))
  {
    UpdatedKeeps(S, S.current, Charged(S.recs[S.current]));
  }

  lemma TickOneKeeps(S: State, t: Task)
    requires Core(S) && t in S.recs && S.recs[t].stat == SLEEP
    ensures Core(TickOne(S, t)) && TickOne(S, t).q.sems == S.q.sems
  {
    var r := S.recs[t].(sleepTicks := Dec(S.recs[t].sleepTicks));
    if r.sleepTicks == 0 { MovedKeeps(S, t, r.(stat := READY)); } else { UpdatedKeeps(S, t, r); }
  }

  lemma {:induction false} TickAllKeeps(S: State, todo: seq<Task>)
    requires Core(S) && Asleep(S.recs, todo) && NoDup(todo)
    ensures Core(TickAll(S, todo)) && TickAll(S, todo).q.sems == S.q.sems
    decreases |todo|
  {
    hide Core;
    if todo != [] {
      assert todo == [todo[0]] + todo[1..];
      TickOneKeeps(S, todo[0]);
      TickAllKeeps(TickOne(S, todo[0]), todo[1..]);
    }
  }

  lemma TickKeeps(S: State)
    requires Inv(S)
    ensures Asleep(S.recs, S.q.sleep) && Inv(TickStep(S))
  {
    hide Core, Metered, TickAll, Charged, Asleep, Rescheduled, NoDup;
    Sleepers(S);
    ChargeKeeps(S);
    RunningStays(S);
    Sleepers(ChargeStep(S));
    CountdownKeeps(S, ChargeStep(S));
  }

  lemma CountdownKeeps(S: State, S1: State)
    requires Inv(S1) && S1.q == S.q && Asleep(S1.recs, S.q.sleep) && NoDup(S.q.sleep)
    requires var S2 := TickAll(S1, S.q.sleep);
      S2.current in S2.recs && S2.recs[S2.current].stat == READY && S2.meters == S1.meters
    ensures var S2 := TickAll(S1, S.q.sleep); Inv(S2) && Inv(Rescheduled(S2))
  {
    hide Core, Metered, TickAll, Rescheduled;
    TickAllKeeps(S1, S.q.sleep);
    RescheduledKeeps(TickAll(S1, S.q.sleep));
  }

  lemma RunningStays(S: State)
    requires S.current in S.recs && S.recs[S.current].stat == READY && Asleep(S.recs, S.q.sleep) && NoDup(S.q.sleep)
    ensures var S1 := ChargeStep(S); S1.q == S.q && Asleep(S1.recs, S.q.sleep)
    ensures var S2 := TickAll(ChargeStep(S), S.q.sleep);
      S2.current == S.current && S2.current in S2.recs && S2.recs[S2.current].stat == READY && S2.meters == S.meters
  {
    TickRecords(ChargeStep(S), S.q.sleep);
    hide TickAll;
  }

  /** What one tick makes of a sleeper. */
  function Ticked(r: Rec): Rec {
    var k := Dec(r.sleepTicks);
    if k == 0 then r.(sleepTicks := 0, stat := READY) else r.(sleepTicks := k)
  }

  /** Every sleeper is counted down once; all other records stay. */
  lemma {:induction false} TickRecords(S: State, todo: seq<Task>)
    requires Asleep(S.recs, todo) && NoDup(todo)
    ensures var S' := TickAll(S, todo);
      && S'.recs.Keys == S.recs.Keys && S'.current == S.current && S'.idle == S.idle && S'.meters == S.meters
      && S'.birth == S.birth && S'.births == S.births && S'.table == S.table && S'.used == S.used
      && forall t :: t in S.recs ==> S'.recs[t] == if t in todo then Ticked(S.recs[t]) else S.recs[t]
    decreases |todo|
  {
    if todo != [] {
      assert todo == [todo[0]] + todo[1..];
      TickRecords(TickOne(S, todo[0]), todo[1..]);
    }
  }

  /** The sleepers whose last tick this is, and those of one priority. */
  function Due(recs: map<Task, Rec>): Task -> bool {
    t => t in recs && recs[t].sleepTicks == 1
  }

  function DueAt(recs: map<Task, Rec>, prio: nat): Task -> bool {
    t => t in recs && recs[t].sleepTicks == 1 && recs[t].prio == prio
  }

  /** Exactly the sleepers that are due leave, in queue order, each for the end
      of its ready queue, although the queue changes during the traversal. */
  lemma {:induction false} TickQueues(S: State, kept: seq<Task>, todo: seq<Task>, recs: map<Task, Rec>)
    requires S.q.sleep == kept + todo && NoDup(kept + todo) && |S.q.ready| == 64 && Alike(S.recs, recs, todo)
    ensures Asleep(S.recs, todo)
    ensures var q' := TickAll(S, todo).q;
      && q'.sleep == kept + Kept(todo, Due(recs)) && q'.zombie == S.q.zombie && q'.sems == S.q.sems
      && Grown(S.q.ready, q'.ready, todo, recs)
    decreases |todo|
  {
    if todo == [] {
      assert kept + todo == kept;
    } else {
      var t, rest := todo[0], todo[1..];
      assert todo == [t] + rest;
      TickOneQueues(S, kept, t, rest);
      AlikeRest(S.recs, recs, kept, t, rest);
      var S1 := TickOne(S, t);
      assert S1.q.ready == Woken(S.q.ready, t, recs[t]);
      GrownStep(S.q.ready, TickAll(S, todo).q.ready, t, rest, recs);
      hide TickOne, Alike, Grown, Kept, Ticked, Due;
      if recs[t].sleepTicks == 1 {
        RestNoDup(kept, t, rest);
        TickQueues(S1, kept, rest, recs);
        assert [] + Kept(rest, Due(recs)) == Kept(rest, Due(recs));
      } else {
        assert kept + todo == (kept + [t]) + rest;
        TickQueues(S1, kept + [t], rest, recs);
        assert (kept + [t]) + Kept(rest, Due(recs)) == kept + ([t] + Kept(rest, Due(recs)));
      }
    }
  }

  /** The sleepers in todo have not been counted down yet. */
  ghost predicate Alike(now: map<Task, Rec>, recs: map<Task, Rec>, todo: seq<Task>) {
    forall t :: t in todo ==> t in now && t in recs && now[t] == recs[t] && recs[t].prio < 64 && recs[t].stat == SLEEP
  }

  lemma AlikeRest(now: map<Task, Rec>, recs: map<Task, Rec>, kept: seq<Task>, t: Task, rest: seq<Task>)
    requires Alike(now, recs, [t] + rest) && NoDup(kept + ([t] + rest))
    ensures t in now && t in recs && now[t] == recs[t] && recs[t].prio < 64 && recs[t].stat == SLEEP
    ensures Alike(now[t := Ticked(recs[t])], recs, rest)
  {
    var s := kept + ([t] + rest);
    assert s[|kept|] == t && t in [t] + rest;
    forall i | 0 <= i < |rest| ensures rest[i] != t { assert s[|kept| + 1 + i] == rest[i]; }
    forall u | u in rest ensures u in [t] + rest && u != t {}
  }

  /** Every ready queue has got, at its end, the sleepers in todo that are due
      and of its priority. */
  ghost predicate Grown(ready: seq<seq<Task>>, ready': seq<seq<Task>>, todo: seq<Task>, recs: map<Task, Rec>) {
    |ready| == |ready'| == 64 && forall p: nat :: p < 64 ==> ready'[p] == ready[p] + Picked(todo, DueAt(recs, p))
  }

  /** Where t, of priority k, goes in one step. */
  function Woken(ready: seq<seq<Task>>, t: Task, r: Rec): seq<seq<Task>>
    requires r.prio < |ready|
  {
    if r.sleepTicks == 1 then ready[r.prio := ready[r.prio] + [t]] else ready
  }

  lemma GrownAt(r0: seq<seq<Task>>, t: Task, rest: seq<Task>, recs: map<Task, Rec>, p: nat, s: seq<Task>)
    requires t in recs && recs[t].prio < |r0| && p < |r0|
      && s == Woken(r0, t, recs[t])[p] + Picked(rest, DueAt(recs, p))
    ensures s == r0[p] + Picked([t] + rest, DueAt(recs, p))
  {
    PickedCons(t, rest, DueAt(recs, p));
    hide Picked;
    var more := Picked(rest, DueAt(recs, p));
    assert DueAt(recs, p)(t) <==> recs[t].sleepTicks == 1 && recs[t].prio == p;
    assert r0[p] + [t] + more == r0[p] + ([t] + more);
    assert r0[p] + ([] + more) == r0[p] + more;
  }

  lemma GrownStep(r0: seq<seq<Task>>, r2: seq<seq<Task>>, t: Task, rest: seq<Task>, recs: map<Task, Rec>)
    requires |r0| == 64 && t in recs && recs[t].prio < 64
    ensures Grown(Woken(r0, t, recs[t]), r2, rest, recs) ==> Grown(r0, r2, [t] + rest, recs)
    ensures Kept([t] + rest, Due(recs)) == (if recs[t].sleepTicks == 1 then [] else [t]) + Kept(rest, Due(recs))
  {
    PickedCons(t, rest, Due(recs));
    hide Picked, Kept, Woken, DueAt;
    if Grown(Woken(r0, t, recs[t]), r2, rest, recs) {
      forall p: nat | p < 64 ensures r2[p] == r0[p] + Picked([t] + rest, DueAt(recs, p)) {
        GrownAt(r0, t, rest, recs, p, r2[p]);
      }
    }
  }

  lemma TickOneQueues(S: State, kept: seq<Task>, t: Task, rest: seq<Task>)
    requires S.q.sleep == kept + ([t] + rest) && NoDup(S.q.sleep) && |S.q.ready| == 64
    requires t in S.recs && S.recs[t].stat == SLEEP && S.recs[t].prio < 64
    ensures var S', k := TickOne(S, t), S.recs[t].prio;
      && S'.q.sleep == kept + (if S.recs[t].sleepTicks == 1 then rest else [t] + rest)
      && S'.q.zombie == S.q.zombie && S'.q.sems == S.q.sems
      && S'.q.ready == (if S.recs[t].sleepTicks == 1 then S.q.ready[k := S.q.ready[k] + [t]] else S.q.ready)
      && S'.recs == S.recs[t := Ticked(S.recs[t])]
  {
    hide Without, NoDup;
    var s := S.q.sleep;
    assert s[|kept|] == t;
    WithoutAt(s, |kept|);
    assert s[..|kept|] + s[|kept| + 1..] == kept + rest;
  }

  /** The queues once all sleepers have been counted down: those that are due
      have left, each for the end of its ready queue, in their order. */
  function CountedDown(q: Queues, recs: map<Task, Rec>): Queues {
    q.(sleep := Kept(q.sleep, Due(recs)),
       ready := seq(|q.ready|, p requires 0 <= p < |q.ready| => q.ready[p] + Picked(q.sleep, DueAt(recs, p))))
  }

  lemma GrownIs(q: Queues, recs: map<Task, Rec>, ready: seq<seq<Task>>)
    requires Grown(q.ready, ready, q.sleep, recs)
    ensures ready == CountedDown(q, recs).ready
  {
    hide Picked, DueAt;
  }

  lemma CountdownQueues(S: State)
    requires Inv(S)
    ensures Asleep(S.recs, S.q.sleep) && Asleep(ChargeStep(S).recs, S.q.sleep)
    ensures TickAll(ChargeStep(S), S.q.sleep).q == CountedDown(S.q, S.recs)
  {
    hide Core, TickAll, Alike, Picked, Kept, Grown, Due, DueAt, ChargeStep;
    Sleepers(S);
    SleepersAlike(S);
    hide Inv;
    var s := S.q.sleep;
    assert [] + s == s && [] + Kept(s, Due(S.recs)) == Kept(s, Due(S.recs));
    TickQueues(ChargeStep(S), [], s, S.recs);
    GrownIs(S.q, S.recs, TickAll(ChargeStep(S), s).q.ready);
  }

  /** The running task is no sleeper. */
  lemma SleepersAlike(S: State)
    requires Inv(S) && Asleep(S.recs, S.q.sleep)
    ensures |S.q.ready| == 64 && Alike(ChargeStep(S).recs, S.recs, S.q.sleep) && ChargeStep(S).q == S.q
  {
    hide Rooted, Numbered, Holds, Held;
    forall t | t in S.q.sleep ensures WellFormed(S.recs[t]) { RecordFine(S, t); }
  }

  lemma RestNoDup(a: seq<Task>, t: Task, b: seq<Task>)
    requires NoDup(a + ([t] + b))
    ensures NoDup(a + b)
  {
    var s := a + ([t] + b);
    forall i, j | 0 <= i < j < |a + b| ensures (a + b)[i] != (a + b)[j] {
      assert (a + b)[i] == s[if i < |a| then i else i + 1] && (a + b)[j] == s[if j < |a| then j else j + 1];
    }
  }

  // ---- task_init and kernel_thread ------------------------------------------------------------------

  function NewRecord(pid: nat, prio: nat, parent: Task): Rec {
    Rec(pid, prio, READY, parent, [], prio + 1, prio + 1, 0, 0, null)
  }

  /** A new task t, numbered pid, is the last child of the running task. */
  function SpawnStep(S: State, t: Task, prio: nat, pid: nat): State
    requires S.current in S.recs && prio < |S.q.ready| && pid < |S.table|
  {
    var p := S.current;
    Rescheduled(S.(recs := Spawned(S.recs, p, t, prio, pid), q := Entered(S.q, AtReady(prio), t),
                   table := S.table[pid := t], used := S.used + {pid}, birth := S.birth[t := S.births],
                     births := S.births + 1))
  }

  function WithChild(recs: map<Task, Rec>, p: Task, t: Task): map<Task, Rec>
    requires p in recs
  {
    recs[p := recs[p].(children := recs[p].children + [t])]
  }

  /** The records after task_init of a child t of p. */
  function Spawned(recs: map<Task, Rec>, p: Task, t: Task, prio: nat, pid: nat): map<Task, Rec>
    requires p in recs
  {
    WithChild(recs, p, t)[t := NewRecord(pid, prio, p)]
  }

  lemma SpawnMaps(idle: Task, recs: map<Task, Rec>, p: Task, t: Task, prio: nat, pid: nat)
    requires p in recs && recs[p].stat == READY && t !in recs && idle in recs
    ensures p in Kids(recs) && Kids(Spawned(recs, p, t, prio, pid)) == KidsWith(Kids(recs), p, t)
    ensures Par(idle, Spawned(recs, p, t, prio, pid)) == Par(idle, recs)[t := p]
  {
    SpawnKids(recs, p, t, prio, pid);
    hide Kids, KidsWith;
  }

  lemma SpawnKids(recs: map<Task, Rec>, p: Task, t: Task, prio: nat, pid: nat)
    requires p in recs && recs[p].stat == READY && t !in recs
    ensures p in Kids(recs) && Kids(Spawned(recs, p, t, prio, pid)) == KidsWith(Kids(recs), p, t)
  {
  }

  lemma SpawnReady(S: State, t: Task)
    requires Inv(S) && t !in S.recs
    ensures var p := S.current; p in Kids(S.recs) && t !in Kids(S.recs) && p in S.birth && S.birth[p] < S.births
    ensures Family(S.idle, Par(S.idle, S.recs), Kids(S.recs), S.birth) && S.birth.Keys == S.recs.Keys
    ensures BornBefore(S.birth[t := S.births], S.births + 1)
    ensures S.idle in S.recs && S.recs[S.current].stat == READY
  {
    hide Consistent, Numbered, AllWellFormed, Metered, Family, Par;
  }

  lemma SpawnFamily(S: State, t: Task, prio: nat, pid: nat)
    requires Inv(S) && t !in S.recs
    ensures Rooted(S.idle, Spawned(S.recs, S.current, t, prio, pid), S.birth[t := S.births], S.births + 1)
  {
    SpawnReady(S, t);
    hide Inv, Family, KidsWith, Par, Kids, BornBefore;
    SpawnMaps(S.idle, S.recs, S.current, t, prio, pid);
    Born(S.idle, Par(S.idle, S.recs), Kids(S.recs), S.birth, S.current, t, S.births);
  }

  lemma SpawnNumbers(S: State, t: Task, prio: nat, pid: nat)
    requires Inv(S) && t !in S.recs && pid < 256 && pid !in S.used
    ensures Numbered(Spawned(S.recs, S.current, t, prio, pid), S.table[pid := t], S.used + {pid})
  {
    hide Consistent, Rooted, Metered;
    var recs := Spawned(S.recs, S.current, t, prio, pid);
    var table := S.table[pid := t];
    forall u | u in recs ensures recs[u].pid < 256 && table[recs[u].pid] == u {
      if u != t { assert S.table[S.recs[u].pid] == u; }
    }
  }

  lemma SpawnQueues(S: State, t: Task, prio: nat, pid: nat)
    requires Core(S) && S.current in S.recs && t !in S.recs && prio < 64
    ensures |S.q.ready| == 64 && |S.table| == 256
    ensures Consistent(Places(Spawned(S.recs, S.current, t, prio, pid)), Entered(S.q, AtReady(prio), t))
  {
    assert |S.q.ready| == 64 && |S.table| == 256;
    hide Consistent, Rooted, Numbered, AllWellFormed;
    var place: map<Task, Place> := Places(S.recs);
    var place1: map<Task, Place> := place[t := Nowhere];
    Join(place, S.q, t);
    Enter(place1, S.q, t, AtReady(prio));
    assert Places(Spawned(S.recs, S.current, t, prio, pid)) == place1[t := AtReady(prio)];
  }

  lemma SpawnRecords(recs: map<Task, Rec>, p: Task, t: Task, prio: nat, pid: nat)
    requires AllWellFormed(recs) && p in recs && prio < 64 && pid < 256
    ensures AllWellFormed(Spawned(recs, p, t, prio, pid))
  {
  }

  lemma SpawnKeeps(S: State, t: Task, prio: nat, pid: nat)
    requires Inv(S) && t !in S.recs && prio < 64 && pid < 256 && pid !in S.used
    ensures |S.q.ready| == 64 && |S.table| == 256 && Inv(SpawnStep(S, t, prio, pid))
  {
    SpawnFamily(S, t, prio, pid);
    SpawnNumbers(S, t, prio, pid);
    SpawnQueues(S, t, prio, pid);
    SpawnRecords(S.recs, S.current, t, prio, pid);
    hide Consistent, Rooted, Metered, Numbered, Rescheduled, AllWellFormed;
    RescheduledKeeps(S.(recs := Spawned(S.recs, S.current, t, prio, pid), q := Entered(S.q, AtReady(prio), t),
                        table := S.table[pid := t], used := S.used + {pid}, birth := S.birth[t := S.births],
                          births := S.births + 1));
  }

  // ---- task_exit and kthread_exit ------------------------------------------------------------------------

  /** The records after task_exit of t: its children are at the end of the list
      of its parent p, and t is a zombie without children. */
  function Orphaned(recs: map<Task, Rec>, t: Task, p: Task): map<Task, Rec>
    requires t in recs && p in recs
  {
    map u | u in recs ::
      if u == t then recs[t].(children := [], stat := ZOMBIE)
      else if u == p then recs[p].(children := Without(recs[p].children, t) + recs[t].children)
      else if u in recs[t].children then recs[u].(parent := p)
      else recs[u]
  }

  /** wait() on the last child: the parent waits for no semaphore. */
  predicate WaitsForChildren(r: Rec) {
    r.stat == WAITING && r.waitFor == null && r.children == []
  }

  /** The running task is a zombie, and its children have moved. */
  function Dead(S: State): State
    requires S.current in S.recs && S.recs[S.current].parent in S.recs && S.recs[S.current].prio < |S.q.ready|
  {
    var t := S.current;
    S.(recs := Orphaned(S.recs, t, S.recs[t].parent), q := Entered(Left(S.q, AtReady(S.recs[t].prio), t), AtZombie, t))
  }

  /** kthread_exit up to schedule. */
  function Ended(S: State): State
    requires S.current in S.recs && S.recs[S.current].parent in S.recs && S.recs[S.current].prio < |S.q.ready|
  {
    Relieved(Dead(S), S.recs[S.current].parent)
  }

  function ExitStep(S: State): State
    requires S.current in S.recs && S.recs[S.current].parent in S.recs && S.recs[S.current].prio < |S.q.ready|
  {
    Rescheduled(Ended(S))
  }

  /** A parent that waits for its last child to end becomes ready. */
  function Relieved(S: State, p: Task): State
    requires p in S.recs
  {
    if WaitsForChildren(S.recs[p]) then Moved(S, p, S.recs[p].(stat := READY)) else S
  }

  /** The children of t in its list are those whose parent it is. */
  ghost predicate ListsChildren(par: map<Task, Task>, t: Task, children: seq<Task>) {
    (forall u :: u in children ==> u in par && par[u] == t) && (forall u :: u in par && par[u] == t ==> u in children)
  }

  lemma OrphanedKids(idle: Task, recs: map<Task, Rec>, t: Task, p: Task)
    requires t in recs && p in recs && recs[p].stat != ZOMBIE && recs[t].stat == READY && p != t
    ensures p in Kids(recs) && t in Kids(recs) && Kids(Orphaned(recs, t, p)) == KidsAfter(Kids(recs), p, t)
  {
    hide Without;
  }

  lemma OrphanedPar(idle: Task, recs: map<Task, Rec>, t: Task, p: Task)
    requires t in recs && recs[t].stat == READY && t != idle && t in Par(idle, recs) && Par(idle, recs)[t] == p
      && p in recs && p != t
    requires ListsChildren(Par(idle, recs), t, recs[t].children) && p !in recs[t].children
    ensures Par(idle, Orphaned(recs, t, p)) == ParAfter(Par(idle, recs), t)
  {
    hide Without;
    var a, b := Par(idle, Orphaned(recs, t, p)), ParAfter(Par(idle, recs), t);
    assert a.Keys == b.Keys;
    forall u | u in b ensures a[u] == b[u] {
      assert u in recs[t].children <==> Par(idle, recs)[u] == t;
    }
  }

  lemma ChildrenListed(idle: Task, par: map<Task, Task>, kids: map<Task, seq<Task>>, birth: map<Task, nat>, t: Task)
    requires Family(idle, par, kids, birth) && t in kids && t in par
    ensures ListsChildren(par, t, kids[t])
    ensures par[t] in kids && par[t] !in kids[t] && par[t] != t
  {
    assert Siblings(par, kids, t) && Child(par, kids, birth, t);
    forall u | u in par && par[u] == t ensures u in kids[t] { assert Child(par, kids, birth, u); }
    assert par[t] in par ==> Child(par, kids, birth, par[t]);
  }

  lemma OrphanedFamily(S: State)
    requires Inv(S) && S.current != S.idle
    ensures S.recs[S.current].parent in S.recs && S.recs[S.current].parent != S.current
    ensures Rooted(S.idle, Orphaned(S.recs, S.current, S.recs[S.current].parent), S.birth, S.births)
  {
    hide Consistent, Numbered, AllWellFormed, Metered, ParAfter, KidsAfter;
    var t := S.current;
    var par, kids := Par(S.idle, S.recs), Kids(S.recs);
    assert t in kids && t in par && kids[t] == S.recs[t].children && (par[t] in kids ==> S.recs[par[t]].stat != ZOMBIE);
    ChildrenListed(S.idle, par, kids, S.birth, t);
    OrphanedKids(S.idle, S.recs, t, par[t]);
    OrphanedPar(S.idle, S.recs, t, par[t]);
    hide Kids, Par, Orphaned, Family;
    Adopted(S.idle, par, kids, S.birth, t);
  }

  lemma OrphanedNumbers(S: State, t: Task, p: Task)
    requires t in S.recs && p in S.recs
    ensures Numbered(S.recs, S.table, S.used) ==> Numbered(Orphaned(S.recs, t, p), S.table, S.used)
    ensures AllWellFormed(S.recs) && S.recs[t].stat == READY ==> AllWellFormed(Orphaned(S.recs, t, p))
    ensures Places(Orphaned(S.recs, t, p)) == Places(S.recs)[t := AtZombie]
    ensures S.idle in S.recs && S.idle != t ==>
      S.idle in Orphaned(S.recs, t, p) && Orphaned(S.recs, t, p)[S.idle].stat == S.recs[S.idle].stat
  {
    hide Without;
    OrphanedWell(S, t, p);
    OrphanedPlaces(S, t, p);
    hide AllWellFormed;
  }

  lemma OrphanedWell(S: State, t: Task, p: Task)
    requires t in S.recs && p in S.recs
    ensures AllWellFormed(S.recs) && S.recs[t].stat == READY ==> AllWellFormed(Orphaned(S.recs, t, p))
  {
    hide Without;
  }

  lemma OrphanedPlaces(S: State, t: Task, p: Task)
    requires t in S.recs && p in S.recs
    ensures Places(Orphaned(S.recs, t, p)) == Places(S.recs)[t := AtZombie]
  {
    hide Without;
  }

  lemma PlaceHas(recs: map<Task, Rec>, t: Task)
    requires t in recs
    ensures t in Places(recs) && Places(recs)[t] == PlaceOf(recs[t])
  {
  }

  lemma OrphanedKeeps(S: State)
    requires Inv(S) && S.current != S.idle
    ensures S.recs[S.current].parent in S.recs && S.recs[S.current].prio < |S.q.ready|
    ensures Core(Dead(S)) && Dead(S).q.sems == S.q.sems
  {
    var t := S.current;
    hide Rooted, Numbered, Consistent, Metered, AllWellFormed, Without, Orphaned, Places;
    RecordFine(S, t);
    OrphanedFamily(S);
    OrphanedNumbers(S, t, S.recs[t].parent);
    PlaceHas(S.recs, t);
    MoveQueues(Places(S.recs), S.q, t, AtZombie);
  }

  lemma RelievedKeeps(S: State, p: Task)
    requires Core(S) && Metered(S.meters, S.q.sems) && p in S.recs
    ensures Inv(Rescheduled(Relieved(S, p)))
  {
    if WaitsForChildren(S.recs[p]) { MovedKeeps(S, p, S.recs[p].(stat := READY)); }
    hide Core, Metered, Rescheduled;
    RescheduledKeeps(Relieved(S, p));
  }

  lemma ExitKeeps(S: State)
    requires Inv(S) && S.current != S.idle
    ensures S.recs[S.current].parent in S.recs && S.recs[S.current].prio < |S.q.ready| && Inv(ExitStep(S))
  {
    OrphanedKeeps(S);
    assert Metered(S.meters, Dead(S).q.sems);
    hide Core, Metered, Rescheduled, Relieved;
    RelievedKeeps(Dead(S), S.recs[S.current].parent);
  }

  // ---- kkill_zombie and task_kill ---------------------------------------------------------------------------

  /** task_kill of a zombie that has left its queue. */
  function KillStep(S: State, z: Task): State
    requires z in S.recs && S.recs[z].pid < |S.table|
  {
    S.(recs := S.recs - {z}, q := Left(S.q, AtZombie, z), table := S.table[S.recs[z].pid := null],
       used := S.used - {S.recs[z].pid}, birth := S.birth - {z})
  }

  /** One round of the loop of kkill_zombie. */
  function ReapStep(S: State): State
    requires S.q.zombie != [] ==> S.q.zombie[0] in S.recs && S.recs[S.q.zombie[0]].pid < |S.table|
  {
    if S.q.zombie == [] || S.q.zombie[0] == S.current then Rescheduled(S) else KillStep(S, S.q.zombie[0])
  }

  lemma KillFamily(S: State, z: Task)
    requires Core(S) && z in S.recs && S.recs[z].stat == ZOMBIE
    ensures Rooted(S.idle, S.recs - {z}, S.birth - {z}, S.births)
  {
    hide Consistent, Numbered, AllWellFormed;
    var recs, birth := S.recs - {z}, S.birth - {z};
    var par, kids := Par(S.idle, S.recs), Kids(S.recs);
    ZombieApart(S.idle, S.recs, z);
    hide Kids, Par;
    forall c | c in par ensures Child(par, kids, birth, c) { assert Child(par, kids, S.birth, c); }
  }

  /** A zombie is no part of the family. */
  lemma ZombieApart(idle: Task, recs: map<Task, Rec>, z: Task)
    requires z in recs && recs[z].stat == ZOMBIE
    ensures Kids(recs - {z}) == Kids(recs) && Par(idle, recs - {z}) == Par(idle, recs) && z !in Kids(recs)
  {
  }

  lemma KillNumbers(S: State, z: Task)
    requires Core(S) && z in S.recs
    ensures S.recs[z].pid < |S.table|
    ensures Numbered(S.recs - {z}, S.table[S.recs[z].pid := null], S.used - {S.recs[z].pid})
  {
    hide Consistent, Rooted, AllWellFormed;
  }

  lemma KillQueues(S: State, z: Task)
    requires Core(S) && z in S.recs && S.recs[z].stat == ZOMBIE
    ensures Consistent(Places(S.recs - {z}), Left(S.q, AtZombie, z))
  {
    hide Consistent, Numbered, Rooted, AllWellFormed;
    var place: map<Task, Place> := Places(S.recs);
    var place1: map<Task, Place> := place[z := Nowhere];
    Leave(place, S.q, z);
    Drop(place1, Left(S.q, AtZombie, z), z);
    assert Places(S.recs - {z}) == place1 - {z};
  }

  lemma FewerRecords(recs: map<Task, Rec>, z: Task)
    requires AllWellFormed(recs)
    ensures AllWellFormed(recs - {z})
  {
  }

  lemma KillKeeps(S: State, z: Task)
    requires Inv(S) && z in S.recs && S.recs[z].stat == ZOMBIE
    ensures S.recs[z].pid < |S.table| && Inv(KillStep(S, z))
  {
    hide Consistent, Numbered, Rooted, Metered, Places, AllWellFormed;
    KillFamily(S, z);
    KillNumbers(S, z);
    KillQueues(S, z);
    FewerRecords(S.recs, z);
    RecordFine(S, z);
    hide Consistent, Numbered, Rooted, Metered, Places, AllWellFormed;
  }

  lemma ReapKeeps(S: State)
    requires Inv(S)
    ensures S.q.zombie != [] ==> S.q.zombie[0] in S.recs && S.recs[S.q.zombie[0]].pid < |S.table|
    ensures Inv(ReapStep(S))
  {
    if S.q.zombie != [] {
      assert Holds(Places(S.recs), S.q, AtZombie) && S.q.zombie[0] in At(S.q, AtZombie);
      assert PlaceOf(S.recs[S.q.zombie[0]]) == AtZombie;
      KillKeeps(S, S.q.zombie[0]);
    } else {
      RescheduledKeeps(S);
    }
  }

  // ---- semaphores ----------------------------------------------------------------------------------------------

  /** `decl` and `incl` on a signed word of 32 bits. */
  function Decl(c: int): int {
    if c == -0x8000_0000 then 0x7FFF_FFFF else c - 1
  }

  function Incl(c: int): int {
    if c == 0x7FFF_FFFF then -0x8000_0000 else c + 1
  }

  function NewSemStep(S: State, s: Semaphore, c: nat): State {
    S.(q := S.q.(sems := S.q.sems[s := []]), meters := S.meters[s := Meter(c, c, 0, 0, [], [])])
  }

  /** sem_wait: the slow path if the new count is negative. */
  function SemWaitStep(S: State, s: Semaphore): State
    requires s in S.meters && S.current in S.recs
  {
    var m := S.meters[s].(count := Decl(S.meters[s].count), waits := S.meters[s].waits + 1);
    if m.count >= 0 then S.(meters := S.meters[s := m])
    else
      Rescheduled(Moved(S.(meters := S.meters[s := m.(blocked := m.blocked + [S.current])]), S.current,
                        S.recs[S.current].(stat := WAITING, waitFor := s)))
  }

  /** sem_post: the slow path unless the incremented count, taken without
      wrap-around, is positive; it releases the first task of the queue. */
  function SemPostStep(S: State, s: Semaphore): State
    requires s in S.meters && s in S.q.sems
    requires S.meters[s].count + 1 <= 0 ==> S.q.sems[s] != [] && S.q.sems[s][0] in S.recs
  {
    var m := S.meters[s].(count := Incl(S.meters[s].count), posts := S.meters[s].posts + 1);
    if S.meters[s].count + 1 > 0 then S.(meters := S.meters[s := m])
    else
      var t := S.q.sems[s][0];
      Moved(S.(meters := S.meters[s := m.(released := m.released + [t])]), t,
        S.recs[t].(stat := READY, waitFor := null))
  }

  lemma NewSemKeeps(S: State, s: Semaphore, c: nat)
    requires Inv(S) && s !in S.meters && c < 0x8000_0000
    ensures Inv(NewSemStep(S, s, c))
  {
    hide Numbered, Rooted, Consistent, AllWellFormed, Places;
    NewSem(Places(S.recs), S.q, s);
    var m := Meter(c, c, 0, 0, [], []);
    assert Balanced(m, []);
    hide Balanced;
  }

  /** Distinct numbers below n are at most n. */
  lemma {:induction false} Pigeons(s: seq<int>, n: nat)
    requires NoDup(s) && forall k :: k in s ==> 0 <= k < n
    ensures |s| <= n
    decreases n
  {
    if s != [] {
      assert s[0] in s;
      WithoutMembers(s, n - 1);
      assert n - 1 !in s ==> Without(s, n - 1) == s;
      Pigeons(Without(s, n - 1), n - 1);
    }
  }

  function PidsOf(recs: map<Task, Rec>, q: seq<Task>): (r: seq<int>)
    requires forall t :: t in q ==> t in recs
    ensures |r| == |q| && forall i :: 0 <= i < |q| ==> r[i] == recs[q[i]].pid
  {
    if q == [] then [] else [recs[q[0]].pid] + PidsOf(recs, q[1..])
  }

  /** No queue is longer than the number of process numbers. */
  lemma QueueBound(S: State, p: Place)
    requires Core(S) && Known(S.q, p)
    ensures |At(S.q, p)| <= 256
  {
    assert Holds(Places(S.recs), S.q, p);
    hide Consistent, Rooted, AllWellFormed, Known;
    DistinctPids(S.recs, S.table, S.used, At(S.q, p));
  }

  lemma DistinctPids(recs: map<Task, Rec>, table: seq<Task?>, used: set<nat>, q: seq<Task>)
    requires Numbered(recs, table, used) && NoDup(q) && forall t :: t in q ==> t in recs
    ensures |q| <= 256
  {
    var pids := PidsOf(recs, q);
    forall i, j | 0 <= i < j < |pids| ensures pids[i] != pids[j] {
      assert q[i] in q && q[j] in q;
      assert table[pids[i]] == q[i] && table[pids[j]] == q[j];
    }
    forall i | 0 <= i < |pids| ensures 0 <= pids[i] < 256 { assert q[i] in q; }
    hide Numbered;
    Pigeons(pids, 256);
  }

  /** sem_wait keeps the books: it takes a unit, or the running task joins the
      end of the queue. */
  lemma WaitBalance(m: Meter, queue: seq<Task>, t: Task)
    requires Balanced(m, queue) && |queue| <= 256
    ensures var m1 := m.(count := Decl(m.count), waits := m.waits + 1);
      if m.count > 0 then m1.count >= 0 && Balanced(m1, queue)
      else m1.count < 0 && Balanced(m1.(blocked := m1.blocked + [t]), queue + [t])
  {
    if m.count <= 0 { assert m.blocked + [t] == m.released + (queue + [t]); }
  }

  /** sem_post keeps the books exactly if the count is not the largest signed
      word; the slow path runs exactly if somebody waits, and releases the
      first to have come. */
  lemma PostBalance(m: Meter, queue: seq<Task>)
    requires Balanced(m, queue)
    ensures m.count + 1 <= 0 <==> queue != []
    ensures var m1 := m.(count := Incl(m.count), posts := m.posts + 1);
      if queue == [] then Balanced(m1, queue) <==> m.count != 0x7FFF_FFFF
      else Balanced(m1.(released := m1.released + [queue[0]]), queue[1..])
  {
    if queue != [] { assert m.released + queue == (m.released + [queue[0]]) + queue[1..]; }
  }

  /** The waits that have got through are as many as there were units for. */
  lemma Throughput(m: Meter, queue: seq<Task>)
    requires Balanced(m, queue)
    ensures m.waits - |queue| == if m.waits <= m.start + m.posts then m.waits else m.start + m.posts
    ensures |m.released| <= |m.blocked| && m.released == m.blocked[..|m.released|]
  {
  }

  lemma MeteredSet(meters: map<Semaphore, Meter>, sems: map<Semaphore, seq<Task>>, s: Semaphore, m: Meter, q: seq<Task>)
    requires Metered(meters, sems) && s in meters && Balanced(m, q)
    ensures Metered(meters[s := m], sems[s := q])
  {
    hide Balanced;
  }

  lemma SemWaitKeeps(S: State, s: Semaphore)
    requires Inv(S) && s in S.meters && S.current != S.idle
    ensures Inv(SemWaitStep(S, s))
  {
    hide Core, Balanced, PlaceOf, Moved, Rescheduled;
    assert s in S.q.sems && Balanced(S.meters[s], S.q.sems[s]);
    var m, q, t := S.meters[s], S.q.sems[s], S.current;
    assert At(S.q, AtSem(s)) == q;
    QueueBound(S, AtSem(s));
    WaitBalance(m, q, t);
    var m1 := m.(count := Decl(m.count), waits := m.waits + 1);
    if m1.count >= 0 {
      MeteredSet(S.meters, S.q.sems, s, m1, q);
      assert S.q.sems[s := q] == S.q.sems;
      CoreOnly(S, S.(meters := S.meters[s := m1]));
    } else {
      var m2 := m1.(blocked := m1.blocked + [t]);
      MeteredSet(S.meters, S.q.sems, s, m2, q + [t]);
      hide Metered;
      var S1 := S.(meters := S.meters[s := m2]);
      CoreOnly(S, S1);
      BlockKeeps(S1, t, s);
      RescheduledKeeps(Moved(S1, t, S.recs[t].(stat := WAITING, waitFor := s)));
    }
  }

  /** Core does not depend on the meters. */
  lemma CoreOnly(S: State, S': State)
    requires Core(S) && S' == S.(meters := S'.meters)
    ensures Core(S')
  {
  }

  lemma BlockKeeps(S: State, t: Task, s: Semaphore)
    requires Core(S) && t in S.recs && S.recs[t].stat == READY && t != S.idle && s in S.q.sems
    ensures var S' := Moved(S, t, S.recs[t].(stat := WAITING, waitFor := s));
      Core(S') && S'.q.sems == S.q.sems[s := S.q.sems[s] + [t]] && S'.meters == S.meters
  {
    hide Core, Without;
    RecordFine(S, t);
    MovedKeeps(S, t, S.recs[t].(stat := WAITING, waitFor := s));
  }

  lemma SemPostKeeps(S: State, s: Semaphore)
    requires Inv(S) && s in S.meters && S.meters[s].count < 0x7FFF_FFFF
    ensures s in S.q.sems && (S.meters[s].count + 1 <= 0 ==> S.q.sems[s] != [] && S.q.sems[s][0] in S.recs)
    ensures Inv(SemPostStep(S, s))
  {
    hide Core, Balanced, PlaceOf, Moved;
    assert s in S.q.sems && Balanced(S.meters[s], S.q.sems[s]);
    var m, q := S.meters[s], S.q.sems[s];
    PostBalance(m, q);
    var m1 := m.(count := Incl(m.count), posts := m.posts + 1);
    if q == [] {
      MeteredSet(S.meters, S.q.sems, s, m1, q);
      assert S.q.sems[s := q] == S.q.sems;
      CoreOnly(S, S.(meters := S.meters[s := m1]));
    } else {
      var m2 := m1.(released := m1.released + [q[0]]);
      MeteredSet(S.meters, S.q.sems, s, m2, q[1..]);
      hide Metered;
      var S1 := S.(meters := S.meters[s := m2]);
      CoreOnly(S, S1);
      ReleaseKeeps(S1, s);
    }
  }

  /** The first task in the queue of a semaphore waits for it. */
  lemma WaitsAt(S: State, s: Semaphore)
    requires Core(S) && s in S.q.sems && S.q.sems[s] != []
    ensures var t := S.q.sems[s][0]; t in S.recs && S.recs[t].stat == WAITING && S.recs[t].waitFor == s && t != S.idle
  {
    hide Numbered, Rooted, AllWellFormed, NoDup, Held;
    assert Holds(Places(S.recs), S.q, AtSem(s));
    var t := S.q.sems[s][0];
    assert t in At(S.q, AtSem(s));
    assert PlaceOf(S.recs[t]) == AtSem(s);
  }

  lemma ReleaseKeeps(S: State, s: Semaphore)
    requires Core(S) && s in S.q.sems && S.q.sems[s] != [] && S.current in S.recs && S.recs[S.current].stat == READY
    ensures S.q.sems[s][0] in S.recs
    ensures var t := S.q.sems[s][0]; var S' := Moved(S, t, S.recs[t].(stat := READY, waitFor := null));
      && Core(S') && S'.q.sems == S.q.sems[s := S.q.sems[s][1..]]
      && S'.current in S'.recs && S'.recs[S'.current].stat == READY && S'.meters == S.meters
  {
    hide Core;
    WaitsAt(S, s);
    var t := S.q.sems[s][0];
    var r := S.recs[t].(stat := READY, waitFor := null);
    RecordFine(S, t);
    MovedKeeps(S, t, r);
    FirstLeaves(S.q, s, AtReady(r.prio));
    hide Give, Take;
  }

  lemma FirstLeaves(q: Queues, s: Semaphore, p: Place)
    requires s in q.sems && q.sems[s] != [] && p.AtReady?
    ensures Give(Take(q, AtSem(s), q.sems[s][0]), p, q.sems[s][0]).sems == q.sems[s := q.sems[s][1..]]
  {
  }
}
