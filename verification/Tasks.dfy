/** Tasks, the queues that hold them and the family tree, as values. */
module Tasks {
  import opened Seqs
  import opened RoundRobin

  /** task_stat_t */
  datatype Stat = READY | SLEEP | WAITING | ZOMBIE

  /** task_t, without stack, name and lock.  The two lists threaded through it
      are sequences here. */
  class Task {
    var pid: nat
    var prio: nat
    var stat: Stat
    var parent: Task?
    var children: seq<Task>
    var timeTicks: nat
    var restTicks: nat
    var totalTicks: nat
    var sleepTicks: nat
    var waitFor: Semaphore?

    constructor ()
      ensures RecordOf(this) == Rec(0, 0, READY, null, [], 0, 0, 0, 0, null)
    {
      pid, prio, stat, parent, children := 0, 0, READY, null, [];
      timeTicks, restTicks, totalTicks, sleepTicks, waitFor := 0, 0, 0, 0, null;
    }
  }

  /** semaphore_t */
  class Semaphore {
    var count: int
    var queue: seq<Task>

    /** sem_init. */
    constructor (c: int)
      ensures queue == [] && count == c
    {
      count, queue := c, [];
    }
  }

  /** The fields of a task at one moment. */
  datatype Rec = Rec(pid: nat, prio: nat, stat: Stat, parent: Task?, children: seq<Task>,
                     timeTicks: nat, restTicks: nat, totalTicks: nat, sleepTicks: nat, waitFor: Semaphore?)

  ghost function RecordOf(t: Task): Rec
    reads t
  {
    Rec(t.pid, t.prio, t.stat, t.parent, t.children, t.timeTicks, t.restTicks, t.totalTicks, t.sleepTicks, t.waitFor)
  }

  // ---- where a task is ------------------------------------------------------------

  datatype Place = AtReady(prio: nat) | AtSleep | AtZombie | AtSem(sem: Semaphore) | Nowhere

  /** The queue that the fields of a task point to. */
  function PlaceOf(r: Rec): Place {
    match r.stat
    case READY => AtReady(r.prio)
    case SLEEP => AtSleep
    case ZOMBIE => AtZombie
    case WAITING => if r.waitFor == null then Nowhere else AtSem(r.waitFor)
  }

  datatype Queues = Queues(ready: seq<seq<Task>>, sleep: seq<Task>, zombie: seq<Task>, sems: map<Semaphore, seq<Task>>)

  predicate Known(q: Queues, older p: Place) {
    match p
    case AtReady(k) => k < |q.ready|
    case AtSem(s) => s in q.sems
    case Nowhere => false
    case _ => true
  }

  function At(q: Queues, p: Place): seq<Task>
    requires Known(q, p)
  {
    match p
    case AtReady(k) => q.ready[k]
    case AtSleep => q.sleep
    case AtZombie => q.zombie
    case AtSem(s) => q.sems[s]
  }

  /** q with the queue at p replaced. */
  function Put(q: Queues, p: Place, s: seq<Task>): Queues
    requires Known(q, p)
  {
    match p
    case AtReady(k) => q.(ready := q.ready[k := s])
    case AtSleep => q.(sleep := s)
    case AtZombie => q.(zombie := s)
    case AtSem(m) => q.(sems := q.sems[m := s])
  }

  lemma PutAt(q: Queues, p: Place, s: seq<Task>, r: Place)
    requires Known(q, p)
    ensures Known(Put(q, p, s), r) == Known(q, r)
    ensures Known(q, r) ==> At(Put(q, p, s), r) == if r == p then s else At(q, r)
  {
  }

  /** The queue at p holds, once each, only tasks whose place is p. */
  ghost predicate Holds(place: map<Task, Place>, q: Queues, p: Place)
    requires Known(q, p)
  {
    NoDup(At(q, p)) && forall t :: t in At(q, p) ==> t in place && place[t] == p
  }

  ghost predicate Held(place: map<Task, Place>, q: Queues, t: Task)
    requires t in place
  {
    place[t] == Nowhere || (Known(q, place[t]) && t in At(q, place[t]))
  }

  /** Every task is in the queue of its place, once, and in no other. */
  ghost predicate Consistent(place: map<Task, Place>, q: Queues) {
    && |q.ready| == 64
    && (forall p {:trigger Holds(place, q, p)} :: Known(q, p) ==> Holds(place, q, p))
    && (forall t {:trigger Held(place, q, t)} :: t in place ==> Held(place, q, t))
  }

  /** A task leaves its queue. */
  function Left(q: Queues, p: Place, t: Task): Queues
    requires Known(q, p)
  {
    Put(q, p, Without(At(q, p), t))
  }

  /** A task enters a queue, at the end. */
  function Entered(q: Queues, p: Place, t: Task): Queues
    requires Known(q, p)
  {
    Put(q, p, At(q, p) + [t])
  }

  lemma Leave(place: map<Task, Place>, q: Queues, t: Task)
    requires Consistent(place, q) && t in place && place[t] != Nowhere
    ensures Known(q, place[t]) && Consistent(place[t := Nowhere], Left(q, place[t], t))
  {
    var p := place[t];
    assert Held(place, q, t) && Holds(place, q, p);
    var place', q' := place[t := Nowhere], Left(q, p, t);
    WithoutMembers(At(q, p), t);
    forall r | Known(q', r) ensures Holds(place', q', r) {
      PutAt(q, p, Without(At(q, p), t), r);
      assert Holds(place, q, r);
    }
    forall u | u in place' ensures Held(place', q', u) {
      assert Held(place, q, u);
      PutAt(q, p, Without(At(q, p), t), place[u]);
    }
  }

  lemma Enter(place: map<Task, Place>, q: Queues, t: Task, p: Place)
    requires Consistent(place, q) && t in place && place[t] == Nowhere && Known(q, p)
    ensures Consistent(place[t := p], Entered(q, p, t))
  {
    var place', q' := place[t := p], Entered(q, p, t);
    assert Holds(place, q, p);
    AppendMembers(At(q, p), t);
    forall r | Known(q', r) ensures Holds(place', q', r) {
      PutAt(q, p, At(q, p) + [t], r);
      assert Holds(place, q, r);
    }
    forall u | u in place' ensures Held(place', q', u) {
      PutAt(q, p, At(q, p) + [t], place'[u]);
      if u != t { assert Held(place, q, u); }
    }
  }

  /** A queue is rotated. */
  lemma TurnAt(place: map<Task, Place>, q: Queues, p: Place)
    requires Consistent(place, q) && Known(q, p)
    ensures Consistent(place, Put(q, p, Rotate(At(q, p))))
  {
    var s := At(q, p);
    var q' := Put(q, p, Rotate(s));
    RotateMembers(s) by { assert Holds(place, q, p); }
    forall r | Known(q', r) ensures Holds(place, q', r) {
      PutAt(q, p, Rotate(s), r);
      assert Holds(place, q, r);
    }
    forall u | u in place ensures Held(place, q', u) {
      assert Held(place, q, u);
      PutAt(q, p, Rotate(s), place[u]);
    }
  }

  lemma RotateMembers(s: seq<Task>)
    requires NoDup(s)
    ensures NoDup(Rotate(s)) && Same(Rotate(s), s)
  {
    if s != [] {
      var r := s[1..] + [s[0]];
      assert s == [s[0]] + s[1..];
      forall i, j | 0 <= i < j < |r| ensures r[i] != r[j] {
        assert r[i] == s[i + 1];
        if j < |r| - 1 { assert r[j] == s[j + 1]; }
      }
    }
  }

  /** A new task, in no queue yet, and a task that is gone. */
  lemma Join(place: map<Task, Place>, q: Queues, t: Task)
    requires Consistent(place, q) && t !in place
    ensures Consistent(place[t := Nowhere], q)
  {
    var place' := place[t := Nowhere];
    forall p | Known(q, p) ensures Holds(place', q, p) { assert Holds(place, q, p); }
    forall u | u in place' ensures Held(place', q, u) {
      if u != t { assert Held(place, q, u); }
    }
  }

  lemma Drop(place: map<Task, Place>, q: Queues, t: Task)
    requires Consistent(place, q) && t in place && place[t] == Nowhere
    ensures Consistent(place - {t}, q)
  {
    var place' := place - {t};
    forall p | Known(q, p) ensures Holds(place', q, p) { assert Holds(place, q, p); }
    forall u | u in place' ensures Held(place', q, u) { assert Held(place, q, u); }
  }

  /** A new semaphore, with nobody waiting. */
  lemma NewSem(place: map<Task, Place>, q: Queues, s: Semaphore)
    requires Consistent(place, q) && s !in q.sems
    ensures Consistent(place, q.(sems := q.sems[s := []]))
  {
    var q' := q.(sems := q.sems[s := []]);
    forall p | Known(q', p) ensures Holds(place, q', p) {
      if p != AtSem(s) { assert Holds(place, q, p); assert At(q', p) == At(q, p); }
    }
    forall u | u in place ensures Held(place, q', u) { assert Held(place, q, u); }
  }

  /** The state set up by sched_init. */
  lemma First(q: Queues, t: Task)
    requires |q.ready| == 64 && q.ready[63] == [t] && q.sleep == [] && q.zombie == [] && q.sems == map[]
    requires forall p :: 0 <= p < 63 ==> q.ready[p] == []
    ensures Consistent(map[t := AtReady(63)], q)
  {
    var place := map[t := AtReady(63)];
    forall p | Known(q, p) ensures Holds(place, q, p) {}
    assert Held(place, q, t);
  }

  /** The task that the scheduler picks, and the queues afterwards. */
  function Next(q: Queues): Task
    requires Scan(q.ready) < |q.ready| && q.ready[Scan(q.ready)] != []
  {
    q.ready[Scan(q.ready)][0]
  }

  function Scheduled(q: Queues): Queues
    requires Scan(q.ready) < |q.ready|
  {
    var p := AtReady(Scan(q.ready));
    Put(q, p, Rotate(At(q, p)))
  }

  /** As long as some task is ready, the choice is defined, and is a ready task. */
  lemma PickIsReady(place: map<Task, Place>, q: Queues, t: Task)
    requires Consistent(place, q) && t in place && place[t].AtReady?
    ensures var p := Scan(q.ready); p < 64 && q.ready[p] != [] && Next(q) in place && place[Next(q)] == AtReady(p)
    ensures Consistent(place, Scheduled(q))
  {
    assert Held(place, q, t);
    ScanLeast(q.ready);
    assert q.ready[place[t].prio] != [];
    var p := Scan(q.ready);
    assert p <= place[t].prio;
    assert Holds(place, q, AtReady(p));
    TurnAt(place, q, AtReady(p));
  }

  // ---- the family tree ---------------------------------------------------------------

  /** par is a tree rooted at idle, and kids lists the children of each task.
      Parents are born before their children. */
  ghost predicate Family(idle: Task, par: map<Task, Task>, kids: map<Task, seq<Task>>, birth: map<Task, nat>) {
    && kids.Keys == par.Keys + {idle} && idle !in par && kids.Keys <= birth.Keys
    && Children(par, kids, birth)
    && (forall p :: p in kids ==> Siblings(par, kids, p))
  }

  ghost predicate Children(par: map<Task, Task>, kids: map<Task, seq<Task>>, birth: map<Task, nat>) {
    forall c :: c in par ==> Child(par, kids, birth, c)
  }

  ghost predicate Child(par: map<Task, Task>, kids: map<Task, seq<Task>>, birth: map<Task, nat>, c: Task)
    requires c in par
  {
    && par[c] in kids && c in kids[par[c]]
    && c in birth && par[c] in birth && birth[par[c]] < birth[c]
  }

  ghost predicate Siblings(par: map<Task, Task>, kids: map<Task, seq<Task>>, p: Task)
    requires p in kids
  {
    NoDup(kids[p]) && forall c :: c in kids[p] ==> c in par && par[c] == p
  }

  /** From any task, the way over the parents ends at idle. */
  ghost function Ancestry(idle: Task, par: map<Task, Task>, kids: map<Task, seq<Task>>, birth: map<Task, nat>,
                          t: Task): (r: seq<Task>)
    requires Family(idle, par, kids, birth) && t in kids
    ensures r != [] && r[0] == t && r[|r| - 1] == idle
    ensures forall i :: 0 <= i < |r| - 1 ==> r[i] in par && r[i + 1] == par[r[i]]
    decreases birth[t]
  {
    if t == idle then [t]
    else
      assert Child(par, kids, birth, t);
      [t] + Ancestry(idle, par, kids, birth, par[t])
  }

  /** The lists of children once p has a new child t. */
  function KidsWith(kids: map<Task, seq<Task>>, p: Task, t: Task): map<Task, seq<Task>>
    requires p in kids
  {
    kids[p := kids[p] + [t]][t := []]
  }

  /** A child t of p is born. */
  lemma Born(idle: Task, par: map<Task, Task>, kids: map<Task, seq<Task>>, birth: map<Task, nat>, p: Task, t: Task,
             n: nat)
    requires Family(idle, par, kids, birth) && p in kids && t !in kids && n > birth[p]
    ensures Family(idle, par[t := p], KidsWith(kids, p, t), birth[t := n])
  {
    var par', kids', birth' := par[t := p], KidsWith(kids, p, t), birth[t := n];
    BornChildren(idle, par, kids, birth, p, t, n);
    forall q | q in kids' ensures Siblings(par', kids', q) {
      if q != t {
        assert Siblings(par, kids, q);
        if q == p { AppendMembers(kids[p], t); }
      }
    }
    hide Siblings, Child;
    assert kids'.Keys == par'.Keys + {idle};
  }

  lemma BornChildren(idle: Task, par: map<Task, Task>, kids: map<Task, seq<Task>>, birth: map<Task, nat>, p: Task,
                     t: Task, n: nat)
    requires Family(idle, par, kids, birth) && p in kids && t !in kids && n > birth[p]
    ensures Children(par[t := p], KidsWith(kids, p, t), birth[t := n])
  {
    var par', kids', birth' := par[t := p], KidsWith(kids, p, t), birth[t := n];
    forall c | c in par' ensures Child(par', kids', birth', c) {
      if c != t { assert Child(par, kids, birth, c); }
    }
  }

  /** The family after task_exit of t: its children, in order, follow the other
      children of its parent. */
  function ParAfter(par: map<Task, Task>, t: Task): map<Task, Task>
    requires t in par
  {
    map c | c in par && c != t :: if par[c] == t then par[t] else par[c]
  }

  function KidsAfter(kids: map<Task, seq<Task>>, p: Task, t: Task): map<Task, seq<Task>>
    requires p in kids && t in kids
  {
    kids[p := Without(kids[p], t) + kids[t]] - {t}
  }

  lemma Adopted(idle: Task, par: map<Task, Task>, kids: map<Task, seq<Task>>, birth: map<Task, nat>, t: Task)
    requires Family(idle, par, kids, birth) && t in par
    ensures par[t] in kids && t in kids && par[t] != t
    ensures Family(idle, ParAfter(par, t), KidsAfter(kids, par[t], t), birth)
  {
    assert Child(par, kids, birth, t);
    var p := par[t];
    AdoptedChildren(idle, par, kids, birth, t);
    assert Siblings(par, kids, p) && Siblings(par, kids, t);
    var par', kids' := ParAfter(par, t), KidsAfter(kids, p, t);
    forall q | q in kids' ensures Siblings(par', kids', q) {
      assert Siblings(par, kids, q);
      if q == p { AdoptedList(par, kids, t); } else { AdoptedOther(par, kids, t, q); }
    }
    hide Siblings, Child;
    assert kids'.Keys == par'.Keys + {idle};
  }

  lemma AdoptedList(par: map<Task, Task>, kids: map<Task, seq<Task>>, t: Task)
    requires t in par && par[t] in kids && t in kids && par[t] != t
    requires Siblings(par, kids, par[t]) && Siblings(par, kids, t)
    ensures Siblings(ParAfter(par, t), KidsAfter(kids, par[t], t), par[t])
  {
    var p := par[t];
    WithoutMembers(kids[p], t);
    JoinMembers(Without(kids[p], t), kids[t]);
    var par', s := ParAfter(par, t), Without(kids[p], t) + kids[t];
    forall c | c in s ensures c in par' && par'[c] == p {
      if c in kids[t] { assert par[c] == t; } else { assert c in Without(kids[p], t); }
    }
    assert KidsAfter(kids, p, t)[p] == s;
  }

  lemma AdoptedOther(par: map<Task, Task>, kids: map<Task, seq<Task>>, t: Task, q: Task)
    requires t in par && par[t] in kids && t in kids && q in kids && q != par[t] && q != t
    requires Siblings(par, kids, q)
    ensures Siblings(ParAfter(par, t), KidsAfter(kids, par[t], t), q)
  {
  }

  lemma AdoptedChildren(idle: Task, par: map<Task, Task>, kids: map<Task, seq<Task>>, birth: map<Task, nat>, t: Task)
    requires Family(idle, par, kids, birth) && t in par && par[t] in kids && t in kids && par[t] != t
    ensures Children(ParAfter(par, t), KidsAfter(kids, par[t], t), birth)
  {
    var p := par[t];
    var par', kids' := ParAfter(par, t), KidsAfter(kids, p, t);
    assert Siblings(par, kids, p) && Child(par, kids, birth, t);
    WithoutMembers(kids[p], t);
    forall c | c in par' ensures Child(par', kids', birth, c) {
      assert Child(par, kids, birth, c);
      assert Child(par, kids, birth, t);
      if par[c] == p { assert c in Without(kids[p], t); }
    }
  }

  lemma JoinMembers(a: seq<Task>, b: seq<Task>)
    requires NoDup(a) && NoDup(b) && forall x :: x in a ==> x !in b
    ensures NoDup(a + b)
  {
    var s := a + b;
    forall i, j | 0 <= i < j < |s| ensures s[i] != s[j] {
      if i < |a| <= j { assert s[i] in a && s[j] in b; }
    }
  }
}
