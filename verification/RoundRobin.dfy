/** The round-robin ready queues: 64 priorities, indexed by a bitmap of eight
    bytes and a group byte over it. */
module RoundRobin {
  import opened Bits
  import opened Bitmaps
  import opened Seqs

  /** The first nonempty queue, by linear scan. */
  function Scan<T>(qs: seq<seq<T>>): (p: nat)
    ensures p <= |qs|
  {
    if qs == [] || qs[0] != [] then 0 else 1 + Scan(qs[1..])
  }

  lemma {:induction false} ScanIs<T>(qs: seq<seq<T>>, p: nat)
    requires p < |qs| && qs[p] != [] && forall q: nat :: q < p ==> qs[q] == []
    ensures Scan(qs) == p
    decreases p
  {
    if p > 0 {
      forall q: nat | q < p - 1 ensures qs[1..][q] == [] { assert qs[q + 1] == []; }
      ScanIs(qs[1..], p - 1);
    }
  }

  function Total<T>(qs: seq<seq<T>>): nat {
    if qs == [] then 0 else |qs[0]| + Total(qs[1..])
  }

  lemma {:induction false} TotalUpdate<T>(qs: seq<seq<T>>, p: nat, q: seq<T>)
    requires p < |qs|
    ensures Total(qs[p := q]) == Total(qs) - |qs[p]| + |q|
    decreases p
  {
    if p == 0 {
      assert qs[0 := q][1..] == qs[1..];
    } else {
      assert qs[p := q][1..] == qs[1..][p - 1 := q];
      TotalUpdate(qs[1..], p - 1, q);
    }
  }

  function Rotate<T>(q: seq<T>): seq<T> {
    if q == [] then [] else q[1..] + [q[0]]
  }

  /** Both levels of the bitmap agree with emptiness of the queues. */
  ghost predicate Indexed<T>(qs: seq<seq<T>>, tbl: seq<nat>, grp: nat) {
    && |qs| == 64 && |tbl| == 8 && grp < 256 && (forall y :: 0 <= y < 8 ==> tbl[y] < 256)
    && (forall p: nat {:trigger qs[p]} :: p < 64 ==> (Bit(tbl[p / 8], p % 8) <==> qs[p] != []))
    && (forall y: nat {:trigger tbl[y]} :: y < 8 ==> (Bit(grp, y) <==> tbl[y] != 0))
  }

  lemma SetBit(w: nat, x: nat)
    requires w < 256 && x < 8
    ensures var v := Or(w, Pow2(x)); 0 < v < 256 && (forall k: nat :: Bit(v, k) <==> Bit(w, k) || k == x)
  {
    assert Pow2(8) == 16 * Pow2(4);
    Pow2Mono(x, 8);
    assert Pow2(x) < 256 by { if x < 8 { Pow2Mono(x, 7); assert Pow2(7) == 8 * Pow2(4); } }
    OrBelow(w, Pow2(x), 8);
    forall k: nat ensures Bit(Or(w, Pow2(x)), k) <==> Bit(w, k) || k == x {
      OrBit(w, Pow2(x), k);
      BitPow2(x, k);
    }
    BitZero(x);
  }

  lemma ClearBit(w: nat, x: nat)
    requires w < 256
    ensures var v := AndNot(w, Pow2(x)); v < 256 && (forall k: nat :: Bit(v, k) <==> Bit(w, k) && k != x)
  {
    AndNotLe(w, Pow2(x));
    forall k: nat ensures Bit(AndNot(w, Pow2(x)), k) <==> Bit(w, k) && k != x {
      AndNotBit(w, Pow2(x), k);
      BitPow2(x, k);
    }
  }

  lemma EmptyByte(w: nat)
    requires w < 256
    ensures w == 0 <==> NoOnes(w, 8)
  {
    assert Pow2(8) == 16 * Pow2(4);
    NoOnesIs(w, 8);
  }

  /** The table lookups find the first nonempty queue. */
  lemma Lookup<T>(qs: seq<seq<T>>, tbl: seq<nat>, grp: nat, p: nat)
    requires Indexed(qs, tbl, grp) && p < 64 && qs[p] != []
    ensures grp > 0 && RrUnmap(grp) < 8
    ensures var y := RrUnmap(grp);
      tbl[y] > 0 && RrUnmap(tbl[y]) < 8 && Scan(qs) == 8 * y + RrUnmap(tbl[y]) && qs[Scan(qs)] != []
  {
    hide RrUnmap, LowOne;
    EmptyByte(tbl[p / 8]);
    EmptyByte(grp);
    RrUnmapIs(grp);
    LowOneIs(grp);
    var y := LowOne(grp);
    assert y <= p / 8;
    RrUnmapIs(tbl[y]);
    LowOneIs(tbl[y]);
    EmptyByte(tbl[y]);
    var x := LowOne(tbl[y]);
    assert x < 8;
    var r := 8 * y + x;
    assert r / 8 == y && r % 8 == x;
    forall q: nat | q < r ensures qs[q] == [] {
      if q / 8 < y { EmptyByte(tbl[q / 8]); }
    }
    ScanIs(qs, r);
  }

  class RoundRobin<T(==)> {
    const queue: array<seq<T>>
    var nTasks: nat
    const bitTbl: array<nat>
    var bitGrp: nat

    ghost predicate Valid()
      reads this, queue, bitTbl
    {
      Indexed(queue[..], bitTbl[..], bitGrp) && nTasks == Total(queue[..])
    }

    /** rr_init. */
    constructor ()
      ensures Valid() && fresh(queue) && fresh(bitTbl) && forall p :: 0 <= p < 64 ==> queue[p] == []
    {
      queue := new seq<T>[64](i => []);
      bitTbl := new nat[8](i => 0);
      nTasks, bitGrp := 0, 0;
      new;
      forall k: nat ensures !Bit(0, k) { BitZero(k); }
      assert forall p :: 0 <= p < 64 ==> queue[..][p] == [];
      NoneYet(queue[..]);
    }

    /** rr_enqueue of a task of this priority. */
    method Enqueue(t: T, prio: nat)
      requires Valid() && prio < 64
      modifies this, queue, bitTbl
      ensures Valid() && queue[..] == old(queue[..])[prio := old(queue[prio]) + [t]]
    {
      ghost var qs, tbl := queue[..], bitTbl[..];
      queue[prio] := queue[prio] + [t];
      nTasks := nTasks + 1;
      TotalUpdate(qs, prio, queue[prio]);
      SetBit(bitTbl[prio / 8], prio % 8);
      bitTbl[prio / 8] := Or(bitTbl[prio / 8], Pow2(prio % 8));
      SetBit(bitGrp, prio / 8);
      bitGrp := Or(bitGrp, Pow2(prio / 8));
      assert queue[..] == qs[prio := queue[prio]] && bitTbl[..] == tbl[prio / 8 := bitTbl[prio / 8]];
    }

    /** rr_dequeue of a task in the queue of its priority. */
    method Dequeue(t: T, prio: nat)
      requires Valid() && prio < 64 && t in queue[prio] && NoDup(queue[prio])
      modifies this, queue, bitTbl
      ensures Valid() && queue[..] == old(queue[..])[prio := Without(old(queue[prio]), t)]
    {
      ghost var qs, tbl := queue[..], bitTbl[..];
      WithoutMembers(queue[prio], t);
      queue[prio] := Without(queue[prio], t);
      TotalUpdate(qs, prio, queue[prio]);
      assert queue[..] == qs[prio := queue[prio]];
      nTasks := nTasks - 1;
      if queue[prio] == [] {
        ClearBit(bitTbl[prio / 8], prio % 8);
        bitTbl[prio / 8] := AndNot(bitTbl[prio / 8], Pow2(prio % 8));
        if bitTbl[prio / 8] == 0 {
          ClearBit(bitGrp, prio / 8);
          bitGrp := AndNot(bitGrp, Pow2(prio / 8));
        } else {
          EmptyByte(tbl[prio / 8]);
          EmptyByte(bitTbl[prio / 8]);
        }
        assert bitTbl[..] == tbl[prio / 8 := bitTbl[prio / 8]];
      }
    }

    /** rr_pick_next: the first task of the first nonempty queue, which goes to
        the end of that queue. */
    method PickNext() returns (next: T)
      requires Valid() && exists p: nat :: p < 64 && queue[p] != []
      modifies queue
      ensures Valid() && Scan(old(queue[..])) < 64
      ensures var p := Scan(old(queue[..]));
        old(queue[p]) != [] && next == old(queue[p])[0] && queue[..] == old(queue[..])[p := Rotate(old(queue[p]))]
    {
      ghost var qs, tbl := queue[..], bitTbl[..];
      ghost var q: nat :| q < 64 && queue[q] != [];
      Lookup(qs, tbl, bitGrp, q);
      var y := RrUnmap(bitGrp);
      var x := RrUnmap(bitTbl[y]);
      var prio := 8 * y + x;
      next := queue[prio][0];
      queue[prio] := queue[prio][1..];
      queue[prio] := queue[prio] + [next];
      TotalUpdate(qs, prio, queue[prio]);
      assert queue[..] == qs[prio := queue[prio]];
    }

    /** As many picks as the first nonempty queue has tasks return each of them
        once, in order, and leave the queue as it was. */
    method PickRound(k: nat) returns (picks: seq<T>)
      requires Valid() && Scan(queue[..]) < 64 && k == |queue[Scan(queue[..])]|
      modifies queue
      ensures Valid() && picks == old(queue[Scan(queue[..])]) && queue[..] == old(queue[..])
    {
      ghost var p, qs := Scan(queue[..]), queue[..];
      ghost var all := qs[p];
      ScanLeast(qs);
      Turned(qs, p, 0);
      picks := [];
      while |picks| < k
        invariant Valid() && |picks| <= k && picks == all[..|picks|] && queue[..] == Turn(qs, p, |picks|)
      {
        ghost var i := |picks|;
        Turned(qs, p, i);
        assert queue[p] == queue[..][p];
        hide Indexed, Total, Scan, Turn;
        var t := PickNext();
        picks := picks + [t];
      }
      Turned(qs, p, k);
    }
  }

  /** The queues after i picks from the queue p. */
  function Turn<T>(qs: seq<seq<T>>, p: nat, i: nat): seq<seq<T>>
    requires p < |qs| && i <= |qs[p]|
  {
    qs[p := qs[p][i..] + qs[p][..i]]
  }

  lemma Turned<T>(qs: seq<seq<T>>, p: nat, i: nat)
    requires p < |qs| && p == Scan(qs) && i <= |qs[p]|
    ensures i == 0 || i == |qs[p]| ==> Turn(qs, p, i) == qs
    ensures i < |qs[p]| ==>
      var now := Turn(qs, p, i);
      && Scan(now) == p && |now| == |qs| && now[p] != [] && now[p][0] == qs[p][i]
      && now[p := Rotate(now[p])] == Turn(qs, p, i + 1) && qs[p][..i] + [qs[p][i]] == qs[p][..i + 1]
  {
    ScanLeast(qs);
    var q := qs[p];
    if i == 0 || i == |q| { assert q[i..] + q[..i] == q; }
    if i < |q| {
      var now := Turn(qs, p, i);
      ScanIs(now, p);
      assert Rotate(q[i..] + q[..i]) == q[i + 1..] + q[..i + 1];
      assert now[p := Rotate(now[p])] == Turn(qs, p, i + 1);
    }
  }

  lemma {:induction false} ScanLeast<T>(qs: seq<seq<T>>)
    ensures forall q: nat :: q < Scan(qs) ==> qs[q] == []
    ensures Scan(qs) < |qs| ==> qs[Scan(qs)] != []
    decreases |qs|
  {
    if qs != [] && qs[0] == [] {
      ScanLeast(qs[1..]);
      forall q: nat | q < Scan(qs) ensures qs[q] == [] {
        if q > 0 { assert qs[1..][q - 1] == []; }
      }
    }
  }

  lemma {:induction false} NoneYet<T>(qs: seq<seq<T>>)
    requires forall p :: 0 <= p < |qs| ==> qs[p] == []
    ensures Total(qs) == 0
    decreases |qs|
  {
    if qs != [] { NoneYet(qs[1..]); }
  }
}
