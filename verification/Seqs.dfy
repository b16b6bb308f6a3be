/** Sequences without repetition, as the queues of the kernel are seen from
    outside. */
module Seqs {

  ghost predicate NoDup<T>(s: seq<T>) {
    forall i, j :: 0 <= i < j < |s| ==> s[i] != s[j]
  }

  /** s without its first x. */
  function Without<T(==)>(s: seq<T>, x: T): (r: seq<T>)
    ensures x !in s ==> r == s
  {
    if s == [] then [] else if s[0] == x then s[1..] else [s[0]] + Without(s[1..], x)
  }

  lemma TailApart<T>(s: seq<T>, i: nat)
    requires NoDup(s) && 0 < i < |s|
    ensures NoDup(s[1..]) && s[1..][i - 1] == s[i] != s[0]
  {
  }

  lemma {:induction false} WithoutAt<T>(s: seq<T>, i: nat)
    requires NoDup(s) && i < |s|
    ensures Without(s, s[i]) == s[..i] + s[i + 1..]
    decreases i
  {
    hide NoDup;
    if i > 0 {
      TailApart(s, i);
      WithoutAt(s[1..], i - 1);
      assert s[..i] == [s[0]] + s[1..][..i - 1];
      assert s[i + 1..] == s[1..][i..];
    }
  }

  /** t is s without its first x, which is at i. */
  ghost predicate Splices<T>(s: seq<T>, t: seq<T>, x: T, i: nat) {
    i < |s| && s[i] == x && x !in s[..i] && t == s[..i] + s[i + 1..]
  }

  lemma {:induction false} WithoutSplices<T>(s: seq<T>, x: T) returns (i: nat)
    requires x in s
    ensures Splices(s, Without(s, x), x, i)
  {
    if s[0] == x {
      i := 0;
    } else {
      var t := s[1..];
      assert s == [s[0]] + t;
      var j := WithoutSplices(t, x);
      i := j + 1;
      assert s[..i] == [s[0]] + t[..j] && s[i + 1..] == t[j + 1..];
    }
  }

  lemma {:induction false} WithoutLength<T>(s: seq<T>, x: T)
    requires x in s
    ensures |Without(s, x)| == |s| - 1
  {
    if s[0] != x { WithoutLength(s[1..], x); }
  }

  /** r has the elements of s except x. */
  ghost predicate Minus<T>(r: seq<T>, s: seq<T>, x: T) {
    (forall y :: y in r ==> y in s && y != x) && (forall y :: y in s && y != x ==> y in r)
  }

  /** r has the elements of s. */
  ghost predicate Same<T>(r: seq<T>, s: seq<T>) {
    (forall y :: y in r ==> y in s) && (forall y :: y in s ==> y in r)
  }

  /** Taking x out leaves all others, in their order. */
  lemma {:induction false} WithoutMembers<T>(s: seq<T>, x: T)
    requires NoDup(s)
    ensures NoDup(Without(s, x)) && Minus(Without(s, x), s, x)
    ensures x in s ==> |Without(s, x)| == |s| - 1
    decreases |s|
  {
    if s != [] {
      var t := s[1..];
      assert s == [s[0]] + t && s[0] !in t;
      if s[0] != x {
        WithoutMembers(t, x);
        assert s[0] !in Without(t, x);
      }
    }
  }

  lemma AppendMembers<T>(s: seq<T>, x: T)
    requires NoDup(s) && x !in s
    ensures NoDup(s + [x])
  {
  }

  /** The elements that pick says yes to, and the others, in order. */
  function Picked<T>(s: seq<T>, pick: T -> bool): seq<T> {
    if s == [] then [] else (if pick(s[0]) then [s[0]] else []) + Picked(s[1..], pick)
  }

  function Kept<T>(s: seq<T>, pick: T -> bool): seq<T> {
    if s == [] then [] else (if pick(s[0]) then [] else [s[0]]) + Kept(s[1..], pick)
  }

  lemma PickedCons<T>(t: T, rest: seq<T>, pick: T -> bool)
    ensures Picked([t] + rest, pick) == (if pick(t) then [t] else []) + Picked(rest, pick)
    ensures Kept([t] + rest, pick) == (if pick(t) then [] else [t]) + Kept(rest, pick)
  {
    assert ([t] + rest)[1..] == rest;
  }

  /** Some element is picked exactly if fewer are kept. */
  lemma {:induction false} KeptFewer<T>(s: seq<T>, pick: T -> bool)
    ensures |Kept(s, pick)| <= |s|
    ensures |Kept(s, pick)| < |s| <==> exists x :: x in s && pick(x)
  {
    if s != [] {
      KeptFewer(s[1..], pick);
      assert s == [s[0]] + s[1..];
      assert forall x :: x in s <==> x == s[0] || x in s[1..];
    }
  }
}
