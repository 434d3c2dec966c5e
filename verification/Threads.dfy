/** Totals over any number of threads, and how one thread's step changes them. */
module Threads {

  /** Everything the threads carry, `f` telling what one of them carries. */
  function Gather<P, T>(ps: seq<P>, f: P -> multiset<T>): multiset<T> {
    if ps == [] then multiset{} else f(ps[0]) + Gather(ps[1..], f)
  }

  lemma {:induction false} GatherUpdate<P, T>(ps: seq<P>, i: nat, p: P, f: P -> multiset<T>)
    requires i < |ps|
    ensures f(ps[i]) <= Gather(ps, f)
    ensures Gather(ps[i := p], f) == Gather(ps, f) - f(ps[i]) + f(p)
  {
    if i == 0 {
      assert ps[0 := p][1..] == ps[1..];
    } else {
      GatherUpdate(ps[1..], i - 1, p, f);
      assert ps[i := p][1..] == ps[1..][i - 1 := p];
    }
  }

  lemma {:induction false} GatherHas<P, T>(ps: seq<P>, i: nat, f: P -> multiset<T>)
    requires i < |ps|
    ensures f(ps[i]) <= Gather(ps, f)
  {
    if i > 0 {
      GatherHas(ps[1..], i - 1, f);
    }
  }

  /** Nothing is carried when no thread carries anything. */
  lemma {:induction false} GatherNone<P, T>(ps: seq<P>, f: P -> multiset<T>)
    requires forall i :: 0 <= i < |ps| ==> f(ps[i]) == multiset{}
    ensures Gather(ps, f) == multiset{}
  {
    if ps != [] {
      assert forall i :: 0 <= i < |ps| - 1 ==> ps[1..][i] == ps[i + 1];
      GatherNone(ps[1..], f);
    }
  }

  /** How many threads are in a state that satisfies `f`. */
  function Count<P>(ps: seq<P>, f: P -> bool): nat {
    if ps == [] then 0 else (if f(ps[0]) then 1 else 0) + Count(ps[1..], f)
  }

  lemma {:induction false} CountUpdate<P>(ps: seq<P>, i: nat, p: P, f: P -> bool)
    requires i < |ps|
    ensures Count(ps[i := p], f) == Count(ps, f) - (if f(ps[i]) then 1 else 0) + (if f(p) then 1 else 0)
  {
    if i == 0 {
      assert ps[0 := p][1..] == ps[1..];
    } else {
      CountUpdate(ps[1..], i - 1, p, f);
      assert ps[i := p][1..] == ps[1..][i - 1 := p];
    }
  }

  lemma {:induction false} CountSome<P>(ps: seq<P>, f: P -> bool)
    ensures Count(ps, f) > 0 <==> exists i :: 0 <= i < |ps| && f(ps[i])
    ensures Count(ps, f) <= |ps|
  {
    if ps != [] {
      CountSome(ps[1..], f);
      assert forall i :: 0 <= i < |ps| - 1 ==> ps[1..][i] == ps[i + 1];
      assert forall i :: 1 <= i < |ps| ==> ps[i] == ps[1..][i - 1];
    }
  }
}
