// Counting over the threads of a protocol: the protocols are interleavings of atomic steps, and a step
// changes the local state of one thread or starts one.
module Counting {

  function One(b: bool): nat {
    if b then 1 else 0
  }

  function Sum<L>(threads: seq<L>, f: L -> nat): nat {
    if threads == [] then 0 else Sum(threads[..|threads| - 1], f) + f(threads[|threads| - 1])
  }

  lemma {:induction false} SumUpdate<L>(threads: seq<L>, i: nat, t: L, f: L -> nat)
    requires i < |threads|
    ensures Sum(threads[i := t], f) + f(threads[i]) == Sum(threads, f) + f(t)
  {
    var n := |threads| - 1;
    if i < n {
      assert threads[i := t][..n] == threads[..n][i := t];
      SumUpdate(threads[..n], i, t, f);
    } else {
      assert threads[i := t][..n] == threads[..n];
    }
  }

  lemma SumAppend<L>(threads: seq<L>, t: L, f: L -> nat)
    ensures Sum(threads + [t], f) == Sum(threads, f) + f(t)
  {
    assert (threads + [t])[..|threads|] == threads;
  }

  lemma {:induction false} SumAtLeast<L>(threads: seq<L>, i: nat, f: L -> nat)
    requires i < |threads|
    ensures f(threads[i]) <= Sum(threads, f)
  {
    if i < |threads| - 1 {
      SumAtLeast(threads[..|threads| - 1], i, f);
    }
  }

  lemma {:induction false} SumAtLeastTwo<L>(threads: seq<L>, i: nat, j: nat, f: L -> nat)
    requires i < j < |threads|
    ensures f(threads[i]) + f(threads[j]) <= Sum(threads, f)
  {
    if j < |threads| - 1 {
      SumAtLeastTwo(threads[..|threads| - 1], i, j, f);
    } else {
      SumAtLeast(threads[..|threads| - 1], i, f);
    }
  }

  lemma {:induction false} SumWitness<L>(threads: seq<L>, f: L -> nat) returns (i: nat)
    requires Sum(threads, f) > 0
    ensures i < |threads| && f(threads[i]) > 0
  {
    if f(threads[|threads| - 1]) > 0 {
      i := |threads| - 1;
    } else {
      i := SumWitness(threads[..|threads| - 1], f);
    }
  }
}
