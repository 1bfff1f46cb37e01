// core/stat/topk.go: the k longest tasks by a bounded min-heap. The heap operations are the sift-up and
// sift-down of the container/heap package over the Less, Swap, Push and Pop of taskHeap.
module TopKTasks {

  datatype Task = Task(Drop: bool, Duration: int, Description: string)

  function Parent(i: nat): (p: int)
    requires 0 < i
    ensures 0 <= p < i
  {
    (i - 1) / 2
  }

  ghost predicate InOrder(h: seq<Task>, i: nat)
    requires 0 < i < |h|
  {
    h[Parent(i)].Duration <= h[i].Duration
  }

  // A min-heap on the first n entries.
  ghost predicate IsHeap(h: seq<Task>, n: nat) {
    n <= |h| && forall i {:trigger InOrder(h, i)} :: 0 < i < n ==> InOrder(h, i)
  }

  lemma {:induction false} RootIsLeast(h: seq<Task>, n: nat, i: nat)
    requires IsHeap(h, n) && i < n
    ensures h[0].Duration <= h[i].Duration
    decreases i
  {
    if i > 0 {
      assert InOrder(h, i);
      RootIsLeast(h, n, Parent(i));
    }
  }

  // A heap but for entry j, which may be less than its parent; its children are not less than that parent.
  ghost predicate HeapButUp(h: seq<Task>, j: nat) {
    && j < |h| && (forall i {:trigger InOrder(h, i)} :: 0 < i < |h| && i != j ==> InOrder(h, i))
    && forall i {:trigger Parent(i)} :: 0 < i < |h| && Parent(i) == j && 0 < j ==>
         h[Parent(j)].Duration <= h[i].Duration
  }

  // A heap but for entry j, which may be greater than its children; they are not less than its parent.
  ghost predicate HeapButDown(h: seq<Task>, n: nat, j: nat) {
    && j < n <= |h| && (forall i {:trigger InOrder(h, i)} :: 0 < i < n && Parent(i) != j ==> InOrder(h, i))
    && forall i {:trigger Parent(i)} :: 0 < i < n && Parent(i) == j && 0 < j ==> h[Parent(j)].Duration <= h[i].Duration
  }

  class TaskHeap {
    var h: seq<Task>

    constructor ()
      ensures h == []
    {
      h := [];
    }

    method Swap(i: nat, j: nat)
      requires i < |h| && j < |h|
      modifies this
      ensures h == old(h)[i := old(h)[j]][j := old(h)[i]] && multiset(h) == multiset(old(h))
    {
      h := h[i := h[j]][j := h[i]];
    }

    method Up(j0: nat)
      requires HeapButUp(h, j0)
      modifies this
      ensures IsHeap(h, |h|) && multiset(h) == multiset(old(h)) && |h| == |old(h)|
    {
      var j: nat := j0;
      while true
        invariant HeapButUp(h, j) && multiset(h) == multiset(old(h)) && |h| == |old(h)|
        decreases j
      {
        if j == 0 || h[j].Duration >= h[Parent(j)].Duration {
          break;
        }
        var i := Parent(j);
        ghost var before := h;
        Swap(i, j);
        SwappedUp(before, j);
        j := i;
      }
      assert forall i {:trigger InOrder(h, i)} :: 0 < i < |h| && i != j ==> InOrder(h, i);
    }

    method Down(n: nat)
      requires 0 < n <= |h| ==> HeapButDown(h, n, 0)
      requires n <= |h|
      modifies this
      ensures IsHeap(h, n) && multiset(h) == multiset(old(h)) && |h| == |old(h)| && h[n..] == old(h)[n..]
    {
      var i: nat := 0;
      while true
        invariant |h| == |old(h)| && (n > 0 ==> HeapButDown(h, n, i)) && (n == 0 ==> i == 0)
        invariant multiset(h) == multiset(old(h)) && h[n..] == old(h)[n..]
        decreases n - i
      {
        var j1 := 2 * i + 1;
        if j1 >= n {
          break;
        }
        var j := j1;
        var j2 := j1 + 1;
        if j2 < n && h[j2].Duration < h[j1].Duration {
          j := j2;
        }
        if h[j].Duration >= h[i].Duration {
          break;
        }
        ghost var before := h;
        Swap(i, j);
        SwappedDown(before, n, i, j);
        i := j;
      }
      forall m | 0 < m < n
        ensures InOrder(h, m)
      {
        if Parent(m) == i {
          assert m == 2 * i + 1 || m == 2 * i + 2;
        }
      }
    }

    method Push(x: Task)
      requires IsHeap(h, |h|)
      modifies this
      ensures IsHeap(h, |h|) && multiset(h) == multiset(old(h)) + multiset{x} && |h| == |old(h)| + 1
    {
      ghost var before := h;
      h := h + [x];
      forall i | 0 < i < |h| && i != |before|
        ensures InOrder(h, i)
      {
        assert InOrder(before, i);
      }
      Up(|h| - 1);
    }

    method Pop() returns (x: Task)
      requires IsHeap(h, |h|) && |h| > 0
      modifies this
      ensures IsHeap(h, |h|) && multiset(old(h)) == multiset(h) + multiset{x} && |h| == |old(h)| - 1
      ensures x == old(h)[0]
    {
      ghost var before := h;
      var n := |h| - 1;
      Swap(0, n);
      if n > 0 {
        forall i | 0 < i < n && Parent(i) != 0
          ensures InOrder(h, i)
        {
          assert InOrder(before, i);
        }
      }
      Down(n);
      assert h == h[..n] + h[n..] && h[n..] == [before[0]];
      x := h[n];
      h := h[..n];
      forall i | 0 < i < n
        ensures InOrder(h, i)
      {
        assert InOrder(h + [x], i);
      }
    }
  }

  lemma SwappedUp(before: seq<Task>, j: nat)
    requires HeapButUp(before, j) && 0 < j && before[j].Duration < before[Parent(j)].Duration
    ensures var i := Parent(j); HeapButUp(before[i := before[j]][j := before[i]], i)
  {
    var i := Parent(j);
    var after := before[i := before[j]][j := before[i]];
    forall m | 0 < m < |after| && m != i
      ensures InOrder(after, m)
    {
      if m != j { assert InOrder(before, m); }
    }
    forall m | 0 < m < |after| && Parent(m) == i && 0 < i
      ensures after[Parent(i)].Duration <= after[m].Duration
    {
      assert InOrder(before, i);
      if m != j { assert InOrder(before, m); }
    }
  }

  lemma SwappedDown(before: seq<Task>, n: nat, i: nat, j: nat)
    requires HeapButDown(before, n, i) && 0 < j < n && Parent(j) == i && before[j].Duration < before[i].Duration
    requires forall m {:trigger Parent(m)} :: 0 < m < n && Parent(m) == i ==> before[j].Duration <= before[m].Duration
    ensures HeapButDown(before[i := before[j]][j := before[i]], n, j)
  {
    var after := before[i := before[j]][j := before[i]];
    forall m | 0 < m < n && Parent(m) != j
      ensures InOrder(after, m)
    {
      if m == i {
        assert Parent(j) == i;
      } else if Parent(m) != i {
        assert InOrder(before, m);
      }
    }
    forall m | 0 < m < n && Parent(m) == j
      ensures after[i].Duration <= after[m].Duration
    {
      assert InOrder(before, m);
    }
  }

  // top is a choice of the longest tasks of all: nothing left over is longer than anything chosen.
  ghost predicate Longest(all: multiset<Task>, top: multiset<Task>) {
    top <= all && forall x, y :: x in top && y in all - top ==> y.Duration <= x.Duration
  }

  // d is the k-th longest duration: k longest tasks can be chosen with d as their shortest.
  ghost predicate IsRank(all: multiset<Task>, k: nat, d: int) {
    exists top :: Ranks(all, top, k, d)
  }

  ghost predicate Ranks(all: multiset<Task>, top: multiset<Task>, k: nat, d: int) {
    && Longest(all, top) && |top| == k
    && (exists t :: t in top && t.Duration == d) && forall x :: x in top ==> d <= x.Duration
  }

  lemma Smaller(a: multiset<Task>, b: multiset<Task>)
    requires a <= b
    ensures |a| <= |b| && |b - a| == |b| - |a|
  {
    assert b == a + (b - a);
  }

  // A higher rank never has a longer duration; so each rank has one duration.
  lemma RankMonotone(all: multiset<Task>, j: nat, k: nat, d: int, e: int)
    requires IsRank(all, j, d) && IsRank(all, k, e) && j <= k
    ensures e <= d
  {
    var topJ :| Ranks(all, topJ, j, d);
    var topK :| Ranks(all, topK, k, e);
    if d < e {
      var t: Task :| t in topJ && t.Duration == d;
      forall x
        ensures topK[x] <= (topJ - multiset{t})[x]
      {
        assert topJ[x] < all[x] ==> x in all - topJ;
      }
      Smaller(topK, topJ - multiset{t});
      Smaller(multiset{t}, topJ);
    }
  }

  // The longest of the longest are the longest of all.
  lemma LongestOfLongest(all: multiset<Task>, top: multiset<Task>, sub: multiset<Task>)
    requires Longest(all, top) && Longest(top, sub)
    ensures Longest(all, sub)
  {
    forall x, y | x in sub && y in all - sub
      ensures y.Duration <= x.Duration
    {
      if (top - sub)[y] > 0 {
        assert y in top - sub;
      } else {
        assert y in all - top;
      }
    }
  }

  // A selection has the rank of its size.
  lemma SelectionRank(all: multiset<Task>, top: seq<Task>)
    requires Longest(all, multiset(top)) && IsHeap(top, |top|) && top != []
    ensures IsRank(all, |top|, top[0].Duration)
  {
    assert top[0] in multiset(top);
    forall x | x in multiset(top)
      ensures top[0].Duration <= x.Duration
    {
      var i :| 0 <= i < |top| && top[i] == x;
      RootIsLeast(top, |top|, i);
    }
    assert Ranks(all, multiset(top), |top|, top[0].Duration);
  }

  lemma AddOne(seen: multiset<Task>, h: multiset<Task>, x: Task)
    requires Longest(seen, h)
    ensures |seen| == |h| ==> Longest(seen + multiset{x}, h + multiset{x})
    ensures (forall y :: y in h ==> x.Duration <= y.Duration) ==> Longest(seen + multiset{x}, h)
  {
    if |seen| == |h| {
      Smaller(h, seen);
      assert |seen - h| == 0;
      assert seen - h == multiset{};
      assert (seen + multiset{x}) - (h + multiset{x}) == seen - h;
    }
    assert forall y :: y in (seen + multiset{x}) - h ==> y == x || y in seen - h;
  }

  // Exchanging the least of the chosen for something longer.
  lemma Exchange(seen: multiset<Task>, h: multiset<Task>, least: Task, x: Task)
    requires Longest(seen, h) && least in h && least.Duration < x.Duration
    requires forall y :: y in h ==> least.Duration <= y.Duration
    ensures Longest(seen + multiset{x}, h - multiset{least} + multiset{x})
  {
    var h' := h - multiset{least} + multiset{x};
    assert (seen + multiset{x}) - h' == (seen - h) + multiset{least};
  }

  // The k longest of all tasks, with the k-th longest in front; everything if there are fewer than k.
  method TopK(all: seq<Task>, k: nat) returns (top: seq<Task>)
    requires 0 < k
    ensures Longest(multiset(all), multiset(top)) && |top| == (if |all| < k then |all| else k)
    ensures IsHeap(top, |top|)
    ensures k <= |all| ==> IsRank(multiset(all), k, top[0].Duration)
  {
    var h := new TaskHeap();
    for i := 0 to |all|
      invariant fresh(h) && IsHeap(h.h, |h.h|) && |h.h| == if i < k then i else k
      invariant Longest(multiset(all[..i]), multiset(h.h))
    {
      var each := all[i];
      assert all[..i + 1] == all[..i] + [each];
      AddOne(multiset(all[..i]), multiset(h.h), each);
      if |h.h| < k {
        assert |multiset(all[..i])| == i && |multiset(h.h)| == i;
        h.Push(each);
      } else {
        LeastFirst(h.h);
        if h.h[0].Duration < each.Duration {
          Exchange(multiset(all[..i]), multiset(h.h), h.h[0], each);
          var least := h.Pop();
          h.Push(each);
        }
      }
    }
    assert all[..|all|] == all;
    top := h.h;
    if k <= |all| {
      SelectionRank(multiset(all), top);
    }
  }

  lemma LeastFirst(h: seq<Task>)
    requires IsHeap(h, |h|) && h != []
    ensures h[0] in multiset(h) && forall y :: y in multiset(h) ==> h[0].Duration <= y.Duration
  {
    forall y | y in multiset(h)
      ensures h[0].Duration <= y.Duration
    {
      var i :| 0 <= i < |h| && h[i] == y;
      RootIsLeast(h, |h|, i);
    }
  }
}
