// core/collection/rollingwindow.go: a ring of buckets that follows a clock, proved against the plain log
// of everything that was ever added. Time is a parameter of each operation.
module RollingWindow {
  import opened Arithmetic

  // A value added in the slot-th interval since the window was made.
  datatype Entry<T> = Entry(slot: int, value: T)

  // The values that were added in one interval, in order.
  ghost function InSlot<T>(log: seq<Entry<T>>, slot: int): seq<T> {
    if log == [] then []
    else InSlot(log[..|log| - 1], slot) +
         if log[|log| - 1].slot == slot then [log[|log| - 1].value] else []
  }

  lemma InSlotSnoc<T>(log: seq<Entry<T>>, at: int, v: T, slot: int)
    ensures InSlot(log + [Entry(at, v)], slot) == InSlot(log, slot) + if at == slot then [v] else []
    ensures at != slot ==> InSlot(log + [Entry(at, v)], slot) == InSlot(log, slot)
  {
    assert (log + [Entry(at, v)])[..|log|] == log;
  }

  // The values that were added in the intervals from..until, without `until`.
  ghost function InSlots<T>(log: seq<Entry<T>>, from: int, until: int): seq<T> {
    if log == [] then []
    else InSlots(log[..|log| - 1], from, until) +
         if from <= log[|log| - 1].slot < until then [log[|log| - 1].value] else []
  }

  ghost predicate Ordered<T>(log: seq<Entry<T>>) {
    forall i, j :: 0 <= i < j < |log| ==> log[i].slot <= log[j].slot
  }

  // Intervals follow each other in the log.
  lemma {:induction false} SlotsSplit<T>(log: seq<Entry<T>>, from: int, slot: int)
    requires Ordered(log) && from <= slot
    ensures InSlots(log, from, slot + 1) == InSlots(log, from, slot) + InSlot(log, slot)
  {
    if log != [] {
      var init, last := log[..|log| - 1], log[|log| - 1];
      SlotsSplit(init, from, slot);
      if last.slot < slot {
        NothingIn(init, slot);
      }
    }
  }

  lemma {:induction false} NothingIn<T>(log: seq<Entry<T>>, slot: int)
    requires forall i :: 0 <= i < |log| ==> log[i].slot < slot
    ensures InSlot(log, slot) == []
  {
    if log != [] {
      NothingIn(log[..|log| - 1], slot);
    }
  }

  // Nothing is in the intervals after the last one used, so they add nothing to a range.
  lemma {:induction false} NothingLater<T>(log: seq<Entry<T>>, from: int, until: int, until': int)
    requires until <= until' && forall i :: 0 <= i < |log| ==> log[i].slot < until
    ensures InSlots(log, from, until') == InSlots(log, from, until)
  {
    if log != [] {
      NothingLater(log[..|log| - 1], from, until, until');
    }
  }

  // Positions on a ring of `size` buckets: d steps back from `offset`.
  function Back(offset: nat, d: nat, size: nat): (p: nat)
    requires offset < size && d < size
    ensures p < size
  {
    if d <= offset then offset - d else offset + size - d
  }

  lemma Forward(x: nat, size: nat)
    requires 0 < size && x < 2 * size
    ensures x % size == if x < size then x else x - size
  {
  }

  class RollingWindow<T(!new), B(!new)> {
    const size: nat
    const interval: nat
    const ignoreCurrent: bool
    const zero: B             // a new bucket, and what Reset makes of a bucket
    const addTo: (B, T) -> B  // what Add makes of a bucket
    const buckets: array<B>
    var offset: nat
    var lastTime: int
    ghost const startTime: int
    ghost var Cur: int              // the interval of the current bucket
    ghost var Log: seq<Entry<T>>  // everything that was added

    // A bucket after a reset and the given additions.
    ghost function Fold(values: seq<T>): B {
      if values == [] then zero else addTo(Fold(values[..|values| - 1]), values[|values| - 1])
    }

    // Going back from the current bucket, every bucket holds the additions of its own interval.
    ghost predicate Valid()
      reads this, buckets
    {
      && 0 < size && 0 < interval && buckets.Length == size && offset < size
      && lastTime == startTime + Cur * interval && 0 <= Cur
      && Ordered(Log) && (forall i :: 0 <= i < |Log| ==> Log[i].slot <= Cur)
      && HoldLog(buckets[..], offset, Cur, Log)
    }

    // Bucket d steps back from the offset holds the additions of the interval d steps back.
    ghost predicate Holds(bs: seq<B>, offset: nat, cur: int, log: seq<Entry<T>>, d: nat)
      requires |bs| == size && offset < size && d < size
    {
      bs[Back(offset, d, size)] == Fold(InSlot(log, cur - d))
    }

    ghost predicate HoldLog(bs: seq<B>, offset: nat, cur: int, log: seq<Entry<T>>)
      requires |bs| == size && offset < size
    {
      forall d: nat {:trigger Holds(bs, offset, cur, log, d)} :: d < size ==> Holds(bs, offset, cur, log, d)
    }

    // The interval that a time lies in.
    ghost function SlotOf(now: int): int
      requires 0 < interval
    {
      (now - startTime) / interval
    }

    constructor (zero: B, addTo: (B, T) -> B, size: nat, interval: nat, ignoreCurrent: bool, now: int)
      requires 0 < size && 0 < interval
      ensures Valid() && Log == [] && startTime == now && Cur == 0 && fresh(buckets)
      ensures this.size == size && this.interval == interval && this.ignoreCurrent == ignoreCurrent
      ensures this.zero == zero && this.addTo == addTo
    {
      this.zero, this.addTo, this.size, this.interval, this.ignoreCurrent := zero, addTo, size, interval, ignoreCurrent;
      buckets := new B[size](_ => zero);
      offset, lastTime, startTime, Cur, Log := 0, now, now, 0, [];
    }

    lemma SlotFromLast(now: int)
      requires Valid() && lastTime <= now
      ensures SlotOf(now) == Cur + (now - lastTime) / interval
      ensures now - (now - lastTime) % interval == startTime + SlotOf(now) * interval
    {
      var q, r := (now - lastTime) / interval, (now - lastTime) % interval;
      assert now - lastTime == q * interval + r;
      assert now - startTime == (Cur + q) * interval + r;
      DivMod(now - startTime, interval, Cur + q, r);
    }

    // The number of intervals since the current bucket's, cut off at the size of the ring.
    method Span(now: int) returns (span: nat)
      requires Valid() && lastTime <= now
      ensures span == if SlotOf(now) - Cur < size then SlotOf(now) - Cur else size
    {
      SlotFromLast(now);
      var offset := (now - lastTime) / interval;
      if 0 <= offset && offset < size {
        return offset;
      }
      return size;
    }

    // The next `span` buckets, the oldest ones, are reset and the others are not.
    ghost predicate IsReset(before: seq<B>, after: seq<B>, offset: nat, span: nat)
      requires |before| == |after| == size && offset < size
    {
      forall d: nat :: d < size ==>
        after[Back(offset, d, size)] == if d >= size - span then zero else before[Back(offset, d, size)]
    }

    method ResetNext(span: nat)
      requires buckets.Length == size && offset < size && span <= size
      modifies buckets
      ensures IsReset(old(buckets[..]), buckets[..], offset, span)
    {
      for i := 0 to span
        invariant IsReset(old(buckets[..]), buckets[..], offset, i)
      {
        Forward(offset + i + 1, size);
        assert (offset + i + 1) % size == Back(offset, size - 1 - i, size);
        buckets[(offset + i + 1) % size] := zero;
      }
    }

    lemma BackAfter(offset: nat, span: nat, d: nat)
      requires offset < size && span <= size && d < size
      ensures (offset + span) % size < size
      ensures Back((offset + span) % size, d, size) ==
              if d < span then Back(offset, size - span + d, size) else Back(offset, d - span, size)
    {
      Forward(offset + span, size);
    }

    // After the reset the ring holds the log as seen from a later interval.
    lemma HoldsLater(before: seq<B>, after: seq<B>, offset: nat, span: nat, cur: int, cur': int, log: seq<Entry<T>>)
      requires |before| == |after| == size && offset < size && 0 < size
      requires HoldLog(before, offset, cur, log) && IsReset(before, after, offset, span)
      requires cur <= cur' && span == if cur' - cur < size then cur' - cur else size
      requires forall i :: 0 <= i < |log| ==> log[i].slot <= cur
      ensures (offset + span) % size < size && HoldLog(after, (offset + span) % size, cur', log)
    {
      hide Fold, InSlot;
      BackAfter(offset, span, 0);
      var offset' := (offset + span) % size;
      forall d: nat | d < size
        ensures Holds(after, offset', cur', log, d)
      {
        BackAfter(offset, span, d);
        if d < span {
          NothingIn(log, cur' - d);
          FoldEmpty();
        } else {
          assert Holds(before, offset, cur, log, d - span);
        }
      }
    }

    lemma FoldEmpty()
      ensures Fold([]) == zero
    {
    }

    // Brings the current bucket up to the clock: expired buckets are reset.
    method UpdateOffset(now: int)
      requires Valid() && lastTime <= now
      modifies this`offset, this`lastTime, this`Cur, buckets
      ensures Valid() && Cur == SlotOf(now)
    {
      hide HoldLog, IsReset;
      var span := Span(now);
      SlotFromLast(now);
      if span <= 0 {
        return;
      }
      ResetNext(span);
      HoldsLater(old(buckets[..]), buckets[..], offset, span, Cur, SlotOf(now), Log);
      offset := (offset + span) % size;
      lastTime := now - (now - lastTime) % interval;
      Cur := SlotOf(now);
    }

    lemma HoldsAdded(bs: seq<B>, offset: nat, cur: int, log: seq<Entry<T>>, v: T)
      requires |bs| == size && offset < size && HoldLog(bs, offset, cur, log)
      ensures HoldLog(bs[offset := addTo(bs[offset], v)], offset, cur, log + [Entry(cur, v)])
    {
      hide Fold, InSlot;
      var bs', log' := bs[offset := addTo(bs[offset], v)], log + [Entry(cur, v)];
      forall d: nat | d < size
        ensures Holds(bs', offset, cur, log', d)
      {
        assert Holds(bs, offset, cur, log, d);
        InSlotSnoc(log, cur, v, cur - d);
        FoldSnoc(InSlot(log, cur), v);
      }
    }

    method Add(v: T, now: int)
      requires Valid() && lastTime <= now
      modifies this`offset, this`lastTime, this`Cur, this`Log, buckets
      ensures Valid() && Cur == SlotOf(now) && Log == old(Log) + [Entry(SlotOf(now), v)]
      ensures lastTime <= now
    {
      hide HoldLog;
      UpdateOffset(now);
      SlotFromStart(now);
      HoldsAdded(buckets[..], offset, Cur, Log, v);
      buckets[offset] := addTo(buckets[offset], v);
      Log := Log + [Entry(Cur, v)];
    }

    lemma SlotFromStart(now: int)
      requires 0 < interval
      ensures startTime + SlotOf(now) * interval <= now
    {
      var q, r := (now - startTime) / interval, (now - startTime) % interval;
      assert now - startTime == q * interval + r;
    }

    lemma FoldSnoc(values: seq<T>, v: T)
      ensures Fold(values + [v]) == addTo(Fold(values), v)
    {
      assert (values + [v])[..|values|] == values;
    }

    // The first and the one-past-last interval that a reduction at a time covers.
    ghost function First(now: int): int
      requires 0 < interval
    {
      SlotOf(now) - size + 1
    }

    ghost function Until(now: int): int
      requires 0 < interval
    {
      if ignoreCurrent then SlotOf(now) else SlotOf(now) + 1
    }

    // The intervals that a reduction really visits: those of the window that have a bucket yet.
    ghost function Visited(now: int): nat
      requires 0 < interval
      reads this
    {
      var last := if Until(now) <= Cur + 1 then Until(now) else Cur + 1;
      if last > First(now) then last - First(now) else 0
    }

    // Calls fn, here: lists the buckets, oldest first.
    method Reduce(now: int) returns (visited: seq<B>)
      requires Valid() && lastTime <= now
      ensures |visited| == Visited(now)
      ensures forall i :: 0 <= i < |visited| ==> visited[i] == Fold(InSlot(Log, First(now) + i))
      ensures var passed := SlotOf(now) - Cur;
              |visited| == if passed == 0 then (if ignoreCurrent then size - 1 else size)
                           else if passed < size then size - passed else 0
      ensures forall i :: 0 <= i < |visited| ==> visited[i] == Fold(InSlot(Log, SlotOf(now) - size + 1 + i))
    {
      var diff: int;
      var span := Span(now);
      SlotFromLast(now);
      hide Fold, InSlot;
      if span == 0 && ignoreCurrent {
        diff := size - 1;
      } else {
        diff := size - span;
      }
      visited := [];
      if diff > 0 {
        Forward(offset + span + 1, size);
        var start := (offset + span + 1) % size;
        for i := 0 to diff
          invariant |visited| == i
          invariant forall j :: 0 <= j < i ==> visited[j] == Fold(InSlot(Log, First(now) + j))
        {
          Forward(start + i, size);
          assert (start + i) % size == Back(offset, size - span - 1 - i, size);
          assert Holds(buckets[..], offset, Cur, Log, size - span - 1 - i);
          visited := visited + [buckets[(start + i) % size]];
        }
      }
    }

    // A value that was just added is in the last bucket visited, unless the current interval is ignored; then
    // no bucket visited belongs to it, and none changes.
    method AddThenReduce(v: T, now: int) returns (visited: seq<B>)
      requires Valid() && lastTime <= now
      modifies this`offset, this`lastTime, this`Cur, this`Log, buckets
      ensures Valid()
      ensures var slot, before := (now - startTime) / interval, old(Log);
              && |visited| == (if ignoreCurrent then size - 1 else size)
              && (forall i :: 0 <= i < size - 1 ==> visited[i] == Fold(InSlot(before, slot - size + 1 + i)))
              && (!ignoreCurrent ==> visited[size - 1] == addTo(Fold(InSlot(before, slot)), v))
    {
      hide Fold, InSlot;
      Add(v, now);
      visited := Reduce(now);
      ghost var slot, before := SlotOf(now), old(Log);
      forall i | 0 <= i < |visited|
        ensures visited[i] == if i == size - 1 then addTo(Fold(InSlot(before, slot)), v)
                              else Fold(InSlot(before, slot - size + 1 + i))
      {
        FoldAdded(before, slot, v, slot - size + 1 + i);
      }
    }

    lemma FoldAdded(log: seq<Entry<T>>, slot: int, v: T, k: int)
      ensures Fold(InSlot(log + [Entry(slot, v)], k)) ==
              if k == slot then addTo(Fold(InSlot(log, k)), v) else Fold(InSlot(log, k))
    {
      InSlotSnoc(log, slot, v, k);
      FoldSnoc(InSlot(log, k), v);
    }

    // The visited intervals hold exactly what was added in the window.
    lemma {:induction false} VisitedHoldWindow(now: int, n: nat)
      requires Valid() && lastTime <= now && n <= Visited(now)
      ensures Concat(First(now), n) == InSlots(Log, First(now), First(now) + n)
      ensures n == Visited(now) ==> Concat(First(now), n) == InSlots(Log, First(now), Until(now))
    {
      SlotFromLast(now);
      assert (now - lastTime) / interval >= 0;
      if n > 0 {
        VisitedHoldWindow(now, n - 1);
        SlotsSplit(Log, First(now), First(now) + n - 1);
      } else {
        NothingIn2(Log, First(now));
      }
      if n == Visited(now) && Until(now) > First(now) + n {
        NothingLater(Log, First(now), First(now) + n, Until(now));
      }
    }

    // The values of n intervals, one interval after the other.
    ghost function Concat(first: int, n: nat): seq<T>
      reads this
    {
      if n == 0 then [] else Concat(first, n - 1) + InSlot(Log, first + n - 1)
    }
  }

  lemma {:induction false} NothingIn2<T>(log: seq<Entry<T>>, slot: int)
    ensures InSlots(log, slot, slot) == []
  {
    if log != [] {
      NothingIn2(log[..|log| - 1], slot);
    }
  }
}
