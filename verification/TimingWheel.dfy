// core/collection/timingwheel.go: the wheel itself, with its slot lists, its map of timers and its
// lazily removed entries. Every operation is proved against one Step of TimingWheelSpec.
module TimingWheel {
  import opened TimingWheelSpec
  import opened Sequences

  class TimingEntry<K, V> {
    const key: K
    var value: V
    var circle: nat
    var diff: nat
    var removed: bool

    constructor (key: K, value: V, circle: nat)
      ensures this.key == key && this.value == value && this.circle == circle && diff == 0 && !removed
    {
      this.key, this.value, this.circle, diff, removed := key, value, circle, 0, false;
    }
  }

  datatype PositionEntry<K, V> = PositionEntry(pos: nat, item: TimingEntry<K, V>)

  datatype TimingTask<K, V> = TimingTask(key: K, value: V)

  // The list runs every task of the map once and nothing else; the order is that of the slot's list.
  ghost predicate Runs<K, V>(tasks: seq<TimingTask<K, V>>, fired: map<K, V>) {
    && (forall i, j :: 0 <= i < j < |tasks| ==> tasks[i].key != tasks[j].key)
    && (forall t :: t in tasks ==> t.key in fired && fired[t.key] == t.value)
    && (forall k :: k in fired ==> TimingTask(k, fired[k]) in tasks)
  }

  class TimingWheel<K(==, !new), V(!new)> {
    const interval: nat
    const numSlots: nat
    const slots: array<seq<TimingEntry<K, V>>>
    var timers: map<K, PositionEntry<K, V>>
    var tickedPos: nat
    ghost var Sched: map<K, Timer<V>>
    ghost var Entries: set<TimingEntry<K, V>>

    // An entry in a slot's list is removed, or it is the one that timers knows for its key.
    ghost predicate InSlot(p: nat, e: TimingEntry<K, V>)
      reads this, Entries
    {
      e in Entries && (!e.removed ==> e.key in timers && timers[e.key] == PositionEntry(p, e))
    }

    // A key of timers has its entry, not removed, in the slot that timers records.
    ghost predicate Known(k: K)
      reads this, slots, Entries
    {
      && k in timers && k in Sched
      && var t := timers[k];
      && t.item in Entries && t.pos < numSlots && slots.Length == numSlots && t.item in slots[t.pos]
      && !t.item.removed && t.item.key == k
      && Sched[k] == Timer(t.item.value, t.pos, t.item.circle, t.item.diff) && t.item.diff < numSlots
    }

    ghost predicate Valid()
      reads this, slots, Entries
    {
      && 0 < interval && 0 < numSlots && slots.Length == numSlots && tickedPos < numSlots
      && (forall p: nat, e {:trigger InSlot(p, e)} :: p < numSlots && e in slots[p] ==> InSlot(p, e))
      && (forall p: nat {:trigger slots[p]} :: p < numSlots ==> NoRepeat(slots[p]))
      && (forall k {:trigger Known(k)} :: k in timers || k in Sched ==> Known(k))
    }

    ghost function Model(): Wheel<K, V>
      reads this
    {
      Wheel(numSlots, tickedPos, Sched)
    }

    lemma IsInSlot(p: nat, e: TimingEntry<K, V>)
      requires Valid() && p < numSlots && e in slots[p]
      ensures InSlot(p, e)
    {
    }

    lemma IsKnown(k: K)
      requires Valid() && (k in timers || k in Sched)
      ensures Known(k)
    {
    }

    lemma ModelValid()
      requires Valid()
      ensures TimingWheelSpec.Valid(Model()) && Sched.Keys == timers.Keys
    {
      forall k | k in Sched || k in timers
        ensures k in timers && k in Sched && TimerOk(numSlots, Sched[k])
      {
        IsKnown(k);
      }
    }

    // Each key in timers has exactly one entry that is not removed, in exactly one slot.
    lemma OneLiveEntry(p: nat, i: nat, q: nat, j: nat)
      requires Valid() && p < numSlots && i < |slots[p]| && q < numSlots && j < |slots[q]|
      requires !slots[p][i].removed && !slots[q][j].removed && slots[p][i].key == slots[q][j].key
      ensures p == q && i == j
    {
      IsInSlot(p, slots[p][i]);
      IsInSlot(q, slots[q][j]);
      assert NoRepeat(slots[p]);
    }

    constructor (interval: nat, numSlots: nat)
      requires 0 < interval && 0 < numSlots
      ensures Valid() && Model() == Wheel(numSlots, numSlots - 1, map[]) && this.interval == interval
      ensures fresh(slots) && Entries == {}
    {
      this.interval, this.numSlots := interval, numSlots;
      slots := new seq<TimingEntry<K, V>>[numSlots](_ => []);
      timers, tickedPos, Sched, Entries := map[], numSlots - 1, map[], {};
    }

    method GetPositionAndCircle(d: nat) returns (pos: nat, circle: nat)
      requires Valid() && interval <= d
      ensures pos == PosAt(numSlots, tickedPos, d / interval) && pos < numSlots
      ensures circle == CircleAt(numSlots, d / interval)
      ensures d / interval == circle * numSlots + Dist(numSlots, tickedPos, pos)
    {
      StepsSplit(numSlots, tickedPos, d / interval);
      var steps := d / interval;
      pos := (tickedPos + steps) % numSlots;
      circle := (steps - 1) / numSlots;
    }

    // Changes the entry of a pending key in place.
    method Adjust(key: K, value: V, circle: nat, diff: nat)
      requires Valid() && key in timers && diff < numSlots
      modifies this`Sched, Entries
      ensures Valid() && Sched == old(Sched)[key := Timer(value, old(timers[key].pos), circle, diff)]
      ensures forall e: TimingEntry<K, V> :: old(e in Entries) ==> e.removed == old(e.removed)
    {
      IsKnown(key);
      var item := timers[key].item;
      item.value, item.circle, item.diff := value, circle, diff;
      Sched := Sched[key := Timer(value, timers[key].pos, circle, diff)];
      forall k | k in timers || k in Sched
        ensures Known(k)
      {
        assert old(Known(key)) && old(Known(k));
      }
      forall p: nat, e | p < numSlots && e in slots[p]
        ensures InSlot(p, e)
      {
        assert old(InSlot(p, e));
      }
    }

    // Appends a new entry for a key without a live one and records it in timers.
    method Place(pos: nat, item: TimingEntry<K, V>)
      requires Valid() && item !in Entries && pos < numSlots && item.key !in timers
      requires !item.removed && item.diff == 0
      modifies this`Sched, this`Entries, this`timers, slots
      ensures Valid() && Entries == old(Entries) + {item}
      ensures slots[pos] == old(slots[pos]) + [item] && timers == old(timers)[item.key := PositionEntry(pos, item)]
      ensures forall q: nat :: q < numSlots && q != pos ==> slots[q] == old(slots[q])
      ensures Sched == old(Sched)[item.key := Timer(item.value, pos, item.circle, 0)]
    {
      slots[pos] := slots[pos] + [item];
      timers := timers[item.key := PositionEntry(pos, item)];
      Sched := Sched[item.key := Timer(item.value, pos, item.circle, 0)];
      Entries := Entries + {item};
      forall p: nat, e | p < numSlots && e in slots[p]
        ensures InSlot(p, e)
      {
        assert old(e in slots[p]) ==> old(InSlot(p, e));
      }
      forall p: nat | p < numSlots
        ensures NoRepeat(slots[p])
      {
        assert old(NoRepeat(slots[p]));
        assert item in old(slots[pos]) ==> old(InSlot(pos, item));
        NoRepeatAppend(old(slots[pos]), item);
      }
      forall k | k in timers || k in Sched
        ensures Known(k)
      {
        assert k != item.key ==> old(Known(k));
      }
    }

    // Forgets a key: its entry stays in the slot's list, marked as removed.
    method Retire(key: K)
      requires Valid() && key in timers
      modifies this`Sched, this`timers, Entries`removed
      ensures Valid() && Sched == old(Sched) - {key} && timers == old(timers) - {key}
      ensures old(timers[key].pos < numSlots && timers[key].item in slots[timers[key].pos])
      ensures forall e :: e in Entries ==> e.removed == (old(e.removed) || e == old(timers[key].item))
    {
      IsKnown(key);
      timers[key].item.removed := true;
      timers := timers - {key};
      Sched := Sched - {key};
      forall p: nat, e | p < numSlots && e in slots[p]
        ensures InSlot(p, e)
      {
        assert old(InSlot(p, e));
        assert old(Known(key));
      }
      forall k | k in timers || k in Sched
        ensures Known(k)
      {
        assert old(Known(k)) && old(Known(key));
      }
    }

    method RemoveTask(key: K)
      requires Valid()
      modifies this`Sched, this`timers, Entries
      ensures Valid() && Entries == old(Entries)
      ensures TimingWheelSpec.Valid(old(Model())) && Model() == Step(old(Model()), interval, Remove(key))
      ensures slots[..] == old(slots[..])
      ensures key in old(timers) ==> old(timers[key].pos < numSlots && timers[key].item in slots[timers[key].pos])
      ensures forall e :: e in Entries ==>
                e.removed == (old(e.removed) || (key in old(timers) && e == old(timers[key].item)))
    {
      ModelValid();
      if key in timers {
        Retire(key);
      }
      assert old(Sched) - {key} == Sched;
    }

    // `ran` is what is handed to execute at once: a move by less than an interval runs the task but
    // leaves the timer where it is.
    method MoveTask(key: K, delay: nat) returns (ran: map<K, V>)
      requires Valid()
      modifies this, slots, Entries
      ensures Valid() && fresh(Entries - old(Entries))
      ensures TimingWheelSpec.Valid(old(Model())) && Model() == Step(old(Model()), interval, Move(key, delay))
      ensures ran == Fired(old(Model()), interval, Move(key, delay))
    {
      ModelValid();
      ran := map[];
      if key !in timers {
        return;
      }
      IsKnown(key);
      var timer := timers[key];
      if delay < interval {
        ran := map[key := timer.item.value];
        return;
      }
      var pos, circle := GetPositionAndCircle(delay);
      if pos >= timer.pos {
        Adjust(key, timer.item.value, circle, pos - timer.pos);
      } else if circle > 0 {
        Adjust(key, timer.item.value, circle - 1, numSlots + pos - timer.pos);
      } else {
        var newItem := new TimingEntry(key, timer.item.value, 0);
        Retire(key);
        Place(pos, newItem);
        assert Sched == old(Sched)[key := Timer(newItem.value, pos, 0, 0)];
      }
    }

    method SetTask(key: K, value: V, delay: nat)
      requires Valid()
      modifies this, slots, Entries
      ensures Valid() && fresh(Entries - old(Entries))
      ensures TimingWheelSpec.Valid(old(Model())) && Model() == Step(old(Model()), interval, Set(key, value, delay))
    {
      hide Moved, TimingWheelSpec.Valid;
      ModelValid();
      var wait := if delay < interval then interval else delay;
      if key in timers {
        IsKnown(key);
        SetIsMove(Model(), interval, key, value, delay);
        Adjust(key, value, timers[key].item.circle, timers[key].item.diff);
        var ran := MoveTask(key, wait);
      } else {
        var pos, circle := GetPositionAndCircle(wait);
        var task := new TimingEntry(key, value, circle);
        Place(pos, task);
      }
    }

    // Takes the i-th entry out of a slot's list once it is removed.
    method DropRemoved(p: nat, i: nat)
      requires Valid() && p < numSlots && i < |slots[p]| && slots[p][i].removed
      modifies slots
      ensures Valid() && slots[p] == old(slots[p])[..i] + old(slots[p])[i + 1..]
    {
      IsInSlot(p, slots[p][i]);
      NoRepeatDrop(slots[p], i);
      slots[p] := slots[p][..i] + slots[p][i + 1..];
      forall q: nat, e | q < numSlots && e in slots[q]
        ensures InSlot(q, e)
      {
        assert old(InSlot(q, e));
      }
      forall q: nat | q < numSlots
        ensures NoRepeat(slots[q])
      {
        assert old(NoRepeat(slots[q]));
      }
      forall k | k in timers || k in Sched
        ensures Known(k)
      {
        assert old(Known(k));
        assert old(InSlot(p, slots[p][i]));
      }
    }

    // Takes the i-th entry, due or on its way to another slot, out of a slot's list and out of timers.
    method Detach(p: nat, i: nat)
      requires Valid() && p < numSlots && i < |slots[p]| && !slots[p][i].removed
      modifies this`timers, this`Sched, this`Entries, slots
      ensures Valid() && Entries == old(Entries) - {old(slots[p][i])}
      ensures slots[p] == old(slots[p])[..i] + old(slots[p])[i + 1..]
      ensures timers == old(timers) - {old(slots[p][i]).key} && Sched == old(Sched) - {old(slots[p][i]).key}
    {
      ghost var e := slots[p][i];
      IsInSlot(p, e);
      NoRepeatDrop(slots[p], i);
      timers := timers - {slots[p][i].key};
      Sched := Sched - {e.key};
      slots[p] := slots[p][..i] + slots[p][i + 1..];
      Entries := Entries - {e};
      forall q: nat, f | q < numSlots && f in slots[q]
        ensures InSlot(q, f)
      {
        assert old(InSlot(q, f)) && old(InSlot(p, e));
      }
      forall q: nat | q < numSlots
        ensures NoRepeat(slots[q])
      {
        assert old(NoRepeat(slots[q]));
      }
      forall k | k in timers || k in Sched
        ensures Known(k)
      {
        assert old(Known(k)) && old(InSlot(p, e));
      }
    }

    // Key k in the middle of a scan: untouched if its entry is among those still to visit, else ticked.
    ghost predicate KeyScanned(k: K, before: map<K, Timer<V>>, tasks: seq<TimingTask<K, V>>,
                               rest: seq<TimingEntry<K, V>>)
      requires tickedPos < numSlots && k in before && TimerOk(numSlots, before[k])
      reads this
    {
      if k in timers && timers[k].item in rest then k in Sched && Sched[k] == before[k]
      else if Due(tickedPos, before[k]) then k !in Sched && TimingTask(k, before[k].value) in tasks
      else k in Sched && Sched[k] == Ticked(numSlots, tickedPos, before[k])
    }

    ghost predicate Scanning(before: map<K, Timer<V>>, tasks: seq<TimingTask<K, V>>, rest: seq<TimingEntry<K, V>>)
      reads this
    {
      && tickedPos < numSlots && (forall k :: k in before ==> TimerOk(numSlots, before[k]))
      && (forall k {:trigger KeyScanned(k, before, tasks, rest)} :: k in before ==> KeyScanned(k, before, tasks, rest))
      && (forall k :: k in Sched ==> k in before)
      && (forall i, j :: 0 <= i < j < |tasks| ==> tasks[i].key != tasks[j].key)
      && (forall t :: t in tasks ==> t.key in before && Due(tickedPos, before[t.key])
                                     && before[t.key].value == t.value && t.key !in Sched)
    }

    // What the scan does with the i-th entry under the hand, unless it is removed: the entry pays a
    // circle, goes over to a later slot, or is taken off to run.
    method VisitLive(i: nat) returns (next: nat, runs: bool)
      requires Valid() && i < |slots[tickedPos]| && !slots[tickedPos][i].removed
      modifies this`timers, this`Sched, this`Entries, slots, Entries
      ensures Valid() && Entries <= old(Entries)
      ensures next <= |slots[tickedPos]| && slots[tickedPos][next..] == old(slots[tickedPos][i + 1..])
      ensures var e := old(slots[tickedPos][i]);
              && e.key in old(Sched) && TimerOk(numSlots, old(Sched)[e.key])
              && e.key in old(timers) && old(timers)[e.key].item == e
              && var t := old(Sched)[e.key];
              && t.slot == tickedPos && t.value == old(e.value) && (runs <==> Due(tickedPos, t))
              && (runs ==> timers == old(timers) - {e.key} && Sched == old(Sched) - {e.key})
              && (!runs ==> e.key in timers && timers[e.key].item == e && timers == old(timers)[e.key := timers[e.key]]
                            && Sched == old(Sched)[e.key := Ticked(numSlots, tickedPos, t)])
    {
      var task := slots[tickedPos][i];
      IsInSlot(tickedPos, task);
      IsKnown(task.key);
      next, runs := i, false;
      if task.circle > 0 {
        Adjust(task.key, task.value, task.circle - 1, task.diff);
        next := i + 1;
      } else if task.diff > 0 {
        var pos := (tickedPos + task.diff) % numSlots;
        Detach(tickedPos, i);
        assert slots[tickedPos][i..] == old(slots[tickedPos][i + 1..]);
        StepsSplit(numSlots, tickedPos, task.diff);
        assert pos != tickedPos;
        task.diff := 0;
        Place(pos, task);
      } else {
        Detach(tickedPos, i);
        assert slots[tickedPos][i..] == old(slots[tickedPos][i + 1..]);
        runs := true;
      }
    }

    // One round of the scan, for the i-th entry under the hand.
    method Visit(i: nat, tasks: seq<TimingTask<K, V>>, ghost before: map<K, Timer<V>>)
      returns (next: nat, tasks': seq<TimingTask<K, V>>)
      requires Valid() && i < |slots[tickedPos]| && Scanning(before, tasks, slots[tickedPos][i..])
      modifies this`timers, this`Sched, this`Entries, slots, Entries
      ensures Valid() && Entries <= old(Entries)
      ensures next <= |slots[tickedPos]| && |slots[tickedPos]| - next == old(|slots[tickedPos]|) - i - 1
      ensures Scanning(before, tasks', slots[tickedPos][next..])
    {
      hide Due, Ticked;
      var task := slots[tickedPos][i];
      IsInSlot(tickedPos, task);
      ghost var rest, rest' := slots[tickedPos][i..], slots[tickedPos][i + 1..];
      assert rest == [task] + rest';
      assert task !in rest' by { assert NoRepeat(slots[tickedPos]); }
      next, tasks' := i, tasks;
      var value := task.value;
      if task.removed {
        forall k | k in timers
          ensures timers[k].item != task
        {
          IsKnown(k);
        }
        DropRemoved(tickedPos, i);
        assert slots[tickedPos][i..] == rest';
      } else {
        IsKnown(task.key);
        assert KeyScanned(task.key, before, tasks, slots[tickedPos][i..]);
        var runs;
        next, runs := VisitLive(i);
        if runs {
          tasks' := tasks + [TimingTask(task.key, value)];
        }
        forall k | k in old(timers) && k != task.key
          ensures old(timers)[k].item != task
        {
          assert old(Known(k));
        }
      }
      assert slots[tickedPos][next..] == rest';
      forall k | k in before
        ensures KeyScanned(k, before, tasks', rest')
      {
        assert old(KeyScanned(k, before, tasks, slots[tickedPos][i..]));
      }
    }

    method ScanAndRunTasks(ghost before: map<K, Timer<V>>) returns (tasks: seq<TimingTask<K, V>>)
      requires Valid() && before == Sched
      modifies this`timers, this`Sched, this`Entries, slots, Entries
      ensures Valid() && Entries <= old(Entries)
      ensures Scanning(before, tasks, [])
    {
      ModelValid();
      var i: nat := 0;
      tasks := [];
      assert slots[tickedPos][0..] == slots[tickedPos];
      forall k | k in before
        ensures KeyScanned(k, before, tasks, slots[tickedPos])
      {
        IsKnown(k);
      }
      while i < |slots[tickedPos]|
        invariant Valid() && Entries <= old(Entries)
        invariant i <= |slots[tickedPos]| && Scanning(before, tasks, slots[tickedPos][i..])
        decreases |slots[tickedPos]| - i
      {
        i, tasks := Visit(i, tasks, before);
      }
      assert slots[tickedPos][i..] == [];
    }

    // One tick of the ticker: the hand goes on, and what is due there runs.
    method OnTick() returns (tasks: seq<TimingTask<K, V>>)
      requires Valid()
      modifies this, slots, Entries
      ensures Valid() && Entries <= old(Entries)
      ensures TimingWheelSpec.Valid(old(Model())) && Model() == Step(old(Model()), interval, Tick)
      ensures Runs(tasks, Fired(old(Model()), interval, Tick))
    {
      ModelValid();
      ghost var before := Sched;
      tickedPos := (tickedPos + 1) % numSlots;
      assert forall k {:trigger Known(k)} :: k in timers || k in Sched ==> old(Known(k)) ==> Known(k);
      assert forall p: nat, e {:trigger InSlot(p, e)} :: p < numSlots && e in slots[p] ==>
               old(InSlot(p, e)) ==> InSlot(p, e);
      assert tickedPos == NextHand(numSlots, old(tickedPos));
      tasks := ScanAndRunTasks(before);
      forall k | k in before
        ensures if Due(tickedPos, before[k]) then k !in Sched && TimingTask(k, before[k].value) in tasks
                else k in Sched && Sched[k] == Ticked(numSlots, tickedPos, before[k])
      {
        assert KeyScanned(k, before, tasks, []);
      }
    }

    // The methods that callers see: they refuse a delay that is not positive and otherwise hand the
    // request to the wheel's loop.
    method RemoveTimer(key: K)
      requires Valid()
      modifies this`Sched, this`timers, Entries
      ensures Valid() && Sched == old(Sched) - {key}
    {
      RemoveTask(key);
    }

    method MoveTimer(key: K, delay: int) returns (ok: bool, ran: map<K, V>)
      requires Valid()
      modifies this, slots, Entries
      ensures Valid() && fresh(Entries - old(Entries)) && tickedPos == old(tickedPos)
      ensures Sched.Keys == old(Sched.Keys)
              && ran.Keys == if key in old(Sched) && 0 < delay < interval then {key} else {}
      ensures ok <==> delay > 0
      ensures !ok ==> Sched == old(Sched)
      ensures TimingWheelSpec.Valid(old(Model()))
      ensures ok ==> Model() == Step(old(Model()), interval, Op.Move(key, delay))
      ensures ran == if ok then Fired(old(Model()), interval, Op.Move(key, delay)) else map[]
    {
      ModelValid();
      if delay <= 0 {
        return false, map[];
      }
      ran := MoveTask(key, delay);
      ok := true;
    }

    method SetTimer(key: K, value: V, delay: int) returns (ok: bool)
      requires Valid()
      modifies this, slots, Entries
      ensures Valid() && fresh(Entries - old(Entries)) && tickedPos == old(tickedPos)
      ensures Sched.Keys == old(Sched.Keys) + if ok then {key} else {}
      ensures ok <==> delay > 0
      ensures !ok ==> Sched == old(Sched)
      ensures TimingWheelSpec.Valid(old(Model()))
      ensures ok ==> Model() == Step(old(Model()), interval, Op.Set(key, value, delay))
    {
      ModelValid();
      if delay <= 0 {
        return false;
      }
      SetTask(key, value, delay);
      ok := true;
    }
  }
}
