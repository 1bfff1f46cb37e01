// The schedule that a timing wheel (core/collection/timingwheel.go) keeps, without lists and pointers:
// for every pending key the slot it waits in and the full turns (circle) and extra ticks (diff) that
// the wheel still owes it. How many ticks remain is a function of these and of the hand's position.
module TimingWheelSpec {
  import opened Arithmetic

  datatype Timer<V> = Timer(value: V, slot: nat, circle: nat, diff: nat)

  datatype Wheel<K, V> = Wheel(n: nat, hand: nat, timers: map<K, Timer<V>>)

  ghost predicate TimerOk<V>(n: nat, t: Timer<V>) {
    t.slot < n && t.diff < n
  }

  ghost predicate Valid<K, V>(w: Wheel<K, V>) {
    0 < w.n && w.hand < w.n && forall k :: k in w.timers ==> TimerOk(w.n, w.timers[k])
  }

  // The ticks until the hand, which stands on a slot already visited, comes to the given slot.
  function Dist(n: nat, hand: nat, slot: nat): (d: nat)
    requires hand < n && slot < n
    ensures 1 <= d <= n
  {
    if slot > hand then slot - hand else slot - hand + n
  }

  // The number of ticks after which the timer runs.
  function Remaining<V>(n: nat, hand: nat, t: Timer<V>): (r: nat)
    requires hand < n && TimerOk(n, t)
    ensures r >= 1
  {
    Dist(n, hand, t.slot) + t.circle * n + t.diff
  }

  function PosAt(n: nat, hand: nat, steps: nat): nat
    requires 0 < n
  {
    (hand + steps) % n
  }

  function CircleAt(n: nat, steps: nat): nat
    requires 0 < n && 0 < steps
  {
    (steps - 1) / n
  }

  // Steps are full circles plus the distance to the position they lead to.
  lemma StepsSplit(n: nat, hand: nat, steps: nat)
    requires hand < n && 0 < steps
    ensures PosAt(n, hand, steps) < n
    ensures steps == CircleAt(n, steps) * n + Dist(n, hand, PosAt(n, hand, steps))
  {
    var q, r := (steps - 1) / n, (steps - 1) % n + 1;
    assert steps == q * n + r;
    if hand + r < n {
      DivMod(hand + steps, n, q, hand + r);
    } else if hand + r < 2 * n {
      assert (q + 1) * n == q * n + n;
      DivMod(hand + steps, n, q + 1, hand + r - n);
    } else {
      assert false;
    }
  }

  // A timer placed for some steps runs after exactly these steps.
  lemma PlacedRemaining<V>(n: nat, hand: nat, steps: nat, v: V)
    requires hand < n && 0 < steps
    ensures var t := Timer(v, PosAt(n, hand, steps), CircleAt(n, steps), 0);
            TimerOk(n, t) && Remaining(n, hand, t) == steps
  {
    StepsSplit(n, hand, steps);
  }

  // Where moving a timer to `steps` from now puts it: in place when its slot allows, else in a new slot.
  function Moved<V>(n: nat, hand: nat, t: Timer<V>, steps: nat): Timer<V>
    requires hand < n && TimerOk(n, t) && 0 < steps
  {
    var pos, circle := PosAt(n, hand, steps), CircleAt(n, steps);
    if pos >= t.slot then t.(circle := circle, diff := pos - t.slot)
    else if circle > 0 then t.(circle := circle - 1, diff := n + pos - t.slot)
    else Timer(t.value, pos, 0, 0)
  }

  // The hand lies between the old slot and the new position, so that moving in place miscounts.
  predicate MovesLate(n: nat, hand: nat, slot: nat, steps: nat)
    requires 0 < n
  {
    slot <= hand < PosAt(n, hand, steps)
  }

  predicate MovesEarly(n: nat, hand: nat, slot: nat, steps: nat)
    requires 0 < n && 0 < steps
  {
    PosAt(n, hand, steps) <= hand < slot && CircleAt(n, steps) > 0
  }

  // The ticks that a moved timer really waits: as asked, or exactly one full turn too many or too few.
  lemma MovedRemaining<V>(n: nat, hand: nat, t: Timer<V>, steps: nat)
    requires hand < n && TimerOk(n, t) && 0 < steps
    ensures TimerOk(n, Moved(n, hand, t, steps))
    ensures Remaining(n, hand, Moved(n, hand, t, steps)) ==
            if MovesLate(n, hand, t.slot, steps) then steps + n
            else if MovesEarly(n, hand, t.slot, steps) then steps - n
            else steps
    ensures Remaining(n, hand, Moved(n, hand, t, steps)) == steps <==>
            !MovesLate(n, hand, t.slot, steps) && !MovesEarly(n, hand, t.slot, steps)
  {
    StepsSplit(n, hand, steps);
    var circle := CircleAt(n, steps);
    if circle > 0 {
      assert (circle - 1) * n == circle * n - n;
    }
  }

  // On a wheel of ten slots: a timer moved to run 2 ticks from now runs after 12, and one moved to run
  // 18 ticks from now runs after 8.
  lemma MovedExamples(late: Timer<int>, early: Timer<int>)
    requires late.slot == 0 && late.diff == 0 && early.slot == 9 && early.diff == 0
    ensures Remaining(10, 0, Moved(10, 0, late, 2)) == 12
    ensures Remaining(10, 4, Moved(10, 4, early, 18)) == 8
  {
    MovedRemaining(10, 0, late, 2);
    MovedRemaining(10, 4, early, 18);
  }

  function NextHand(n: nat, hand: nat): (h: nat)
    requires hand < n
    ensures h < n
  {
    if hand + 1 == n then 0 else hand + 1
  }

  // When the hand stands on a timer's slot, the timer runs if it owes no circle and no diff ...
  predicate Due<V>(hand: nat, t: Timer<V>) {
    t.slot == hand && t.circle == 0 && t.diff == 0
  }

  // ... and otherwise pays one circle, or goes over to the slot that is diff ticks ahead.
  function Ticked<V>(n: nat, hand: nat, t: Timer<V>): Timer<V>
    requires hand < n && TimerOk(n, t) && !Due(hand, t)
  {
    if t.slot != hand then t
    else if t.circle > 0 then t.(circle := t.circle - 1)
    else Timer(t.value, PosAt(n, hand, t.diff), 0, 0)
  }

  // Each tick brings every timer closer by exactly one, and runs it exactly when one tick remained.
  lemma TickCountsDown<V>(n: nat, hand: nat, t: Timer<V>)
    requires hand < n && TimerOk(n, t)
    ensures Due(NextHand(n, hand), t) <==> Remaining(n, hand, t) == 1
    ensures !Due(NextHand(n, hand), t) ==>
              var t' := Ticked(n, NextHand(n, hand), t);
              && t'.value == t.value && TimerOk(n, t')
              && Remaining(n, NextHand(n, hand), t') == Remaining(n, hand, t) - 1
  {
    var h := NextHand(n, hand);
    if t.slot == h {
      if t.circle > 0 {
        assert (t.circle - 1) * n == t.circle * n - n >= 0;
      } else if t.diff > 0 {
        StepsSplit(n, h, t.diff);
        DivMod(t.diff - 1, n, 0, t.diff - 1);
      }
    }
  }

  // What comes to the wheel: calls of its methods, and ticks.
  datatype Op<K, V> = Set(key: K, value: V, delay: nat) | Move(key: K, delay: nat) | Remove(key: K) | Tick

  function Step<K, V>(w: Wheel<K, V>, interval: nat, op: Op<K, V>): (w': Wheel<K, V>)
    requires Valid(w) && 0 < interval
  {
    match op
    case Set(k, v, delay) =>
      var steps := if delay < interval then 1 else delay / interval;
      w.(timers := w.timers[k := if k in w.timers then Moved(w.n, w.hand, w.timers[k].(value := v), steps)
                                 else Timer(v, PosAt(w.n, w.hand, steps), CircleAt(w.n, steps), 0)])
    case Move(k, delay) =>
      if k !in w.timers || delay < interval then w
      else w.(timers := w.timers[k := Moved(w.n, w.hand, w.timers[k], delay / interval)])
    case Remove(k) => w.(timers := w.timers - {k})
    case Tick =>
      var h := NextHand(w.n, w.hand);
      Wheel(w.n, h, map k | k in w.timers && !Due(h, w.timers[k]) :: Ticked(w.n, h, w.timers[k]))
  }

  // The tasks that an operation hands to the execute function.
  function Fired<K, V>(w: Wheel<K, V>, interval: nat, op: Op<K, V>): map<K, V>
    requires Valid(w)
  {
    match op
    case Set(_, _, _) => map[]
    case Move(k, delay) => if k in w.timers && delay < interval then map[k := w.timers[k].value] else map[]
    case Remove(_) => map[]
    case Tick =>
      var h := NextHand(w.n, w.hand);
      map k | k in w.timers && Due(h, w.timers[k]) :: w.timers[k].value
  }

  lemma StepValid<K, V>(w: Wheel<K, V>, interval: nat, op: Op<K, V>)
    requires Valid(w) && 0 < interval
    ensures Valid(Step(w, interval, op)) && Step(w, interval, op).n == w.n
  {
    var w' := Step(w, interval, op);
    forall k | k in w'.timers
      ensures TimerOk(w.n, w'.timers[k])
    {
      if op.Tick? {
        TickCountsDown(w.n, w.hand, w.timers[k]);
      } else if op.Set? && op.key == k {
        var steps := if op.delay < interval then 1 else op.delay / interval;
        if k in w.timers {
          MovedRemaining(w.n, w.hand, w.timers[k].(value := op.value), steps);
        } else {
          PlacedRemaining(w.n, w.hand, steps, op.value);
        }
      } else if op.Move? && op.key == k && op.delay >= interval {
        MovedRemaining(w.n, w.hand, w.timers[k], op.delay / interval);
      }
    }
  }

  // For a pending key, setting is changing the value and then moving by the raised delay.
  lemma SetIsMove<K, V>(w: Wheel<K, V>, interval: nat, k: K, v: V, delay: nat)
    requires Valid(w) && 0 < interval && k in w.timers
    ensures var mid := w.(timers := w.timers[k := w.timers[k].(value := v)]);
            && Valid(mid)
            && Step(w, interval, Set(k, v, delay)) ==
               Step(mid, interval, Move(k, if delay < interval then interval else delay))
  {
    DivMod(interval, interval, 1, 0);
  }

  // At a tick every pending timer either stays pending or runs.
  lemma TickPartitions<K, V>(w: Wheel<K, V>, interval: nat)
    requires Valid(w) && 0 < interval
    ensures Step(w, interval, Tick).timers.Keys + Fired(w, interval, Tick).Keys == w.timers.Keys
    ensures Step(w, interval, Tick).timers.Keys !! Fired(w, interval, Tick).Keys
  {
  }

  ghost predicate Touches<K, V>(op: Op<K, V>, k: K) {
    !op.Tick? && op.key == k
  }

  ghost function Ticks<K, V>(ops: seq<Op<K, V>>): nat {
    if ops == [] then 0 else (if ops[0].Tick? then 1 else 0) + Ticks(ops[1..])
  }

  // Everything that execute gets to see of key k in a run: after how many ticks, and with which value.
  ghost function Firings<K, V>(w: Wheel<K, V>, interval: nat, ops: seq<Op<K, V>>, k: K, elapsed: nat): seq<(nat, V)>
    requires Valid(w) && 0 < interval
    decreases |ops|
  {
    if ops == [] then []
    else
      StepValid(w, interval, ops[0]);
      var fired := Fired(w, interval, ops[0]);
      var now := elapsed + if ops[0].Tick? then 1 else 0;
      (if k in fired then [(now, fired[k])] else []) + Firings(Step(w, interval, ops[0]), interval, ops[1..], k, now)
  }

  // A key that is not pending and is left alone never fires.
  lemma {:induction false} AbsentNeverFires<K, V>(w: Wheel<K, V>, interval: nat, ops: seq<Op<K, V>>, k: K, elapsed: nat)
    requires Valid(w) && 0 < interval && k !in w.timers
    requires forall op :: op in ops ==> !Touches(op, k)
    ensures Firings(w, interval, ops, k, elapsed) == []
    decreases |ops|
  {
    if ops != [] {
      assert !Touches(ops[0], k);
      StepValid(w, interval, ops[0]);
      AbsentNeverFires(Step(w, interval, ops[0]), interval, ops[1..], k, elapsed + if ops[0].Tick? then 1 else 0);
    }
  }

  // What one operation that does not name k does to k.
  lemma StepLeaves<K, V>(w: Wheel<K, V>, interval: nat, op: Op<K, V>, k: K)
    requires Valid(w) && 0 < interval && k in w.timers && !Touches(op, k)
    ensures !op.Tick? ==> && k in Step(w, interval, op).timers && k !in Fired(w, interval, op)
                          && Step(w, interval, op).timers[k] == w.timers[k] && Step(w, interval, op).hand == w.hand
    ensures op.Tick? && Remaining(w.n, w.hand, w.timers[k]) == 1 ==>
              k !in Step(w, interval, op).timers && k in Fired(w, interval, op)
              && Fired(w, interval, op)[k] == w.timers[k].value
    ensures op.Tick? && Remaining(w.n, w.hand, w.timers[k]) > 1 ==>
              var w' := Step(w, interval, op);
              && k in w'.timers && k !in Fired(w, interval, op) && Valid(w') && w'.n == w.n
              && w'.timers[k].value == w.timers[k].value
              && Remaining(w.n, w'.hand, w'.timers[k]) == Remaining(w.n, w.hand, w.timers[k]) - 1
  {
    StepValid(w, interval, op);
    TickCountsDown(w.n, w.hand, w.timers[k]);
  }

  // Whatever happens to other keys: a pending timer that is left alone fires exactly once, at the tick
  // where its remaining ticks run out and not before, with the value it holds now.
  lemma {:induction false} PendingFiresOnce<K, V>(w: Wheel<K, V>, interval: nat, ops: seq<Op<K, V>>, k: K, elapsed: nat)
    requires Valid(w) && 0 < interval && k in w.timers
    requires forall op :: op in ops ==> !Touches(op, k)
    ensures var r := Remaining(w.n, w.hand, w.timers[k]);
            Firings(w, interval, ops, k, elapsed) ==
            if r <= Ticks(ops) then [(elapsed + r, w.timers[k].value)] else []
    decreases |ops|
  {
    hide Step, Fired, Remaining;
    if ops != [] {
      var op := ops[0];
      var w' := Step(w, interval, op);
      StepValid(w, interval, op);
      StepLeaves(w, interval, op, k);
      if k in w'.timers {
        PendingFiresOnce(w', interval, ops[1..], k, elapsed + if op.Tick? then 1 else 0);
      } else {
        AbsentNeverFires(w', interval, ops[1..], k, elapsed + 1);
      }
    }
  }

  // A timer set for a key that is not pending, and then left alone, fires once after max(1, delay / interval) ticks.
  lemma FreshTimerFiresOnce<K, V>(w: Wheel<K, V>, interval: nat, k: K, v: V, delay: nat, ops: seq<Op<K, V>>)
    requires Valid(w) && 0 < interval && k !in w.timers
    requires forall op :: op in ops ==> !Touches(op, k)
    ensures var steps := if delay < interval then 1 else delay / interval;
            Firings(w, interval, [Set(k, v, delay)] + ops, k, 0) == if steps <= Ticks(ops) then [(steps, v)] else []
  {
    var op := Set(k, v, delay);
    var steps := if delay < interval then 1 else delay / interval;
    StepValid(w, interval, op);
    var w' := Step(w, interval, op);
    PlacedRemaining(w.n, w.hand, steps, v);
    assert ([op] + ops)[1..] == ops;
    PendingFiresOnce(w', interval, ops, k, 0);
  }

  // Setting a pending key again fires once with the new value; it is on time exactly when the move is.
  lemma SetAgainFiresOnce<K, V>(w: Wheel<K, V>, interval: nat, k: K, v: V, delay: nat, ops: seq<Op<K, V>>)
    requires Valid(w) && 0 < interval && k in w.timers
    requires forall op :: op in ops ==> !Touches(op, k)
    ensures var steps := if delay < interval then 1 else delay / interval;
            var slot := w.timers[k].slot;
            var r := if MovesLate(w.n, w.hand, slot, steps) then steps + w.n
                     else if MovesEarly(w.n, w.hand, slot, steps) then steps - w.n else steps;
            Firings(w, interval, [Set(k, v, delay)] + ops, k, 0) == if r <= Ticks(ops) then [(r, v)] else []
  {
    var op := Set(k, v, delay);
    var steps := if delay < interval then 1 else delay / interval;
    StepValid(w, interval, op);
    MovedRemaining(w.n, w.hand, w.timers[k].(value := v), steps);
    assert ([op] + ops)[1..] == ops;
    PendingFiresOnce(Step(w, interval, op), interval, ops, k, 0);
  }

  // Moving a pending key by at least an interval fires once with the value it had, on time or a turn off.
  lemma MovedFiresOnce<K, V>(w: Wheel<K, V>, interval: nat, k: K, delay: nat, ops: seq<Op<K, V>>)
    requires Valid(w) && 0 < interval <= delay && k in w.timers
    requires forall op :: op in ops ==> !Touches(op, k)
    ensures var steps := delay / interval;
            var slot, v := w.timers[k].slot, w.timers[k].value;
            var r := if MovesLate(w.n, w.hand, slot, steps) then steps + w.n
                     else if MovesEarly(w.n, w.hand, slot, steps) then steps - w.n else steps;
            Firings(w, interval, [Move(k, delay)] + ops, k, 0) == if r <= Ticks(ops) then [(r, v)] else []
  {
    var op: Op<K, V> := Move(k, delay);
    StepValid(w, interval, op);
    MovedRemaining(w.n, w.hand, w.timers[k], delay / interval);
    assert ([op] + ops)[1..] == ops;
    PendingFiresOnce(Step(w, interval, op), interval, ops, k, 0);
  }

  // Moving it by less fires twice: at once, and again when it was due anyway.
  lemma MovedAtOnceFiresTwice<K, V>(w: Wheel<K, V>, interval: nat, k: K, delay: nat, ops: seq<Op<K, V>>)
    requires Valid(w) && delay < interval && k in w.timers
    requires forall op :: op in ops ==> !Touches(op, k)
    ensures var r, v := Remaining(w.n, w.hand, w.timers[k]), w.timers[k].value;
            Firings(w, interval, [Move(k, delay)] + ops, k, 0) == [(0, v)] + if r <= Ticks(ops) then [(r, v)] else []
  {
    var op: Op<K, V> := Move(k, delay);
    StepValid(w, interval, op);
    assert ([op] + ops)[1..] == ops;
    PendingFiresOnce(Step(w, interval, op), interval, ops, k, 0);
  }

  // Runs from a new wheel of ten slots that ticks once. A timer set for 10 ticks and set again for 2 runs
  // after 12, and one set for 5 ticks and set again for 20 runs after 10.
  lemma LateRun<K>(k: K, rest: seq<Op<K, int>>)
    requires forall op :: op in rest ==> !Touches(op, k)
    ensures Firings(Wheel(10, 9, map[]), 1, [Tick, Set(k, 1, 10), Set(k, 2, 2)] + rest, k, 0) ==
            if 12 <= Ticks(rest) then [(1 + 12, 2)] else []
  {
    SetTwice(k, 10, 2, rest);
  }

  lemma EarlyRun<K>(k: K, rest: seq<Op<K, int>>)
    requires forall op :: op in rest ==> !Touches(op, k)
    ensures Firings(Wheel(10, 9, map[]), 1, [Tick, Set(k, 1, 5), Set(k, 2, 20)] + rest, k, 0) ==
            if 10 <= Ticks(rest) then [(1 + 10, 2)] else []
  {
    SetTwice(k, 5, 20, rest);
  }

  lemma SetTwice<K>(k: K, first: nat, second: nat, rest: seq<Op<K, int>>)
    requires 0 < first && 0 < second && forall op :: op in rest ==> !Touches(op, k)
    ensures var slot := PosAt(10, 0, first);
            var r := if MovesLate(10, 0, slot, second) then second + 10
                     else if MovesEarly(10, 0, slot, second) then second - 10 else second;
            Firings(Wheel(10, 9, map[]), 1, [Tick, Set(k, 1, first), Set(k, 2, second)] + rest, k, 0) ==
            if r <= Ticks(rest) then [(1 + r, 2)] else []
  {
    var w0: Wheel<K, int> := Wheel(10, 9, map[]);
    var all: seq<Op<K, int>> := [Tick, Set(k, 1, first), Set(k, 2, second)] + rest;
    var w1 := Step(w0, 1, all[0]);
    assert w1 == Wheel(10, 0, map[]);
    var w2 := Step(w1, 1, all[1]);
    StepsSplit(10, 0, first);
    assert w2 == Wheel(10, 0, map[k := Timer(1, PosAt(10, 0, first), CircleAt(10, first), 0)]);
    StepValid(w1, 1, all[1]);
    StepValid(w2, 1, all[2]);
    MovedRemaining(10, 0, w2.timers[k].(value := 2), second);
    PendingFiresOnce(Step(w2, 1, all[2]), 1, rest, k, 1);
    assert all[1..][1..][1..] == rest && all[1..][0] == all[1] && all[1..][1..][0] == all[2];
    assert Firings(w2, 1, all[1..][1..], k, 1) == Firings(Step(w2, 1, all[2]), 1, rest, k, 1);
    assert Firings(w1, 1, all[1..], k, 1) == Firings(w2, 1, all[1..][1..], k, 1);
  }

  // A removed timer that is left alone never fires.
  lemma RemovedNeverFires<K, V>(w: Wheel<K, V>, interval: nat, k: K, ops: seq<Op<K, V>>)
    requires Valid(w) && 0 < interval
    requires forall op :: op in ops ==> !Touches(op, k)
    ensures Firings(w, interval, [Remove(k)] + ops, k, 0) == []
  {
    var op: Op<K, V> := Remove(k);
    StepValid(w, interval, op);
    assert ([op] + ops)[1..] == ops;
    AbsentNeverFires(Step(w, interval, op), interval, ops, k, 0);
  }
}
