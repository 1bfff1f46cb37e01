// core/threading/stablerunner.go as a protocol of atomic steps: one pusher, one consumer, and tasks that
// end in any order, over a ring of holders with a lock and a channel for one value each.
module StableRunner {
  import opened Wrappers
  import opened Arithmetic
  import opened Counting

  // A value in a channel; the index of its message is for the proof only.
  datatype Item<O> = Item(index: nat, value: O)

  datatype Holder<O> = Holder(locked: bool, channel: Option<Item<O>>)

  // A scheduled task: it handles its message and sends the result, then unlocks its holder.
  datatype Job<I> = Job(msg: I, sent: bool)

  datatype Pusher<I> =
    | Away
    | Checked(msg: I)               // saw that done is open
    | Indexed(msg: I, index: nat)   // has its index, not yet the lock of its holder
    | Locked(msg: I, index: nat)    // has the lock, not yet a worker

  datatype Consumer = Idle | Selecting | SawDone | Draining | Took | Refused

  datatype State<!I, O> = State(
    handle: I -> O,
    limit: nat,                 // workers of the task runner
    ring: seq<Holder<O>>,
    written: nat,
    consumed: nat,
    done: bool,
    jobs: map<nat, Job<I>>,     // by the index of the message
    pusher: Pusher<I>,
    consumer: Consumer,
    pushed: seq<I>,             // the messages in the order of their indices
    got: seq<O>,                // the values that Get has returned
    refused: nat                // how often Get has returned ErrRunnerClosed
  )

  datatype Step<I> =
    | Push(msg: I) | TakeIndex | Lock | Schedule
    | Send(j: nat) | End(j: nat)
    | Get | Take | SeeDone | Compare | Advance
    | Close

  function Init<I, O>(handle: I -> O, limit: nat, size: nat): State<I, O> {
    State(handle, limit, seq(size, _ => Holder(false, None)), 0, 0, false, map[], Away, Idle, [], [], 0)
  }

  function Slot(size: nat, index: nat): (o: nat)
    requires size > 0
    ensures o < size
  {
    index % size
  }

  predicate Enabled<I, O>(s: State<I, O>, a: Step<I>)
    requires |s.ring| > 0
  {
    match a
    case Push(_) => s.pusher.Away?
    case TakeIndex => s.pusher.Checked?
    case Lock => s.pusher.Indexed? && !s.ring[Slot(|s.ring|, s.pusher.index)].locked
    case Schedule => s.pusher.Locked? && |s.jobs| < s.limit
    case Send(j) => j in s.jobs && !s.jobs[j].sent && s.ring[Slot(|s.ring|, j)].channel.None?
    case End(j) => j in s.jobs && s.jobs[j].sent
    case Get => s.consumer.Idle?
    case Take => (s.consumer.Selecting? || s.consumer.Draining?) && s.ring[Slot(|s.ring|, s.consumed)].channel.Some?
    case SeeDone => s.consumer.Selecting? && s.done
    case Compare => s.consumer.SawDone?
    case Advance => s.consumer.Took? || s.consumer.Refused?
    case Close => !s.done
  }

  function Put<I, O>(s: State<I, O>, o: nat, h: Holder<O>): State<I, O>
    requires o < |s.ring|
  {
    s.(ring := s.ring[o := h])
  }

  function Do<I, O>(s: State<I, O>, a: Step<I>): State<I, O>
    requires |s.ring| > 0 && Enabled(s, a)
  {
    match a
    // a push that finds done closed is turned away
    case Push(msg) => if s.done then s else s.(pusher := Checked(msg))
    case TakeIndex =>
      s.(written := s.written + 1, pushed := s.pushed + [s.pusher.msg], pusher := Indexed(s.pusher.msg, s.written))
    case Lock =>
      var o := Slot(|s.ring|, s.pusher.index);
      Put(s, o, s.ring[o].(locked := true)).(pusher := Locked(s.pusher.msg, s.pusher.index))
    case Schedule => s.(jobs := s.jobs[s.pusher.index := Job(s.pusher.msg, false)], pusher := Away)
    case Send(j) =>
      var o := Slot(|s.ring|, j);
      Put(s, o, s.ring[o].(channel := Some(Item(j, s.handle(s.jobs[j].msg))))).(
        jobs := s.jobs[j := s.jobs[j].(sent := true)])
    case End(j) =>
      var o := Slot(|s.ring|, j);
      Put(s, o, s.ring[o].(locked := false)).(jobs := s.jobs - {j})
    case Get => s.(consumer := Selecting)
    case Take =>
      var o := Slot(|s.ring|, s.consumed);
      Put(s, o, s.ring[o].(channel := None)).(consumer := Took, got := s.got + [s.ring[o].channel.value.value])
    case SeeDone => s.(consumer := SawDone)
    case Compare =>
      if s.consumed < s.written then s.(consumer := Draining) else s.(consumer := Refused, refused := s.refused + 1)
    // the index moves on after a refusal as well
    case Advance => s.(consumer := Idle, consumed := s.consumed + 1)
    case Close => s.(done := true)
  }

  predicate Holds<I>(p: Pusher<I>, j: nat) {
    (p.Indexed? || p.Locked?) && p.index == j
  }

  // A message that waits in its channel.
  predicate InChannel<I, O>(s: State<I, O>, j: nat)
    requires |s.ring| > 0
  {
    var c := s.ring[Slot(|s.ring|, j)].channel;
    c.Some? && c.value.index == j
  }

  // All earlier messages of the same holder have been sent.
  predicate NextForHolder<I, O>(s: State<I, O>, j: nat)
    requires |s.ring| > 0
  {
    j < |s.got| + |s.ring| || InChannel(s, j - |s.ring|)
  }

  ghost predicate ItemOk<I, O>(s: State<I, O>, o: nat)
    requires o < |s.ring|
  {
    s.ring[o].channel.Some? ==>
      var e := s.ring[o].channel.value;
      && Slot(|s.ring|, e.index) == o
      && |s.got| <= e.index < |s.pushed| && e.index < |s.got| + |s.ring|
      && e.value == s.handle(s.pushed[e.index])
      && (e.index in s.jobs ==> s.jobs[e.index].sent)
      && !Holds(s.pusher, e.index)
  }

  ghost predicate JobOk<I, O>(s: State<I, O>, j: nat)
    requires |s.ring| > 0 && j in s.jobs
  {
    && j < |s.pushed| && s.jobs[j].msg == s.pushed[j]
    && s.ring[Slot(|s.ring|, j)].locked
    && !Holds(s.pusher, j)
    && (s.pusher.Locked? ==> Slot(|s.ring|, j) != Slot(|s.ring|, s.pusher.index))
    && (!s.jobs[j].sent ==> |s.got| <= j && NextForHolder(s, j))
  }

  ghost predicate LockOk<I, O>(s: State<I, O>, o: nat)
    requires o < |s.ring|
  {
    s.ring[o].locked ==>
      (s.pusher.Locked? && Slot(|s.ring|, s.pusher.index) == o) || exists j :: j in s.jobs && Slot(|s.ring|, j) == o
  }

  ghost predicate PusherOk<I, O>(s: State<I, O>)
    requires |s.ring| > 0
  {
    s.pusher.Indexed? || s.pusher.Locked? ==>
      && |s.got| <= s.pusher.index && s.pusher.index + 1 == |s.pushed| && s.pusher.msg == s.pushed[s.pusher.index]
      && (s.pusher.Locked? ==> s.ring[Slot(|s.ring|, s.pusher.index)].locked && NextForHolder(s, s.pusher.index))
  }

  // A message that has not been taken is in one of three places.
  ghost predicate Placed<I, O>(s: State<I, O>, j: nat)
    requires |s.ring| > 0
  {
    InChannel(s, j) || (j in s.jobs && !s.jobs[j].sent) || Holds(s.pusher, j)
  }

  // Until Get is refused, consumedIndex counts the values returned. Afterwards done is closed, and at most
  // one message, whose push had passed the check before, may still come.
  ghost predicate ConsumerOk<I, O>(s: State<I, O>) {
    && (s.refused == 0 ==> !s.consumer.Refused? && s.consumed + One(s.consumer.Took?) == |s.got|)
    && (s.refused > 0 ==>
          && s.done && s.written + One(s.pusher.Checked?) <= |s.got| + 1
          && s.written + One(s.pusher.Checked?) <= s.consumed + One(s.consumer.Refused?) && !s.consumer.Draining?)
    && (s.consumer.Draining? ==> s.consumed < s.written)
    && (s.consumer.SawDone? ==> s.done)
  }

  ghost predicate InOrder<I, O>(s: State<I, O>) {
    |s.got| <= |s.pushed| && forall k :: 0 <= k < |s.got| ==> s.got[k] == s.handle(s.pushed[k])
  }

  ghost predicate Inv<I, O>(s: State<I, O>) {
    && |s.ring| > 0 && s.limit > 0 && s.written == |s.pushed|
    && InOrder(s) && ConsumerOk(s) && PusherOk(s)
    && (forall o :: 0 <= o < |s.ring| ==> ItemOk(s, o) && LockOk(s, o))
    && (forall j :: j in s.jobs ==> JobOk(s, j))
    && (forall i, j :: i in s.jobs && j in s.jobs && Slot(|s.ring|, i) == Slot(|s.ring|, j) ==> i == j)
    && (forall j :: |s.got| <= j < |s.pushed| ==> Placed(s, j))
  }

  // Two messages of one holder that are less than a round apart are the same.
  lemma SameRound(size: nat, a: nat, b: nat)
    requires size > 0 && Slot(size, a) == Slot(size, b) && a <= b < a + size
    ensures a == b
  {
    SameRemainder(size, a, b);
  }

  lemma PreviousRound(size: nat, j: nat)
    requires 0 < size <= j
    ensures Slot(size, j - size) == Slot(size, j)
  {
    DivMod(j - size, size, j / size - 1, j % size);
  }

  lemma PushKeepsInv<I, O>(s: State<I, O>, msg: I)
    requires Inv(s) && Enabled(s, Push(msg))
    ensures Inv(Do(s, Push(msg)))
  {
    hide Slot;
    var s' := Do(s, Push(msg));
    forall o | 0 <= o < |s.ring| ensures ItemOk(s', o) && LockOk(s', o) {
      assert ItemOk(s, o) && LockOk(s, o);
    }
    forall j | j in s'.jobs ensures JobOk(s', j) {
      assert j in s.jobs ==> JobOk(s, j);
    }
    forall j | |s'.got| <= j < |s'.pushed| ensures Placed(s', j) {
      assert j < |s.pushed| ==> Placed(s, j);
    }
  }

  lemma TakeIndexKeepsInv<I, O>(s: State<I, O>)
    requires Inv(s) && Enabled(s, TakeIndex)
    ensures Inv(Do(s, TakeIndex))
  {
    hide Slot;
    var s' := Do(s, TakeIndex);
    forall o | 0 <= o < |s.ring| ensures ItemOk(s', o) && LockOk(s', o) {
      assert ItemOk(s, o) && LockOk(s, o);
    }
    forall j | j in s'.jobs ensures JobOk(s', j) {
      assert j in s.jobs ==> JobOk(s, j);
    }
    forall j | |s'.got| <= j < |s'.pushed| ensures Placed(s', j) {
      assert j < |s.pushed| ==> Placed(s, j);
    }
  }

  lemma LockKeepsInv<I, O>(s: State<I, O>)
    requires Inv(s) && Enabled(s, Lock)
    ensures Inv(Do(s, Lock))
  {
    hide Slot;
    var s' := Do(s, Lock);
    var j := s.pusher.index;
    if j >= |s.got| + |s.ring| {
      PreviousRound(|s.ring|, j);
      assert Placed(s, j - |s.ring|);
    }
    forall i | i in s.jobs ensures Slot(|s.ring|, i) != Slot(|s.ring|, j) {
      assert JobOk(s, i);
    }
    forall o | 0 <= o < |s.ring| ensures ItemOk(s', o) && LockOk(s', o) {
      assert ItemOk(s, o) && LockOk(s, o);
    }
    forall j | j in s'.jobs ensures JobOk(s', j) {
      assert j in s.jobs ==> JobOk(s, j);
    }
    forall j | |s'.got| <= j < |s'.pushed| ensures Placed(s', j) {
      assert j < |s.pushed| ==> Placed(s, j);
    }
  }

  lemma ScheduleKeepsInv<I, O>(s: State<I, O>)
    requires Inv(s) && Enabled(s, Schedule)
    ensures Inv(Do(s, Schedule))
  {
    hide Slot, InChannel, NextForHolder;
    var n, s' := s.pusher.index, Do(s, Schedule);
    forall o | 0 <= o < |s.ring| ensures ItemOk(s', o) && LockOk(s', o) {
      assert ItemOk(s, o) && LockOk(s, o);
      assert n in s'.jobs;
    }
    forall j | j in s'.jobs ensures JobOk(s', j) && (j == n || Slot(|s.ring|, j) != Slot(|s.ring|, n)) {
      assert j in s.jobs ==> JobOk(s, j);
      Framed(s, s', j);
    }
    forall j | |s'.got| <= j < |s'.pushed| ensures Placed(s', j) {
      assert Placed(s, j);
      Framed(s, s', j);
    }
  }

  // What is in the channels depends on the ring alone.
  lemma Framed<I, O>(s: State<I, O>, s': State<I, O>, j: nat)
    requires |s.ring| > 0 && s'.ring == s.ring && s'.got == s.got
    ensures InChannel(s', j) == InChannel(s, j) && NextForHolder(s', j) == NextForHolder(s, j)
  {
  }

  lemma SendKeepsInv<I, O>(s: State<I, O>, j: nat)
    requires Inv(s) && Enabled(s, Send(j))
    ensures Inv(Do(s, Send(j)))
  {
    hide Slot, ItemOk;
    var s' := Do(s, Send(j));
    assert JobOk(s, j);
    SendKeepsItems(s, j);
    forall o | 0 <= o < |s.ring| ensures LockOk(s', o) {
      assert LockOk(s, o);
    }
    forall i | i in s'.jobs ensures JobOk(s', i) {
      assert i in s.jobs ==> JobOk(s, i);
    }
    forall i | |s'.got| <= i < |s'.pushed| ensures Placed(s', i) {
      assert i < |s.pushed| ==> Placed(s, i);
    }
  }

  lemma SendKeepsItems<I, O>(s: State<I, O>, j: nat)
    requires Inv(s) && Enabled(s, Send(j))
    ensures forall o :: 0 <= o < |s.ring| ==> ItemOk(Do(s, Send(j)), o)
  {
    hide Slot, LockOk, PusherOk, ConsumerOk, InOrder;
    var s' := Do(s, Send(j));
    assert JobOk(s, j);
    if j >= |s.got| + |s.ring| {
      PreviousRound(|s.ring|, j);
    }
    forall o | 0 <= o < |s.ring| ensures ItemOk(s', o) {
      assert ItemOk(s, o);
    }
  }

  lemma EndKeepsInv<I, O>(s: State<I, O>, j: nat)
    requires Inv(s) && Enabled(s, End(j))
    ensures Inv(Do(s, End(j)))
  {
    hide Slot;
    var s' := Do(s, End(j));
    assert JobOk(s, j);
    forall o | 0 <= o < |s.ring| ensures ItemOk(s', o) && LockOk(s', o) {
      assert ItemOk(s, o) && LockOk(s, o);
    }
    forall i | i in s'.jobs ensures JobOk(s', i) {
      assert i in s.jobs ==> JobOk(s, i);
    }
    forall i | |s'.got| <= i < |s'.pushed| ensures Placed(s', i) {
      assert i < |s.pushed| ==> Placed(s, i);
    }
  }

  lemma TakeKeepsInv<I, O>(s: State<I, O>)
    requires Inv(s) && Enabled(s, Take)
    ensures Inv(Do(s, Take))
  {
    hide Slot;
    var s' := Do(s, Take);
    var o := Slot(|s.ring|, s.consumed);
    var next := s.ring[o].channel.value.index;
    assert ItemOk(s, o);
    if s.refused == 0 {
      SameRound(|s.ring|, |s.got|, next);
    }
    forall o | 0 <= o < |s.ring| ensures ItemOk(s', o) && LockOk(s', o) {
      assert ItemOk(s, o) && LockOk(s, o);
    }
    forall j | j in s'.jobs ensures JobOk(s', j) {
      assert j in s.jobs ==> JobOk(s, j);
    }
    forall j | |s'.got| <= j < |s'.pushed| ensures Placed(s', j) {
      assert j < |s.pushed| ==> Placed(s, j);
    }
  }

  // Steps that only change what concerns the consumer.
  lemma ConsumerKeepsInv<I, O>(s: State<I, O>, a: Step<I>)
    requires Inv(s) && Enabled(s, a) && (a.Get? || a.SeeDone? || a.Compare? || a.Advance? || a.Close?)
    ensures Inv(Do(s, a))
  {
    var s' := Do(s, a);
    RestKeepsInv(s, s'.consumer, s'.consumed, s'.done, s'.refused);
  }

  lemma RestKeepsInv<I, O>(s: State<I, O>, consumer: Consumer, consumed: nat, done: bool, refused: nat)
    requires Inv(s)
    requires ConsumerOk(s.(consumer := consumer, consumed := consumed, done := done, refused := refused))
    ensures Inv(s.(consumer := consumer, consumed := consumed, done := done, refused := refused))
  {
    hide Slot, ConsumerOk;
    var s' := s.(consumer := consumer, consumed := consumed, done := done, refused := refused);
    forall o | 0 <= o < |s.ring| ensures ItemOk(s', o) && LockOk(s', o) {
      assert ItemOk(s, o) && LockOk(s, o);
    }
    forall j | j in s'.jobs ensures JobOk(s', j) {
      assert j in s.jobs ==> JobOk(s, j);
    }
    forall j | |s'.got| <= j < |s'.pushed| ensures Placed(s', j) {
      assert j < |s.pushed| ==> Placed(s, j);
    }
  }

  lemma StepKeepsInv<I, O>(s: State<I, O>, a: Step<I>)
    requires Inv(s) && Enabled(s, a)
    ensures Inv(Do(s, a))
  {
    assert |s.ring| > 0;
    hide Inv;
    match a
    case Push(msg) => PushKeepsInv(s, msg);
    case TakeIndex => TakeIndexKeepsInv(s);
    case Lock => LockKeepsInv(s);
    case Schedule => ScheduleKeepsInv(s);
    case Send(j) => SendKeepsInv(s, j);
    case End(j) => EndKeepsInv(s, j);
    case Take => TakeKeepsInv(s);
    case Get => ConsumerKeepsInv(s, a);
    case SeeDone => ConsumerKeepsInv(s, a);
    case Compare => ConsumerKeepsInv(s, a);
    case Advance => ConsumerKeepsInv(s, a);
    case Close => ConsumerKeepsInv(s, a);
  }

  ghost predicate Reaches<I(!new), O(!new)>(s: State<I, O>, steps: seq<Step<I>>, end: State<I, O>)
    requires |s.ring| > 0
    decreases |steps|
  {
    if steps == [] then s == end else Enabled(s, steps[0]) && Reaches(Do(s, steps[0]), steps[1..], end)
  }

  lemma {:induction false} RunKeepsInv<I(!new), O(!new)>(s: State<I, O>, steps: seq<Step<I>>, end: State<I, O>)
    requires Inv(s) && Reaches(s, steps, end)
    ensures Inv(end)
    decreases |steps|
  {
    if steps != [] {
      StepKeepsInv(s, steps[0]);
      RunKeepsInv(Do(s, steps[0]), steps[1..], end);
    }
  }

  ghost predicate Reachable<I(!new), O(!new)>(s: State<I, O>) {
    |s.ring| > 0 && s.limit > 0 && exists steps :: Reaches(Init<I, O>(s.handle, s.limit, |s.ring|), steps, s)
  }

  lemma ReachableInv<I(!new), O(!new)>(s: State<I, O>)
    requires Reachable(s)
    ensures Inv(s)
  {
    var steps :| Reaches(Init<I, O>(s.handle, s.limit, |s.ring|), steps, s);
    RunKeepsInv(Init<I, O>(s.handle, s.limit, |s.ring|), steps, s);
  }

  // No more tasks are at work than the task runner has workers.
  lemma {:induction false} RunKeepsLimit<I(!new), O(!new)>(s: State<I, O>, steps: seq<Step<I>>, end: State<I, O>)
    requires |s.ring| > 0 && |s.jobs| <= s.limit && Reaches(s, steps, end)
    ensures |end.jobs| <= end.limit == s.limit
    decreases |steps|
  {
    hide Enabled, Do;
    if steps != [] {
      StepKeepsLimit(s, steps[0]);
      RunKeepsLimit(Do(s, steps[0]), steps[1..], end);
    }
  }

  lemma StepKeepsLimit<I, O>(s: State<I, O>, a: Step<I>)
    requires |s.ring| > 0 && Enabled(s, a) && |s.jobs| <= s.limit
    ensures |Do(s, a).jobs| <= Do(s, a).limit == s.limit && |Do(s, a).ring| == |s.ring|
  {
    hide Slot;
    match a
    case Schedule => JobsGrow(s.jobs, s.pusher.index, Job(s.pusher.msg, false));
    case Send(j) => JobsGrow(s.jobs, j, s.jobs[j].(sent := true));
    case End(j) => EndCounts(s, j);
    case Push(_) => case TakeIndex => case Lock =>
    case Get => case Take => case SeeDone => case Compare => case Advance => case Close =>
  }

  lemma JobsGrow<I>(jobs: map<nat, Job<I>>, j: nat, job: Job<I>)
    ensures |jobs[j := job]| == |jobs| + One(j !in jobs)
  {
    assert jobs[j := job].Keys == jobs.Keys + {j};
    assert |jobs[j := job]| == |jobs[j := job].Keys| && |jobs| == |jobs.Keys|;
  }

  lemma AtMostWorkers<I(!new), O(!new)>(s: State<I, O>)
    requires Reachable(s)
    ensures |s.jobs| <= s.limit
  {
    var steps :| Reaches(Init<I, O>(s.handle, s.limit, |s.ring|), steps, s);
    RunKeepsLimit(Init<I, O>(s.handle, s.limit, |s.ring|), steps, s);
  }

  // A push under way is never stuck for good: it can go on, or a task can, or it waits for the consumer, whose
  // next message is ready.
  lemma PushMoves<I(!new), O(!new)>(s: State<I, O>) returns (a: Step<I>)
    requires Reachable(s) && (s.pusher.Checked? || s.pusher.Indexed? || s.pusher.Locked?)
    ensures InChannel(s, |s.got|)
            || (Enabled(s, a) && (a.TakeIndex? || a.Lock? || a.Schedule? || a.Send? || a.End?))
  {
    hide Slot;
    ReachableInv(s);
    if s.pusher.Checked? {
      a := TakeIndex;
    } else if InChannel(s, |s.got|) {
      a := Take;
    } else {
      a := TowardsNext(s);
    }
  }

  // In every run, whatever order the tasks end in, before and after done is closed: the k-th value that
  // Get returns is handle of the k-th pushed message.
  lemma TakenInPushedOrder<I(!new), O(!new)>(s: State<I, O>, k: nat)
    requires Reachable(s) && k < |s.got|
    ensures k < |s.pushed| && s.got[k] == s.handle(s.pushed[k])
  {
    ReachableInv(s);
  }

  // The first refusal comes when everything pushed so far has been taken.
  lemma RefusedWhenAllTaken<I(!new), O(!new)>(s: State<I, O>)
    requires Reachable(s) && Enabled(s, Compare) && s.refused == 0 && Do(s, Compare).refused > 0
    ensures s.done && |s.got| == |s.pushed|
  {
    ReachableInv(s);
  }

  // At any time when consumedIndex has reached writtenIndex: all has been taken if Get was never refused, and
  // all but at most one otherwise.
  lemma AtMostOneMissed<I(!new), O(!new)>(s: State<I, O>)
    requires Reachable(s) && s.consumed >= s.written
    ensures s.refused == 0 ==> |s.got| == |s.pushed|
    ensures |s.pushed| <= |s.got| + 1
  {
    ReachableInv(s);
  }

  // Wait closes done and returns when consumedIndex has reached writtenIndex. Whatever happens in between,
  // every pushed message has been taken then, if and only if no push was past its check when done was closed.
  lemma WaitTakesAll<I(!new), O(!new)>(s: State<I, O>)
    requires Reachable(s) && Enabled(s, Close)
    ensures (forall steps, end ::
               Reaches(Do(s, Close), steps, end) && end.consumed >= end.written ==> |end.got| == |end.pushed|)
            <==> !s.pusher.Checked?
  {
    ReachableInv(s);
    var closed := Do(s, Close);
    StepKeepsInv(s, Close);
    if s.pusher.Checked? {
      var steps, end := PushPastItsCheckIsMissed(s);
      assert Reaches(closed, steps, end) && end.consumed >= end.written && |end.got| != |end.pushed|;
    } else {
      forall steps, end | Reaches(closed, steps, end) && end.consumed >= end.written
        ensures |end.got| == |end.pushed|
      {
        SettledRun(closed, steps, end);
      }
    }
  }

  // done is closed, no push can still get an index, and Get is refused only with nothing left.
  ghost predicate Settled<I, O>(s: State<I, O>) {
    s.done && !s.pusher.Checked? && (s.refused > 0 ==> |s.got| == |s.pushed|)
  }

  lemma StepKeepsSettled<I, O>(s: State<I, O>, a: Step<I>)
    requires Inv(s) && Settled(s) && Enabled(s, a)
    ensures Settled(Do(s, a))
  {
    hide JobOk, LockOk, PusherOk, Placed, Slot;
    if a.Take? {
      assert ItemOk(s, Slot(|s.ring|, s.consumed));
    }
  }

  lemma {:induction false} SettledRun<I(!new), O(!new)>(s: State<I, O>, steps: seq<Step<I>>, end: State<I, O>)
    requires Inv(s) && Settled(s) && Reaches(s, steps, end)
    ensures Inv(end) && Settled(end)
    ensures end.consumed >= end.written ==> |end.got| == |end.pushed|
    decreases |steps|
  {
    hide Settled;
    if steps != [] {
      StepKeepsInv(s, steps[0]);
      StepKeepsSettled(s, steps[0]);
      SettledRun(Do(s, steps[0]), steps[1..], end);
    } else if s.consumed >= s.written {
      SettledMeansTaken(s);
    }
  }

  lemma SettledMeansTaken<I, O>(s: State<I, O>)
    requires Inv(s) && Settled(s) && s.consumed >= s.written
    ensures |s.got| == |s.pushed|
  {
  }

  // A state with nothing under way but a push that has passed its check.
  ghost predicate Drained<I, O>(s: State<I, O>) {
    s.refused == 0 && s.pusher.Checked? && |s.got| == |s.pushed| && s.jobs == map[]
    && (s.consumer.Idle? || s.consumer.Selecting?)
  }

  function Unsent<I, O>(s: State<I, O>): set<nat> {
    set j | j in s.jobs && !s.jobs[j].sent
  }

  // What a consumer has to do before it can take.
  function Rank(c: Consumer): nat {
    match c case Took => 2 case Idle => 1 case _ => 0
  }

  // The messages pushed before can all be taken while one push rests after its check.
  lemma {:induction false} Drain<I(!new), O(!new)>(s: State<I, O>) returns (steps: seq<Step<I>>, end: State<I, O>)
    requires Inv(s) && s.pusher.Checked? && s.refused == 0 && !s.consumer.SawDone?
    ensures Reaches(s, steps, end) && Inv(end) && Drained(end)
    ensures end.pushed == s.pushed && end.pusher == s.pusher && end.done == s.done && |end.ring| == |s.ring|
    decreases |s.pushed| - |s.got|, |Unsent(s)|, |s.jobs|, Rank(s.consumer)
  {
    if Drained(s) {
      return [], s;
    }
    var a := DrainStep(s);
    var next := Do(s, a);
    StepKeepsInv(s, a);
    DrainStepCounts(s, a);
    steps, end := Drain(next);
    steps := Before(s, a, steps, end);
  }

  predicate Drains<I>(a: Step<I>) {
    a.Take? || a.Send? || a.End? || a.Get? || a.Advance?
  }

  lemma DrainStep<I, O>(s: State<I, O>) returns (a: Step<I>)
    requires Inv(s) && s.pusher.Checked? && s.refused == 0 && !s.consumer.SawDone? && !Drained(s)
    ensures Enabled(s, a) && Drains(a)
    ensures a.Advance? ==> s.consumer.Took?
  {
    hide ItemOk, LockOk, Placed, Slot, PusherOk;
    if s.consumer.Took? {
      a := Advance;
    } else if |s.got| < |s.pushed| {
      if s.consumer.Idle? {
        a := Get;
      } else {
        a := TowardsTake(s);
      }
    } else {
      assert s.jobs != map[];
      assert s.jobs.Keys != {};
      var j :| j in s.jobs;
      assert JobOk(s, j);
      a := End(j);
    }
  }

  lemma DrainStepCounts<I, O>(s: State<I, O>, a: Step<I>)
    requires |s.ring| > 0 && Enabled(s, a) && Drains(a) && (a.Advance? ==> s.consumer.Took?)
    ensures var n := Do(s, a);
            && n.pushed == s.pushed && n.pusher == s.pusher && n.done == s.done && |n.ring| == |s.ring|
            && n.refused == s.refused && (n.consumer.SawDone? ==> s.consumer.SawDone?)
            && |n.got| == |s.got| + One(a.Take?)
            && (a.Get? || a.Advance? ==> n.jobs == s.jobs && Rank(n.consumer) < Rank(s.consumer))
    ensures a.Send? ==> |Unsent(Do(s, a))| < |Unsent(s)|
    ensures a.End? ==> Unsent(Do(s, a)) == Unsent(s) && |Do(s, a).jobs| < |s.jobs|
  {
    hide Slot, Unsent;
    if a.Send? {
      SendCounts(s, a.j);
    } else if a.End? {
      EndCounts(s, a.j);
    }
  }

  lemma SendCounts<I, O>(s: State<I, O>, j: nat)
    requires |s.ring| > 0 && Enabled(s, Send(j))
    ensures |Unsent(Do(s, Send(j)))| < |Unsent(s)|
  {
    hide Slot;
    assert j in Unsent(s) && Unsent(Do(s, Send(j))) == Unsent(s) - {j};
  }

  lemma EndCounts<I, O>(s: State<I, O>, j: nat)
    requires |s.ring| > 0 && Enabled(s, End(j))
    ensures Unsent(Do(s, End(j))) == Unsent(s) && |Do(s, End(j)).jobs| < |s.jobs|
  {
    hide Slot;
    var n := Do(s, End(j));
    assert j in s.jobs.Keys && n.jobs.Keys == s.jobs.Keys - {j};
    assert |n.jobs| == |n.jobs.Keys| && |s.jobs| == |s.jobs.Keys|;
  }

  // Nothing is locked and nothing waits in a channel.
  ghost predicate Empty<I, O>(s: State<I, O>) {
    forall o :: 0 <= o < |s.ring| ==> s.ring[o] == Holder(false, None)
  }

  lemma DrainedIsEmpty<I, O>(s: State<I, O>)
    requires Inv(s) && Drained(s)
    ensures Empty(s)
  {
    hide JobOk, PusherOk, InOrder, Placed, Slot, ConsumerOk;
    forall o | 0 <= o < |s.ring| ensures s.ring[o] == Holder(false, None) {
      assert ItemOk(s, o) && LockOk(s, o);
    }
  }

  // What it means that the last message is missed: its Push has returned, its task has ended, Wait sees the
  // indices meet, and the next Gets, one fewer than there are holders, find nothing to take.
  ghost predicate Missed<I, O>(s: State<I, O>) {
    && |s.ring| > 0 && |s.got| + 1 == |s.pushed| && s.consumed == s.written
    && s.done && s.pusher.Away? && s.jobs == map[] && s.consumer.Idle?
    && forall k :: s.consumed <= k < s.consumed + |s.ring| - 1 ==> s.ring[Slot(|s.ring|, k)].channel.None?
  }

  // Get is refused while the push rests after its check.
  lemma RefusedEarly<I(!new), O(!new)>(s: State<I, O>) returns (steps: seq<Step<I>>, end: State<I, O>)
    requires Inv(s) && Drained(s) && s.done
    ensures Reaches(s, steps, end)
    ensures end == s.(consumer := Idle, consumed := s.written + 1, refused := 1)
  {
    hide ItemOk, LockOk, JobOk, PusherOk, InOrder, Placed, Slot;
    var selecting := s.(consumer := Selecting);
    var s1 := Do(selecting, SeeDone);
    var s2 := Do(s1, Compare);
    end := Do(s2, Advance);
    steps := Before(s2, Advance, [], end);
    steps := Before(s1, Compare, steps, end);
    steps := Before(selecting, SeeDone, steps, end);
    if s.consumer.Idle? {
      steps := Before(s, Get, steps, end);
    }
  }

  // Then the push goes on, and its task ends.
  lemma PushedLate<I(!new), O(!new)>(s: State<I, O>) returns (steps: seq<Step<I>>, end: State<I, O>)
    requires |s.ring| > 0 && s.limit > 0 && Empty(s) && s.jobs == map[]
             && s.pusher.Checked? && s.consumer.Idle? && s.done
    requires s.consumed == s.written + 1 && s.written == |s.pushed| == |s.got|
    ensures Reaches(s, steps, end) && Missed(end)
    ensures end.pushed == s.pushed + [s.pusher.msg] && end.got == s.got
  {
    var n := s.written;
    var s1 := Do(s, TakeIndex);
    var s2 := Do(s1, Lock);
    var s3 := Do(s2, Schedule);
    var s4 := Do(s3, Send(n));
    end := Do(s4, End(n));
    steps := Before(s4, End(n), [], end);
    steps := Before(s3, Send(n), steps, end);
    steps := Before(s2, Schedule, steps, end);
    steps := Before(s1, Lock, steps, end);
    steps := Before(s, TakeIndex, steps, end);
    forall k | n < k < n + |s.ring| ensures Slot(|s.ring|, k) != Slot(|s.ring|, n) {
      if Slot(|s.ring|, k) == Slot(|s.ring|, n) {
        SameRound(|s.ring|, n, k);
      }
    }
  }

  // A push that was past its check when done was closed can be missed, in any state and on any ring.
  lemma PushPastItsCheckIsMissed<I(!new), O(!new)>(s: State<I, O>) returns (steps: seq<Step<I>>, end: State<I, O>)
    requires Inv(s) && Enabled(s, Close) && s.pusher.Checked?
    ensures Reaches(Do(s, Close), steps, end) && Missed(end)
    ensures end.pushed == s.pushed + [s.pusher.msg]
  {
    hide ItemOk, LockOk, JobOk, PusherOk, InOrder, Placed, Slot, Missed;
    StepKeepsInv(s, Close);
    var closed := Do(s, Close);
    var drained, refused, earlier, later;
    earlier, drained := Drain(closed);
    DrainedIsEmpty(drained);
    steps, refused := RefusedEarly(drained);
    later, end := PushedLate(refused);
    Then(drained, steps, refused, later, end);
    Then(closed, earlier, drained, steps + later, end);
    steps := earlier + (steps + later);
  }

  lemma {:induction false} Then<I(!new), O(!new)>(
      s: State<I, O>, steps: seq<Step<I>>, mid: State<I, O>, more: seq<Step<I>>, end: State<I, O>)
    requires |s.ring| > 0 && Reaches(s, steps, mid) && |mid.ring| > 0 && Reaches(mid, more, end)
    ensures Reaches(s, steps + more, end)
    decreases |steps|
  {
    if steps == [] {
      assert steps + more == more;
    } else {
      assert (steps + more)[1..] == steps[1..] + more;
      Then(Do(s, steps[0]), steps[1..], mid, more, end);
    }
  }

  // For every runner with at least two holders a first message that is missed: the consumer's next Get can
  // only be refused once more.
  lemma MissedMessage<I(!new), O(!new)>(handle: I -> O, limit: nat, size: nat, msg: I)
    returns (steps: seq<Step<I>>, end: State<I, O>)
    requires limit > 0 && size >= 2
    ensures Reaches(Init(handle, limit, size), steps, end) && Missed(end)
    ensures end.pushed == [msg] && end.got == []
    ensures var next := Do(end, Get);
            !Enabled(next, Take) && Enabled(next, SeeDone) && Do(Do(next, SeeDone), Compare).consumer.Refused?
  {
    hide ItemOk, LockOk, JobOk, PusherOk, InOrder, Placed, Slot;
    var init: State<I, O> := Init(handle, limit, size);
    var s := Do(init, Push(msg));
    InitInv(handle, limit, size);
    StepKeepsInv(init, Push(msg));
    steps, end := PushPastItsCheckIsMissed(s);
    SameRing(Do(s, Close), steps, end);
    steps := Before(s, Close, steps, end);
    steps := Before(init, Push(msg), steps, end);
  }

  lemma {:induction false} SameRing<I(!new), O(!new)>(s: State<I, O>, steps: seq<Step<I>>, end: State<I, O>)
    requires |s.ring| > 0 && Reaches(s, steps, end)
    ensures |end.ring| == |s.ring|
    decreases |steps|
  {
    if steps != [] {
      SameRing(Do(s, steps[0]), steps[1..], end);
    }
  }

  lemma InitInv<I, O>(handle: I -> O, limit: nat, size: nat)
    requires limit > 0 && size > 0
    ensures Inv(Init(handle, limit, size))
  {
  }

  lemma Before<I(!new), O(!new)>(s: State<I, O>, a: Step<I>, steps: seq<Step<I>>, end: State<I, O>)
    returns (all: seq<Step<I>>)
    requires |s.ring| > 0 && Enabled(s, a) && Reaches(Do(s, a), steps, end)
    ensures all == [a] + steps && Reaches(s, all, end)
  {
    all := [a] + steps;
    assert all[1..] == steps;
  }

  // A Get whose message has been pushed is never stuck: it can take the value, or a task or the push that has
  // the message can go on.
  lemma GetMoves<I(!new), O(!new)>(s: State<I, O>) returns (a: Step<I>)
    requires Reachable(s) && s.refused == 0 && |s.got| < |s.pushed|
    requires s.consumer.Selecting? || s.consumer.Draining?
    ensures Enabled(s, a) && (a.Take? || a.Send? || a.End? || a.Lock? || a.Schedule?)
  {
    ReachableInv(s);
    a := TowardsTake(s);
  }

  lemma TowardsTake<I, O>(s: State<I, O>) returns (a: Step<I>)
    requires Inv(s) && s.refused == 0 && |s.got| < |s.pushed|
    requires s.consumer.Selecting? || s.consumer.Draining?
    ensures Enabled(s, a) && (a.Take? || a.Send? || a.End? || a.Lock? || a.Schedule?)
  {
    hide Slot;
    assert |s.got| == s.consumed;
    if InChannel(s, |s.got|) {
      a := Take;
    } else {
      a := TowardsNext(s);
    }
  }

  // Whoever has the message that is next can go on, or whoever stands in its way.
  lemma TowardsNext<I, O>(s: State<I, O>) returns (a: Step<I>)
    requires Inv(s) && |s.got| < |s.pushed| && !InChannel(s, |s.got|)
    ensures Enabled(s, a) && (a.Send? || a.End? || a.Lock? || a.Schedule?)
  {
    hide Slot;
    var next := |s.got|;
    assert Placed(s, next);
    if next in s.jobs && !s.jobs[next].sent {
      a := Send(next);
      assert ItemOk(s, Slot(|s.ring|, next));
      var c := s.ring[Slot(|s.ring|, next)].channel;
      if c.Some? {
        SameRound(|s.ring|, next, c.value.index);
      }
    } else if s.pusher.Indexed? {
      a := Lock;
      var o := Slot(|s.ring|, next);
      assert LockOk(s, o);
      if s.ring[o].locked {
        var j :| j in s.jobs && Slot(|s.ring|, j) == o;
        assert JobOk(s, j);
        a := End(j);
      }
    } else if |s.jobs| < s.limit {
      a := Schedule;
    } else {
      assert s.jobs.Keys != {};
      var j :| j in s.jobs;
      assert JobOk(s, j);
      a := End(j);
    }
  }

}
