// core/mr/mapreduce.go as a protocol of atomic steps: the dispatcher of executeMappers with its pool of
// workers, the mappers, the reducer, the caller, cancellation and the end of the context.
module MapReduce {
  import opened Counting

  // What mapReduceWithPanicChan ends with.
  datatype Result<V> = Value(v: V) | NoOutput | Cancelled | ContextEnded | Panic

  datatype DispatcherPlace =
    | Checking     // the loop condition
    | Selecting
    | Receiving    // has a token of the pool
    | Spawning     // has an item
    | Leaving      // before wg.Wait
    | Draining     // the collector is closed
    | Over

  datatype MapperPlace =
    | Mapping
    | Sending      // in Write, past its check
    | Panicked
    | Ended        // before wg.Done
    | Releasing    // before its token goes back
    | Gone

  datatype Mapper<T, U> = Mapper(item: T, at: MapperPlace, value: seq<U>)

  datatype ReducerPlace = Reducing | Writing | Discarding | Finished

  datatype CallerPlace<V> =
    | Waiting
    | Cancelling                   // the context ended
    | Failing                      // drains the output before it panics
    | Returning(result: Result<V>) // waits for the output to be closed
    | Returned(result: Result<V>)

  datatype State<T, U, V> = State(
    workers: nat,
    items: seq<T>,                 // all that generate sends
    pending: seq<T>,               // not yet received from the source
    sourceClosed: bool,
    dispatcher: DispatcherPlace,
    hand: seq<T>,                  // the item that the dispatcher is about to spawn a mapper for
    tokens: nat,                   // in the pool
    waitGroup: int,
    mappers: seq<Mapper<T, U>>,
    collector: seq<U>,
    collectorClosed: bool,
    reducer: ReducerPlace,
    output: seq<V>,                // what the reducer is about to write
    sawEnd: bool,                  // the reducer has read to the close of the collector
    caller: CallerPlace<V>,
    done: bool,                    // done and output are closed
    ended: bool,                   // the context is done
    cancelled: bool,
    failed: bool,                  // a mapper panicked
    panicked: bool,                // any function panicked
    // what happened so far
    mapped: seq<T>,                // items a mapper was spawned for
    skipped: seq<T>,               // items drained, or never sent
    wrote: multiset<U>,            // values that mappers wrote
    dropped: multiset<U>,          // of them, those that Write let go
    read: seq<U>,                  // values that the reducer received
    discarded: seq<U>,             // values drained after it
    asked: seq<V>,                 // values that the reducer wrote
    delivered: seq<V>              // values that the caller received
  )

  datatype SourceStep = Close | GeneratePanics | EndContext | Cancel | CancelDrains | CancelFinishes

  datatype DispatcherStep = Check | Leave | TakeToken | Receive | SeeClosed | Spawn | CloseCollector | Drain | Stop

  datatype MapperStep<U> = Write(v: U) | Send | Return | Fail | Report | Done | Release

  datatype ReducerStep<V> = Read | SeeEnd | Output(v: V) | Break | Quit | Crash | Discard | Finish

  datatype CallerStep = Take | SeeNone | SeeContext | SeePanic | Leave

  datatype Step<U, V> =
    | World(w: SourceStep)
    | Dispatch(d: DispatcherStep)
    | Map(i: nat, m: MapperStep<U>)
    | Reduce(r: ReducerStep<V>)
    | Call(c: CallerStep)

  function Init<T, U, V>(workers: nat, items: seq<T>): State<T, U, V> {
    State(workers, items, items, false, Checking, [], 0, 0, [], [], false, Reducing, [], false, Waiting,
      false, false, false, false, false, [], [], multiset{}, multiset{}, [], [], [], [])
  }

  // The source, the context and cancel, which runs once: it drains the source and then finishes.

  predicate CanWorld<T, U, V>(s: State<T, U, V>, w: SourceStep) {
    match w
    case Close => !s.sourceClosed && s.pending == []
    case GeneratePanics => !s.sourceClosed
    case EndContext => true
    case Cancel => !s.cancelled
    case CancelDrains => s.cancelled && s.pending != []
    case CancelFinishes => s.cancelled && s.sourceClosed && s.pending == []
  }

  function DoWorld<T, U, V>(s: State<T, U, V>, w: SourceStep): (r: State<T, U, V>)
    requires CanWorld(s, w)
    ensures r.workers == s.workers && r.items == s.items
  {
    match w
    case Close => s.(sourceClosed := true)
    case GeneratePanics => s.(sourceClosed := true, panicked := true, skipped := s.skipped + s.pending, pending := [])
    case EndContext => s.(ended := true)
    case Cancel => s.(cancelled := true)
    case CancelDrains => s.(skipped := s.skipped + [s.pending[0]], pending := s.pending[1..])
    case CancelFinishes => s.(done := true)
  }

  // executeMappers.

  predicate CanDispatch<T, U, V>(s: State<T, U, V>, d: DispatcherStep) {
    match d
    case Check => s.dispatcher == Checking
    case Leave => s.dispatcher == Selecting && (s.ended || s.done)
    case TakeToken => s.dispatcher == Selecting && s.tokens < s.workers
    case Receive => s.dispatcher == Receiving && s.pending != []
    case SeeClosed => s.dispatcher == Receiving && s.sourceClosed && s.pending == [] && s.tokens > 0
    case Spawn => s.dispatcher == Spawning && |s.hand| == 1
    case CloseCollector => s.dispatcher == Leaving && s.waitGroup == 0
    case Drain => s.dispatcher == Draining && s.pending != []
    case Stop => s.dispatcher == Draining && s.sourceClosed && s.pending == []
  }

  function DoDispatch<T, U, V>(s: State<T, U, V>, d: DispatcherStep): (r: State<T, U, V>)
    requires CanDispatch(s, d)
    ensures r.workers == s.workers && r.items == s.items
  {
    match d
    case Check => s.(dispatcher := if s.failed then Leaving else Selecting)
    case Leave => s.(dispatcher := Leaving)
    case TakeToken => s.(dispatcher := Receiving, tokens := s.tokens + 1)
    case Receive => s.(dispatcher := Spawning, hand := [s.pending[0]], pending := s.pending[1..])
    case SeeClosed => s.(dispatcher := Leaving, tokens := s.tokens - 1)
    case Spawn =>
      s.(dispatcher := Checking, hand := [], mapped := s.mapped + s.hand, waitGroup := s.waitGroup + 1,
         mappers := s.mappers + [Mapper(s.hand[0], Mapping, [])])
    case CloseCollector => s.(dispatcher := Draining, collectorClosed := true)
    case Drain => s.(skipped := s.skipped + [s.pending[0]], pending := s.pending[1..])
    case Stop => s.(dispatcher := Over)
  }

  // A mapper, with the guarded writer of the collector.

  predicate CanMap<T, U, V>(s: State<T, U, V>, i: nat, m: MapperStep<U>) {
    i < |s.mappers| &&
    match m
    case Write(_) => s.mappers[i].at == Mapping
    case Send => s.mappers[i].at == Sending && |s.collector| < s.workers
    case Return => s.mappers[i].at == Mapping
    case Fail => s.mappers[i].at == Mapping
    case Report => s.mappers[i].at == Panicked
    case Done => s.mappers[i].at == Ended
    case Release => s.mappers[i].at == Releasing && s.tokens > 0
  }

  function Go<T, U, V>(s: State<T, U, V>, i: nat, at: MapperPlace, value: seq<U>): (r: State<T, U, V>)
    requires i < |s.mappers|
    ensures r.workers == s.workers && r.items == s.items
  {
    s.(mappers := s.mappers[i := Mapper(s.mappers[i].item, at, value)])
  }

  function DoMap<T, U, V>(s: State<T, U, V>, i: nat, m: MapperStep<U>): (r: State<T, U, V>)
    requires CanMap(s, i, m)
    ensures r.workers == s.workers && r.items == s.items
  {
    match m
    case Write(v) =>
      if s.ended || s.done then s.(wrote := s.wrote + multiset{v}, dropped := s.dropped + multiset{v})
      else Go(s, i, Sending, [v]).(wrote := s.wrote + multiset{v})
    case Send => Go(s, i, Mapping, []).(collector := s.collector + s.mappers[i].value)
    case Return => Go(s, i, Ended, [])
    case Fail => Go(s, i, Panicked, []).(failed := true, panicked := true)
    case Report => Go(s, i, Ended, [])
    case Done => Go(s, i, Releasing, []).(waitGroup := s.waitGroup - 1)
    case Release => Go(s, i, Gone, []).(tokens := s.tokens - 1)
  }

  // The reducer, with the guarded writer of the output and what its goroutine defers.

  predicate CanReduce<T, U, V>(s: State<T, U, V>, r: ReducerStep<V>) {
    match r
    case Read => s.reducer == Reducing && s.collector != []
    case SeeEnd => s.reducer == Reducing && s.collector == [] && s.collectorClosed
    case Output(_) => s.reducer == Reducing
    case Break => s.reducer == Writing && s.done
    case Quit => s.reducer == Reducing
    case Crash => s.reducer == Reducing
    case Discard => s.reducer == Discarding && s.collector != []
    case Finish => s.reducer == Discarding && s.collector == [] && s.collectorClosed
  }

  function DoReduce<T, U, V>(s: State<T, U, V>, r: ReducerStep<V>): (s': State<T, U, V>)
    requires CanReduce(s, r)
    ensures s'.workers == s.workers && s'.items == s.items
  {
    match r
    case Read => s.(read := s.read + [s.collector[0]], collector := s.collector[1..])
    case SeeEnd => s.(sawEnd := true)
    case Output(v) =>
      if s.ended || s.done then s.(asked := s.asked + [v])
      else s.(reducer := Writing, output := [v], asked := s.asked + [v])
    // a send on the closed output
    case Break => s.(reducer := Discarding, output := [], panicked := true)
    case Quit => s.(reducer := Discarding)
    case Crash => s.(reducer := Discarding, panicked := true)
    case Discard => s.(discarded := s.discarded + [s.collector[0]], collector := s.collector[1..])
    case Finish => s.(reducer := Finished, done := true)
  }

  // The caller: its select, and the deferred loop over the output.

  predicate CanCall<T, U, V>(s: State<T, U, V>, c: CallerStep) {
    match c
    case Take =>
      (s.caller.Waiting? || s.caller.Failing? || s.caller.Returning?) && s.reducer == Writing && |s.output| == 1
      && !s.done
    case SeeNone => s.caller.Waiting? && s.done
    case SeeContext => s.caller.Waiting? && s.ended
    case SeePanic => s.caller.Waiting? && s.panicked
    case Leave => (s.caller.Cancelling? || s.caller.Failing? || s.caller.Returning?) && s.done
  }

  function DoCall<T, U, V>(s: State<T, U, V>, c: CallerStep): (r: State<T, U, V>)
    requires CanCall(s, c)
    ensures r.workers == s.workers && r.items == s.items
  {
    match c
    case Take => s.(reducer := Reducing, output := [], delivered := s.delivered + s.output,
                    caller := Received(s.caller, s.cancelled, s.output[0]))
    case SeeNone => s.(caller := Returned(if s.cancelled then Cancelled else NoOutput))
    case SeeContext => s.(caller := Cancelling, cancelled := true)
    case SeePanic => s.(caller := Failing)
    case Leave => s.(caller := Returned(Outcome(s.caller)))
  }

  // The first value is the result, unless the run was cancelled; a second one is a panic.
  function Received<V>(caller: CallerPlace<V>, cancelled: bool, v: V): CallerPlace<V> {
    match caller
    case Waiting => Returning(if cancelled then Cancelled else Value(v))
    case Returning(_) => Returned(Panic)
    case _ => caller
  }

  function Outcome<V>(caller: CallerPlace<V>): Result<V> {
    match caller
    case Cancelling => ContextEnded
    case Returning(result) => result
    case _ => Panic
  }

  predicate Enabled<T, U, V>(s: State<T, U, V>, a: Step<U, V>) {
    match a
    case World(w) => CanWorld(s, w)
    case Dispatch(d) => CanDispatch(s, d)
    case Map(i, m) => CanMap(s, i, m)
    case Reduce(r) => CanReduce(s, r)
    case Call(c) => CanCall(s, c)
  }

  function Do<T, U, V>(s: State<T, U, V>, a: Step<U, V>): (r: State<T, U, V>)
    requires Enabled(s, a)
    ensures r.workers == s.workers && r.items == s.items
  {
    match a
    case World(w) => DoWorld(s, w)
    case Dispatch(d) => DoDispatch(s, d)
    case Map(i, m) => DoMap(s, i, m)
    case Reduce(r) => DoReduce(s, r)
    case Call(c) => DoCall(s, c)
  }

  // Counting mappers.

  predicate InWork(at: MapperPlace) {
    at != Releasing && at != Gone
  }

  function Works<T, U>(t: Mapper<T, U>): nat { One(InWork(t.at)) }
  function HasToken<T, U>(t: Mapper<T, U>): nat { One(t.at != Gone) }

  ghost function Sends<T, U>(v: U): Mapper<T, U> -> nat {
    (t: Mapper<T, U>) => if t.at == Sending then multiset(t.value)[v] else 0
  }

  // The pool and the wait group.
  ghost predicate Pooled<T, U, V>(s: State<T, U, V>) {
    && s.tokens == Sum(s.mappers, HasToken) + One(s.dispatcher == Receiving || s.dispatcher == Spawning)
    && s.tokens <= s.workers
    && s.waitGroup == Sum(s.mappers, Works)
    && (s.collectorClosed <==> s.dispatcher == Draining || s.dispatcher == Over)
    && (s.collectorClosed ==> s.waitGroup == 0)
    && |s.mappers| == |s.mapped| && (forall k :: 0 <= k < |s.mapped| ==> s.mappers[k].item == s.mapped[k])
  }

  // Every item is received once, and by one of the parties.
  ghost predicate ItemsKept<T(!new), U, V>(s: State<T, U, V>) {
    && (forall item :: InOnePlace(s, item))
    && |s.hand| == One(s.dispatcher == Spawning)
  }

  ghost predicate InOnePlace<T, U, V>(s: State<T, U, V>, item: T) {
    multiset(s.items)[item]
      == multiset(s.mapped)[item] + multiset(s.hand)[item] + multiset(s.skipped)[item] + multiset(s.pending)[item]
  }

  // Every value that a mapper wrote is let go, about to be sent, in the collector, read or discarded.
  ghost predicate ValuesKept<T, U(!new), V>(s: State<T, U, V>) {
    forall v :: Kept(s, v)
  }

  ghost predicate Kept<T, U, V>(s: State<T, U, V>, v: U) {
    s.wrote[v] == s.dropped[v] + Sum(s.mappers, Sends(v)) + multiset(s.collector)[v]
                  + multiset(s.read)[v] + multiset(s.discarded)[v]
  }

  // No cancellation, no end of the context and no panic.
  predicate Calm<T, U, V>(s: State<T, U, V>) {
    !s.ended && !s.cancelled && !s.panicked
  }

  // When the reducer and the collector are through.
  ghost predicate Ordered<T, U, V>(s: State<T, U, V>) {
    && (s.reducer == Finished ==> s.collectorClosed && s.collector == [])
    && (s.sawEnd ==> s.collectorClosed && s.collector == [] && s.discarded == [])
    && (s.reducer == Reducing || s.reducer == Writing ==> s.discarded == [])
    && (s.reducer == Finished ==> s.done)
  }

  // In a calm run nothing is skipped or let go, and only the reducer's end closes done.
  ghost predicate Undisturbed<T, U, V>(s: State<T, U, V>) {
    && (s.failed ==> s.panicked)
    && (s.done && !s.cancelled ==> s.reducer == Finished)
    && (Calm(s) ==>
          && (s.done ==> s.reducer == Finished)
          && (s.dispatcher in {Leaving, Draining, Over} ==> s.sourceClosed && s.pending == [])
          && s.skipped == [] && s.mapped + s.hand + s.pending == s.items
          && s.dropped == multiset{})
  }

  // What the caller holds is what the reducer wrote.
  ghost predicate Answered<T, U, V>(s: State<T, U, V>) {
    && |s.output| == One(s.reducer == Writing)
    && (Calm(s) ==> s.asked == s.delivered + s.output)
    && (s.caller.Waiting? ==> s.delivered == [])
    && (s.caller.Returning? && s.caller.result.Value? ==> s.delivered == [s.caller.result.v])
    && (s.caller.Returned? && s.caller.result.Value? ==> s.delivered == [s.caller.result.v] && s.done)
    && (s.caller.Returning? ==> s.caller.result.Value? || (s.caller.result.Cancelled? && s.cancelled))
    && (s.caller == Returned(NoOutput) ==> s.delivered == [] && s.done && s.reducer == Finished)
    && (s.caller.Returned? && s.caller.result.Panic? && Calm(s) ==> |s.delivered| > 1)
    && (Calm(s) ==> !s.caller.Cancelling? && !s.caller.Failing?)
    && (Calm(s) && s.caller.Returned? ==> !s.caller.result.Cancelled? && !s.caller.result.ContextEnded?)
  }

  ghost predicate Inv<T(!new), U(!new), V>(s: State<T, U, V>) {
    Pooled(s) && ItemsKept(s) && ValuesKept(s) && Ordered(s) && Undisturbed(s) && Answered(s)
  }

  // The collector is open as long as a mapper works.
  lemma OpenWhileMapping<T, U, V>(s: State<T, U, V>, i: nat)
    requires Pooled(s) && i < |s.mappers| && InWork(s.mappers[i].at)
    ensures !s.collectorClosed
  {
    SumAtLeast(s.mappers, i, Works);
  }

  lemma WorldKeepsPooled<T(!new), U(!new), V>(s: State<T, U, V>, w: SourceStep)
    requires Inv(s) && CanWorld(s, w)
    ensures Pooled(DoWorld(s, w))
  {
    hide Sum, ValuesKept, Ordered, Undisturbed, Answered;
  }

  lemma WorldKeepsItemsKept<T(!new), U(!new), V>(s: State<T, U, V>, w: SourceStep)
    requires Inv(s) && CanWorld(s, w)
    ensures ItemsKept(DoWorld(s, w))
  {
    hide Sum, Pooled, ValuesKept, Ordered, Undisturbed, Answered;
    var s' := DoWorld(s, w);
    if w == CancelDrains {
      assert s.pending == [s.pending[0]] + s.pending[1..];
    }
    forall item ensures InOnePlace(s', item) {
      assert InOnePlace(s, item);
    }
  }

  lemma WorldKeepsValuesKept<T(!new), U(!new), V>(s: State<T, U, V>, w: SourceStep)
    requires Inv(s) && CanWorld(s, w)
    ensures ValuesKept(DoWorld(s, w))
  {
    hide Sum, Pooled, ItemsKept, Ordered, Undisturbed, Answered;
    var s' := DoWorld(s, w);
    forall v ensures Kept(s', v) {
      assert Kept(s, v);
    }
  }

  lemma WorldKeepsOrdered<T(!new), U(!new), V>(s: State<T, U, V>, w: SourceStep)
    requires Inv(s) && CanWorld(s, w)
    ensures Ordered(DoWorld(s, w))
  {
    hide Sum, Pooled, ItemsKept, ValuesKept, Undisturbed, Answered;
  }

  lemma WorldKeepsUndisturbed<T(!new), U(!new), V>(s: State<T, U, V>, w: SourceStep)
    requires Inv(s) && CanWorld(s, w)
    ensures Undisturbed(DoWorld(s, w))
  {
    hide Sum, ValuesKept, Answered;
  }

  lemma WorldKeepsAnswered<T(!new), U(!new), V>(s: State<T, U, V>, w: SourceStep)
    requires Inv(s) && CanWorld(s, w)
    ensures Answered(DoWorld(s, w))
  {
    hide Sum, Pooled, ItemsKept, ValuesKept;
  }

  lemma DispatchKeepsPooled<T(!new), U(!new), V>(s: State<T, U, V>, d: DispatcherStep)
    requires Inv(s) && CanDispatch(s, d)
    ensures Pooled(DoDispatch(s, d))
  {
    hide Sum, ValuesKept, Ordered, Undisturbed, Answered;
    if d == Spawn {
      SumAppend(s.mappers, Mapper(s.hand[0], Mapping, []), HasToken);
      SumAppend(s.mappers, Mapper(s.hand[0], Mapping, []), Works);
    }
  }

  lemma ReceivedKeepsItems<T(!new), U(!new), V>(s: State<T, U, V>, d: DispatcherStep)
    requires ItemsKept(s) && CanDispatch(s, d) && (d == Receive || d == Drain || d == Spawn)
    ensures ItemsKept(DoDispatch(s, d))
  {
    var s' := DoDispatch(s, d);
    if d != Spawn {
      assert s.pending == [s.pending[0]] + s.pending[1..];
    }
    forall item ensures InOnePlace(s', item) {
      assert InOnePlace(s, item);
    }
  }

  lemma DispatchKeepsItemsKept<T(!new), U(!new), V>(s: State<T, U, V>, d: DispatcherStep)
    requires Inv(s) && CanDispatch(s, d)
    ensures ItemsKept(DoDispatch(s, d))
  {
    hide Sum, Pooled, ValuesKept, Ordered, Undisturbed, Answered;
    if d == Receive || d == Drain || d == Spawn {
      ReceivedKeepsItems(s, d);
    } else {
      forall item ensures InOnePlace(DoDispatch(s, d), item) {
        assert InOnePlace(s, item);
      }
    }
  }

  lemma DispatchKeepsValuesKept<T(!new), U(!new), V>(s: State<T, U, V>, d: DispatcherStep)
    requires Inv(s) && CanDispatch(s, d)
    ensures ValuesKept(DoDispatch(s, d))
  {
    hide Sum, Pooled, ItemsKept, Ordered, Undisturbed, Answered;
    var s' := DoDispatch(s, d);
    forall v ensures Kept(s', v) {
      assert Kept(s, v);
      if d == Spawn {
        SumAppend(s.mappers, Mapper(s.hand[0], Mapping, []), Sends(v));
      }
    }
  }

  lemma DispatchKeepsOrdered<T(!new), U(!new), V>(s: State<T, U, V>, d: DispatcherStep)
    requires Inv(s) && CanDispatch(s, d)
    ensures Ordered(DoDispatch(s, d))
  {
    hide Sum, Pooled, ItemsKept, ValuesKept, Undisturbed, Answered;
  }

  lemma DispatchKeepsUndisturbed<T(!new), U(!new), V>(s: State<T, U, V>, d: DispatcherStep)
    requires Inv(s) && CanDispatch(s, d)
    ensures Undisturbed(DoDispatch(s, d))
  {
    hide Sum, ValuesKept, Answered;
  }

  lemma DispatchKeepsAnswered<T(!new), U(!new), V>(s: State<T, U, V>, d: DispatcherStep)
    requires Inv(s) && CanDispatch(s, d)
    ensures Answered(DoDispatch(s, d))
  {
    hide Sum, Pooled, ItemsKept, ValuesKept;
  }

  lemma MapKeepsPooled<T(!new), U(!new), V>(s: State<T, U, V>, i: nat, m: MapperStep<U>)
    requires Inv(s) && CanMap(s, i, m)
    ensures Pooled(DoMap(s, i, m))
  {
    hide Sum, ValuesKept, Ordered, Undisturbed, Answered;
    var t := DoMap(s, i, m).mappers[i];
    SumUpdate(s.mappers, i, t, HasToken);
    SumUpdate(s.mappers, i, t, Works);
  }

  lemma MapKeepsItemsKept<T(!new), U(!new), V>(s: State<T, U, V>, i: nat, m: MapperStep<U>)
    requires Inv(s) && CanMap(s, i, m)
    ensures ItemsKept(DoMap(s, i, m))
  {
    hide Sum, Pooled, ValuesKept, Ordered, Undisturbed, Answered;
    var s' := DoMap(s, i, m);
    forall item ensures InOnePlace(s', item) {
      assert InOnePlace(s, item);
    }
  }

  lemma MapKeepsValuesKept<T(!new), U(!new), V>(s: State<T, U, V>, i: nat, m: MapperStep<U>)
    requires Inv(s) && CanMap(s, i, m)
    ensures ValuesKept(DoMap(s, i, m))
  {
    hide Sum, Pooled, ItemsKept, Ordered, Undisturbed, Answered;
    var s' := DoMap(s, i, m);
    forall v ensures Kept(s', v) {
      assert Kept(s, v);
      SumUpdate(s.mappers, i, s'.mappers[i], Sends(v));
    }
  }

  lemma OpenKeepsOrdered<T, U, V>(s: State<T, U, V>, i: nat, m: MapperStep<U>)
    requires Ordered(s) && CanMap(s, i, m) && !s.collectorClosed
    ensures Ordered(DoMap(s, i, m))
  {
  }

  lemma MapKeepsOrdered<T(!new), U(!new), V>(s: State<T, U, V>, i: nat, m: MapperStep<U>)
    requires Inv(s) && CanMap(s, i, m)
    ensures Ordered(DoMap(s, i, m))
  {
    hide Pooled, ItemsKept, ValuesKept, Answered;
    if m.Release? {
      assert Ordered(s.(tokens := s.tokens - 1));
    } else {
      OpenWhileMapping(s, i);
      OpenKeepsOrdered(s, i, m);
    }
  }

  lemma OpenKeepsUndisturbed<T, U, V>(s: State<T, U, V>, i: nat, m: MapperStep<U>)
    requires Ordered(s) && Undisturbed(s) && CanMap(s, i, m) && !s.collectorClosed
    ensures Undisturbed(DoMap(s, i, m))
  {
  }

  lemma MapKeepsUndisturbed<T(!new), U(!new), V>(s: State<T, U, V>, i: nat, m: MapperStep<U>)
    requires Inv(s) && CanMap(s, i, m)
    ensures Undisturbed(DoMap(s, i, m))
  {
    hide Pooled, ItemsKept, ValuesKept, Answered;
    if m.Release? {
      assert Undisturbed(s.(tokens := s.tokens - 1));
    } else {
      OpenWhileMapping(s, i);
      OpenKeepsUndisturbed(s, i, m);
    }
  }

  lemma MapKeepsAnswered<T(!new), U(!new), V>(s: State<T, U, V>, i: nat, m: MapperStep<U>)
    requires Inv(s) && CanMap(s, i, m)
    ensures Answered(DoMap(s, i, m))
  {
    hide Sum, Pooled, ItemsKept, ValuesKept;
  }

  lemma ReduceKeepsPooled<T(!new), U(!new), V>(s: State<T, U, V>, r: ReducerStep<V>)
    requires Inv(s) && CanReduce(s, r)
    ensures Pooled(DoReduce(s, r))
  {
    hide Sum, ValuesKept, Ordered, Undisturbed, Answered;
  }

  lemma ReduceKeepsItemsKept<T(!new), U(!new), V>(s: State<T, U, V>, r: ReducerStep<V>)
    requires Inv(s) && CanReduce(s, r)
    ensures ItemsKept(DoReduce(s, r))
  {
    hide Sum, Pooled, ValuesKept, Ordered, Undisturbed, Answered;
    var s' := DoReduce(s, r);
    forall item ensures InOnePlace(s', item) {
      assert InOnePlace(s, item);
    }
  }

  lemma ReduceKeepsValuesKept<T(!new), U(!new), V>(s: State<T, U, V>, r: ReducerStep<V>)
    requires Inv(s) && CanReduce(s, r)
    ensures ValuesKept(DoReduce(s, r))
  {
    hide Sum, Pooled, ItemsKept, Ordered, Undisturbed, Answered;
    var s' := DoReduce(s, r);
    assert s.collector != [] ==> s.collector == [s.collector[0]] + s.collector[1..];
    forall v ensures Kept(s', v) {
      assert Kept(s, v);
    }
  }

  lemma ReduceKeepsOrdered<T(!new), U(!new), V>(s: State<T, U, V>, r: ReducerStep<V>)
    requires Inv(s) && CanReduce(s, r)
    ensures Ordered(DoReduce(s, r))
  {
    hide Sum, Pooled, ItemsKept, ValuesKept, Undisturbed, Answered;
  }

  lemma ReduceKeepsUndisturbed<T(!new), U(!new), V>(s: State<T, U, V>, r: ReducerStep<V>)
    requires Inv(s) && CanReduce(s, r)
    ensures Undisturbed(DoReduce(s, r))
  {
    hide Sum, ValuesKept, Answered;
  }

  lemma ReduceKeepsAnswered<T(!new), U(!new), V>(s: State<T, U, V>, r: ReducerStep<V>)
    requires Inv(s) && CanReduce(s, r)
    ensures Answered(DoReduce(s, r))
  {
    hide Sum, Pooled, ItemsKept, ValuesKept;
  }

  lemma CallKeepsPooled<T(!new), U(!new), V>(s: State<T, U, V>, c: CallerStep)
    requires Inv(s) && CanCall(s, c)
    ensures Pooled(DoCall(s, c))
  {
    hide Sum, ValuesKept, Ordered, Undisturbed, Answered;
  }

  lemma CallKeepsItemsKept<T(!new), U(!new), V>(s: State<T, U, V>, c: CallerStep)
    requires Inv(s) && CanCall(s, c)
    ensures ItemsKept(DoCall(s, c))
  {
    hide Sum, Pooled, ValuesKept, Ordered, Undisturbed, Answered;
    var s' := DoCall(s, c);
    forall item ensures InOnePlace(s', item) {
      assert InOnePlace(s, item);
    }
  }

  lemma CallKeepsValuesKept<T(!new), U(!new), V>(s: State<T, U, V>, c: CallerStep)
    requires Inv(s) && CanCall(s, c)
    ensures ValuesKept(DoCall(s, c))
  {
    hide Sum, Pooled, ItemsKept, Ordered, Undisturbed, Answered;
    var s' := DoCall(s, c);
    forall v ensures Kept(s', v) {
      assert Kept(s, v);
    }
  }

  lemma CallKeepsOrdered<T(!new), U(!new), V>(s: State<T, U, V>, c: CallerStep)
    requires Inv(s) && CanCall(s, c)
    ensures Ordered(DoCall(s, c))
  {
    hide Sum, Pooled, ItemsKept, ValuesKept, Undisturbed, Answered;
  }

  lemma CallKeepsUndisturbed<T(!new), U(!new), V>(s: State<T, U, V>, c: CallerStep)
    requires Inv(s) && CanCall(s, c)
    ensures Undisturbed(DoCall(s, c))
  {
    hide Sum, ValuesKept, Answered;
  }

  lemma CallKeepsAnswered<T(!new), U(!new), V>(s: State<T, U, V>, c: CallerStep)
    requires Inv(s) && CanCall(s, c)
    ensures Answered(DoCall(s, c))
  {
    hide Sum, Pooled, ItemsKept, ValuesKept;
  }

  lemma WorldKeepsInv<T(!new), U(!new), V>(s: State<T, U, V>, w: SourceStep)
    requires Inv(s) && CanWorld(s, w)
    ensures Inv(DoWorld(s, w))
  {
    hide Pooled, ItemsKept, ValuesKept, Ordered, Undisturbed, Answered, DoWorld;
    WorldKeepsPooled(s, w);
    WorldKeepsItemsKept(s, w);
    WorldKeepsValuesKept(s, w);
    WorldKeepsOrdered(s, w);
    WorldKeepsUndisturbed(s, w);
    WorldKeepsAnswered(s, w);
  }

  lemma DispatchKeepsInv<T(!new), U(!new), V>(s: State<T, U, V>, d: DispatcherStep)
    requires Inv(s) && CanDispatch(s, d)
    ensures Inv(DoDispatch(s, d))
  {
    hide Pooled, ItemsKept, ValuesKept, Ordered, Undisturbed, Answered, DoDispatch;
    DispatchKeepsPooled(s, d);
    DispatchKeepsItemsKept(s, d);
    DispatchKeepsValuesKept(s, d);
    DispatchKeepsOrdered(s, d);
    DispatchKeepsUndisturbed(s, d);
    DispatchKeepsAnswered(s, d);
  }

  lemma MapKeepsInv<T(!new), U(!new), V>(s: State<T, U, V>, i: nat, m: MapperStep<U>)
    requires Inv(s) && CanMap(s, i, m)
    ensures Inv(DoMap(s, i, m))
  {
    hide Pooled, ItemsKept, ValuesKept, Ordered, Undisturbed, Answered, DoMap;
    MapKeepsPooled(s, i, m);
    MapKeepsItemsKept(s, i, m);
    MapKeepsValuesKept(s, i, m);
    MapKeepsOrdered(s, i, m);
    MapKeepsUndisturbed(s, i, m);
    MapKeepsAnswered(s, i, m);
  }

  lemma ReduceKeepsInv<T(!new), U(!new), V>(s: State<T, U, V>, r: ReducerStep<V>)
    requires Inv(s) && CanReduce(s, r)
    ensures Inv(DoReduce(s, r))
  {
    hide Pooled, ItemsKept, ValuesKept, Ordered, Undisturbed, Answered, DoReduce;
    ReduceKeepsPooled(s, r);
    ReduceKeepsItemsKept(s, r);
    ReduceKeepsValuesKept(s, r);
    ReduceKeepsOrdered(s, r);
    ReduceKeepsUndisturbed(s, r);
    ReduceKeepsAnswered(s, r);
  }

  lemma CallKeepsInv<T(!new), U(!new), V>(s: State<T, U, V>, c: CallerStep)
    requires Inv(s) && CanCall(s, c)
    ensures Inv(DoCall(s, c))
  {
    hide Pooled, ItemsKept, ValuesKept, Ordered, Undisturbed, Answered, DoCall;
    CallKeepsPooled(s, c);
    CallKeepsItemsKept(s, c);
    CallKeepsValuesKept(s, c);
    CallKeepsOrdered(s, c);
    CallKeepsUndisturbed(s, c);
    CallKeepsAnswered(s, c);
  }

  lemma StepKeepsInv<T(!new), U(!new), V>(s: State<T, U, V>, a: Step<U, V>)
    requires Inv(s) && Enabled(s, a)
    ensures Inv(Do(s, a))
  {
    hide Inv;
    match a
    case World(w) => WorldKeepsInv(s, w);
    case Dispatch(d) => DispatchKeepsInv(s, d);
    case Map(i, m) => MapKeepsInv(s, i, m);
    case Reduce(r) => ReduceKeepsInv(s, r);
    case Call(c) => CallKeepsInv(s, c);
  }

  ghost predicate Reaches<T(!new), U(!new), V(!new)>(s: State<T, U, V>, steps: seq<Step<U, V>>, end: State<T, U, V>)
    decreases |steps|
  {
    if steps == [] then s == end else Enabled(s, steps[0]) && Reaches(Do(s, steps[0]), steps[1..], end)
  }

  lemma {:induction false} RunKeepsInv<T(!new), U(!new), V(!new)>(
      s: State<T, U, V>, steps: seq<Step<U, V>>, end: State<T, U, V>)
    requires Inv(s) && Reaches(s, steps, end)
    ensures Inv(end) && end.workers == s.workers && end.items == s.items
    decreases |steps|
  {
    hide Inv, Do, Enabled;
    if steps != [] {
      StepKeepsInv(s, steps[0]);
      RunKeepsInv(Do(s, steps[0]), steps[1..], end);
    }
  }

  ghost predicate Reachable<T(!new), U(!new), V(!new)>(s: State<T, U, V>) {
    exists steps :: Reaches(Init<T, U, V>(s.workers, s.items), steps, s)
  }

  lemma ReachableInv<T(!new), U(!new), V(!new)>(s: State<T, U, V>)
    requires Reachable(s)
    ensures Inv(s)
  {
    var steps :| Reaches(Init<T, U, V>(s.workers, s.items), steps, s);
    RunKeepsInv(Init(s.workers, s.items), steps, s);
  }

  // What Enabled asks beside the place in the code always holds there.
  lemma GuardsHold<T(!new), U(!new), V(!new)>(s: State<T, U, V>)
    requires Reachable(s)
    ensures s.dispatcher == Spawning ==> |s.hand| == 1
    ensures s.reducer == Writing ==> |s.output| == 1
    ensures s.dispatcher == Receiving ==> s.tokens > 0
    ensures forall i :: 0 <= i < |s.mappers| && s.mappers[i].at == Releasing ==> s.tokens > 0
  {
    hide Ordered, Undisturbed, ValuesKept;
    ReachableInv(s);
    forall i | 0 <= i < |s.mappers| && s.mappers[i].at == Releasing ensures s.tokens > 0 {
      SumAtLeast(s.mappers, i, HasToken);
    }
  }

  // In every run, with cancellation, panics and the end of the context at any time: no more mappers are at
  // work than there are workers, and no item is mapped more often than it was generated.
  lemma AtMostWorkers<T(!new), U(!new), V(!new)>(s: State<T, U, V>)
    requires Reachable(s)
    ensures Sum(s.mappers, Works) <= s.workers
    ensures multiset(s.mapped) <= multiset(s.items)
  {
    hide Ordered, Undisturbed, Answered, ValuesKept;
    ReachableInv(s);
    WorkersHaveTokens(s.mappers);
    forall item ensures multiset(s.mapped)[item] <= multiset(s.items)[item] {
      assert InOnePlace(s, item);
    }
  }

  lemma {:induction false} WorkersHaveTokens<T, U>(mappers: seq<Mapper<T, U>>)
    ensures Sum(mappers, Works) <= Sum(mappers, HasToken)
  {
    if mappers != [] {
      WorkersHaveTokens(mappers[..|mappers| - 1]);
    }
  }

  // In every run: the collector is open while a mapper is about to send, so that no send panics; and the
  // reducer's goroutine still empties it, so that a full collector does not block the mapper for good.
  lemma NoSendOnClosedCollector<T(!new), U(!new), V(!new)>(s: State<T, U, V>, i: nat)
    requires Reachable(s) && i < |s.mappers| && s.mappers[i].at == Sending
    ensures !s.collectorClosed && s.reducer != Finished
  {
    hide Undisturbed, Answered, ValuesKept, ItemsKept;
    ReachableInv(s);
    OpenWhileMapping(s, i);
  }

  // The collector is closed when no mapper works, and then holds what was not yet read.
  lemma ClosedMeansAllSent<T(!new), U(!new), V(!new)>(s: State<T, U, V>, v: U)
    requires Reachable(s) && s.collectorClosed
    ensures forall i :: 0 <= i < |s.mappers| ==> !InWork(s.mappers[i].at)
    ensures Sum(s.mappers, Sends(v)) == 0
  {
    hide Ordered, Undisturbed, Answered, ValuesKept, ItemsKept;
    ReachableInv(s);
    forall i | 0 <= i < |s.mappers| ensures !InWork(s.mappers[i].at) {
      if InWork(s.mappers[i].at) {
        OpenWhileMapping(s, i);
      }
    }
    if Sum(s.mappers, Sends(v)) > 0 {
      var i := SumWitness(s.mappers, Sends(v));
    }
  }

  // In a calm run, once the collector is closed, the k-th item was mapped by the k-th mapper, and by no
  // other, and every mapper is through.
  lemma EachItemMappedOnce<T(!new), U(!new), V(!new)>(s: State<T, U, V>)
    requires Reachable(s) && Calm(s) && s.collectorClosed
    ensures |s.mappers| == |s.items|
    ensures forall k :: 0 <= k < |s.items| ==> s.mappers[k].item == s.items[k] && !InWork(s.mappers[k].at)
  {
    hide Ordered, Answered, ValuesKept;
    ReachableInv(s);
    forall i | 0 <= i < |s.mappers| ensures !InWork(s.mappers[i].at) {
      if InWork(s.mappers[i].at) {
        OpenWhileMapping(s, i);
      }
    }
  }

  // In a calm run, a reducer that reads to the close of the collector has received exactly the values that
  // the mappers wrote, and all items have been mapped by then.
  lemma ReducerReceivesAll<T(!new), U(!new), V(!new)>(s: State<T, U, V>)
    requires Reachable(s) && Calm(s) && s.sawEnd
    ensures multiset(s.read) == s.wrote && |s.mappers| == |s.items| && s.collectorClosed
  {
    hide Pooled, Answered, ItemsKept;
    ReachableInv(s);
    EachItemMappedOnce(s);
    forall v ensures multiset(s.read)[v] == s.wrote[v] {
      ClosedMeansAllSent(s, v);
      assert Kept(s, v);
    }
  }

  // In a calm run, the caller ends with the one value that the reducer wrote, without a value when it wrote
  // none, and by a panic when it wrote more.
  lemma CallerGetsTheOneValue<T(!new), U(!new), V(!new)>(s: State<T, U, V>)
    requires Reachable(s) && Calm(s) && s.caller.Returned?
    ensures s.caller.result.Value? <==> |s.asked| == 1
    ensures s.caller.result.Value? ==> s.asked == [s.caller.result.v]
    ensures s.caller.result == NoOutput <==> s.asked == []
    ensures s.caller.result == Panic <==> |s.asked| > 1
    ensures s.caller.result != Panic ==> s.collectorClosed
  {
    hide Pooled, ItemsKept, ValuesKept;
    ReachableInv(s);
  }

  // In every run: a value that is returned is the only one that the caller received from the reducer.
  lemma ValueIsTheReducers<T(!new), U(!new), V(!new)>(s: State<T, U, V>)
    requires Reachable(s) && s.caller.Returned? && s.caller.result.Value?
    ensures s.delivered == [s.caller.result.v] && s.done
  {
    hide Pooled, ItemsKept, ValuesKept;
    ReachableInv(s);
  }

  // A mapper that is not gone can take its next step when the collector is empty.
  lemma MapperMoves<T, U, V>(s: State<T, U, V>, i: nat) returns (m: MapperStep<U>)
    requires i < |s.mappers| && s.mappers[i].at != Gone && s.collector == [] && s.workers > 0 && s.tokens > 0
    ensures CanMap(s, i, m)
  {
    m := match s.mappers[i].at
         case Mapping => Return
         case Sending => Send
         case Panicked => Report
         case Ended => Done
         case _ => Release;
  }

  lemma CalmCaller<T(!new), U(!new), V(!new)>(s: State<T, U, V>)
    requires Reachable(s) && Calm(s) && !s.caller.Returned?
    ensures s.done <==> s.reducer == Finished
    ensures s.caller.Waiting? || s.caller.Returning?
  {
    hide ValuesKept, ItemsKept, Pooled;
    ReachableInv(s);
  }

  // Freedom from deadlock: in a calm run, with functions that return, something goes on until the caller has
  // returned.
  lemma CalmRunsGoOn<T(!new), U(!new), V(!new)>(s: State<T, U, V>) returns (a: Step<U, V>)
    requires Reachable(s) && Calm(s) && s.workers > 0 && !s.caller.Returned?
    ensures Enabled(s, a) && (a == World(Close) || !a.World?)
  {
    hide Inv, Reachable, Calm;
    GuardsHold(s);
    CalmCaller(s);
    match s.reducer
    case Reducing => a := Reduce(Quit);
    case Writing => a := Call(Take);
    case Finished => a := Call(if s.caller.Waiting? then SeeNone else CallerStep.Leave);
    case Discarding =>
      if s.collector != [] {
        a := Reduce(ReducerStep.Discard);
      } else if s.collectorClosed {
        a := Reduce(ReducerStep.Finish);
      } else {
        a := DispatcherGoesOn(s);
      }
  }

  // Freedom from deadlock for a reducer that reads to the close: in every run, until it has seen the close,
  // there is something to read, or the close to see, or the source, the dispatcher or a mapper can go on.
  lemma ReadersGoOn<T(!new), U(!new), V(!new)>(s: State<T, U, V>) returns (a: Step<U, V>)
    requires Reachable(s) && s.workers > 0 && s.reducer == Reducing && !s.sawEnd
    ensures Enabled(s, a)
    ensures a == World(Close) || a.Dispatch? || a.Map? || a == Reduce(Read) || a == Reduce(SeeEnd)
  {
    if s.collector != [] {
      a := Reduce(Read);
    } else if s.collectorClosed {
      a := Reduce(SeeEnd);
    } else {
      a := DispatcherGoesOn(s);
    }
  }

  // The part of the dispatcher and the mappers, when the reducer waits for the end of the collector.
  lemma DispatcherGoesOn<T(!new), U(!new), V(!new)>(s: State<T, U, V>) returns (a: Step<U, V>)
    requires Reachable(s) && s.workers > 0 && s.collector == [] && !s.collectorClosed
    ensures Enabled(s, a) && (a == World(Close) || a.Dispatch? || a.Map?)
  {
    hide ValuesKept, ItemsKept, Ordered, Undisturbed, Answered;
    GuardsHold(s);
    ReachableInv(s);
    match s.dispatcher
    case Checking => a := Dispatch(Check);
    case Spawning => a := Dispatch(Spawn);
    case Receiving =>
      a := if s.pending != [] then Dispatch(Receive) else if s.sourceClosed then Dispatch(SeeClosed) else World(Close);
    case Selecting =>
      if s.tokens < s.workers {
        a := Dispatch(TakeToken);
      } else {
        var i := SumWitness(s.mappers, HasToken);
        var m := MapperMoves(s, i);
        a := Map(i, m);
      }
    case Leaving =>
      if s.waitGroup == 0 {
        a := Dispatch(CloseCollector);
      } else {
        var i := SumWitness(s.mappers, Works);
        SumAtLeast(s.mappers, i, HasToken);
        var m := MapperMoves(s, i);
        a := Map(i, m);
      }
  }

  // A run that ends without output is one whose reducer has ended without writing; a cancelled one is not.
  lemma NoOutputMeansNoneWritten<T(!new), U(!new), V(!new)>(s: State<T, U, V>)
    requires Reachable(s) && s.caller == Returned(NoOutput)
    ensures s.reducer == Finished && s.delivered == [] && s.collectorClosed
  {
    hide Pooled, ItemsKept, ValuesKept, Undisturbed;
    ReachableInv(s);
  }

  // What the caller can still come to.
  ghost predicate CanEnd<V>(caller: CallerPlace<V>, cancelled: bool, result: Result<V>) {
    match caller
    case Waiting => cancelled ==> result.Cancelled? || result.ContextEnded? || result.Panic?
    case Cancelling => result.ContextEnded?
    case Failing => result.Panic?
    case Returning(r) => result == r || result.Panic?
    case Returned(r) => result == r
  }

  lemma WorldLeavesCaller<T, U, V>(s: State<T, U, V>, w: SourceStep)
    requires CanWorld(s, w)
    ensures DoWorld(s, w).caller == s.caller && (s.cancelled ==> DoWorld(s, w).cancelled)
  {
    match w
    case Close => case GeneratePanics => case EndContext => case Cancel => case CancelDrains => case CancelFinishes =>
  }

  lemma DispatchLeavesCaller<T, U, V>(s: State<T, U, V>, d: DispatcherStep)
    requires CanDispatch(s, d)
    ensures DoDispatch(s, d).caller == s.caller && (s.cancelled ==> DoDispatch(s, d).cancelled)
  {
    match d
    case Check => case Leave => case TakeToken => case Receive => case SeeClosed => case Spawn =>
    case CloseCollector => case Drain => case Stop =>
  }

  lemma MapLeavesCaller<T, U, V>(s: State<T, U, V>, i: nat, m: MapperStep<U>)
    requires CanMap(s, i, m)
    ensures DoMap(s, i, m).caller == s.caller && (s.cancelled ==> DoMap(s, i, m).cancelled)
  {
    match m
    case Write(u) => case Send => case Return => case Fail => case Report => case Done => case Release =>
  }

  lemma ReduceLeavesCaller<T, U, V>(s: State<T, U, V>, r: ReducerStep<V>)
    requires CanReduce(s, r)
    ensures DoReduce(s, r).caller == s.caller && (s.cancelled ==> DoReduce(s, r).cancelled)
  {
    match r
    case Read => case SeeEnd => case Output(u) => case Break => case Quit => case Crash =>
    case Discard => case Finish =>
  }

  lemma CallKeepsCourse<T, U, V>(s: State<T, U, V>, c: CallerStep, result: Result<V>)
    requires CanCall(s, c)
    ensures CanEnd(DoCall(s, c).caller, DoCall(s, c).cancelled, result) ==> CanEnd(s.caller, s.cancelled, result)
  {
    match c
    case Take => case SeeNone => case SeeContext => case SeePanic => case Leave =>
  }

  lemma StepKeepsCourse<T, U, V>(s: State<T, U, V>, a: Step<U, V>, result: Result<V>)
    requires Enabled(s, a)
    ensures CanEnd(Do(s, a).caller, Do(s, a).cancelled, result) ==> CanEnd(s.caller, s.cancelled, result)
  {
    hide DoWorld, DoDispatch, DoMap, DoReduce, DoCall, CanWorld, CanDispatch, CanMap, CanReduce, CanCall;
    match a
    case World(w) => WorldLeavesCaller(s, w);
    case Dispatch(d) => DispatchLeavesCaller(s, d);
    case Map(i, m) => MapLeavesCaller(s, i, m);
    case Reduce(r) => ReduceLeavesCaller(s, r);
    case Call(c) => CallKeepsCourse(s, c, result);
  }

  // Once the run is cancelled, a caller that has not received a value returns the cancellation, the end of the
  // context or a panic, and never a value; once the context has ended it returns that, and once it has seen
  // a panic it panics; a value it has received is returned, unless a second one comes.
  lemma {:induction false} CallerKeepsCourse<T(!new), U(!new), V(!new)>(
      s: State<T, U, V>, steps: seq<Step<U, V>>, end: State<T, U, V>)
    requires Reaches(s, steps, end) && end.caller.Returned?
    ensures CanEnd(s.caller, s.cancelled, end.caller.result)
    decreases |steps|
  {
    hide Do, Enabled;
    if steps != [] {
      CallerKeepsCourse(Do(s, steps[0]), steps[1..], end);
      StepKeepsCourse(s, steps[0], end.caller.result);
    }
  }

  // Items that are mapped, or already on their way to a mapper.
  function UnderWay<T, U, V>(s: State<T, U, V>): nat {
    |s.mapped| + One(s.dispatcher == Selecting || s.dispatcher == Receiving || s.dispatcher == Spawning)
  }

  lemma WorldAfterFailure<T, U, V>(s: State<T, U, V>, w: SourceStep)
    requires CanWorld(s, w) && s.failed
    ensures DoWorld(s, w).failed && UnderWay(DoWorld(s, w)) <= UnderWay(s)
  {
    match w
    case Close => case GeneratePanics => case EndContext => case Cancel => case CancelDrains => case CancelFinishes =>
  }

  lemma DispatchAfterFailure<T, U, V>(s: State<T, U, V>, d: DispatcherStep)
    requires CanDispatch(s, d) && s.failed
    ensures DoDispatch(s, d).failed && UnderWay(DoDispatch(s, d)) <= UnderWay(s)
  {
    match d
    case Check => case Leave => case TakeToken => case Receive => case SeeClosed => case Spawn =>
    case CloseCollector => case Drain => case Stop =>
  }

  lemma MapAfterFailure<T, U, V>(s: State<T, U, V>, i: nat, m: MapperStep<U>)
    requires CanMap(s, i, m) && s.failed
    ensures DoMap(s, i, m).failed && UnderWay(DoMap(s, i, m)) <= UnderWay(s)
  {
    match m
    case Write(u) => case Send => case Return => case Fail => case Report => case Done => case Release =>
  }

  lemma ReduceAfterFailure<T, U, V>(s: State<T, U, V>, r: ReducerStep<V>)
    requires CanReduce(s, r) && s.failed
    ensures DoReduce(s, r).failed && UnderWay(DoReduce(s, r)) <= UnderWay(s)
  {
    match r
    case Read => case SeeEnd => case Output(u) => case Break => case Quit => case Crash =>
    case Discard => case Finish =>
  }

  lemma CallAfterFailure<T, U, V>(s: State<T, U, V>, c: CallerStep)
    requires CanCall(s, c) && s.failed
    ensures DoCall(s, c).failed && UnderWay(DoCall(s, c)) <= UnderWay(s)
  {
    match c
    case Take => case SeeNone => case SeeContext => case SeePanic => case Leave =>
  }

  lemma FailedStep<T, U, V>(s: State<T, U, V>, a: Step<U, V>)
    requires Enabled(s, a) && s.failed
    ensures Do(s, a).failed && UnderWay(Do(s, a)) <= UnderWay(s)
  {
    hide DoWorld, DoDispatch, DoMap, DoReduce, DoCall, CanWorld, CanDispatch, CanMap, CanReduce, CanCall;
    match a
    case World(w) => WorldAfterFailure(s, w);
    case Dispatch(d) => DispatchAfterFailure(s, d);
    case Map(i, m) => MapAfterFailure(s, i, m);
    case Reduce(r) => ReduceAfterFailure(s, r);
    case Call(c) => CallAfterFailure(s, c);
  }

  // After a mapper has panicked at most one more item is mapped.
  lemma {:induction false} FailureStopsMapping<T(!new), U(!new), V(!new)>(
      s: State<T, U, V>, steps: seq<Step<U, V>>, end: State<T, U, V>)
    requires s.failed && Reaches(s, steps, end)
    ensures UnderWay(end) <= UnderWay(s) && |end.mapped| <= |s.mapped| + 1
    decreases |steps|
  {
    hide Do, Enabled;
    if steps != [] {
      FailedStep(s, steps[0]);
      FailureStopsMapping(Do(s, steps[0]), steps[1..], end);
    }
  }

  // No value was written in between but those that Write let go.
  ghost predicate SameAccepted<T, U, V>(s: State<T, U, V>, s': State<T, U, V>, v: U) {
    s'.wrote[v] + s.dropped[v] == s.wrote[v] + s'.dropped[v]
  }

  lemma WorldAfterEnd<T, U, V>(s: State<T, U, V>, w: SourceStep, v: U)
    requires CanWorld(s, w) && (s.ended || s.done)
    ensures (DoWorld(s, w).ended || DoWorld(s, w).done) && SameAccepted(s, DoWorld(s, w), v)
  {
    match w
    case Close => case GeneratePanics => case EndContext => case Cancel => case CancelDrains => case CancelFinishes =>
  }

  lemma DispatchAfterEnd<T, U, V>(s: State<T, U, V>, d: DispatcherStep, v: U)
    requires CanDispatch(s, d) && (s.ended || s.done)
    ensures (DoDispatch(s, d).ended || DoDispatch(s, d).done) && SameAccepted(s, DoDispatch(s, d), v)
  {
    match d
    case Check => case Leave => case TakeToken => case Receive => case SeeClosed => case Spawn =>
    case CloseCollector => case Drain => case Stop =>
  }

  lemma MapAfterEnd<T, U, V>(s: State<T, U, V>, i: nat, m: MapperStep<U>, v: U)
    requires CanMap(s, i, m) && (s.ended || s.done)
    ensures (DoMap(s, i, m).ended || DoMap(s, i, m).done) && SameAccepted(s, DoMap(s, i, m), v)
  {
    match m
    case Write(u) => case Send => case Return => case Fail => case Report => case Done => case Release =>
  }

  lemma ReduceAfterEnd<T, U, V>(s: State<T, U, V>, r: ReducerStep<V>, v: U)
    requires CanReduce(s, r) && (s.ended || s.done)
    ensures (DoReduce(s, r).ended || DoReduce(s, r).done) && SameAccepted(s, DoReduce(s, r), v)
  {
    match r
    case Read => case SeeEnd => case Output(u) => case Break => case Quit => case Crash =>
    case Discard => case Finish =>
  }

  lemma CallAfterEnd<T, U, V>(s: State<T, U, V>, c: CallerStep, v: U)
    requires CanCall(s, c) && (s.ended || s.done)
    ensures (DoCall(s, c).ended || DoCall(s, c).done) && SameAccepted(s, DoCall(s, c), v)
  {
    match c
    case Take => case SeeNone => case SeeContext => case SeePanic => case Leave =>
  }

  lemma EndedStep<T, U, V>(s: State<T, U, V>, a: Step<U, V>, v: U)
    requires Enabled(s, a) && (s.ended || s.done)
    ensures (Do(s, a).ended || Do(s, a).done) && SameAccepted(s, Do(s, a), v)
  {
    hide DoWorld, DoDispatch, DoMap, DoReduce, DoCall, CanWorld, CanDispatch, CanMap, CanReduce, CanCall, SameAccepted;
    match a
    case World(w) => WorldAfterEnd(s, w, v);
    case Dispatch(d) => DispatchAfterEnd(s, d, v);
    case Map(i, m) => MapAfterEnd(s, i, m, v);
    case Reduce(r) => ReduceAfterEnd(s, r, v);
    case Call(c) => CallAfterEnd(s, c, v);
  }

  // After the end of the context or of the run no value that a mapper writes goes to the collector any more.
  lemma {:induction false} WritesLetGoAtTheEnd<T(!new), U(!new), V(!new)>(
      s: State<T, U, V>, steps: seq<Step<U, V>>, end: State<T, U, V>, v: U)
    requires (s.ended || s.done) && Reaches(s, steps, end)
    ensures SameAccepted(s, end, v)
    decreases |steps|
  {
    hide Do, Enabled;
    if steps != [] {
      EndedStep(s, steps[0], v);
      WritesLetGoAtTheEnd(Do(s, steps[0]), steps[1..], end, v);
    }
  }

  // The end of the context or of the run has come, and the reducer is not in the middle of a write.
  predicate OutputClosing<T, U, V>(s: State<T, U, V>) {
    (s.ended || s.done) && s.reducer != Writing
  }

  lemma WorldWritesNoMore<T, U, V>(s: State<T, U, V>, w: SourceStep)
    requires CanWorld(s, w) && OutputClosing(s)
    ensures OutputClosing(DoWorld(s, w)) && DoWorld(s, w).delivered == s.delivered
  {
    match w
    case Close => case GeneratePanics => case EndContext => case Cancel => case CancelDrains => case CancelFinishes =>
  }

  lemma DispatchWritesNoMore<T, U, V>(s: State<T, U, V>, d: DispatcherStep)
    requires CanDispatch(s, d) && OutputClosing(s)
    ensures OutputClosing(DoDispatch(s, d)) && DoDispatch(s, d).delivered == s.delivered
  {
    match d
    case Check => case Leave => case TakeToken => case Receive => case SeeClosed => case Spawn =>
    case CloseCollector => case Drain => case Stop =>
  }

  lemma MapWritesNoMore<T, U, V>(s: State<T, U, V>, i: nat, m: MapperStep<U>)
    requires CanMap(s, i, m) && OutputClosing(s)
    ensures OutputClosing(DoMap(s, i, m)) && DoMap(s, i, m).delivered == s.delivered
  {
    match m
    case Write(u) => case Send => case Return => case Fail => case Report => case Done => case Release =>
  }

  lemma ReduceWritesNoMore<T, U, V>(s: State<T, U, V>, r: ReducerStep<V>)
    requires CanReduce(s, r) && OutputClosing(s)
    ensures OutputClosing(DoReduce(s, r)) && DoReduce(s, r).delivered == s.delivered
  {
    match r
    case Read => case SeeEnd => case Output(u) => case Break => case Quit => case Crash =>
    case Discard => case Finish =>
  }

  lemma CallWritesNoMore<T, U, V>(s: State<T, U, V>, c: CallerStep)
    requires CanCall(s, c) && OutputClosing(s)
    ensures OutputClosing(DoCall(s, c)) && DoCall(s, c).delivered == s.delivered
  {
    match c
    case Take => case SeeNone => case SeeContext => case SeePanic => case Leave =>
  }

  // From then on what the reducer writes is let go, too: the caller receives nothing more.
  lemma {:induction false} OutputLetGoAtTheEnd<T(!new), U(!new), V(!new)>(
      s: State<T, U, V>, steps: seq<Step<U, V>>, end: State<T, U, V>)
    requires OutputClosing(s) && Reaches(s, steps, end)
    ensures OutputClosing(end) && end.delivered == s.delivered
    decreases |steps|
  {
    hide DoWorld, DoDispatch, DoMap, DoReduce, DoCall, CanWorld, CanDispatch, CanMap, CanReduce, CanCall, OutputClosing;
    if steps != [] {
      match steps[0] {
        case World(w) => WorldWritesNoMore(s, w);
        case Dispatch(d) => DispatchWritesNoMore(s, d);
        case Map(i, m) => MapWritesNoMore(s, i, m);
        case Reduce(r) => ReduceWritesNoMore(s, r);
        case Call(c) => CallWritesNoMore(s, c);
      }
      OutputLetGoAtTheEnd(Do(s, steps[0]), steps[1..], end);
    }
  }

  // A cancelled run finishes: once the source is closed, cancel drains what is left of it and then closes done.
  lemma {:induction false} CancelFinishesRun<T(!new), U(!new), V(!new)>(s: State<T, U, V>)
    returns (steps: seq<Step<U, V>>, end: State<T, U, V>)
    requires s.cancelled && s.sourceClosed
    ensures Reaches(s, steps, end) && |steps| == |s.pending| + 1 && end.done && end.pending == []
    decreases |s.pending|
  {
    hide CanDispatch, CanMap, CanReduce, CanCall, DoDispatch, DoMap, DoReduce, DoCall;
    var a: Step<U, V> := World(if s.pending == [] then CancelFinishes else CancelDrains);
    var next := Do(s, a);
    if s.pending == [] {
      steps, end := [], next;
    } else {
      steps, end := CancelFinishesRun(next);
    }
    var rest := steps;
    steps := [a] + rest;
    assert steps[1..] == rest;
  }
}
