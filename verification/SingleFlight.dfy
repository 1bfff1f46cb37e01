// core/syncx/singleflight.go as a protocol of atomic steps: callers that ask for the same key while a
// call is registered share its result.
module SingleFlight {

  // What a call has recorded: nothing before its function returns, or when that function panics.
  datatype Outcome<R> = Unset | Value(result: R)

  // One registered call; maker is the caller that registered it.
  datatype Call<K, R> = Call(key: K, maker: nat, outcome: Outcome<R>, finished: bool, released: bool)

  datatype Caller<K, R> =
    | Asking(key: K)
    | Making(c: nat)     // runs its function
    | Made(c: nat)       // the function is over, the key still registered
    | Deleted(c: nat)    // the key is free again, the joiners still wait
    | Waiting(c: nat)    // joined the call
    | Returned(c: nat, first: bool, outcome: Outcome<R>)

  datatype State<K, R> = State(table: map<K, nat>, calls: seq<Call<K, R>>, callers: seq<Caller<K, R>>)

  datatype Step<K, R> =
    | Ask(key: K)
    | CreateCall(i: nat)                 // under the lock
    | Finish(i: nat, outcome: Outcome<R>)
    | Delete(i: nat)
    | Release(i: nat)
    | Join(i: nat)

  function Init<K, R>(): State<K, R> {
    State(map[], [], [])
  }

  predicate Enabled<K, R>(s: State<K, R>, a: Step<K, R>) {
    match a
    case Ask(_) => true
    case CreateCall(i) => i < |s.callers| && s.callers[i].Asking?
    case Finish(i, _) => i < |s.callers| && s.callers[i].Making? && s.callers[i].c < |s.calls|
    case Delete(i) => i < |s.callers| && s.callers[i].Made? && s.callers[i].c < |s.calls|
    case Release(i) => i < |s.callers| && s.callers[i].Deleted? && s.callers[i].c < |s.calls|
    case Join(i) =>
      i < |s.callers| && s.callers[i].Waiting? && s.callers[i].c < |s.calls| && s.calls[s.callers[i].c].released
  }

  function Do<K, R>(s: State<K, R>, a: Step<K, R>): State<K, R>
    requires Enabled(s, a)
  {
    match a
    case Ask(key) => s.(callers := s.callers + [Asking(key)])
    case CreateCall(i) => DoCreateCall(s, i)
    case Finish(i, outcome) =>
      var c := s.callers[i].c;
      s.(calls := s.calls[c := s.calls[c].(outcome := outcome, finished := true)],
         callers := s.callers[i := Made(c)])
    case Delete(i) =>
      var c := s.callers[i].c;
      s.(table := s.table - {s.calls[c].key}, callers := s.callers[i := Deleted(c)])
    case Release(i) =>
      var c := s.callers[i].c;
      s.(calls := s.calls[c := s.calls[c].(released := true)],
         callers := s.callers[i := Returned(c, true, s.calls[c].outcome)])
    case Join(i) =>
      var c := s.callers[i].c;
      s.(callers := s.callers[i := Returned(c, false, s.calls[c].outcome)])
  }

  function DoCreateCall<K, R>(s: State<K, R>, i: nat): State<K, R>
    requires Enabled(s, CreateCall(i))
  {
    var key := s.callers[i].key;
    if key in s.table then
      s.(callers := s.callers[i := Waiting(s.table[key])])
    else
      var c := |s.calls|;
      State(s.table[key := c], s.calls + [Call(key, i, Unset, false, false)], s.callers[i := Making(c)])
  }

  predicate Registered<K, R>(s: State<K, R>, c: nat)
    requires c < |s.calls|
  {
    s.calls[c].key in s.table && s.table[s.calls[c].key] == c
  }

  // What the place of a caller says about its call.
  ghost predicate CallerOk<K, R>(s: State<K, R>, i: nat)
    requires i < |s.callers|
  {
    var t := s.callers[i];
    t.Asking? ||
    (t.c < |s.calls| &&
     var call := s.calls[t.c];
     match t
     case Making(c) => call.maker == i && !call.finished && Registered(s, c)
     case Made(c) => call.maker == i && call.finished && Registered(s, c)
     case Deleted(c) => call.maker == i && call.finished
     case Returned(c, _, outcome) => call.released && outcome == call.outcome
     case _ => true)
  }

  // What a call says about its maker.
  ghost predicate CallOk<K, R>(s: State<K, R>, c: nat)
    requires c < |s.calls|
  {
    var call := s.calls[c];
    call.maker < |s.callers| &&
    match s.callers[call.maker]
    case Making(d) => c == d && !call.released && call.outcome == Unset
    case Made(d) => c == d && !call.released
    case Deleted(d) => c == d && !call.released
    case Returned(d, first, _) => c == d && first && call.finished && call.released
    case _ => false
  }

  ghost predicate TableOk<K, R>(s: State<K, R>, key: K)
    requires key in s.table
  {
    var c := s.table[key];
    c < |s.calls| && s.calls[c].key == key && s.calls[c].maker < |s.callers|
    && (s.callers[s.calls[c].maker] == Making(c) || s.callers[s.calls[c].maker] == Made(c))
  }

  ghost predicate Inv<K(!new), R>(s: State<K, R>) {
    && (forall i :: 0 <= i < |s.callers| ==> CallerOk(s, i))
    && (forall c :: 0 <= c < |s.calls| ==> CallOk(s, c))
    && (forall key :: key in s.table ==> TableOk(s, key))
  }

  lemma AskKeepsInv<K(!new), R>(s: State<K, R>, key: K)
    requires Inv(s) && Enabled(s, Ask(key))
    ensures Inv(Do(s, Ask(key)))
  {
    var s' := Do(s, Ask(key));
    forall j | 0 <= j < |s'.callers| ensures CallerOk(s', j) {
      if j < |s.callers| { assert CallerOk(s, j); }
    }
    forall d | 0 <= d < |s'.calls| ensures CallOk(s', d) {
      if d < |s.calls| { assert CallOk(s, d); }
    }
    forall k | k in s'.table ensures TableOk(s', k) {
      if k in s.table { assert TableOk(s, k); }
    }
  }

  lemma CreateCallKeepsInv<K(!new), R>(s: State<K, R>, i: nat)
    requires Inv(s) && Enabled(s, CreateCall(i))
    ensures Inv(Do(s, CreateCall(i)))
  {
    var s' := Do(s, CreateCall(i));
    forall j | 0 <= j < |s'.callers| ensures CallerOk(s', j) {
      if j < |s.callers| { assert CallerOk(s, j); }
    }
    forall d | 0 <= d < |s'.calls| ensures CallOk(s', d) {
      if d < |s.calls| { assert CallOk(s, d); }
    }
    forall key | key in s'.table ensures TableOk(s', key) {
      if key in s.table { assert TableOk(s, key); }
    }
  }

  lemma FinishKeepsInv<K(!new), R>(s: State<K, R>, i: nat, outcome: Outcome<R>)
    requires Inv(s) && Enabled(s, Finish(i, outcome))
    ensures Inv(Do(s, Finish(i, outcome)))
  {
    var s' := Do(s, Finish(i, outcome));
    assert CallerOk(s, i) && CallOk(s, s.callers[i].c);
    forall j | 0 <= j < |s'.callers| ensures CallerOk(s', j) {
      if j < |s.callers| { assert CallerOk(s, j); }
    }
    forall d | 0 <= d < |s'.calls| ensures CallOk(s', d) {
      if d < |s.calls| { assert CallOk(s, d); }
    }
    forall key | key in s'.table ensures TableOk(s', key) {
      if key in s.table { assert TableOk(s, key); }
    }
  }

  lemma DeleteKeepsInv<K(!new), R>(s: State<K, R>, i: nat)
    requires Inv(s) && Enabled(s, Delete(i))
    ensures Inv(Do(s, Delete(i)))
  {
    var s' := Do(s, Delete(i));
    assert CallerOk(s, i);
    forall j | 0 <= j < |s'.callers| ensures CallerOk(s', j) {
      if j < |s.callers| { assert CallerOk(s, j); }
    }
    forall d | 0 <= d < |s'.calls| ensures CallOk(s', d) {
      if d < |s.calls| { assert CallOk(s, d); }
    }
    forall key | key in s'.table ensures TableOk(s', key) {
      if key in s.table { assert TableOk(s, key); }
    }
  }

  lemma ReleaseKeepsInv<K(!new), R>(s: State<K, R>, i: nat)
    requires Inv(s) && Enabled(s, Release(i))
    ensures Inv(Do(s, Release(i)))
  {
    var s' := Do(s, Release(i));
    assert CallerOk(s, i);
    forall j | 0 <= j < |s'.callers| ensures CallerOk(s', j) {
      if j < |s.callers| { assert CallerOk(s, j); }
    }
    forall d | 0 <= d < |s'.calls| ensures CallOk(s', d) {
      if d < |s.calls| { assert CallOk(s, d); }
    }
    forall key | key in s'.table ensures TableOk(s', key) {
      if key in s.table { assert TableOk(s, key); }
    }
  }

  lemma JoinKeepsInv<K(!new), R>(s: State<K, R>, i: nat)
    requires Inv(s) && Enabled(s, Join(i))
    ensures Inv(Do(s, Join(i)))
  {
    var s' := Do(s, Join(i));
    assert CallerOk(s, i);
    forall j | 0 <= j < |s'.callers| ensures CallerOk(s', j) {
      if j < |s.callers| { assert CallerOk(s, j); }
    }
    forall d | 0 <= d < |s'.calls| ensures CallOk(s', d) {
      if d < |s.calls| { assert CallOk(s, d); }
    }
    forall key | key in s'.table ensures TableOk(s', key) {
      if key in s.table { assert TableOk(s, key); }
    }
  }

  lemma StepKeepsInv<K(!new), R>(s: State<K, R>, a: Step<K, R>)
    requires Inv(s) && Enabled(s, a)
    ensures Inv(Do(s, a))
  {
    hide Inv;
    match a
    case Ask(key) => AskKeepsInv(s, key);
    case CreateCall(i) => CreateCallKeepsInv(s, i);
    case Finish(i, outcome) => FinishKeepsInv(s, i, outcome);
    case Delete(i) => DeleteKeepsInv(s, i);
    case Release(i) => ReleaseKeepsInv(s, i);
    case Join(i) => JoinKeepsInv(s, i);
  }

  ghost predicate Reaches<K(!new), R(!new)>(s: State<K, R>, steps: seq<Step<K, R>>, end: State<K, R>)
    decreases |steps|
  {
    if steps == [] then s == end else Enabled(s, steps[0]) && Reaches(Do(s, steps[0]), steps[1..], end)
  }

  lemma {:induction false} RunKeepsInv<K(!new), R(!new)>(s: State<K, R>, steps: seq<Step<K, R>>, end: State<K, R>)
    requires Inv(s) && Reaches(s, steps, end)
    ensures Inv(end)
    decreases |steps|
  {
    hide Inv;
    if steps != [] {
      StepKeepsInv(s, steps[0]);
      RunKeepsInv(Do(s, steps[0]), steps[1..], end);
    }
  }

  ghost predicate Reachable<K(!new), R(!new)>(s: State<K, R>) {
    exists steps :: Reaches(Init<K, R>(), steps, s)
  }

  lemma ReachableInv<K(!new), R(!new)>(s: State<K, R>)
    requires Reachable(s)
    ensures Inv(s)
  {
    var steps :| Reaches(Init<K, R>(), steps, s);
    RunKeepsInv(Init<K, R>(), steps, s);
  }

  // A caller that has a call has one that was registered, as Enabled asks.
  lemma CallsExist<K(!new), R(!new)>(s: State<K, R>, i: nat)
    requires Reachable(s) && i < |s.callers|
    ensures s.callers[i].Asking? || s.callers[i].c < |s.calls|
  {
    ReachableInv(s);
    assert CallerOk(s, i);
  }

  // At most one function runs for a key.
  lemma OneRunsPerKey<K(!new), R(!new)>(s: State<K, R>, i: nat, j: nat)
    requires Reachable(s) && i < |s.callers| && j < |s.callers|
    requires s.callers[i].Making? && s.callers[j].Making?
    ensures s.callers[i].c < |s.calls| && s.callers[j].c < |s.calls|
    ensures s.calls[s.callers[i].c].key == s.calls[s.callers[j].c].key ==> i == j
  {
    ReachableInv(s);
    assert CallerOk(s, i) && CallerOk(s, j);
  }

  // Whoever waits, waits for a call whose maker can go on until it releases the joiners.
  lemma WaitersAreReleased<K(!new), R(!new)>(s: State<K, R>, i: nat, outcome: Outcome<R>)
    requires Reachable(s) && i < |s.callers| && s.callers[i].Waiting?
    ensures s.callers[i].c < |s.calls|
    ensures var maker := s.calls[s.callers[i].c].maker;
            Enabled(s, Join(i)) || Enabled(s, Finish(maker, outcome))
            || Enabled(s, Delete(maker)) || Enabled(s, Release(maker))
  {
    ReachableInv(s);
    assert CallerOk(s, i) && CallOk(s, s.callers[i].c);
  }

  // What never changes: the call a caller has, whether it is its own, and the outcome of a finished call.
  ghost predicate Later<K, R>(s: State<K, R>, s': State<K, R>) {
    && |s.callers| <= |s'.callers| && |s.calls| <= |s'.calls|
    && (forall i :: 0 <= i < |s.callers| ==> Keeps(s.callers[i], s'.callers[i]))
    && (forall c :: 0 <= c < |s.calls| ==> Records(s.calls[c], s'.calls[c]))
  }

  ghost predicate Keeps<K, R>(t: Caller<K, R>, t': Caller<K, R>) {
    t.Asking? ||
    (!t'.Asking? && t'.c == t.c && (Joined(t) <==> Joined(t')) && (t.Returned? ==> t' == t))
  }

  predicate Joined<K, R>(t: Caller<K, R>) {
    t.Waiting? || (t.Returned? && !t.first)
  }

  ghost predicate Records<K, R>(call: Call<K, R>, call': Call<K, R>) {
    call'.key == call.key && call'.maker == call.maker
    && (call.finished ==> call'.finished && call'.outcome == call.outcome)
  }

  lemma StepIsLater<K(!new), R(!new)>(s: State<K, R>, a: Step<K, R>)
    requires Inv(s) && Enabled(s, a)
    ensures Later(s, Do(s, a))
  {
    if a.Finish? || a.Delete? || a.Release? || a.Join? {
      assert CallerOk(s, a.i);
    }
  }

  lemma {:induction false} RunIsLater<K(!new), R(!new)>(s: State<K, R>, steps: seq<Step<K, R>>, end: State<K, R>)
    requires Inv(s) && Reaches(s, steps, end)
    ensures Later(s, end)
    decreases |steps|
  {
    hide Inv;
    if steps != [] {
      var next := Do(s, steps[0]);
      StepKeepsInv(s, steps[0]);
      StepIsLater(s, steps[0]);
      RunIsLater(next, steps[1..], end);
      forall i | 0 <= i < |s.callers| ensures Keeps(s.callers[i], end.callers[i]) {
        assert Keeps(s.callers[i], next.callers[i]) && Keeps(next.callers[i], end.callers[i]);
      }
      forall c | 0 <= c < |s.calls| ensures Records(s.calls[c], end.calls[c]) {
        assert Records(s.calls[c], next.calls[c]) && Records(next.calls[c], end.calls[c]);
      }
    }
  }

  // A caller that arrives while a call is registered for its key gets, whenever it returns, what that
  // call recorded, and only once its function is over. Otherwise it runs its own function, and gets what
  // that returned.
  lemma SharesTheRegisteredCall<K(!new), R(!new)>(
      s: State<K, R>, i: nat, steps: seq<Step<K, R>>, end: State<K, R>)
    requires Reachable(s) && Enabled(s, CreateCall(i)) && Reaches(Do(s, CreateCall(i)), steps, end)
    ensures i < |end.callers| && |s.calls| <= |end.calls|
    ensures var key := s.callers[i].key;
            var c := if key in s.table then s.table[key] else |s.calls|;
            && c < |end.calls| && end.calls[c].key == key
            && (key !in s.table ==> end.calls[c].maker == i)
            && (end.callers[i].Returned? ==>
                  end.callers[i] == Returned(c, key !in s.table, end.calls[c].outcome) && end.calls[c].finished)
  {
    var key := s.callers[i].key;
    ReachableInv(s);
    assert key in s.table ==> TableOk(s, key);
    var next := Do(s, CreateCall(i));
    StepKeepsInv(s, CreateCall(i));
    RunIsLater(next, steps, end);
    RunKeepsInv(next, steps, end);
    assert Keeps(next.callers[i], end.callers[i]);
    assert CallerOk(end, i);
    var c := if key in s.table then s.table[key] else |s.calls|;
    assert Records(next.calls[c], end.calls[c]);
    assert CallOk(end, c);
  }

  // What the function returns is what its caller and all that joined it return; a panic leaves them without.
  lemma EveryoneGetsTheResult<K(!new), R(!new)>(
      s: State<K, R>, i: nat, outcome: Outcome<R>, steps: seq<Step<K, R>>, end: State<K, R>, k: nat)
    requires Reachable(s) && Enabled(s, Finish(i, outcome)) && Reaches(Do(s, Finish(i, outcome)), steps, end)
    requires k < |end.callers| && end.callers[k].Returned? && end.callers[k].c == s.callers[i].c
    ensures end.callers[k].outcome == outcome
  {
    ReachableInv(s);
    var next, c := Do(s, Finish(i, outcome)), s.callers[i].c;
    StepKeepsInv(s, Finish(i, outcome));
    RunIsLater(next, steps, end);
    RunKeepsInv(next, steps, end);
    assert Records(next.calls[c], end.calls[c]);
    assert CallerOk(end, k);
  }
}
