// core/syncx/resourcemanager.go on top of the single flight: the function that a flight runs looks the key
// up, creates the resource if it is missing, and stores it, in three atomic steps.
module ResourceManager {
  import Flight = SingleFlight

  datatype Result<R, E> = Created(resource: R) | Failed(error: E)

  // How a call of create ends.
  datatype Answer<R, E> = Answered(result: Result<R, E>) | Panicked

  // Where the function of a maker stands; before its look-up it has no phase.
  datatype Phase<R> = Creating | Storing(resource: R)

  datatype Success<K, R> = Success(key: K, resource: R)

  datatype State<K, R, E> = State(
    flight: Flight.State<K, Result<R, E>>,
    phases: map<nat, Phase<R>>,
    resources: map<K, R>,
    created: seq<Success<K, R>>      // every successful call of create so far
  )

  datatype Step<K, R, E> =
    | Fly(a: Flight.Step<K, Result<R, E>>)
    | Look(i: nat)
    | Create(i: nat, answer: Answer<R, E>)
    | Store(i: nat)

  function Init<K, R, E>(): State<K, R, E> {
    State(Flight.Init(), map[], map[], [])
  }

  // A caller whose function runs.
  predicate Runs<K, R, E>(s: State<K, R, E>, i: nat) {
    i < |s.flight.callers| && s.flight.callers[i].Making? && s.flight.callers[i].c < |s.flight.calls|
  }

  function KeyOf<K, R, E>(s: State<K, R, E>, i: nat): K
    requires Runs(s, i)
  {
    s.flight.calls[s.flight.callers[i].c].key
  }

  predicate Enabled<K, R, E>(s: State<K, R, E>, a: Step<K, R, E>) {
    match a
    case Fly(b) => Flight.Enabled(s.flight, b) && !b.Finish?
    case Look(i) => Runs(s, i) && i !in s.phases
    case Create(i, _) => Runs(s, i) && i in s.phases && s.phases[i].Creating?
    case Store(i) => Runs(s, i) && i in s.phases && s.phases[i].Storing?
  }

  function Do<K, R, E>(s: State<K, R, E>, a: Step<K, R, E>): State<K, R, E>
    requires Enabled(s, a)
  {
    match a
    case Fly(b) => s.(flight := Flight.Do(s.flight, b))
    case Look(i) =>
      if KeyOf(s, i) in s.resources then Return(s, i, Flight.Value(Created(s.resources[KeyOf(s, i)])))
      else s.(phases := s.phases[i := Creating])
    case Create(i, answer) => DoCreate(s, i, answer)
    case Store(i) =>
      var r := s.phases[i].resource;
      Return(s.(resources := s.resources[KeyOf(s, i) := r]), i, Flight.Value(Created(r)))
  }

  function DoCreate<K, R, E>(s: State<K, R, E>, i: nat, answer: Answer<R, E>): State<K, R, E>
    requires Runs(s, i)
  {
    match answer
    case Answered(Created(r)) =>
      s.(phases := s.phases[i := Storing(r)], created := s.created + [Success(KeyOf(s, i), r)])
    case Answered(Failed(e)) => Return(s, i, Flight.Value(Failed(e)))
    case Panicked => Return(s, i, Flight.Unset)
  }

  // The function of caller i is over.
  function Return<K, R, E>(s: State<K, R, E>, i: nat, outcome: Flight.Outcome<Result<R, E>>): State<K, R, E>
    requires Runs(s, i)
  {
    s.(flight := Flight.Do(s.flight, Flight.Finish(i, outcome)), phases := s.phases - {i})
  }

  // A phase belongs to a running function, whose key has no resource yet.
  ghost predicate PhaseOk<K, R, E>(s: State<K, R, E>, i: nat) {
    Runs(s, i) && KeyOf(s, i) !in s.resources
  }

  // What was created is in the map, or about to be stored.
  ghost predicate Home<K, R, E>(s: State<K, R, E>, e: Success<K, R>) {
    || (e.key in s.resources && s.resources[e.key] == e.resource)
    || exists i :: i in s.phases && s.phases[i] == Storing(e.resource) && Runs(s, i) && KeyOf(s, i) == e.key
  }

  ghost predicate OutcomeOk<K, R, E>(s: State<K, R, E>, c: nat)
    requires c < |s.flight.calls|
  {
    var call := s.flight.calls[c];
    call.outcome.Value? && call.outcome.result.Created? ==>
      call.key in s.resources && s.resources[call.key] == call.outcome.result.resource
  }

  ghost predicate Inv<K(!new), R, E>(s: State<K, R, E>) {
    && Flight.Inv(s.flight)
    && (forall i :: i in s.phases ==> PhaseOk(s, i))
    && (forall n :: 0 <= n < |s.created| ==> Home(s, s.created[n]))
    && (forall c :: 0 <= c < |s.flight.calls| ==> OutcomeOk(s, c))
    && (forall i :: i in s.phases && s.phases[i].Storing? ==>
          PhaseOk(s, i) && Success(KeyOf(s, i), s.phases[i].resource) in s.created)
    && (forall key :: key in s.resources ==> Success(key, s.resources[key]) in s.created)
    && (forall m, n :: 0 <= m < n < |s.created| ==> s.created[m].key != s.created[n].key)
  }

  // At most one function runs for a key.
  lemma OneRuns<K(!new), R, E>(s: State<K, R, E>, i: nat, j: nat)
    requires Flight.Inv(s.flight) && Runs(s, i) && Runs(s, j) && KeyOf(s, i) == KeyOf(s, j)
    ensures i == j
  {
    assert Flight.CallerOk(s.flight, i) && Flight.CallerOk(s.flight, j);
  }

  lemma FlyKeepsInv<K(!new), R, E>(s: State<K, R, E>, b: Flight.Step<K, Result<R, E>>)
    requires Inv(s) && Enabled(s, Fly(b))
    ensures Inv(Do(s, Fly(b)))
  {
    hide Flight.Inv;
    var s' := Do(s, Fly(b));
    Flight.StepKeepsInv(s.flight, b);
    forall i | i in s.phases ensures PhaseOk(s', i) && KeyOf(s', i) == KeyOf(s, i) {
      assert PhaseOk(s, i);
    }
    forall n | 0 <= n < |s.created| ensures Home(s', s.created[n]) {
      assert Home(s, s.created[n]);
    }
    forall c | 0 <= c < |s'.flight.calls| ensures OutcomeOk(s', c) {
      assert c < |s.flight.calls| ==> OutcomeOk(s, c);
    }
  }

  lemma ReturnKeepsInv<K(!new), R, E>(s: State<K, R, E>, i: nat, outcome: Flight.Outcome<Result<R, E>>)
    requires Inv(s) && Runs(s, i)
    requires i in s.phases ==> s.phases[i].Creating?
    requires outcome.Value? && outcome.result.Created? ==>
      KeyOf(s, i) in s.resources && s.resources[KeyOf(s, i)] == outcome.result.resource
    ensures Inv(Return(s, i, outcome))
  {
    hide Flight.Inv;
    var s' := Return(s, i, outcome);
    Flight.StepKeepsInv(s.flight, Flight.Finish(i, outcome));
    forall j | j in s'.phases ensures PhaseOk(s', j) && KeyOf(s', j) == KeyOf(s, j) {
      assert PhaseOk(s, j);
    }
    forall n | 0 <= n < |s.created| ensures Home(s', s.created[n]) {
      assert Home(s, s.created[n]);
    }
    forall c | 0 <= c < |s'.flight.calls| ensures OutcomeOk(s', c) {
      assert OutcomeOk(s, c);
    }
  }

  lemma CreateKeepsInv<K(!new), R, E>(s: State<K, R, E>, i: nat, r: R)
    requires Inv(s) && Enabled(s, Create(i, Answered(Created(r))))
    ensures Inv(DoCreate(s, i, Answered(Created(r))))
  {
    hide Flight.Inv;
    var key, s' := KeyOf(s, i), DoCreate(s, i, Answered(Created(r)));
    assert PhaseOk(s, i);
    forall n | 0 <= n < |s.created| ensures Home(s', s.created[n]) && s.created[n].key != key {
      var e := s.created[n];
      assert Home(s, e);
      if e.key !in s.resources {
        var j :| j in s.phases && s.phases[j] == Storing(e.resource) && Runs(s, j) && KeyOf(s, j) == e.key;
        if e.key == key {
          OneRuns(s, i, j);
        }
        assert j in s'.phases && s'.phases[j] == Storing(e.resource) && Runs(s', j) && KeyOf(s', j) == e.key;
      }
    }
    assert i in s'.phases && s'.phases[i] == Storing(r) && Runs(s', i) && KeyOf(s', i) == key;
    forall j | j in s'.phases ensures PhaseOk(s', j) {
      assert PhaseOk(s, j);
    }
    forall c | 0 <= c < |s'.flight.calls| ensures OutcomeOk(s', c) {
      assert OutcomeOk(s, c);
    }
  }

  // Storing: the key has its resource, and no other function runs for it.
  lemma StoreKeepsInv<K(!new), R, E>(s: State<K, R, E>, i: nat)
    requires Inv(s) && Enabled(s, Store(i))
    ensures Inv(Do(s, Store(i)))
  {
    hide Flight.Inv;
    var key, r := KeyOf(s, i), s.phases[i].resource;
    var mid := s.(resources := s.resources[key := r], phases := s.phases - {i});
    forall j | j in mid.phases ensures PhaseOk(mid, j) && KeyOf(mid, j) == KeyOf(s, j) {
      assert PhaseOk(s, j);
      if KeyOf(s, j) == key {
        OneRuns(s, i, j);
      }
    }
    assert PhaseOk(s, i);
    forall n | 0 <= n < |s.created| ensures Home(mid, s.created[n]) {
      var e := s.created[n];
      assert Home(s, e);
      if e.key != key && e.key !in s.resources {
        var j :| j in s.phases && s.phases[j] == Storing(e.resource) && Runs(s, j) && KeyOf(s, j) == e.key;
        assert j in mid.phases && Runs(mid, j);
      }
    }
    forall c | 0 <= c < |s.flight.calls| ensures OutcomeOk(mid, c) {
      assert OutcomeOk(s, c);
    }
    ReturnKeepsInv(mid, i, Flight.Value(Created(r)));
    assert mid.phases - {i} == mid.phases;
    assert Do(s, Store(i)) == Return(mid, i, Flight.Value(Created(r)));
  }

  lemma MissKeepsInv<K(!new), R, E>(s: State<K, R, E>, i: nat)
    requires Inv(s) && Enabled(s, Look(i)) && KeyOf(s, i) !in s.resources
    ensures Inv(Do(s, Look(i)))
  {
    hide Flight.Inv;
    var s' := Do(s, Look(i));
    forall j | j in s'.phases ensures PhaseOk(s', j) {
      assert j != i ==> PhaseOk(s, j);
    }
    forall n | 0 <= n < |s.created| ensures Home(s', s.created[n]) {
      var e := s.created[n];
      assert Home(s, e);
      if e.key !in s.resources {
        var j :| j in s.phases && s.phases[j] == Storing(e.resource) && Runs(s, j) && KeyOf(s, j) == e.key;
        assert j in s'.phases && s'.phases[j] == Storing(e.resource) && Runs(s', j) && KeyOf(s', j) == e.key;
      }
    }
    forall c | 0 <= c < |s'.flight.calls| ensures OutcomeOk(s', c) {
      assert OutcomeOk(s, c);
    }
  }

  lemma StepKeepsInv<K(!new), R, E>(s: State<K, R, E>, a: Step<K, R, E>)
    requires Inv(s) && Enabled(s, a)
    ensures Inv(Do(s, a))
  {
    hide Flight.Inv;
    match a
    case Fly(b) => FlyKeepsInv(s, b);
    case Look(i) =>
      if KeyOf(s, i) in s.resources {
        ReturnKeepsInv(s, i, Flight.Value(Created(s.resources[KeyOf(s, i)])));
      } else {
        MissKeepsInv(s, i);
      }
    case Create(i, Answered(Created(r))) => CreateKeepsInv(s, i, r);
    case Create(i, Answered(Failed(e))) => ReturnKeepsInv(s, i, Flight.Value(Failed(e)));
    case Create(i, Panicked) => ReturnKeepsInv(s, i, Flight.Unset);
    case Store(i) => StoreKeepsInv(s, i);
  }

  ghost predicate Reaches<K(!new), R(!new), E(!new)>(s: State<K, R, E>, steps: seq<Step<K, R, E>>, end: State<K, R, E>)
    decreases |steps|
  {
    if steps == [] then s == end else Enabled(s, steps[0]) && Reaches(Do(s, steps[0]), steps[1..], end)
  }

  lemma {:induction false} RunKeepsInv<K(!new), R(!new), E(!new)>(
      s: State<K, R, E>, steps: seq<Step<K, R, E>>, end: State<K, R, E>)
    requires Inv(s) && Reaches(s, steps, end)
    ensures Inv(end)
    decreases |steps|
  {
    hide Inv;
    if steps != [] {
      StepKeepsInv(s, steps[0]);
      RunKeepsInv(Do(s, steps[0]), steps[1..], end);
    }
  }

  ghost predicate Reachable<K(!new), R(!new), E(!new)>(s: State<K, R, E>) {
    exists steps :: Reaches(Init<K, R, E>(), steps, s)
  }

  // In every run, create succeeds at most once for a key.
  lemma CreateSucceedsOnce<K(!new), R(!new), E(!new)>(s: State<K, R, E>, m: nat, n: nat)
    requires Reachable(s) && m < n < |s.created|
    ensures s.created[m].key != s.created[n].key
  {
    var steps :| Reaches(Init<K, R, E>(), steps, s);
    RunKeepsInv(Init<K, R, E>(), steps, s);
  }

  // A call of GetResource that has returned a resource for a key.
  predicate Got<K(==), R(==), E(==)>(s: State<K, R, E>, i: nat, key: K, r: R) {
    i < |s.flight.callers| && s.flight.callers[i].Returned? && s.flight.callers[i].c < |s.flight.calls|
    && s.flight.calls[s.flight.callers[i].c].key == key
    && s.flight.callers[i].outcome == Flight.Value(Created(r))
  }

  // In every run, all callers that got a resource for a key got the same one, which create returned.
  lemma AllGetTheSame<K(!new), R(!new), E(!new)>(s: State<K, R, E>, i: nat, j: nat, key: K, a: R, b: R)
    requires Reachable(s) && Got(s, i, key, a) && Got(s, j, key, b)
    ensures a == b && Success(key, a) in s.created
  {
    var steps :| Reaches(Init<K, R, E>(), steps, s);
    RunKeepsInv(Init<K, R, E>(), steps, s);
    assert Flight.CallerOk(s.flight, i) && Flight.CallerOk(s.flight, j);
    assert OutcomeOk(s, s.flight.callers[i].c) && OutcomeOk(s, s.flight.callers[j].c);
  }

  // Every step is one of the flight's, or leaves the flight alone.
  lemma {:induction false} RunIsLater<K(!new), R(!new), E(!new)>(
      s: State<K, R, E>, steps: seq<Step<K, R, E>>, end: State<K, R, E>)
    requires Inv(s) && Reaches(s, steps, end)
    ensures Flight.Later(s.flight, end.flight)
    decreases |steps|
  {
    hide Inv, Flight.Later;
    if steps == [] {
      LaterTransitive(s.flight, s.flight, s.flight);
    } else {
      var next := Do(s, steps[0]);
      StepKeepsInv(s, steps[0]);
      StepIsLater(s, steps[0]);
      RunIsLater(next, steps[1..], end);
      LaterTransitive(s.flight, next.flight, end.flight);
    }
  }

  lemma LaterTransitive<K, R>(s: Flight.State<K, R>, t: Flight.State<K, R>, u: Flight.State<K, R>)
    ensures Flight.Later(s, s)
    ensures Flight.Later(s, t) && Flight.Later(t, u) ==> Flight.Later(s, u)
  {
    if Flight.Later(s, t) && Flight.Later(t, u) {
      forall i | 0 <= i < |s.callers|
        ensures Flight.Keeps(s.callers[i], u.callers[i])
      {
        assert Flight.Keeps(s.callers[i], t.callers[i]) && Flight.Keeps(t.callers[i], u.callers[i]);
      }
      forall c | 0 <= c < |s.calls|
        ensures Flight.Records(s.calls[c], u.calls[c])
      {
        assert Flight.Records(s.calls[c], t.calls[c]) && Flight.Records(t.calls[c], u.calls[c]);
      }
    }
  }

  lemma StepIsLater<K(!new), R(!new), E(!new)>(s: State<K, R, E>, a: Step<K, R, E>)
    requires Inv(s) && Enabled(s, a)
    ensures Flight.Later(s.flight, Do(s, a).flight)
  {
    hide Flight.Later, Flight.Inv, Flight.Do;
    LaterTransitive(s.flight, s.flight, s.flight);
    match a
    case Fly(b) => Flight.StepIsLater(s.flight, b);
    case Look(i) =>
      if KeyOf(s, i) in s.resources {
        Flight.StepIsLater(s.flight, Flight.Finish(i, Flight.Value(Created(s.resources[KeyOf(s, i)]))));
      }
    case Create(i, Answered(Created(r))) =>
    case Create(i, Answered(Failed(e))) => Flight.StepIsLater(s.flight, Flight.Finish(i, Flight.Value(Failed(e))));
    case Create(i, Panicked) => Flight.StepIsLater(s.flight, Flight.Finish(i, Flight.Unset));
    case Store(i) => Flight.StepIsLater(s.flight, Flight.Finish(i, Flight.Value(Created(s.phases[i].resource))));
  }

  // The call c of caller i will have this outcome, or has it.
  ghost predicate Due<K, R, E>(s: State<K, R, E>, i: nat, c: nat, r: R) {
    c < |s.flight.calls| &&
    if s.flight.calls[c].finished then s.flight.calls[c].outcome == Flight.Value(Created(r))
    else Runs(s, i) && s.flight.callers[i].c == c && i in s.phases && s.phases[i] == Storing(r)
  }

  lemma FinishedStaysDue<K(!new), R(!new), E(!new)>(s: State<K, R, E>, a: Step<K, R, E>, i: nat, c: nat, r: R)
    requires Inv(s) && Enabled(s, a) && Due(s, i, c, r) && s.flight.calls[c].finished
    ensures Due(Do(s, a), i, c, r)
  {
    hide Inv, Do, Enabled;
    StepIsLater(s, a);
    assert Flight.Records(s.flight.calls[c], Do(s, a).flight.calls[c]);
  }

  lemma StepKeepsDue<K(!new), R(!new), E(!new)>(s: State<K, R, E>, a: Step<K, R, E>, i: nat, c: nat, r: R)
    requires Inv(s) && Enabled(s, a) && Due(s, i, c, r)
    ensures Due(Do(s, a), i, c, r)
  {
    if s.flight.calls[c].finished {
      FinishedStaysDue(s, a, i, c, r);
    } else {
      assert Flight.CallerOk(s.flight, i);
      match a
      case Fly(b) => FlyKeepsDue(s, b, i, c, r);
      case Look(j) => assert Flight.CallerOk(s.flight, j);
      case Create(j, _) => assert Flight.CallerOk(s.flight, j);
      case Store(j) => assert Flight.CallerOk(s.flight, j);
    }
  }

  lemma FlyKeepsDue<K(!new), R, E>(
      s: State<K, R, E>, b: Flight.Step<K, Result<R, E>>, i: nat, c: nat, r: R)
    requires Inv(s) && Enabled(s, Fly(b)) && Due(s, i, c, r) && !s.flight.calls[c].finished
    ensures Due(Do(s, Fly(b)), i, c, r)
  {
    assert Flight.CallerOk(s.flight, i);
    if !b.Ask? && !b.CreateCall? {
      assert Flight.CallerOk(s.flight, b.i);
    }
  }

  lemma {:induction false} RunKeepsDue<K(!new), R(!new), E(!new)>(
      s: State<K, R, E>, steps: seq<Step<K, R, E>>, end: State<K, R, E>, i: nat, c: nat, r: R)
    requires Inv(s) && Due(s, i, c, r) && Reaches(s, steps, end)
    ensures Due(end, i, c, r)
    decreases |steps|
  {
    hide Inv, Due;
    if steps != [] {
      StepKeepsInv(s, steps[0]);
      StepKeepsDue(s, steps[0], i, c, r);
      RunKeepsDue(Do(s, steps[0]), steps[1..], end, i, c, r);
    }
  }

  lemma ReachableInv<K(!new), R(!new), E(!new)>(s: State<K, R, E>)
    requires Reachable(s)
    ensures Inv(s)
  {
    var steps :| Reaches(Init<K, R, E>(), steps, s);
    RunKeepsInv(Init<K, R, E>(), steps, s);
  }

  // A caller k that returns from the call that caller i makes.
  predicate Joins<K, R, E>(s: State<K, R, E>, i: nat, end: State<K, R, E>, k: nat)
    requires Runs(s, i)
  {
    k < |end.flight.callers| && end.flight.callers[k].Returned? && end.flight.callers[k].c == s.flight.callers[i].c
  }

  // A resource that create returns is what its caller and all that joined it return.
  lemma CreatedIsReturned<K(!new), R(!new), E(!new)>(
      s: State<K, R, E>, i: nat, r: R, steps: seq<Step<K, R, E>>, end: State<K, R, E>, k: nat)
    requires Reachable(s) && Enabled(s, Create(i, Answered(Created(r))))
    requires Reaches(Do(s, Create(i, Answered(Created(r)))), steps, end) && Joins(s, i, end, k)
    ensures end.flight.callers[k].outcome == Flight.Value(Created(r))
  {
    ReachableInv(s);
    var a, c := Create(i, Answered(Created(r))), s.flight.callers[i].c;
    var next := Do(s, a);
    assert Flight.CallerOk(s.flight, i);
    StepKeepsInv(s, a);
    RunKeepsDue(next, steps, end, i, c, r);
    RunKeepsInv(next, steps, end);
    assert Flight.CallerOk(end.flight, k) && Flight.CallOk(end.flight, c);
  }

  // So is a resource that is there already, and an error of create; after a panic nothing is returned.
  lemma OutcomeIsReturned<K(!new), R(!new), E(!new)>(
      s: State<K, R, E>, i: nat, a: Step<K, R, E>, steps: seq<Step<K, R, E>>, end: State<K, R, E>, k: nat)
    requires Reachable(s) && Runs(s, i) && Enabled(s, a) && Reaches(Do(s, a), steps, end) && Joins(s, i, end, k)
    ensures a == Look(i) && KeyOf(s, i) in s.resources ==>
              end.flight.callers[k].outcome == Flight.Value(Created(s.resources[KeyOf(s, i)]))
    ensures forall e :: a == Create(i, Answered(Failed(e))) ==>
              end.flight.callers[k].outcome == Flight.Value(Failed(e))
    ensures a == Create(i, Panicked) ==> end.flight.callers[k].outcome == Flight.Unset
  {
    hide Flight.Inv, Home, PhaseOk, OutcomeOk;
    ReachableInv(s);
    var c, next := s.flight.callers[i].c, Do(s, a);
    StepKeepsInv(s, a);
    RunIsLater(next, steps, end);
    RunKeepsInv(next, steps, end);
    ReturnedOutcome(end, k);
    ReturnsAtOnce(s, i, a);
    assert next.flight.calls[c].finished ==> Flight.Records(next.flight.calls[c], end.flight.calls[c]);
  }

  lemma ReturnedOutcome<K(!new), R, E>(s: State<K, R, E>, k: nat)
    requires Inv(s) && k < |s.flight.callers| && s.flight.callers[k].Returned?
    ensures s.flight.callers[k].c < |s.flight.calls|
    ensures s.flight.callers[k].outcome == s.flight.calls[s.flight.callers[k].c].outcome
  {
    assert Flight.CallerOk(s.flight, k);
  }

  lemma ReturnsAtOnce<K, R, E>(s: State<K, R, E>, i: nat, a: Step<K, R, E>)
    requires Runs(s, i) && Enabled(s, a)
    ensures var call := Do(s, a).flight.calls[s.flight.callers[i].c];
            && (a == Look(i) && KeyOf(s, i) in s.resources ==>
                  call.finished && call.outcome == Flight.Value(Created(s.resources[KeyOf(s, i)])))
            && (a.Create? && a.i == i && a.answer.Answered? && a.answer.result.Failed? ==>
                  call.finished && call.outcome == Flight.Value(Failed(a.answer.result.error)))
            && (a == Create(i, Panicked) ==> call.finished && call.outcome == Flight.Unset)
  {
  }
}
