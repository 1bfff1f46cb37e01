// core/executors/periodicalexecutor.go as a protocol of atomic steps: adders, flushers and background
// loops around a task container, a command channel with one place, and the guarded and inflight marks.
module PeriodicalExecutor {
  import opened Counting

  // Where a goroutine stands.
  datatype Place =
    | Adding           // calls Add with the one task it holds, before the lock
    | StartingEmpty    // left the lock and has to start the background loop
    | StartingFull     // the same, with a batch to send afterwards
    | Sending          // before the send on commander
    | Confirming       // waits for confirmChan
    | Looping          // background loop, at its select
    | LoopingBusy      // the same, `commanded` since the last tick
    | Received         // took a batch, inflight still counts it
    | Counted          // before enterExecution
    | Entered          // before the send on confirmChan
    | Commanded        // executes a commanded batch
    | TickFlush        // flushes on a tick: entered, before RemoveAll
    | TickExecute      // executes what the tick's flush removed
    | Checking         // asks shallQuit
    | Quitting         // left the loop, owes its final flush
    | Flushing         // a flush by a caller: entered, before RemoveAll
    | FinalFlush       // the same for the final flush of a loop
    | Executing        // executes what such a flush removed
    | Done

  datatype Thread<T> = Thread(at: Place, got: seq<T>)

  datatype State<T> = State(
    container: seq<T>,
    commander: seq<seq<T>>,  // the buffer of the channel
    guarded: bool,
    inflight: int,
    waitGroup: int,
    threads: seq<Thread<T>>,
    added: multiset<T>,      // all tasks added so far
    executed: multiset<T>,   // all tasks handed to Execute so far
    anyKind: bool            // the container hands out a kind of batch that counts as tasks even when empty
  )

  // A step of thread i, or the start of a caller.
  datatype Step<T> =
    | CallAdd(task: T)
    | CallFlush
    | AddAndCheck(i: nat, full: bool)   // under the lock; the container says whether it wants a flush
    | BackgroundFlush(i: nat)
    | Send(i: nat)
    | Receive(i: nat)
    | Decrement(i: nat)
    | Enter(i: nat)
    | Confirm(i: nat, adder: nat)
    | Execute(i: nat)
    | Tick(i: nat)
    | RemoveAll(i: nat)
    | ShallQuit(i: nat, idle: bool)     // idle: more than idleRound intervals without work
    | EnterFinal(i: nat)

  function Init<T>(anyKind: bool): State<T> {
    State([], [], false, 0, 0, [], multiset{}, multiset{}, anyKind)
  }

  predicate At<T>(s: State<T>, i: nat, at: Place) {
    i < |s.threads| && s.threads[i].at == at
  }

  predicate Enabled<T>(s: State<T>, a: Step<T>) {
    match a
    case CallAdd(_) => true
    case CallFlush => true
    case AddAndCheck(i, _) => At(s, i, Adding)
    case BackgroundFlush(i) => (At(s, i, StartingEmpty) || At(s, i, StartingFull))
    case Send(i) => At(s, i, Sending) && s.commander == []
    case Receive(i) => (At(s, i, Looping) || At(s, i, LoopingBusy)) && |s.commander| == 1
    case Decrement(i) => At(s, i, Received)
    case Enter(i) => At(s, i, Counted)
    case Confirm(i, adder) => At(s, i, Entered) && At(s, adder, Confirming)
    case Execute(i) => (At(s, i, Commanded) || At(s, i, TickExecute) || At(s, i, Executing))
    case Tick(i) => (At(s, i, Looping) || At(s, i, LoopingBusy))
    case RemoveAll(i) => (At(s, i, TickFlush) || At(s, i, FinalFlush) || At(s, i, Flushing))
    case ShallQuit(i, _) => At(s, i, Checking)
    case EnterFinal(i) => At(s, i, Quitting)
  }

  // The thread goes on to another place, with what it then holds.
  function Go<T>(s: State<T>, i: nat, at: Place, got: seq<T>): State<T>
    requires i < |s.threads|
  {
    s.(threads := s.threads[i := Thread(at, got)])
  }

  function Start<T>(s: State<T>, at: Place, got: seq<T>): State<T> {
    s.(threads := s.threads + [Thread(at, got)])
  }

  function Do<T>(s: State<T>, a: Step<T>): State<T>
    requires Enabled(s, a)
  {
    match a
    case CallAdd(task) => Start(s, Adding, [task])
    // Flush enters the execution at once
    case CallFlush => Start(s, Flushing, []).(waitGroup := s.waitGroup + 1)
    case AddAndCheck(i, full) => DoAddAndCheck(s, i, full)
    case BackgroundFlush(i) => DoBackgroundFlush(s, i)
    case Send(i) => Go(s, i, Confirming, []).(commander := [s.threads[i].got])
    case Receive(i) => Go(s, i, Received, s.commander[0]).(commander := [])
    case Decrement(i) => Go(s, i, Counted, s.threads[i].got).(inflight := s.inflight - 1)
    case Enter(i) => Go(s, i, Entered, s.threads[i].got).(waitGroup := s.waitGroup + 1)
    // the confirmation goes to some adder that waits for one
    case Confirm(i, adder) => Go(Go(s, i, Commanded, s.threads[i].got), adder, Done, [])
    case Execute(i) => DoExecute(s, i)
    case Tick(i) => DoTick(s, i)
    case RemoveAll(i) => DoRemoveAll(s, i)
    case ShallQuit(i, idle) => DoShallQuit(s, i, idle)
    case EnterFinal(i) => Go(s, i, FinalFlush, []).(waitGroup := s.waitGroup + 1)
  }

  // addAndCheck under the lock, with its deferred part: whoever finds no guard sets it.
  function DoAddAndCheck<T>(s: State<T>, i: nat, full: bool): State<T>
    requires Enabled(s, AddAndCheck(i, full))
  {
    var task := s.threads[i].got;
    var all := s.container + task;
    if full then
      Go(s, i, if s.guarded then Sending else StartingFull, all).(
        container := [], guarded := true, inflight := s.inflight + 1, added := s.added + multiset(task))
    else
      Go(s, i, if s.guarded then Done else StartingEmpty, []).(
        container := all, guarded := true, added := s.added + multiset(task))
  }

  // The goroutine of a new background loop is started; the adder goes on.
  function DoBackgroundFlush<T>(s: State<T>, i: nat): State<T>
    requires Enabled(s, BackgroundFlush(i))
  {
    var t := s.threads[i];
    Start(if t.at == StartingFull then Go(s, i, Sending, t.got) else Go(s, i, Done, []), Looping, [])
  }

  // executeTasks: a batch is handed to Execute; a tick that found nothing goes on to ask shallQuit.
  function DoExecute<T>(s: State<T>, i: nat): State<T>
    requires Enabled(s, Execute(i))
  {
    Go(s, i, AfterExecute(s, i), []).(
      executed := s.executed + multiset(s.threads[i].got), waitGroup := s.waitGroup - 1)
  }

  function AfterExecute<T>(s: State<T>, i: nat): Place
    requires i < |s.threads|
  {
    var hasTasks := s.anyKind || |s.threads[i].got| > 0;
    match s.threads[i].at
    case Commanded => LoopingBusy
    case TickExecute => if hasTasks then Looping else Checking
    case _ => Done
  }

  // A tick after a command only forgets the command; otherwise it flushes.
  function DoTick<T>(s: State<T>, i: nat): State<T>
    requires Enabled(s, Tick(i))
  {
    if s.threads[i].at == LoopingBusy then Go(s, i, Looping, [])
    else Go(s, i, TickFlush, []).(waitGroup := s.waitGroup + 1)
  }

  function DoRemoveAll<T>(s: State<T>, i: nat): State<T>
    requires Enabled(s, RemoveAll(i))
  {
    Go(s, i, if s.threads[i].at == TickFlush then TickExecute else Executing, s.container).(container := [])
  }

  // Under the lock: an idle loop gives up the guard only when nothing is in flight.
  function DoShallQuit<T>(s: State<T>, i: nat, idle: bool): State<T>
    requires Enabled(s, ShallQuit(i, idle))
  {
    if idle && s.inflight == 0 then Go(s, i, Quitting, []).(guarded := false) else Go(s, i, Looping, [])
  }

  // What a thread counts for; of a list of threads, the totals.
  datatype Counts = Counts(
    leading: nat,      // background loops that have not decided to quit, and adders about to start one
    owing: nat,        // loops that left, and will still remove and execute what is in the container
    flying: nat,       // batches that inflight counts and that are not in the channel
    awaiting: nat,     // adders that wait for a confirmation
    unconfirmed: nat,  // loops that took a batch and have not confirmed it
    executing: nat     // executions entered and not done
  )

  function CountsOf(at: Place): Counts {
    match at
    case StartingEmpty => Counts(1, 0, 0, 0, 0, 0)
    case StartingFull => Counts(1, 0, 1, 0, 0, 0)
    case Sending => Counts(0, 0, 1, 0, 0, 0)
    case Confirming => Counts(0, 0, 0, 1, 0, 0)
    case Looping => Counts(1, 0, 0, 0, 0, 0)
    case LoopingBusy => Counts(1, 0, 0, 0, 0, 0)
    case Received => Counts(1, 0, 1, 0, 1, 0)
    case Counted => Counts(1, 0, 0, 0, 1, 0)
    case Entered => Counts(1, 0, 0, 0, 1, 1)
    case Commanded => Counts(1, 0, 0, 0, 0, 1)
    case TickFlush => Counts(1, 0, 0, 0, 0, 1)
    case TickExecute => Counts(1, 0, 0, 0, 0, 1)
    case Checking => Counts(1, 0, 0, 0, 0, 0)
    case Quitting => Counts(0, 1, 0, 0, 0, 0)
    case FinalFlush => Counts(0, 1, 0, 0, 0, 1)
    case Flushing => Counts(0, 0, 0, 0, 0, 1)
    case Executing => Counts(0, 0, 0, 0, 0, 1)
    case Adding => Counts(0, 0, 0, 0, 0, 0)
    case Done => Counts(0, 0, 0, 0, 0, 0)
  }

  // The table row by row, for proofs that hide it.
  lemma CountsTable()
    ensures CountsOf(StartingEmpty) == Counts(1, 0, 0, 0, 0, 0)
    ensures CountsOf(StartingFull) == Counts(1, 0, 1, 0, 0, 0)
    ensures CountsOf(Sending) == Counts(0, 0, 1, 0, 0, 0)
    ensures CountsOf(Confirming) == Counts(0, 0, 0, 1, 0, 0)
    ensures CountsOf(Looping) == Counts(1, 0, 0, 0, 0, 0)
    ensures CountsOf(LoopingBusy) == Counts(1, 0, 0, 0, 0, 0)
    ensures CountsOf(Received) == Counts(1, 0, 1, 0, 1, 0)
    ensures CountsOf(Counted) == Counts(1, 0, 0, 0, 1, 0)
    ensures CountsOf(Entered) == Counts(1, 0, 0, 0, 1, 1)
    ensures CountsOf(Commanded) == Counts(1, 0, 0, 0, 0, 1)
    ensures CountsOf(TickFlush) == Counts(1, 0, 0, 0, 0, 1)
    ensures CountsOf(TickExecute) == Counts(1, 0, 0, 0, 0, 1)
    ensures CountsOf(Checking) == Counts(1, 0, 0, 0, 0, 0)
    ensures CountsOf(Quitting) == Counts(0, 1, 0, 0, 0, 0)
    ensures CountsOf(FinalFlush) == Counts(0, 1, 0, 0, 0, 1)
    ensures CountsOf(Flushing) == Counts(0, 0, 0, 0, 0, 1)
    ensures CountsOf(Executing) == Counts(0, 0, 0, 0, 0, 1)
    ensures CountsOf(Adding) == Counts(0, 0, 0, 0, 0, 0)
    ensures CountsOf(Done) == Counts(0, 0, 0, 0, 0, 0)
  {
  }

  function Plus(a: Counts, b: Counts): Counts {
    Counts(a.leading + b.leading, a.owing + b.owing, a.flying + b.flying, a.awaiting + b.awaiting,
           a.unconfirmed + b.unconfirmed, a.executing + b.executing)
  }

  function Totals<T>(threads: seq<Thread<T>>): Counts {
    if threads == [] then Counts(0, 0, 0, 0, 0, 0)
    else Plus(Totals(threads[..|threads| - 1]), CountsOf(threads[|threads| - 1].at))
  }

  // One thread changes: what the others count for stays.
  lemma {:induction false} TotalsChanged<T>(threads: seq<Thread<T>>, i: nat, t: Thread<T>) returns (others: Counts)
    requires i < |threads|
    ensures Totals(threads) == Plus(others, CountsOf(threads[i].at))
    ensures Totals(threads[i := t]) == Plus(others, CountsOf(t.at))
  {
    hide CountsOf;
    var n := |threads| - 1;
    if i < n {
      assert threads[i := t][..n] == threads[..n][i := t];
      others := TotalsChanged(threads[..n], i, t);
      others := Plus(others, CountsOf(threads[n].at));
    } else {
      assert threads[i := t][..n] == threads[..n];
      others := Totals(threads[..n]);
    }
  }

  lemma TotalsStarted<T>(threads: seq<Thread<T>>, t: Thread<T>)
    ensures Totals(threads + [t]) == Plus(Totals(threads), CountsOf(t.at))
  {
    assert (threads + [t])[..|threads|] == threads;
  }

  // The threads that have a batch in their hands.
  predicate Holding(at: Place) {
    match at
    case StartingFull => true case Sending => true case Received => true case Counted => true
    case Entered => true case Commanded => true case TickExecute => true case Executing => true
    case _ => false
  }

  ghost function Copies<T>(task: T): Thread<T> -> nat {
    (t: Thread<T>) => if Holding(t.at) then multiset(t.got)[task] else 0
  }

  ghost function InBuffer<T>(commander: seq<seq<T>>): multiset<T> {
    if commander == [] then multiset{} else multiset(commander[0])
  }

  // How often a task is in the container, in a batch under way, or handed to Execute.
  ghost function Places<T>(s: State<T>, task: T): nat {
    Loose(s, task) + Sum(s.threads, Copies(task))
  }

  // The copies that no thread holds.
  ghost function Loose<T>(s: State<T>, task: T): nat {
    multiset(s.container)[task] + InBuffer(s.commander)[task] + s.executed[task]
  }

  // Nothing is lost and nothing is executed twice: every added task is in exactly one place.
  ghost predicate Conserved<T(!new)>(s: State<T>) {
    forall task :: s.added[task] == Places(s, task)
  }

  // guarded says that there is exactly one leader; without one nothing is in flight, and what is in the
  // container will be flushed by a loop that is on its way out. Confirmations and batches match, and the
  // wait group counts the executions under way.
  predicate Balanced<T>(s: State<T>, c: Counts) {
    && |s.commander| <= 1
    && c.leading == One(s.guarded)
    && s.inflight == c.flying + |s.commander|
    && (s.guarded || s.inflight == 0)
    && (s.guarded || s.container == [] || c.owing > 0)
    && c.awaiting == c.unconfirmed + |s.commander|
    && s.waitGroup == c.executing
  }

  ghost predicate Inv<T(!new)>(s: State<T>) {
    Balanced(s, Totals(s.threads)) && Conserved(s)
  }

  // What a step has to do to the marks, given what it does to one thread.
  predicate Answers<T>(s: State<T>, c: Counts, s': State<T>, d: Counts) {
    && |s'.commander| <= 1
    && d.leading - c.leading == One(s'.guarded) - One(s.guarded)
    && s'.inflight - s.inflight == d.flying - c.flying + |s'.commander| - |s.commander|
    && (s'.guarded || s'.inflight <= 0 || (!s.guarded && s'.inflight <= s.inflight))
    && (s'.guarded || s'.container == [] || d.owing > 0 || (!s.guarded && s.container != [] && c.owing == 0))
    && d.awaiting - c.awaiting == d.unconfirmed - c.unconfirmed + |s'.commander| - |s.commander|
    && s'.waitGroup - s.waitGroup == d.executing - c.executing
  }

  // What a step has to do to the places of a task, given what it does to one thread.
  ghost predicate Moves<T>(s: State<T>, t: Thread<T>, s': State<T>, t': Thread<T>, task: T) {
    s'.added[task] + Loose(s, task) + Copies(task)(t) == s.added[task] + Loose(s', task) + Copies(task)(t')
  }

  lemma GoKeepsInv<T(!new)>(s: State<T>, i: nat, t: Thread<T>, s': State<T>)
    requires Inv(s) && i < |s.threads| && s'.threads == s.threads[i := t]
    requires Answers(s, CountsOf(s.threads[i].at), s', CountsOf(t.at))
    requires forall task :: Moves(s, s.threads[i], s', t, task)
    ensures Inv(s')
  {
    hide Totals, CountsOf, Loose, Sum, Copies;
    var _ := TotalsChanged(s.threads, i, t);
    forall task ensures s'.added[task] == Places(s', task) {
      SumUpdate(s.threads, i, t, Copies(task));
      assert Moves(s, s.threads[i], s', t, task);
    }
  }

  // The same for a step that only moves two threads.
  predicate Even(c: Counts, d: Counts) {
    && c.leading == d.leading && c.owing == d.owing && c.flying == d.flying && c.executing == d.executing
    && c.awaiting + d.unconfirmed == c.unconfirmed + d.awaiting
  }

  ghost predicate Same<T>(t: Thread<T>, u: Thread<T>) {
    if Holding(t.at) then Holding(u.at) && t.got == u.got else !Holding(u.at)
  }

  lemma GoTwiceKeepsInv<T(!new)>(s: State<T>, i: nat, t: Thread<T>, j: nat, u: Thread<T>)
    requires Inv(s) && i < |s.threads| && j < |s.threads| && i != j
    requires Even(Plus(CountsOf(s.threads[i].at), CountsOf(s.threads[j].at)), Plus(CountsOf(t.at), CountsOf(u.at)))
    requires Same(s.threads[i], t) && Same(s.threads[j], u)
    ensures Inv(s.(threads := s.threads[i := t][j := u]))
  {
    hide Totals, CountsOf, Sum, Holding, InBuffer;
    var _ := TotalsChanged(s.threads, i, t);
    var _ := TotalsChanged(s.threads[i := t], j, u);
    var s' := s.(threads := s.threads[i := t][j := u]);
    assert Balanced(s', Totals(s'.threads));
    forall task ensures s'.added[task] == Places(s', task) {
      SumUpdate(s.threads, i, t, Copies(task));
      SumUpdate(s.threads[i := t], j, u, Copies(task));
      assert s.added[task] == Places(s, task);
    }
  }

  lemma StartKeepsInv<T(!new)>(s: State<T>, at: Place, got: seq<T>, s': State<T>)
    requires Inv(s) && (at == Adding || at == Flushing || at == Done)
    requires s' == Start(s, at, got).(waitGroup := s.waitGroup + One(at == Flushing))
    ensures Inv(s')
  {
    hide Totals, Sum, CountsOf;
    CountsTable();
    TotalsStarted(s.threads, Thread(at, got));
    forall task ensures s'.added[task] == Places(s', task) {
      SumAppend(s.threads, Thread(at, got), Copies(task));
    }
  }

  lemma FullAddKeepsInv<T(!new)>(s: State<T>, i: nat)
    requires Inv(s) && Enabled(s, AddAndCheck(i, true))
    ensures Inv(DoAddAndCheck(s, i, true))
  {
    hide Conserved, Sum, Totals, CountsOf;
    CountsTable();
    GoKeepsInv(s, i, Thread(if s.guarded then Sending else StartingFull, s.container + s.threads[i].got),
      DoAddAndCheck(s, i, true));
  }

  lemma AddKeepsInv<T(!new)>(s: State<T>, i: nat)
    requires Inv(s) && Enabled(s, AddAndCheck(i, false))
    ensures Inv(DoAddAndCheck(s, i, false))
  {
    hide Conserved, Sum, Totals, CountsOf;
    CountsTable();
    GoKeepsInv(s, i, Thread(if s.guarded then Done else StartingEmpty, []), DoAddAndCheck(s, i, false));
  }

  lemma BackgroundFlushKeepsInv<T(!new)>(s: State<T>, i: nat)
    requires Inv(s) && Enabled(s, BackgroundFlush(i))
    ensures Inv(DoBackgroundFlush(s, i))
  {
    hide Inv, Totals, Sum, InBuffer, CountsOf;
    CountsTable();
    var n, idle := |s.threads|, Start(s, Done, []);
    var t := if s.threads[i].at == StartingFull then Thread(Sending, s.threads[i].got) else Thread(Done, []);
    StartKeepsInv(s, Done, [], idle);
    GoTwiceKeepsInv(idle, i, t, n, Thread(Looping, []));
    assert DoBackgroundFlush(s, i) == idle.(threads := idle.threads[i := t][n := Thread(Looping, [])]);
  }

  lemma SendKeepsInv<T(!new)>(s: State<T>, i: nat)
    requires Inv(s) && Enabled(s, Send(i))
    ensures Inv(Do(s, Send(i)))
  {
    hide Conserved, Sum, Totals, CountsOf;
    CountsTable();
    GoKeepsInv(s, i, Thread(Confirming, []), Do(s, Send(i)));
  }

  lemma ReceiveKeepsInv<T(!new)>(s: State<T>, i: nat)
    requires Inv(s) && Enabled(s, Receive(i))
    ensures Inv(Do(s, Receive(i)))
  {
    hide Conserved, Sum, Totals, CountsOf;
    CountsTable();
    GoKeepsInv(s, i, Thread(Received, s.commander[0]), Do(s, Receive(i)));
  }

  lemma DecrementKeepsInv<T(!new)>(s: State<T>, i: nat)
    requires Inv(s) && Enabled(s, Decrement(i))
    ensures Inv(Do(s, Decrement(i)))
  {
    hide Conserved, Sum, Totals, CountsOf;
    CountsTable();
    GoKeepsInv(s, i, Thread(Counted, s.threads[i].got), Do(s, Decrement(i)));
  }

  lemma EnterKeepsInv<T(!new)>(s: State<T>, i: nat)
    requires Inv(s) && Enabled(s, Enter(i))
    ensures Inv(Do(s, Enter(i)))
  {
    hide Conserved, Sum, Totals, CountsOf;
    CountsTable();
    GoKeepsInv(s, i, Thread(Entered, s.threads[i].got), Do(s, Enter(i)));
  }

  lemma ConfirmKeepsInv<T(!new)>(s: State<T>, i: nat, adder: nat)
    requires Inv(s) && Enabled(s, Confirm(i, adder))
    ensures Inv(Do(s, Confirm(i, adder)))
  {
    hide Inv, Totals, Sum, InBuffer, CountsOf;
    CountsTable();
    GoTwiceKeepsInv(s, i, Thread(Commanded, s.threads[i].got), adder, Thread(Done, []));
  }

  lemma ExecuteKeepsInv<T(!new)>(s: State<T>, i: nat)
    requires Inv(s) && Enabled(s, Execute(i))
    ensures Inv(DoExecute(s, i))
  {
    hide Conserved, Sum, Totals, InBuffer, CountsOf;
    CountsTable();
    GoKeepsInv(s, i, Thread(AfterExecute(s, i), []), DoExecute(s, i));
  }

  lemma TickKeepsInv<T(!new)>(s: State<T>, i: nat)
    requires Inv(s) && Enabled(s, Tick(i))
    ensures Inv(DoTick(s, i))
  {
    hide Conserved, Sum, Totals, InBuffer, CountsOf;
    CountsTable();
    GoKeepsInv(s, i, Thread(if s.threads[i].at == LoopingBusy then Looping else TickFlush, []), DoTick(s, i));
  }

  lemma RemoveAllKeepsInv<T(!new)>(s: State<T>, i: nat)
    requires Inv(s) && Enabled(s, RemoveAll(i))
    ensures Inv(DoRemoveAll(s, i))
  {
    hide Conserved, Sum, Totals, InBuffer, CountsOf;
    CountsTable();
    GoKeepsInv(s, i, Thread(if s.threads[i].at == TickFlush then TickExecute else Executing, s.container),
      DoRemoveAll(s, i));
  }

  lemma ShallQuitKeepsInv<T(!new)>(s: State<T>, i: nat, idle: bool)
    requires Inv(s) && Enabled(s, ShallQuit(i, idle))
    ensures Inv(DoShallQuit(s, i, idle))
  {
    hide Conserved, Sum, Totals, InBuffer, CountsOf;
    CountsTable();
    var _ := TotalsChanged(s.threads, i, s.threads[i]);
    GoKeepsInv(s, i, Thread(if idle && s.inflight == 0 then Quitting else Looping, []), DoShallQuit(s, i, idle));
  }

  lemma EnterFinalKeepsInv<T(!new)>(s: State<T>, i: nat)
    requires Inv(s) && Enabled(s, EnterFinal(i))
    ensures Inv(Do(s, EnterFinal(i)))
  {
    hide Conserved, Sum, Totals, CountsOf;
    CountsTable();
    GoKeepsInv(s, i, Thread(FinalFlush, []), Do(s, EnterFinal(i)));
  }

  lemma StepKeepsInv<T(!new)>(s: State<T>, a: Step<T>)
    requires Inv(s) && Enabled(s, a)
    ensures Inv(Do(s, a))
  {
    hide Inv;
    match a
    case CallAdd(task) => StartKeepsInv(s, Adding, [task], Do(s, a));
    case CallFlush => StartKeepsInv(s, Flushing, [], Do(s, a));
    case AddAndCheck(i, full) => if full { FullAddKeepsInv(s, i); } else { AddKeepsInv(s, i); }
    case BackgroundFlush(i) => BackgroundFlushKeepsInv(s, i);
    case Send(i) => SendKeepsInv(s, i);
    case Receive(i) => ReceiveKeepsInv(s, i);
    case Decrement(i) => DecrementKeepsInv(s, i);
    case Enter(i) => EnterKeepsInv(s, i);
    case Confirm(i, adder) => ConfirmKeepsInv(s, i, adder);
    case Execute(i) => ExecuteKeepsInv(s, i);
    case Tick(i) => TickKeepsInv(s, i);
    case RemoveAll(i) => RemoveAllKeepsInv(s, i);
    case ShallQuit(i, idle) => ShallQuitKeepsInv(s, i, idle);
    case EnterFinal(i) => EnterFinalKeepsInv(s, i);
  }

  // The state at the end of a run, step after step.
  ghost predicate Reaches<T(!new)>(s: State<T>, steps: seq<Step<T>>, end: State<T>)
    decreases |steps|
  {
    if steps == [] then s == end else Enabled(s, steps[0]) && Reaches(Do(s, steps[0]), steps[1..], end)
  }

  lemma {:induction false} RunKeepsInv<T(!new)>(s: State<T>, steps: seq<Step<T>>, end: State<T>)
    requires Inv(s) && Reaches(s, steps, end)
    ensures Inv(end)
    decreases |steps|
  {
    hide Inv;
    if steps != [] {
      StepKeepsInv(s, steps[0]);
      RunKeepsInv(Do(s, steps[0]), steps[1..], end);
    }
  }

  ghost predicate Reachable<T(!new)>(s: State<T>) {
    exists steps :: Reaches(Init<T>(s.anyKind), steps, s)
  }

  lemma ReachableInv<T(!new)>(s: State<T>)
    requires Reachable(s)
    ensures Inv(s)
  {
    var steps :| Reaches(Init<T>(s.anyKind), steps, s);
    assert Inv(Init<T>(s.anyKind)) by {
      CountsTable();
      assert forall task: T :: Init<T>(s.anyKind).added[task] == 0;
    }
    RunKeepsInv(Init(s.anyKind), steps, s);
  }

  // The totals, as sums of one number a thread.
  function Leads<T>(t: Thread<T>): nat { CountsOf(t.at).leading }
  function Owes<T>(t: Thread<T>): nat { CountsOf(t.at).owing }
  function Flies<T>(t: Thread<T>): nat { CountsOf(t.at).flying }
  function Awaits<T>(t: Thread<T>): nat { CountsOf(t.at).awaiting }
  function Unconfirmed<T>(t: Thread<T>): nat { CountsOf(t.at).unconfirmed }
  function Executes<T>(t: Thread<T>): nat { CountsOf(t.at).executing }

  lemma {:induction false} TotalsAreSums<T>(threads: seq<Thread<T>>)
    ensures Totals(threads) == Counts(Sum(threads, Leads), Sum(threads, Owes), Sum(threads, Flies),
                                      Sum(threads, Awaits), Sum(threads, Unconfirmed), Sum(threads, Executes))
  {
    hide CountsOf;
    if threads != [] {
      TotalsAreSums(threads[..|threads| - 1]);
    }
  }

  // In every run, every added task is in the container, in one batch, or handed to Execute, exactly once.
  lemma EveryTaskInOnePlace<T(!new)>(s: State<T>, task: T)
    requires Reachable(s)
    ensures s.added[task] == Places(s, task)
  {
    ReachableInv(s);
  }

  // There are never two background loops in charge, and while there is one, new adders rely on it.
  lemma OneLeader<T(!new)>(s: State<T>, i: nat, j: nat)
    requires Reachable(s) && i < |s.threads| && j < |s.threads|
    requires Leads(s.threads[i]) == 1 && Leads(s.threads[j]) == 1
    ensures i == j && s.guarded
  {
    hide CountsOf, Sum, Conserved;
    ReachableInv(s);
    TotalsAreSums(s.threads);
    SumAtLeast(s.threads, i, Leads);
    if i < j {
      SumAtLeastTwo(s.threads, i, j, Leads);
    } else if j < i {
      SumAtLeastTwo(s.threads, j, i, Leads);
    }
  }

  // A batch on its way to the background loop: in the channel, or before it is taken off inflight.
  predicate InFlight<T>(s: State<T>) {
    |s.commander| > 0 || exists i :: 0 <= i < |s.threads| && Flies(s.threads[i]) == 1
  }

  // Whenever a batch is in flight, some loop that has not decided to quit, or an adder about to start
  // one, is there to take it; whatever is in the container has such a loop, or one that still owes
  // its final flush.
  lemma WorkHasAnOwner<T(!new)>(s: State<T>) returns (i: nat)
    requires Reachable(s) && (s.container != [] || InFlight(s))
    ensures i < |s.threads|
    ensures Leads(s.threads[i]) == 1 || (Owes(s.threads[i]) == 1 && !InFlight(s) && !s.guarded)
  {
    hide CountsOf, Sum, Conserved;
    ReachableInv(s);
    TotalsAreSums(s.threads);
    if !s.guarded && InFlight(s) && s.commander == [] {
      var j :| 0 <= j < |s.threads| && Flies(s.threads[j]) == 1;
      SumAtLeast(s.threads, j, Flies);
    }
    if s.guarded {
      i := SumWitness(s.threads, Leads);
      AtMostOne(s.threads[i].at);
    } else {
      i := SumWitness(s.threads, Owes);
      AtMostOne(s.threads[i].at);
    }
  }

  lemma AtMostOne(at: Place)
    ensures CountsOf(at).leading <= 1 && CountsOf(at).owing <= 1
    ensures CountsOf(at).awaiting > 0 <==> at == Confirming
  {
  }

  // The step a thread takes next, if it is a loop or an owner of one.
  function Next<T>(s: State<T>, i: nat, adder: nat): Step<T>
    requires i < |s.threads|
  {
    match s.threads[i].at
    case Received => Decrement(i)
    case Counted => Enter(i)
    case Entered => Confirm(i, adder)
    case Commanded => Execute(i)
    case TickExecute => Execute(i)
    case TickFlush => RemoveAll(i)
    case FinalFlush => RemoveAll(i)
    case Checking => ShallQuit(i, false)
    case Quitting => EnterFinal(i)
    case Looping => if s.commander == [] then Tick(i) else Receive(i)
    case LoopingBusy => if s.commander == [] then Tick(i) else Receive(i)
    case _ => BackgroundFlush(i)
  }

  // The owner of outstanding work is never stuck: whoever confirms a batch finds an adder waiting.
  lemma OwnerMoves<T(!new)>(s: State<T>, i: nat) returns (adder: nat)
    requires Reachable(s) && i < |s.threads| && (Leads(s.threads[i]) == 1 || Owes(s.threads[i]) == 1)
    ensures Enabled(s, Next(s, i, adder))
  {
    ReachableInv(s);
    adder := NextEnabled(s, i);
  }

  lemma NextEnabled<T(!new)>(s: State<T>, i: nat) returns (adder: nat)
    requires Inv(s) && i < |s.threads| && (Leads(s.threads[i]) == 1 || Owes(s.threads[i]) == 1)
    ensures Enabled(s, Next(s, i, adder))
  {
    hide Sum, Conserved;
    TotalsAreSums(s.threads);
    adder := 0;
    if s.threads[i].at == Entered {
      SumAtLeast(s.threads, i, Unconfirmed);
      adder := SumWitness(s.threads, Awaits);
      AtMostOne(s.threads[adder].at);
    }
  }

  // Steps of the owner alone: an adder that starts the loop hands its part over to the new goroutine.
  function Heir<T>(s: State<T>, i: nat): nat
    requires i < |s.threads|
  {
    match s.threads[i].at
    case StartingEmpty => |s.threads|
    case StartingFull => |s.threads|
    case _ => i
  }

  ghost predicate OwnRun<T(!new)>(s: State<T>, i: nat, steps: seq<Step<T>>, end: State<T>)
    decreases |steps|
  {
    if steps == [] then s == end
    else
      && i < |s.threads| && (exists adder :: steps[0] == Next(s, i, adder)) && Enabled(s, steps[0])
      && OwnRun(Do(s, steps[0]), Heir(s, i), steps[1..], end)
  }

  // How many steps a leader is away from its select.
  function Distance(at: Place): nat {
    match at
    case Received => 4
    case Counted => 3
    case Entered => 2
    case Commanded => 1
    case TickFlush => 3
    case TickExecute => 2
    case Looping => 0
    case LoopingBusy => 0
    case _ => 1
  }

  predicate Carries(at: Place) {
    match at
    case Received => true case Counted => true case Entered => true case Commanded => true
    case _ => false
  }

  // A loop with a batch in its hands, on the way to execute it.
  lemma CarryStep<T(!new)>(s: State<T>, i: nat) returns (a: Step<T>)
    requires Inv(s) && i < |s.threads| && Carries(s.threads[i].at)
    ensures Enabled(s, a) && (exists adder :: a == Next(s, i, adder)) && Heir(s, i) == i
    ensures var n, t := Do(s, a), s.threads[i];
            && i < |n.threads| && n.commander == s.commander && Distance(n.threads[i].at) == Distance(t.at) - 1
            && n.executed == s.executed + (if t.at == Commanded then multiset(t.got) else multiset{})
            && if t.at == Commanded then n.threads[i].at == LoopingBusy
               else Carries(n.threads[i].at) && n.threads[i].got == t.got
  {
    hide Totals, Sum, Conserved, Balanced, CountsOf, Inv;
    CarriersLead(s.threads[i].at);
    var adder := NextEnabled(s, i);
    a := Next(s, i, adder);
  }

  lemma CarriersLead(at: Place)
    requires Carries(at)
    ensures CountsOf(at).leading == 1
  {
  }

  // A leader elsewhere, on the way back to its select, with a batch in the channel.
  lemma BackStep<T(!new)>(s: State<T>, i: nat) returns (a: Step<T>)
    requires Inv(s) && i < |s.threads| && Leads(s.threads[i]) == 1 && |s.commander| == 1
    requires !Carries(s.threads[i].at) && Distance(s.threads[i].at) > 0
    ensures Enabled(s, a) && exists adder :: a == Next(s, i, adder)
    ensures var n, j := Do(s, a), Heir(s, i);
            && j < |n.threads| && n.commander == s.commander && s.executed <= n.executed
            && Distance(n.threads[j].at) < Distance(s.threads[i].at)
            && !Carries(n.threads[j].at) && Leads(n.threads[j]) == 1
  {
    hide Totals, Sum, Conserved, Balanced, CountsOf, Inv;
    CountsTable();
    LeadingPlaces(s.threads[i].at);
    var adder := NextEnabled(s, i);
    a := Next(s, i, adder);
  }

  lemma LeadingPlaces(at: Place)
    requires CountsOf(at).leading == 1
    ensures at == StartingEmpty || at == StartingFull || at == Looping || at == LoopingBusy || Carries(at)
            || at == TickFlush || at == TickExecute || at == Checking
  {
  }

  // A batch in the hands of a loop is executed after as many steps of the loop as it is away from its select.
  lemma {:induction false} CarriedIsExecuted<T(!new)>(s: State<T>, i: nat) returns (steps: seq<Step<T>>, end: State<T>)
    requires Inv(s) && i < |s.threads| && Carries(s.threads[i].at)
    ensures OwnRun(s, i, steps, end) && |steps| == Distance(s.threads[i].at) && Inv(end)
    ensures end.executed == s.executed + multiset(s.threads[i].got) && end.commander == s.commander
    ensures i < |end.threads| && end.threads[i].at == LoopingBusy
    decreases Distance(s.threads[i].at)
  {
    hide Inv, Do, Enabled, Next, Heir;
    var a := CarryStep(s, i);
    StepKeepsInv(s, a);
    if s.threads[i].at == Commanded {
      steps, end := [], Do(s, a);
    } else {
      steps, end := CarriedIsExecuted(Do(s, a), i);
    }
    steps := First(s, i, a, steps, end);
  }

  lemma First<T(!new)>(s: State<T>, i: nat, a: Step<T>, steps: seq<Step<T>>, end: State<T>) returns (all: seq<Step<T>>)
    requires i < |s.threads| && (exists adder :: a == Next(s, i, adder)) && Enabled(s, a)
    requires OwnRun(Do(s, a), Heir(s, i), steps, end)
    ensures all == [a] + steps && OwnRun(s, i, all, end)
  {
    all := [a] + steps;
    assert all[1..] == steps;
  }

  // The batch in the channel is handed to Execute within nine steps of its owner alone, wherever that stands,
  // if its select then prefers the channel to the ticker.
  lemma {:induction false} BatchIsExecuted<T(!new)>(s: State<T>, i: nat) returns (steps: seq<Step<T>>, end: State<T>)
    requires Inv(s) && i < |s.threads| && Leads(s.threads[i]) == 1 && |s.commander| == 1
    ensures OwnRun(s, i, steps, end) && |steps| <= Distance(s.threads[i].at) + 5 <= 9
    ensures s.executed + multiset(s.commander[0]) <= end.executed
    decreases Distance(s.threads[i].at)
  {
    hide Inv, Do, Enabled, Next, Heir, CountsOf;
    CountsTable();
    var a;
    if Distance(s.threads[i].at) == 0 {
      a := ReceiveStep(s, i);
      StepKeepsInv(s, a);
      steps, end := CarriedIsExecuted(Do(s, a), i);
    } else {
      if Carries(s.threads[i].at) {
        a := CarryStep(s, i);
      } else {
        a := BackStep(s, i);
      }
      StepKeepsInv(s, a);
      steps, end := BatchIsExecuted(Do(s, a), Heir(s, i));
    }
    steps := First(s, i, a, steps, end);
  }

  lemma ReceiveStep<T(!new)>(s: State<T>, i: nat) returns (a: Step<T>)
    requires Inv(s) && i < |s.threads| && Distance(s.threads[i].at) == 0 && |s.commander| == 1
    ensures Enabled(s, a) && a == Next(s, i, 0) && Heir(s, i) == i
    ensures var n := Do(s, a);
            i < |n.threads| && n.threads[i] == Thread(Received, s.commander[0]) && n.executed == s.executed
  {
    hide Inv, Totals, Sum, CountsOf;
    a := Receive(i);
  }

  // The same for every reachable state.
  lemma OwnerExecutesBatch<T(!new)>(s: State<T>, i: nat) returns (steps: seq<Step<T>>, end: State<T>)
    requires Reachable(s) && i < |s.threads| && Leads(s.threads[i]) == 1 && s.commander != []
    ensures |s.commander| == 1 && OwnRun(s, i, steps, end) && |steps| <= 9
    ensures s.executed + multiset(s.commander[0]) <= end.executed
  {
    hide Totals, CountsOf, Conserved;
    ReachableInv(s);
    steps, end := BatchIsExecuted(s, i);
  }

  // How many steps of its own a thread needs until what is now in the container has been executed, while no
  // batch is in the channel; 0 if it will not flush.
  function FlushIn(at: Place): nat {
    match at
    case Received => 8
    case Counted => 7
    case Entered => 6
    case Commanded => 5
    case TickExecute => 5
    case LoopingBusy => 4
    case Checking => 4
    case StartingEmpty => 4
    case StartingFull => 4
    case Looping => 3
    case Quitting => 3
    case TickFlush => 2
    case FinalFlush => 2
    case Flushing => 2
    case _ => 0
  }

  lemma FlushTable(at: Place)
    ensures FlushIn(at) > 0 ==>
              at == Received || at == Counted || at == Entered || at == Commanded || at == TickExecute
              || at == LoopingBusy || at == Checking || at == StartingEmpty || at == StartingFull
              || at == Looping || at == Quitting || at == TickFlush || at == FinalFlush || at == Flushing
    ensures FlushIn(Received) == 8
    ensures FlushIn(Counted) == 7
    ensures FlushIn(Entered) == 6
    ensures FlushIn(Commanded) == 5
    ensures FlushIn(TickExecute) == 5
    ensures FlushIn(LoopingBusy) == 4
    ensures FlushIn(Checking) == 4
    ensures FlushIn(StartingEmpty) == 4
    ensures FlushIn(StartingFull) == 4
    ensures FlushIn(Looping) == 3
    ensures FlushIn(Quitting) == 3
    ensures FlushIn(TickFlush) == 2
    ensures FlushIn(FinalFlush) == 2
    ensures FlushIn(Flushing) == 2
  {
  }

  // A step of thread i in such a place, whatever its ticker and its clock say.
  predicate OwnAction<T>(i: nat, a: Step<T>) {
    match a
    case BackgroundFlush(j) => j == i
    case Receive(j) => j == i
    case Decrement(j) => j == i
    case Enter(j) => j == i
    case Confirm(j, _) => j == i
    case Execute(j) => j == i
    case Tick(j) => j == i
    case RemoveAll(j) => j == i
    case ShallQuit(j, _) => j == i
    case EnterFinal(j) => j == i
    case _ => false
  }

  ghost predicate OwnSteps<T(!new)>(s: State<T>, i: nat, steps: seq<Step<T>>, end: State<T>)
    decreases |steps|
  {
    if steps == [] then s == end
    else
      && i < |s.threads| && Enabled(s, steps[0]) && OwnAction(i, steps[0])
      && OwnSteps(Do(s, steps[0]), Heir(s, i), steps[1..], end)
  }

  predicate InHands(at: Place) {
    at == TickExecute || at == Executing
  }

  // On the way to its flush the thread leaves the container as it is; ...
  ghost predicate Approaches<T>(s: State<T>, i: nat, n: State<T>, j: nat)
    requires i < |s.threads|
  {
    && j < |n.threads| && n.commander == [] && s.executed <= n.executed && n.container == s.container
    && 2 <= FlushIn(n.threads[j].at) < FlushIn(s.threads[i].at)
  }

  lemma ApproachStep<T(!new)>(s: State<T>, i: nat, a: Step<T>)
    requires i < |s.threads| && s.commander == [] && FlushIn(s.threads[i].at) > 2
    requires Enabled(s, a) && OwnAction(i, a)
    ensures Approaches(s, i, Do(s, a), Heir(s, i))
  {
    hide FlushIn, Do, Heir, Enabled, OwnAction, Approaches;
    FlushTable(s.threads[i].at);
    if Carries(s.threads[i].at) {
      CarrierApproaches(s, i, a);
    } else if s.threads[i].at == StartingEmpty || s.threads[i].at == StartingFull {
      StarterApproaches(s, i, a);
    } else if s.threads[i].at == TickExecute || s.threads[i].at == Checking {
      FlusherApproaches(s, i, a);
    } else {
      LoopApproaches(s, i, a);
    }
  }

  lemma CarrierApproaches<T(!new)>(s: State<T>, i: nat, a: Step<T>)
    requires i < |s.threads| && s.commander == [] && Carries(s.threads[i].at) && Enabled(s, a) && OwnAction(i, a)
    ensures Approaches(s, i, Do(s, a), Heir(s, i))
  {
    hide FlushIn;
    FlushTable(s.threads[i].at);
  }

  lemma StarterApproaches<T(!new)>(s: State<T>, i: nat, a: Step<T>)
    requires i < |s.threads| && s.commander == [] && Enabled(s, a) && OwnAction(i, a)
    requires s.threads[i].at == StartingEmpty || s.threads[i].at == StartingFull
    ensures Approaches(s, i, Do(s, a), Heir(s, i))
  {
    hide FlushIn;
    FlushTable(s.threads[i].at);
  }

  lemma LoopApproaches<T(!new)>(s: State<T>, i: nat, a: Step<T>)
    requires i < |s.threads| && Enabled(s, a) && OwnAction(i, a) && s.commander == []
    requires s.threads[i].at == Looping || s.threads[i].at == LoopingBusy || s.threads[i].at == Quitting
    ensures Approaches(s, i, Do(s, a), Heir(s, i))
  {
    hide FlushIn;
    FlushTable(s.threads[i].at);
  }

  lemma FlusherApproaches<T(!new)>(s: State<T>, i: nat, a: Step<T>)
    requires i < |s.threads| && Enabled(s, a) && OwnAction(i, a) && s.commander == []
    requires s.threads[i].at == TickExecute || s.threads[i].at == Checking
    ensures Approaches(s, i, Do(s, a), Heir(s, i))
  {
    hide FlushIn;
    FlushTable(s.threads[i].at);
  }

  // ... then it takes all of it ...
  lemma TakeStep<T(!new)>(s: State<T>, i: nat, a: Step<T>)
    requires i < |s.threads| && s.commander == [] && FlushIn(s.threads[i].at) == 2
    requires Enabled(s, a) && OwnAction(i, a)
    ensures var n := Do(s, a);
            && Heir(s, i) == i < |n.threads| && n.commander == [] && n.executed == s.executed
            && InHands(n.threads[i].at) && n.threads[i].got == s.container
  {
    hide FlushIn;
    FlushTable(s.threads[i].at);
  }

  lemma AtLeastTwo(at: Place)
    requires FlushIn(at) > 0
    ensures FlushIn(at) >= 2
  {
  }

  // ... and executes it.
  lemma HandStep<T(!new)>(s: State<T>, i: nat, a: Step<T>)
    requires i < |s.threads| && InHands(s.threads[i].at) && Enabled(s, a) && OwnAction(i, a)
    ensures Do(s, a).executed == s.executed + multiset(s.threads[i].got)
  {
  }

  lemma ExecutedGrows<T(!new)>(s: State<T>, a: Step<T>)
    requires Enabled(s, a)
    ensures s.executed <= Do(s, a).executed
  {
  }

  lemma {:induction false} OwnStepsGrow<T(!new)>(s: State<T>, i: nat, steps: seq<Step<T>>, end: State<T>)
    requires OwnSteps(s, i, steps, end)
    ensures s.executed <= end.executed
    decreases |steps|
  {
    hide Do, Enabled, Heir;
    if steps != [] {
      ExecutedGrows(s, steps[0]);
      OwnStepsGrow(Do(s, steps[0]), Heir(s, i), steps[1..], end);
    }
  }

  // Whatever its ticker and its clock say: after so many steps of its own, a loop, an adder that starts one,
  // a loop on its way out or a caller of Flush has executed what was in the container.
  lemma {:induction false} FlushedInTime<T(!new)>(s: State<T>, i: nat, steps: seq<Step<T>>, end: State<T>)
    requires i < |s.threads| && s.commander == [] && FlushIn(s.threads[i].at) > 0
    requires OwnSteps(s, i, steps, end) && |steps| >= FlushIn(s.threads[i].at)
    ensures s.executed + multiset(s.container) <= end.executed
    decreases |steps|
  {
    hide Do, Enabled, Heir, OwnAction, FlushIn, InHands;
    var n, j := Do(s, steps[0]), Heir(s, i);
    if FlushIn(s.threads[i].at) == 2 {
      TakeStep(s, i, steps[0]);
      var rest := steps[1..];
      HandStep(n, j, rest[0]);
      OwnStepsGrow(Do(n, rest[0]), Heir(n, j), rest[1..], end);
    } else {
      AtLeastTwo(s.threads[i].at);
      ApproachStep(s, i, steps[0]);
      FlushedInTime(n, j, steps[1..], end);
    }
  }

  // Such a thread always has a step of its own.
  lemma OwnNext<T(!new)>(s: State<T>, i: nat) returns (a: Step<T>)
    requires Inv(s) && i < |s.threads| && (FlushIn(s.threads[i].at) > 0 || InHands(s.threads[i].at))
    ensures Enabled(s, a) && OwnAction(i, a)
  {
    hide Inv, CountsOf;
    var at := s.threads[i].at;
    if at == Flushing {
      a := RemoveAll(i);
    } else if at == Executing {
      a := Execute(i);
    } else {
      FlushersLead(at);
      var adder := NextEnabled(s, i);
      a := Next(s, i, adder);
    }
  }

  lemma FlushersLead(at: Place)
    requires (FlushIn(at) > 0 || InHands(at)) && at != Flushing && at != Executing
    ensures CountsOf(at).leading == 1 || CountsOf(at).owing == 1
  {
  }

  // So in every reachable state it gets there: the periodic flush, the final flush and Flush happen.
  lemma {:induction false} FlushHappens<T(!new)>(s: State<T>, i: nat) returns (steps: seq<Step<T>>, end: State<T>)
    requires Inv(s) && i < |s.threads| && s.commander == [] && FlushIn(s.threads[i].at) > 0
    ensures OwnSteps(s, i, steps, end) && |steps| <= FlushIn(s.threads[i].at) <= 8
    ensures s.executed + multiset(s.container) <= end.executed
    decreases FlushIn(s.threads[i].at)
  {
    hide Inv, Do, Enabled, Heir, OwnAction;
    var a := OwnNext(s, i);
    StepKeepsInv(s, a);
    var n, j := Do(s, a), Heir(s, i);
    if FlushIn(s.threads[i].at) == 2 {
      TakeStep(s, i, a);
      var b := OwnNext(n, j);
      HandStep(n, j, b);
      end := Do(n, b);
      steps := OwnFirst(n, j, b, [], end);
    } else {
      AtLeastTwo(s.threads[i].at);
      ApproachStep(s, i, a);
      steps, end := FlushHappens(n, j);
    }
    steps := OwnFirst(s, i, a, steps, end);
  }

  lemma OwnFirst<T(!new)>(s: State<T>, i: nat, a: Step<T>, steps: seq<Step<T>>, end: State<T>)
    returns (all: seq<Step<T>>)
    requires i < |s.threads| && Enabled(s, a) && OwnAction(i, a) && OwnSteps(Do(s, a), Heir(s, i), steps, end)
    ensures all == [a] + steps && OwnSteps(s, i, all, end)
  {
    all := [a] + steps;
    assert all[1..] == steps;
  }

  lemma OwnerFlushes<T(!new)>(s: State<T>, i: nat) returns (steps: seq<Step<T>>, end: State<T>)
    requires Reachable(s) && i < |s.threads| && s.commander == []
    requires Leads(s.threads[i]) == 1 || s.threads[i].at == Quitting || s.threads[i].at == FinalFlush
             || s.threads[i].at == Flushing
    ensures OwnSteps(s, i, steps, end) && |steps| <= 8
    ensures s.executed + multiset(s.container) <= end.executed
  {
    hide Inv;
    ReachableInv(s);
    LeadersFlush(s.threads[i].at);
    steps, end := FlushHappens(s, i);
  }

  lemma LeadersFlush(at: Place)
    requires CountsOf(at).leading == 1 || at == Quitting || at == FinalFlush || at == Flushing
    ensures FlushIn(at) > 0
  {
  }

  // A loop on its way out takes what is in the container, executes it, and ends.
  lemma ExecutingEnds<T(!new)>(s: State<T>, i: nat) returns (steps: seq<Step<T>>, end: State<T>)
    requires At(s, i, Executing)
    ensures OwnSteps(s, i, steps, end) && At(end, i, Done)
    ensures end.container == s.container && end.guarded == s.guarded
    ensures end.executed == s.executed + multiset(s.threads[i].got) && end.waitGroup == s.waitGroup - 1
  {
    end := Do(s, Execute(i));
    steps := OwnFirst(s, i, Execute(i), [], end);
  }

  lemma FinalFlushEnds<T(!new)>(s: State<T>, i: nat) returns (steps: seq<Step<T>>, end: State<T>)
    requires At(s, i, FinalFlush)
    ensures OwnSteps(s, i, steps, end) && At(end, i, Done)
    ensures end.container == [] && end.guarded == s.guarded
    ensures end.executed == s.executed + multiset(s.container) && end.waitGroup == s.waitGroup - 1
  {
    hide OwnSteps;
    steps, end := ExecutingEnds(Do(s, RemoveAll(i)), i);
    steps := OwnFirst(s, i, RemoveAll(i), steps, end);
  }

  lemma QuitterEnds<T(!new)>(s: State<T>, i: nat) returns (steps: seq<Step<T>>, end: State<T>)
    requires At(s, i, Quitting)
    ensures OwnSteps(s, i, steps, end) && At(end, i, Done)
    ensures end.container == [] && end.guarded == s.guarded
    ensures end.executed == s.executed + multiset(s.container) && end.waitGroup == s.waitGroup
  {
    hide OwnSteps;
    steps, end := FinalFlushEnds(Do(s, EnterFinal(i)), i);
    steps := OwnFirst(s, i, EnterFinal(i), steps, end);
  }

  // A loop that has been idle for long enough, with nothing in flight, gives up the guard, so that the next
  // adder starts another, and ends; unless the container hands out a kind of batch that always counts as tasks.
  lemma IdleLoopEnds<T(!new)>(s: State<T>, i: nat) returns (steps: seq<Step<T>>, end: State<T>)
    requires At(s, i, Looping) && s.container == [] && s.inflight == 0 && !s.anyKind
    ensures OwnSteps(s, i, steps, end) && At(end, i, Done) && !end.guarded && end.container == []
    ensures end.executed == s.executed && end.waitGroup == s.waitGroup
  {
    hide OwnSteps;
    steps, end := EmptyFlushEnds(Do(s, Tick(i)), i);
    steps := OwnFirst(s, i, Tick(i), steps, end);
  }

  lemma EmptyFlushEnds<T(!new)>(s: State<T>, i: nat) returns (steps: seq<Step<T>>, end: State<T>)
    requires At(s, i, TickFlush) && s.container == [] && s.inflight == 0 && !s.anyKind
    ensures OwnSteps(s, i, steps, end) && At(end, i, Done) && !end.guarded && end.container == []
    ensures end.executed == s.executed && end.waitGroup == s.waitGroup - 1
  {
    hide OwnSteps;
    steps, end := NothingRemovedEnds(Do(s, RemoveAll(i)), i);
    steps := OwnFirst(s, i, RemoveAll(i), steps, end);
  }

  lemma NothingRemovedEnds<T(!new)>(s: State<T>, i: nat) returns (steps: seq<Step<T>>, end: State<T>)
    requires At(s, i, TickExecute) && s.threads[i].got == [] && s.container == [] && s.inflight == 0 && !s.anyKind
    ensures OwnSteps(s, i, steps, end) && At(end, i, Done) && !end.guarded && end.container == []
    ensures end.executed == s.executed && end.waitGroup == s.waitGroup - 1
  {
    hide OwnSteps;
    steps, end := CheckingEnds(Do(s, Execute(i)), i);
    steps := OwnFirst(s, i, Execute(i), steps, end);
  }

  lemma CheckingEnds<T(!new)>(s: State<T>, i: nat) returns (steps: seq<Step<T>>, end: State<T>)
    requires At(s, i, Checking) && s.container == [] && s.inflight == 0
    ensures OwnSteps(s, i, steps, end) && At(end, i, Done) && !end.guarded && end.container == []
    ensures end.executed == s.executed && end.waitGroup == s.waitGroup
  {
    hide OwnSteps;
    steps, end := QuitterEnds(Do(s, ShallQuit(i, true)), i);
    steps := OwnFirst(s, i, ShallQuit(i, true), steps, end);
  }

  // A loop that has not been idle for long enough does not give up: it stays in charge, whatever else it does.
  ghost predicate StaysInCharge<T>(s: State<T>, n: State<T>, j: nat) {
    j < |n.threads| && Leads(n.threads[j]) == 1 && n.guarded == s.guarded
  }

  lemma BusyLoopStays<T(!new)>(s: State<T>, i: nat, a: Step<T>)
    requires i < |s.threads| && Leads(s.threads[i]) == 1 && Enabled(s, a) && OwnAction(i, a)
    requires !(a.ShallQuit? && a.idle)
    ensures StaysInCharge(s, Do(s, a), Heir(s, i))
  {
    hide Do, Heir, Enabled, OwnAction, StaysInCharge;
    LeadingPlaces(s.threads[i].at);
    if Carries(s.threads[i].at) {
      CarrierStays(s, i, a);
    } else if s.threads[i].at == StartingEmpty || s.threads[i].at == StartingFull {
      StarterStays(s, i, a);
    } else if s.threads[i].at == TickExecute || s.threads[i].at == Checking {
      FlusherStays(s, i, a);
    } else {
      LoopStays(s, i, a);
    }
  }

  lemma CarrierStays<T(!new)>(s: State<T>, i: nat, a: Step<T>)
    requires i < |s.threads| && Carries(s.threads[i].at) && Enabled(s, a) && OwnAction(i, a)
    ensures StaysInCharge(s, Do(s, a), Heir(s, i))
  {
    hide CountsOf;
    CountsTable();
  }

  lemma StarterStays<T(!new)>(s: State<T>, i: nat, a: Step<T>)
    requires i < |s.threads| && Enabled(s, a) && OwnAction(i, a)
    requires s.threads[i].at == StartingEmpty || s.threads[i].at == StartingFull
    ensures StaysInCharge(s, Do(s, a), Heir(s, i))
  {
    hide CountsOf;
    CountsTable();
  }

  lemma LoopStays<T(!new)>(s: State<T>, i: nat, a: Step<T>)
    requires i < |s.threads| && Enabled(s, a) && OwnAction(i, a) && !(a.ShallQuit? && a.idle)
    requires s.threads[i].at == Looping || s.threads[i].at == LoopingBusy || s.threads[i].at == TickFlush
    ensures StaysInCharge(s, Do(s, a), Heir(s, i))
  {
    hide CountsOf;
    CountsTable();
  }

  lemma FlusherStays<T(!new)>(s: State<T>, i: nat, a: Step<T>)
    requires i < |s.threads| && Enabled(s, a) && OwnAction(i, a) && !(a.ShallQuit? && a.idle)
    requires s.threads[i].at == TickExecute || s.threads[i].at == Checking
    ensures StaysInCharge(s, Do(s, a), Heir(s, i))
  {
    hide CountsOf;
    CountsTable();
  }

  // A caller inside Add.
  predicate CallsAdd(at: Place) {
    at == Adding || at == StartingEmpty || at == StartingFull || at == Sending || at == Confirming
  }

  // What Wait relies on: once the calls of Add have returned and the wait group is down to zero, every
  // task has been handed to Execute, but for those that are still in the container.
  lemma WaitMeansExecuted<T(!new)>(s: State<T>)
    requires Reachable(s) && s.waitGroup == 0
    requires forall i :: 0 <= i < |s.threads| ==> !CallsAdd(s.threads[i].at)
    ensures s.added == s.executed + multiset(s.container)
  {
    hide Sum, CountsOf, Totals;
    ReachableInv(s);
    TotalsAreSums(s.threads);
    if Sum(s.threads, Awaits) > 0 {
      var i := SumWitness(s.threads, Awaits);
      AtMostOne(s.threads[i].at);
    }
    forall task ensures s.added[task] == (s.executed + multiset(s.container))[task] {
      assert s.added[task] == Places(s, task);
      if Sum(s.threads, Copies(task)) > 0 {
        var i := SumWitness(s.threads, Copies(task));
        SumAtLeast(s.threads, i, Unconfirmed);
        SumAtLeast(s.threads, i, Executes);
        HoldersCount(s.threads[i].at);
      }
    }
  }

  lemma HoldersCount(at: Place)
    requires Holding(at) && !CallsAdd(at)
    ensures CountsOf(at).unconfirmed > 0 || CountsOf(at).executing > 0
  {
  }

  lemma {:induction false} AllDoneTotals<T>(threads: seq<Thread<T>>)
    requires forall i :: 0 <= i < |threads| ==> threads[i].at == Done
    ensures Totals(threads) == Counts(0, 0, 0, 0, 0, 0)
  {
    hide CountsOf;
    CountsTable();
    if threads != [] {
      AllDoneTotals(threads[..|threads| - 1]);
    }
  }

  // When every caller has returned and every loop has ended, nothing was left behind.
  lemma AllExecutedAtTheEnd<T(!new)>(s: State<T>)
    requires Reachable(s) && forall i :: 0 <= i < |s.threads| ==> s.threads[i].at == Done
    ensures s.container == [] && s.added == s.executed
  {
    hide Totals, Conserved, Reachable;
    ReachableInv(s);
    AllDoneTotals(s.threads);
    WaitMeansExecuted(s);
  }
}
