// core/collection/cache.go: an in-memory cache over a key map, a recency list and a timing wheel whose
// timers delete the keys. Operations run one after the other; a callback that the wheel has started is
// kept in `fired` until it runs.
module Cache {
  import opened Wrappers
  import opened Sequences
  import opened TimingWheelSpec
  import opened TimingWheel

  const SLOTS := 300
  const SECOND := 1_000_000_000

  datatype Fetched<V, E> = Ok(value: V) | Err(error: E)

  // The list without a key.
  function Without(keys: seq<string>, k: string): (r: seq<string>)
    ensures k !in r && forall x :: x in r <==> x in keys && x != k
    ensures NoRepeat(keys) ==> NoRepeat(r) && |r| == |keys| - if k in keys then 1 else 0
  {
    if keys == [] then []
    else
      var rest := Without(keys[1..], k);
      assert keys == [keys[0]] + keys[1..];
      NoRepeatCons(keys, rest);
      if keys[0] == k then rest else [keys[0]] + rest
  }

  lemma NoRepeatCons(keys: seq<string>, rest: seq<string>)
    requires keys != [] && forall x :: x in rest ==> x in keys[1..]
    ensures NoRepeat(keys) ==> keys[0] !in keys[1..] && NoRepeat(keys[1..])
    ensures NoRepeat(keys) && NoRepeat(rest) ==> NoRepeat([keys[0]] + rest)
  {
    if NoRepeat(keys) && NoRepeat(rest) {
      var r := [keys[0]] + rest;
      forall i, j | 0 <= i < j < |r|
        ensures r[i] != r[j]
      {
        assert r[j] == rest[j - 1] && rest[j - 1] in keys[1..];
      }
    }
  }

  // Using a key brings it to the front.
  function Touch(keys: seq<string>, k: string): (r: seq<string>)
    ensures forall x :: x in r <==> x in keys || x == k
    ensures NoRepeat(keys) ==> NoRepeat(r) && |r| == |keys| + if k in keys then 0 else 1
  {
    [k] + Without(keys, k)
  }

  // The first `limit` keys; limit 0 stands for a cache without a limit, which keeps no list at all.
  function Truncate(keys: seq<string>, limit: nat): seq<string> {
    if |keys| <= limit then keys else keys[..limit]
  }

  // A key was used, or dropped by Del or an expiry.
  datatype Use = Used(key: string) | Dropped(key: string)

  // The recency list after a history, and the list that a bounded cache keeps.
  function Recency(history: seq<Use>): seq<string> {
    if history == [] then []
    else
      var keys, last := Recency(history[..|history| - 1]), history[|history| - 1];
      if last.Used? then Touch(keys, last.key) else Without(keys, last.key)
  }

  function Bounded(history: seq<Use>, limit: nat): seq<string> {
    if history == [] then []
    else
      var keys, last := Bounded(history[..|history| - 1], limit), history[|history| - 1];
      if last.Used? then Truncate(Touch(keys, last.key), limit) else Without(keys, last.key)
  }

  // Cutting the list before a key is taken out of it costs at most the entry that fell off the end.
  lemma {:induction false} WithoutPrefix(keys: seq<string>, k: string, n: nat)
    requires n > 0 && NoRepeat(keys)
    ensures Truncate(Without(Truncate(keys, n), k), n - 1) == Truncate(Without(keys, k), n - 1)
  {
    hide NoRepeat;
    if |keys| > n {
      var cut := Truncate(keys, n);
      assert cut[0] == keys[0] && cut[1..] == Truncate(keys[1..], n - 1);
      NoRepeatCons(keys, []);
      if keys[0] == k {
        WithoutAbsent(keys[1..], k);
        WithoutAbsent(cut[1..], k);
      } else if n > 1 {
        WithoutPrefix(keys[1..], k, n - 1);
        TruncateCons(keys[0], Without(keys[1..], k), n - 1);
        TruncateCons(keys[0], Without(cut[1..], k), n - 1);
      }
    }
  }

  lemma {:induction false} WithoutAbsent(keys: seq<string>, k: string)
    requires k !in keys
    ensures Without(keys, k) == keys
  {
    if keys != [] {
      WithoutAbsent(keys[1..], k);
    }
  }

  lemma {:induction false} WithoutKeepsPrefix(keys: seq<string>, longer: seq<string>, k: string)
    requires keys <= longer
    ensures Without(keys, k) <= Without(longer, k)
  {
    if keys != [] {
      WithoutKeepsPrefix(keys[1..], longer[1..], k);
    }
  }

  lemma {:induction false} RecencyNoRepeat(history: seq<Use>)
    ensures NoRepeat(Recency(history))
  {
    if history != [] {
      RecencyNoRepeat(history[..|history| - 1]);
    }
  }

  // When a key was last used; 0 if it was never used, or dropped since.
  function LastUse(history: seq<Use>, k: string): nat {
    if history == [] then 0
    else
      var last := history[|history| - 1];
      if last.key != k then LastUse(history[..|history| - 1], k) else if last.Used? then |history| else 0
  }

  ghost predicate ByLastUse(history: seq<Use>, keys: seq<string>) {
    forall i, j :: 0 <= i < j < |keys| ==> LastUse(history, keys[i]) > LastUse(history, keys[j])
  }

  // The recency list names exactly the keys that were used and not dropped since ...
  lemma {:induction false} RecencyNames(history: seq<Use>, k: string)
    ensures k in Recency(history) <==> LastUse(history, k) > 0
    ensures LastUse(history, k) <= |history|
  {
    if history != [] {
      RecencyNames(history[..|history| - 1], k);
    }
  }

  // ... and the one that was used last comes first.
  lemma {:induction false} RecencyIsByLastUse(history: seq<Use>)
    ensures ByLastUse(history, Recency(history))
  {
    if history != [] {
      hide LastUse, Recency;
      var h, last := history[..|history| - 1], history[|history| - 1];
      RecencyIsByLastUse(h);
      var keys := Without(Recency(h), last.key);
      WithoutIsByLastUse(h, Recency(h), last.key);
      forall k | k in keys
        ensures LastUse(history, k) == LastUse(h, k) <= |h|
      {
        RecencyNames(h, k);
        LastUseStep(history, k);
      }
      LastUseStep(history, last.key);
      assert ByLastUse(history, keys) by { assert forall i :: 0 <= i < |keys| ==> keys[i] in keys; }
      assert Recency(history) == if last.Used? then [last.key] + keys else keys by { RecencyStep(history); }
      if last.Used? {
        FirstByLastUse(history, last.key, keys);
      }
    }
  }

  lemma LastUseStep(history: seq<Use>, k: string)
    requires history != []
    ensures var last := history[|history| - 1];
            LastUse(history, k) ==
            if last.key != k then LastUse(history[..|history| - 1], k) else if last.Used? then |history| else 0
  {
  }

  lemma RecencyStep(history: seq<Use>)
    requires history != []
    ensures var last := history[|history| - 1];
            var keys := Without(Recency(history[..|history| - 1]), last.key);
            Recency(history) == if last.Used? then [last.key] + keys else keys
  {
  }

  lemma FirstByLastUse(history: seq<Use>, k: string, keys: seq<string>)
    requires ByLastUse(history, keys) && forall x :: x in keys ==> LastUse(history, k) > LastUse(history, x)
    ensures ByLastUse(history, [k] + keys)
  {
    hide LastUse;
    var r := [k] + keys;
    forall i, j | 0 <= i < j < |r|
      ensures LastUse(history, r[i]) > LastUse(history, r[j])
    {
      assert r[j] == keys[j - 1] && keys[j - 1] in keys;
      assert i > 0 ==> r[i] == keys[i - 1];
    }
  }

  // Taking a key out leaves the order of the others.
  lemma {:induction false} WithoutIsByLastUse(history: seq<Use>, keys: seq<string>, k: string)
    requires ByLastUse(history, keys)
    ensures ByLastUse(history, Without(keys, k))
  {
    hide LastUse;
    if keys != [] {
      var rest := Without(keys[1..], k);
      WithoutIsByLastUse(history, keys[1..], k);
      forall x | x in rest
        ensures LastUse(history, keys[0]) > LastUse(history, x)
      {
        assert x in keys[1..];
      }
      FirstByLastUse(history, keys[0], rest);
    }
  }

  // Whatever is used and dropped, a bounded list holds the keys that an unlimited one has in front.
  lemma {:induction false} BoundedIsPrefix(history: seq<Use>, limit: nat)
    ensures Bounded(history, limit) <= Recency(history) && |Bounded(history, limit)| <= limit
  {
    if history != [] {
      var h, k := history[..|history| - 1], history[|history| - 1].key;
      BoundedIsPrefix(h, limit);
      RecencyNoRepeat(h);
      WithoutKeepsPrefix(Bounded(h, limit), Recency(h), k);
      WithoutShortens(Bounded(h, limit), k);
    }
  }

  lemma {:induction false} WithoutShortens(keys: seq<string>, k: string)
    ensures |Without(keys, k)| <= |keys|
  {
    if keys != [] {
      WithoutShortens(keys[1..], k);
    }
  }

  // As long as nothing is dropped, evicting at every step keeps exactly the most recently used keys.
  lemma {:induction false} BoundedIsMostRecent(history: seq<Use>, limit: nat)
    requires 0 < limit && forall u :: u in history ==> u.Used?
    ensures Bounded(history, limit) == Truncate(Recency(history), limit)
  {
    if history != [] {
      var h, k := history[..|history| - 1], history[|history| - 1].key;
      BoundedIsMostRecent(h, limit);
      RecencyNoRepeat(h);
      WithoutPrefix(Recency(h), k, limit);
      TruncateCons(k, Without(Bounded(h, limit), k), limit);
      TruncateCons(k, Without(Recency(h), k), limit);
    }
  }

  lemma TruncateCons(k: string, keys: seq<string>, limit: nat)
    requires 0 < limit
    ensures Truncate([k] + keys, limit) == [k] + Truncate(keys, limit - 1)
  {
  }

  // The bounded recency list; `elements` holds the keys that have an element in the list.
  class KeyLru {
    const limit: nat
    var evicts: seq<string>
    var elements: set<string>
    ghost var history: seq<Use>

    ghost predicate Valid()
      reads this
    {
      && 0 < limit && |evicts| <= limit && NoRepeat(evicts) && evicts == Bounded(history, limit)
      && forall k :: k in elements <==> k in evicts
    }

    constructor (limit: nat)
      requires 0 < limit
      ensures Valid() && this.limit == limit && evicts == [] && history == []
    {
      this.limit, evicts, elements, history := limit, [], {}, [];
    }

    // `evicted` is the key given to the onEvict callback, if any.
    method Add(key: string) returns (evicted: Option<string>)
      requires Valid()
      modifies this
      ensures Valid() && evicts == Truncate(Touch(old(evicts), key), limit) && key in evicts
      ensures history == old(history) + [Used(key)]
      ensures evicted.None? ==> forall k :: k in evicts <==> k in old(evicts) || k == key
      ensures evicted.Some? ==> |old(evicts)| == limit && key !in old(evicts) && evicted.value == old(evicts)[limit - 1]
      ensures evicted.Some? ==> forall k :: k in evicts <==> (k in old(evicts) || k == key) && k != evicted.value
    {
      hide Bounded, Without;
      BoundedStep(history, Used(key), limit);
      history := history + [Used(key)];
      if key in elements {
        evicts := [key] + Without(evicts, key);
        return None;
      }
      WithoutAbsent(evicts, key);
      evicts := [key] + evicts;
      elements := elements + {key};
      if |evicts| > limit {
        var oldest := evicts[|evicts| - 1];
        CutLast(evicts, limit);
        evicts := evicts[..limit];
        elements := elements - {oldest};
        assert key == evicts[0];
        return Some(oldest);
      }
      return None;
    }

    method Remove(key: string) returns (evicted: Option<string>)
      requires Valid()
      modifies this
      ensures Valid() && evicts == Without(old(evicts), key) && history == old(history) + [Dropped(key)]
      ensures evicted == if key in old(evicts) then Some(key) else None
    {
      hide Bounded, Without;
      BoundedStep(history, Dropped(key), limit);
      history := history + [Dropped(key)];
      if key in elements {
        evicts := Without(evicts, key);
        elements := elements - {key};
        return Some(key);
      }
      WithoutAbsent(evicts, key);
      return None;
    }
  }

  lemma CutLast(keys: seq<string>, n: nat)
    requires NoRepeat(keys) && |keys| == n + 1
    ensures NoRepeat(keys[..n]) && forall k :: k in keys[..n] <==> k in keys && k != keys[n]
  {
    assert keys == keys[..n] + [keys[n]];
    assert forall i :: 0 <= i < n ==> keys[i] != keys[n];
  }

  lemma BoundedStep(history: seq<Use>, u: Use, limit: nat)
    ensures Bounded(history + [u], limit) ==
            if u.Used? then Truncate(Touch(Bounded(history, limit), u.key), limit)
            else Without(Bounded(history, limit), u.key)
  {
    assert (history + [u])[..|history|] == history;
  }

  // The keys of the map, of the recency list (if there is one) and of the timers agree: every cached
  // key has a timer, or a started expiry that still has to run, unless the wheel refused its expiry.
  ghost predicate Agree(keys: set<string>, list: Option<seq<string>>, timed: set<string>, started: multiset<string>,
                        untimed: set<string>)
  {
    && (list.Some? ==> forall k :: k in keys <==> k in list.value)
    && timed <= keys && untimed <= keys
    && forall k :: k in keys ==> k in timed || k in started || k in untimed
  }

  function Gone(evicted: Option<string>): set<string> {
    if evicted.Some? then {evicted.value} else {}
  }

  lemma AgreeDropped(keys: set<string>, list: Option<seq<string>>, timed: set<string>, started: multiset<string>,
                     untimed: set<string>, k: string)
    requires Agree(keys, list, timed, started, untimed)
    ensures Agree(keys - {k}, if list.Some? then Some(Without(list.value, k)) else None,
                  timed - {k}, started, untimed - {k})
  {
  }

  lemma AgreeTimed(keys: set<string>, list: Option<seq<string>>, timed: set<string>, started: multiset<string>,
                   untimed: set<string>, k: string)
    requires Agree(keys, list, timed, started, untimed) && k in timed
    ensures k in keys
  {
  }

  lemma AgreeSet(keys: set<string>, list: Option<seq<string>>, timed: set<string>, started: multiset<string>,
                 untimed: set<string>, k: string, evicted: Option<string>, list': Option<seq<string>>,
                 started': multiset<string>, accepted: bool)
    requires Agree(keys, list, timed, started, untimed) && started <= started' && evicted != Some(k)
    requires list'.Some? ==> forall x :: x in keys + {k} - Gone(evicted) <==> x in list'.value
    ensures Agree(keys + {k} - Gone(evicted), list',
                  timed - Gone(evicted) + (if k !in keys && accepted then {k} else {}),
                  started', untimed - Gone(evicted) + if k !in keys && !accepted then {k} else {})
  {
  }

  // What setting a key does to the wheel: the evicted key's timer goes, the key's own is set, or moved
  // if the key was cached.
  ghost function Rescheduled<V>(w: Wheel<string, V>, key: string, value: V, expiry: int, cached: bool,
                                evicted: Option<string>): Wheel<string, V>
    requires TimingWheelSpec.Valid(w)
  {
    var base := w.(timers := w.timers - Gone(evicted));
    if expiry <= 0 then base
    else Step(base, SECOND, if cached then Op.Move(key, expiry) else Op.Set(key, value, expiry))
  }

  lemma RescheduledAfter<V>(w: Wheel<string, V>, key: string, value: V, expiry: int,
                           cached: bool, evicted: Option<string>)
    requires TimingWheelSpec.Valid(w)
    ensures var mid := w.(timers := w.timers - Gone(evicted));
            && TimingWheelSpec.Valid(mid)
            && Rescheduled(mid, key, value, expiry, cached, None) == Rescheduled(w, key, value, expiry, cached, evicted)
  {
    var mid := w.(timers := w.timers - Gone(evicted));
    assert mid.timers - {} == mid.timers;
  }

  // The ticks that a moved timer waits: as asked, or a full turn more or fewer.
  function MovedWait(n: nat, hand: nat, slot: nat, steps: nat): int
    requires 0 < n && 0 < steps
  {
    if MovesLate(n, hand, slot, steps) then steps + n
    else if MovesEarly(n, hand, slot, steps) then steps - n
    else steps
  }

  // What setting a key means for the timers: a new key waits its expiry, unless it is refused; one that is
  // cached with a timer waits it anew, if it is at least a second, and otherwise keeps its timer; the timer
  // of the evicted key goes, and all others stay.
  ghost predicate TimersSet<V>(w: Wheel<string, V>, w': Wheel<string, V>, key: string, expiry: int, cached: bool,
                               evicted: Option<string>)
  {
    && w'.n == w.n && w'.hand == w.hand && TimingWheelSpec.Valid(w) && TimingWheelSpec.Valid(w')
    && w'.timers - {key} == w.timers - {key} - Gone(evicted)
    && (!cached ==> (key in w'.timers <==> expiry > 0))
    && (!cached && expiry > 0 ==>
          Remaining(w.n, w.hand, w'.timers[key]) == if expiry < SECOND then 1 else expiry / SECOND)
    && (cached ==> (key in w'.timers <==> key in w.timers))
    && (cached && key in w.timers && expiry < SECOND ==> w'.timers[key] == w.timers[key])
    && (cached && key in w.timers && expiry >= SECOND ==>
          Remaining(w.n, w.hand, w'.timers[key]) == MovedWait(w.n, w.hand, w.timers[key].slot, expiry / SECOND))
  }

  lemma RescheduledMeans<V>(w: Wheel<string, V>, key: string, value: V, expiry: int, cached: bool,
                            evicted: Option<string>)
    requires TimingWheelSpec.Valid(w) && evicted != Some(key) && (!cached ==> key !in w.timers)
    ensures TimersSet(w, Rescheduled(w, key, value, expiry, cached, evicted), key, expiry, cached, evicted)
  {
    hide Remaining, Moved, Dist, PosAt, CircleAt;
    var base := w.(timers := w.timers - Gone(evicted));
    var w' := Rescheduled(w, key, value, expiry, cached, evicted);
    assert key in w.timers ==> key in base.timers && base.timers[key] == w.timers[key];
    if expiry > 0 {
      StepValid(base, SECOND, if cached then Op.Move(key, expiry) else Op.Set(key, value, expiry));
      var steps := if expiry < SECOND then 1 else expiry / SECOND;
      if !cached {
        PlacedRemaining(w.n, w.hand, steps, value);
      } else if key in w.timers && expiry >= SECOND {
        MovedRemaining(w.n, w.hand, w.timers[key], steps);
      }
    }
    assert w'.timers - {key} == base.timers - {key};
    assert base.timers - {key} == w.timers - {key} - Gone(evicted);
  }

  class Cache<V(!new)> {
    var data: map<string, V>
    const lru: KeyLru?  // null for a cache without a limit
    const wheel: TimingWheel<string, V>
    var fired: multiset<string>
    ghost var untimed: set<string>  // keys added with an expiry that the wheel refuses

    ghost function Recent(): Option<seq<string>>
      reads this, lru
    {
      if lru == null then None else Some(lru.evicts)
    }

    ghost predicate Parts()
      reads this, lru, wheel, wheel.slots, wheel.Entries
    {
      wheel.Valid() && wheel.interval == SECOND && (lru != null ==> lru.Valid())
    }

    ghost predicate Valid()
      reads this, lru, wheel, wheel.slots, wheel.Entries
    {
      Parts() && Agree(data.Keys, Recent(), wheel.Sched.Keys, fired, untimed)
    }

    constructor (limit: nat)
      ensures Valid() && data == map[] && fired == multiset{} && untimed == {}
      ensures lru == null <==> limit == 0
      ensures lru != null ==> lru.limit == limit && fresh(lru)
      ensures fresh(wheel) && fresh(wheel.slots) && wheel.Entries == {}
    {
      data, fired, untimed := map[], multiset{}, {};
      wheel := new TimingWheel(SECOND, SLOTS);
      if limit > 0 {
        lru := new KeyLru(limit);
      } else {
        lru := null;
      }
    }

    // The callback of the recency list: the key leaves the map, and its timer is removed.
    method OnEvict(key: string)
      requires Parts()
      modifies this`data, this`untimed, wheel`Sched, wheel`timers, wheel.Entries
      ensures Parts()
      ensures data == old(data) - {key} && untimed == old(untimed) - {key}
      ensures wheel.Sched == old(wheel.Sched) - {key}
    {
      data := data - {key};
      untimed := untimed - {key};
      wheel.RemoveTimer(key);
    }

    method Del(key: string)
      requires Valid()
      modifies this`data, this`untimed, lru, wheel`Sched, wheel`timers, wheel.Entries
      ensures Valid()
      ensures data == old(data) - {key} && untimed == old(untimed) - {key}
      ensures wheel.Sched == old(wheel.Sched) - {key}
      ensures lru != null ==> lru.evicts == Without(old(lru.evicts), key)
    {
      hide TimingWheel.Valid, KeyLru.Valid, Without, Agree;
      AgreeDropped(data.Keys, Recent(), wheel.Sched.Keys, fired, untimed, key);
      data := data - {key};
      untimed := untimed - {key};
      if lru != null {
        var evicted := lru.Remove(key);
        if evicted.Some? {
          OnEvict(evicted.value);
        }
      }
      wheel.RemoveTimer(key);
      assert data.Keys == old(data).Keys - {key} && wheel.Sched.Keys == old(wheel.Sched).Keys - {key};
      assert untimed == old(untimed) - {key};
      assert Recent() == if lru != null then Some(Without(old(lru.evicts), key)) else None;
    }

    // Callback of the wheel for a key whose time has come.
    method RunExpired(key: string)
      requires Valid() && key in fired
      modifies this, lru, wheel`Sched, wheel`timers, wheel.Entries
      ensures Valid() && data == old(data) - {key} && fired == old(fired) - multiset{key}
    {
      Del(key);
      fired := fired - multiset{key};
    }

    method DoGet(key: string) returns (value: Option<V>)
      requires Valid()
      modifies lru
      ensures Valid()
      ensures value == if key in data then Some(data[key]) else None
      ensures lru != null ==> lru.evicts == if key in data then Touch(old(lru.evicts), key) else old(lru.evicts)
    {
      if key in data {
        if lru != null {
          var evicted := lru.Add(key);
          assert evicted.None?;
        }
        return Some(data[key]);
      }
      return None;
    }

    // The part of SetWithExpire under the lock: store the value, touch the list, evict one key too many.
    method Store(key: string, value: V) returns (ok: bool, evicted: Option<string>)
      requires Valid()
      modifies this`data, this`untimed, lru, wheel`Sched, wheel`timers, wheel.Entries
      ensures Parts() && (ok <==> key in old(data)) && (ok || lru == null ==> evicted.None?)
      ensures lru != null ==> lru.evicts == Truncate(Touch(old(lru.evicts), key), lru.limit)
      ensures lru != null ==> forall k :: k in data <==> k in lru.evicts
      ensures evicted.Some? ==> && |old(lru.evicts)| == lru.limit && evicted.value != key
                                && evicted.value == old(lru.evicts)[lru.limit - 1]
      ensures data == old(data)[key := value] - Gone(evicted) && wheel.Sched == old(wheel.Sched) - Gone(evicted)
      ensures untimed == old(untimed) - Gone(evicted)
    {
      hide TimingWheel.Valid, KeyLru.Valid, Truncate, Touch, Without;
      ok := key in data;
      data := data[key := value];
      evicted := None;
      if lru != null {
        evicted := lru.Add(key);
        if evicted.Some? {
          OnEvict(evicted.value);
        }
      }
    }

    // The part of SetWithExpire after the lock: move or set the key's timer.
    method Schedule(key: string, value: V, expiry: int, ok: bool)
      requires Parts()
      modifies this`fired, this`untimed, wheel, wheel.slots, wheel.Entries
      ensures Parts() && fresh(wheel.Entries - old(wheel.Entries))
      ensures wheel.Sched.Keys == old(wheel.Sched).Keys + if !ok && expiry > 0 then {key} else {}
      ensures untimed == old(untimed) + if !ok && expiry <= 0 then {key} else {}
      ensures fired == old(fired) +
               if ok && key in old(wheel.Sched) && 0 < expiry < SECOND then multiset{key} else multiset{}
      ensures !ok && key !in old(wheel.Sched) && expiry > 0 ==>
                && key in wheel.Sched && wheel.tickedPos < wheel.numSlots && TimerOk(wheel.numSlots, wheel.Sched[key])
                && Remaining(wheel.numSlots, wheel.tickedPos, wheel.Sched[key]) ==
                   if expiry < SECOND then 1 else expiry / SECOND
      ensures TimingWheelSpec.Valid(old(wheel.Model()))
      ensures wheel.Model() == Rescheduled(old(wheel.Model()), key, value, expiry, ok, None)
    {
      hide TimingWheel.Valid, KeyLru.Valid, Moved;
      assert wheel.Sched - {} == wheel.Sched;
      if ok {
        var accepted, ran := wheel.MoveTimer(key, expiry);
        if key in ran {
          fired := fired + multiset{key};
        }
      } else {
        var accepted := wheel.SetTimer(key, value, expiry);
        if accepted {
          PlacedRemaining(wheel.numSlots, wheel.tickedPos, if expiry < SECOND then 1 else expiry / SECOND, value);
        } else {
          untimed := untimed + {key};
        }
      }
    }

    // Setting a value. `expiry` is the drawn expiry; the wheel refuses one that is not positive.
    method SetWithExpire(key: string, value: V, expiry: int) returns (ghost evicted: Option<string>)
      requires Valid()
      modifies this, lru, wheel, wheel.slots, wheel.Entries
      ensures Valid() && fresh(wheel.Entries - old(wheel.Entries))
      ensures lru == null ==> evicted.None?
      ensures lru != null ==> lru.evicts == Truncate(Touch(old(lru.evicts), key), lru.limit)
      ensures evicted.Some? ==> && |old(lru.evicts)| == lru.limit && evicted.value != key
                                && evicted.value == old(lru.evicts)[lru.limit - 1]
      ensures data == old(data)[key := value] - Gone(evicted)
      ensures untimed == old(untimed) - Gone(evicted) + if key !in old(data) && expiry <= 0 then {key} else {}
      ensures TimingWheelSpec.Valid(old(wheel.Model()))
      ensures wheel.Model() == Rescheduled(old(wheel.Model()), key, value, expiry, key in old(data), evicted)
      ensures TimersSet(old(wheel.Model()), wheel.Model(), key, expiry, key in old(data), evicted)
      ensures fired == old(fired) + if key in old(wheel.Sched) && 0 < expiry < SECOND then multiset{key} else multiset{}
    {
      hide TimingWheel.Valid, TimingWheelSpec.Valid, KeyLru.Valid, Truncate, Touch, Without, Remaining, Step, Agree,
           TimerOk, Rescheduled, NoRepeat, TimersSet;
      var ok;
      wheel.ModelValid();
      ghost var before, list, timed, started, without := wheel.Model(), Recent(), wheel.Sched.Keys, fired, untimed;
      assert Agree(data.Keys, list, timed, started, without);
      if key in wheel.Sched {
        AgreeTimed(data.Keys, list, timed, started, without, key);
      }
      ok, evicted := Store(key, value);
      assert wheel.Sched.Keys == timed - Gone(evicted) && data.Keys == old(data).Keys + {key} - Gone(evicted);
      RescheduledAfter(before, key, value, expiry, ok, evicted);
      RescheduledMeans(before, key, value, expiry, ok, evicted);
      assert wheel.Sched == before.timers - Gone(evicted);
      Schedule(key, value, expiry, ok);
      assert wheel.Sched.Keys == timed - Gone(evicted) + if !ok && expiry > 0 then {key} else {};
      assert untimed == without - Gone(evicted) + if !ok && expiry <= 0 then {key} else {};
      AgreeSet(old(data).Keys, list, timed, started, without, key, evicted, Recent(), fired, expiry > 0);
    }

    // Take: a cached value is returned as it is; otherwise the fetched value, if there is one, is set.
    method Take<E>(key: string, fetched: Fetched<V, E>, expiry: int)
      returns (result: Fetched<V, E>, ghost evicted: Option<string>)
      requires Valid()
      modifies this, lru, wheel, wheel.slots, wheel.Entries
      ensures Valid() && fresh(wheel.Entries - old(wheel.Entries))
      ensures result == if key in old(data) then Ok(old(data)[key]) else fetched
      ensures TimingWheelSpec.Valid(old(wheel.Model()))
      ensures if key !in old(data) && fetched.Ok?
              then && data == old(data)[key := fetched.value] - Gone(evicted)
                   && wheel.Model() == Rescheduled(old(wheel.Model()), key, fetched.value, expiry, false, evicted)
                   && (lru != null ==> lru.evicts == Truncate(Touch(old(lru.evicts), key), lru.limit))
              else && data == old(data) && wheel.Model() == old(wheel.Model()) && evicted.None?
                   && (lru != null ==>
                         lru.evicts == if key in old(data) then Touch(old(lru.evicts), key) else old(lru.evicts))
      ensures key !in old(data) && fetched.Ok? ==>
                TimersSet(old(wheel.Model()), wheel.Model(), key, expiry, false, evicted)
      ensures evicted.Some? ==> && lru != null && |old(lru.evicts)| == lru.limit && evicted.value != key
                                && evicted.value == old(lru.evicts)[lru.limit - 1]
      ensures result.Ok? ==> key in data && data[key] == result.value
      ensures fired == old(fired)
      ensures untimed == if key in old(data) || fetched.Err? then old(untimed)
                         else old(untimed) - Gone(evicted) + if expiry <= 0 then {key} else {}
    {
      hide TimingWheel.Valid, KeyLru.Valid, Truncate, Touch, Without, Remaining, Step, Agree, TimerOk, Rescheduled,
           TimersSet;
      wheel.ModelValid();
      evicted := None;
      var cached := DoGet(key);
      if cached.Some? {
        result := Ok(cached.value);
        return;
      }
      // inside the flight the cache is asked once more
      cached := DoGet(key);
      assert cached.None?;
      if key in wheel.Sched {
        AgreeTimed(data.Keys, Recent(), wheel.Sched.Keys, fired, untimed, key);
      }
      if fetched.Ok? {
        evicted := SetWithExpire(key, fetched.value, expiry);
      }
      result := fetched;
    }

    // The callbacks of the tasks of a tick are started, one goroutine after the other.
    method StartAll(tasks: seq<TimingTask<string, V>>, ghost due: map<string, V>)
      requires Runs(tasks, due)
      modifies this`fired
      ensures fired == old(fired) + multiset(due.Keys)
    {
      hide Runs;
      for i := 0 to |tasks|
        modifies this`fired
        invariant fired == old(fired) + multiset(KeysOf(tasks[..i]))
      {
        KeysOfNext(tasks, i, due);
        fired := fired + multiset{tasks[i].key};
      }
      assert tasks[..|tasks|] == tasks;
      KeysOfAll(tasks, due);
    }

    // A tick of the wheel: the keys whose time has come wait for their callbacks.
    method OnTick()
      requires Valid()
      modifies this`fired, wheel, wheel.slots, wheel.Entries
      ensures Valid() && wheel.Entries <= old(wheel.Entries)
      ensures data == old(data) && untimed == old(untimed)
      ensures TimingWheelSpec.Valid(old(wheel.Model()))
      ensures wheel.Model() == Step(old(wheel.Model()), SECOND, Op.Tick)
      ensures fired == old(fired) + multiset(Fired(old(wheel.Model()), SECOND, Op.Tick).Keys)
    {
      hide TimingWheel.Valid, TimingWheelSpec.Valid, KeyLru.Valid, Ticked, Agree, Step, Fired, Runs, NoRepeat;
      wheel.ModelValid();
      ghost var before, timed, was := wheel.Model(), wheel.Sched.Keys, fired;
      ghost var due := Fired(before, SECOND, Op.Tick);
      assert Agree(data.Keys, Recent(), timed, was, untimed);
      var tasks := wheel.OnTick();
      TickPartitions(before, SECOND);
      StartAll(tasks, due);
      AgreeTicked(data.Keys, Recent(), timed, was, untimed, due.Keys, wheel.Sched.Keys);
    }
  }

  ghost function KeysOf<V>(tasks: seq<TimingTask<string, V>>): set<string> {
    set t | t in tasks :: t.key
  }

  lemma KeysOfNext<V>(tasks: seq<TimingTask<string, V>>, i: nat, due: map<string, V>)
    requires Runs(tasks, due) && i < |tasks|
    ensures multiset(KeysOf(tasks[..i + 1])) == multiset(KeysOf(tasks[..i])) + multiset{tasks[i].key}
  {
    assert tasks[..i + 1] == tasks[..i] + [tasks[i]];
    assert KeysOf(tasks[..i + 1]) == KeysOf(tasks[..i]) + {tasks[i].key};
    assert tasks[i].key !in KeysOf(tasks[..i]);
  }

  lemma KeysOfAll<V>(tasks: seq<TimingTask<string, V>>, due: map<string, V>)
    requires Runs(tasks, due)
    ensures KeysOf(tasks) == due.Keys
  {
    forall k | k in due ensures k in KeysOf(tasks) {
      assert TimingTask(k, due[k]) in tasks;
    }
  }

  lemma AgreeTicked(keys: set<string>, list: Option<seq<string>>, timed: set<string>, started: multiset<string>,
                    untimed: set<string>, due: set<string>, timed': set<string>)
    requires Agree(keys, list, timed, started, untimed) && timed' + due == timed
    ensures Agree(keys, list, timed', started + multiset(due), untimed)
  {
  }
}
