// core/breaker/bucket.go and core/breaker/googlebreaker.go: the throttle on top of the rolling window.
// Arithmetic is over reals; the random draw and the clock are parameters.
module Breaker {
  import opened Wrappers
  import opened RollingWindow

  const SUCCESS := 0
  const FAIL := 1
  const DROP := 2

  const BUCKETS := 40
  const BUCKET_DURATION := 250_000_000
  const FORCE_PASS_DURATION := 1_000_000_000
  const K := 1.5
  const MIN_K := 1.1
  const PROTECTION := 5

  // How a request ends: with an error or none, or by a panic.
  datatype Answer<E> = Answered(err: Option<E>) | Panicked

  datatype Bucket = Bucket(Sum: nat, Success: nat, Failure: nat, Drop: nat)

  const EMPTY := Bucket(0, 0, 0, 0)

  // Counting a mark in a bucket: whatever is neither a failure nor a drop is a success.
  function Mark(b: Bucket, v: int): Bucket {
    if v == FAIL then b.(Sum := b.Sum + 1, Failure := b.Failure + 1)
    else if v == DROP then b.(Sum := b.Sum + 1, Drop := b.Drop + 1)
    else b.(Sum := b.Sum + 1, Success := b.Success + 1)
  }

  ghost function Count(marks: seq<int>, kind: int -> bool): nat {
    if marks == [] then 0 else Count(marks[..|marks| - 1], kind) + if kind(marks[|marks| - 1]) then 1 else 0
  }

  const IsFailure: int -> bool := v => v == FAIL
  const IsDrop: int -> bool := v => v == DROP
  const IsSuccess: int -> bool := v => v != FAIL && v != DROP

  lemma {:induction false} CountConcat(a: seq<int>, b: seq<int>, kind: int -> bool)
    ensures Count(a + b, kind) == Count(a, kind) + Count(b, kind)
  {
    if b == [] {
      assert a + b == a;
    } else {
      assert (a + b)[..|a + b| - 1] == a + b[..|b| - 1];
      CountConcat(a, b[..|b| - 1], kind);
    }
  }

  // What a bucket holds after the given marks.
  ghost predicate Tallies(b: Bucket, marks: seq<int>) {
    && b.Success == Count(marks, IsSuccess) && b.Failure == Count(marks, IsFailure) && b.Drop == Count(marks, IsDrop)
    && b.Sum == |marks| == b.Success + b.Failure + b.Drop
  }

  datatype WindowResult = WindowResult(accepts: nat, total: nat, failingBuckets: nat, workingBuckets: nat)

  ghost predicate NoFailureFrom(bs: seq<Bucket>, i: int) {
    forall j :: 0 <= j < |bs| && i <= j ==> bs[j].Failure == 0
  }

  ghost predicate NoSuccessFrom(bs: seq<Bucket>, i: int) {
    forall j :: 0 <= j < |bs| && i <= j ==> bs[j].Success == 0
  }

  // The successful buckets with no failure in them or after them, and the other way round.
  ghost function Working(bs: seq<Bucket>): set<int> {
    set i | 0 <= i < |bs| && bs[i].Success > 0 && NoFailureFrom(bs, i)
  }

  ghost function Failing(bs: seq<Bucket>): set<int> {
    set i | 0 <= i < |bs| && bs[i].Failure > 0 && NoSuccessFrom(bs, i)
  }

  // At most one of the two is not empty, and neither exceeds the number of buckets.
  lemma WorkingOrFailing(bs: seq<Bucket>)
    ensures Working(bs) == {} || Failing(bs) == {}
    ensures |Working(bs)| <= |bs| && |Failing(bs)| <= |bs|
  {
    assert forall i, j :: i in Working(bs) && j in Failing(bs) ==> j < i && i < j;
    AtMost(Working(bs), |bs|);
    AtMost(Failing(bs), |bs|);
  }

  lemma {:induction false} AtMost(s: set<int>, n: nat)
    requires forall i :: i in s ==> 0 <= i < n
    ensures |s| <= n
  {
    if n == 0 {
      assert forall i :: i !in s;
    } else {
      AtMost(s - {n - 1}, n - 1);
    }
  }

  lemma MoreFrom(bs: seq<Bucket>, b: Bucket, i: int)
    requires i <= |bs|
    ensures NoFailureFrom(bs + [b], i) <==> NoFailureFrom(bs, i) && b.Failure == 0
    ensures NoSuccessFrom(bs + [b], i) <==> NoSuccessFrom(bs, i) && b.Success == 0
  {
    assert (bs + [b])[|bs|] == b;
    assert forall j :: 0 <= j < |bs| ==> (bs + [b])[j] == bs[j];
  }

  // One more bucket: a failure ends the working buckets, a success the failing ones.
  lemma OneMoreBucket(bs: seq<Bucket>, b: Bucket)
    ensures Working(bs + [b]) ==
            if b.Failure > 0 then {} else if b.Success > 0 then Working(bs) + {|bs|} else Working(bs)
    ensures Failing(bs + [b]) ==
            if b.Success > 0 then {} else if b.Failure > 0 then Failing(bs) + {|bs|} else Failing(bs)
  {
    hide NoFailureFrom, NoSuccessFrom;
    forall i | 0 <= i <= |bs|
      ensures NoFailureFrom(bs + [b], i) <==> NoFailureFrom(bs, i) && b.Failure == 0
      ensures NoSuccessFrom(bs + [b], i) <==> NoSuccessFrom(bs, i) && b.Success == 0
      ensures NoFailureFrom(bs, |bs|) && NoSuccessFrom(bs, |bs|)
    {
      MoreFrom(bs, b, i);
      FromEnd(bs);
    }
  }

  lemma FromEnd(bs: seq<Bucket>)
    ensures NoFailureFrom(bs, |bs|) && NoSuccessFrom(bs, |bs|)
  {
  }

  class GoogleBreaker {
    const stat: RollingWindow<int, Bucket>
    var lastPass: int

    ghost predicate Valid()
      reads this, stat, stat.buckets
    {
      && stat.Valid() && stat.zero == EMPTY && stat.addTo == Mark
      && stat.size == BUCKETS && stat.interval == BUCKET_DURATION && !stat.ignoreCurrent
    }

    constructor (now: int)
      ensures Valid() && lastPass == 0 && stat.Log == [] && fresh(stat) && fresh(stat.buckets)
    {
      stat := new RollingWindow(EMPTY, Mark, BUCKETS, BUCKET_DURATION, false, now);
      lastPass := 0;
    }

    // The marks that count at a time: those of the last BUCKETS intervals.
    ghost function Recent(now: int): seq<int>
      requires 0 < stat.interval
      reads this, stat
    {
      InSlots(stat.Log, stat.First(now), stat.Until(now))
    }

    // The buckets that are visited at a time, oldest first: each folds the marks of its interval.
    ghost function Buckets(now: int): (bs: seq<Bucket>)
      requires 0 < stat.interval
      reads this, stat
      ensures |bs| == stat.Visited(now)
      ensures forall i :: 0 <= i < |bs| ==> bs[i] == stat.Fold(InSlot(stat.Log, stat.First(now) + i))
    {
      var log, first := stat.Log, stat.First(now);
      seq(stat.Visited(now), i => stat.Fold(InSlot(log, first + i)))
    }

    // The share of marks to drop, by the whole window.
    ghost function RatioAt(now: int): real
      requires 0 < stat.interval
      reads this, stat
    {
      DropRatio(Count(Recent(now), IsSuccess), |Recent(now)|, |Failing(Buckets(now))|)
    }

    // Whether a request is refused: the window asks for it, the last pass is not too long ago, and the draw
    // falls below the probability.
    ghost predicate Refuses(now: int, draw: real)
      requires 0 < stat.interval
      reads this, stat
    {
      && RatioAt(now) > 0.0 && !(lastPass > 0 && now - lastPass > FORCE_PASS_DURATION)
      && draw < Probability(RatioAt(now), |Working(Buckets(now))|)
    }

    // No recent mark is a success, there are more than the protected number, and the draw is below their share.
    ghost predicate Outage(now: int, draw: real)
      requires 0 < stat.interval
      reads this, stat
    {
      && Count(Recent(now), IsSuccess) == 0 && |Recent(now)| > 5
      && draw * (|Recent(now)| as real + 1.0) < |Recent(now)| as real - 5.0
    }

    // The marks exceed one and a half times the accepts by more than the protected number, in the share that
    // the buckets that do not work leave of the draw.
    ghost predicate Crowded(now: int, draw: real)
      requires 0 < stat.interval
      reads this, stat
    {
      var t, a := |Recent(now)| as real, Count(Recent(now), IsSuccess) as real;
      && t - 5.0 - 1.5 * a > 0.0
      && draw * 40.0 * (t + 1.0) < (t - 5.0 - 1.5 * a) * (40.0 - |Working(Buckets(now))| as real)
    }

    lemma {:induction false} FoldTallies(marks: seq<int>)
      requires stat.zero == EMPTY && stat.addTo == Mark
      ensures Tallies(stat.Fold(marks), marks)
    {
      if marks != [] {
        FoldTallies(marks[..|marks| - 1]);
      }
    }

    // What accept needs to know, gathered in one pass over the buckets.
    method History(now: int) returns (result: WindowResult)
      requires Valid() && stat.lastTime <= now
      ensures result.accepts == Count(Recent(now), IsSuccess) && result.total == |Recent(now)|
      ensures result.workingBuckets == |Working(Buckets(now))| && result.failingBuckets == |Failing(Buckets(now))|
    {
      hide Count, Working, Failing, Tallies, InSlot, InSlots;
      var visited := stat.Reduce(now);
      result := WindowResult(0, 0, 0, 0);
      NoneYet(now);
      for i := 0 to |visited|
        invariant result.accepts == Count(stat.Concat(stat.First(now), i), IsSuccess)
        invariant result.total == |stat.Concat(stat.First(now), i)|
        invariant result.workingBuckets == |Working(visited[..i])| && result.failingBuckets == |Failing(visited[..i])|
      {
        var b := visited[i];
        NextSlot(now, i);
        assert visited[..i + 1] == visited[..i] + [b];
        OneMoreBucket(visited[..i], b);
        NotYet(visited[..i]);
        result := result.(accepts := result.accepts + b.Success, total := result.total + b.Sum);
        if b.Failure > 0 {
          result := result.(workingBuckets := 0);
        } else if b.Success > 0 {
          result := result.(workingBuckets := result.workingBuckets + 1);
        }
        if b.Success > 0 {
          result := result.(failingBuckets := 0);
        } else if b.Failure > 0 {
          result := result.(failingBuckets := result.failingBuckets + 1);
        }
      }
      stat.VisitedHoldWindow(now, |visited|);
      assert visited[..|visited|] == visited == Buckets(now);
    }

    // Every bucket of the window counts the marks of its interval, and there are at most as many as the
    // window has.
    lemma BucketsTally(now: int)
      requires Valid()
      ensures |Buckets(now)| <= BUCKETS
      ensures forall i :: 0 <= i < |Buckets(now)| ==>
                Tallies(Buckets(now)[i], InSlot(stat.Log, stat.First(now) + i))
    {
      hide Tallies, InSlot;
      VisitedAtMost(now);
      forall i | 0 <= i < |Buckets(now)|
        ensures Tallies(Buckets(now)[i], InSlot(stat.Log, stat.First(now) + i))
      {
        FoldTallies(InSlot(stat.Log, stat.First(now) + i));
      }
    }

    // What the bucket of the i-th interval of the window adds to the totals.
    lemma NextSlot(now: int, i: nat)
      requires Valid()
      ensures var b := stat.Fold(InSlot(stat.Log, stat.First(now) + i));
              && Count(stat.Concat(stat.First(now), i + 1), IsSuccess) ==
                 Count(stat.Concat(stat.First(now), i), IsSuccess) + b.Success
              && |stat.Concat(stat.First(now), i + 1)| == |stat.Concat(stat.First(now), i)| + b.Sum
    {
      hide Count;
      FoldTallies(InSlot(stat.Log, stat.First(now) + i));
      CountConcat(stat.Concat(stat.First(now), i), InSlot(stat.Log, stat.First(now) + i), IsSuccess);
    }

    lemma VisitedAtMost(now: int)
      requires Valid()
      ensures stat.Visited(now) <= BUCKETS
    {
    }

    lemma NoneYet(now: int)
      requires Valid()
      ensures stat.Concat(stat.First(now), 0) == []
      ensures Count([], IsSuccess) == 0 && Working([]) == {} && Failing([]) == {}
    {
    }

    lemma NotYet(bs: seq<Bucket>)
      ensures |bs| !in Working(bs) && |bs| !in Failing(bs)
    {
    }

    method MarkOne(mark: int, now: int)
      requires Valid() && stat.lastTime <= now
      modifies stat`offset, stat`lastTime, stat`Cur, stat`Log, stat.buckets
      ensures Valid() && stat.lastTime <= now && lastPass == old(lastPass)
      ensures stat.Log == old(stat.Log) + [Entry(stat.SlotOf(now), mark)]
    {
      stat.Add(mark, now);
    }

    // Exactly when a request is refused, in terms of the log alone.
    lemma RefusesExactly(now: int, draw: real)
      requires Valid() && draw >= 0.0
      ensures var t, a := |Recent(now)| as real, Count(Recent(now), IsSuccess) as real;
              var failing, working := |Failing(Buckets(now))| as real, |Working(Buckets(now))| as real;
              var excess := t - 5.0 - (1.5 - 0.01 * failing) * a;
              && (RatioAt(now) > 0.0 <==> excess > 0.0)
              && (Refuses(now, draw) <==>
                    && excess > 0.0 && !(lastPass > 0 && now - lastPass > FORCE_PASS_DURATION)
                    && draw * 40.0 * (t + 1.0) < excess * (40.0 - working))
    {
      hide Count, Working, Failing, DropRatio, Probability, InSlots, Buckets;
      VisitedAtMost(now);
      WorkingOrFailing(Buckets(now));
      RefusedExactly(Count(Recent(now), IsSuccess), |Recent(now)|, |Failing(Buckets(now))|, |Working(Buckets(now))|,
                     draw);
    }

    lemma CrowdedRefused(now: int, draw: real)
      requires Valid() && draw >= 0.0 && Crowded(now, draw)
      ensures Refuses(now, draw) <==> !(lastPass > 0 && now - lastPass > FORCE_PASS_DURATION)
      ensures RatioAt(now) > 0.0
    {
      hide Count, Working, Failing, InSlots, Buckets, Refuses, RatioAt;
      RefusesExactly(now, draw);
      VisitedAtMost(now);
      WorkingOrFailing(Buckets(now));
      var t, a := |Recent(now)| as real, Count(Recent(now), IsSuccess) as real;
      var failing, rest := |Failing(Buckets(now))| as real, 40.0 - |Working(Buckets(now))| as real;
      var excess := t - 5.0 - (1.5 - 0.01 * failing) * a;
      Heavier(1.5 - 0.01 * failing, 1.5, a);
      Heavier(t - 5.0 - 1.5 * a, excess, rest);
    }

    // In an outage no bucket works, and the weight does not matter.
    lemma OutageRefused(now: int, draw: real)
      requires Valid() && stat.lastTime <= now && draw >= 0.0 && Outage(now, draw)
      ensures Refuses(now, draw) <==> !(lastPass > 0 && now - lastPass > FORCE_PASS_DURATION)
      ensures RatioAt(now) > 0.0
    {
      hide Count, Working, Failing, InSlots, Buckets, Refuses, RatioAt;
      RefusesExactly(now, draw);
      NoneWorks(now);
      var t := |Recent(now)| as real;
      Times(draw * (t + 1.0), t - 5.0, 40.0);
      Swap(draw, 40.0, t + 1.0);
    }

    // Without a success in the log no bucket of the window works.
    lemma NoneWorks(now: int)
      requires Valid() && stat.lastTime <= now && Count(Recent(now), IsSuccess) == 0
      ensures Working(Buckets(now)) == {}
    {
      hide Count, InSlots, InSlot, Tallies, NoFailureFrom;
      stat.VisitedHoldWindow(now, stat.Visited(now));
      forall i | 0 <= i < |Buckets(now)|
        ensures Buckets(now)[i].Success == 0
      {
        SuccessAtMost(now, i, |Buckets(now)|);
      }
    }

    lemma {:induction false} SuccessAtMost(now: int, i: nat, n: nat)
      requires Valid() && i < n <= |Buckets(now)|
      ensures Buckets(now)[i].Success <= Count(stat.Concat(stat.First(now), n), IsSuccess)
    {
      hide Count, InSlot;
      NextSlot(now, n - 1);
      if i < n - 1 {
        SuccessAtMost(now, i, n - 1);
      }
    }

    // Whether a request may go on. The window is only read. The first two clauses say what is computed;
    // the others say what that means: a request is refused only if clearly more than the protected
    // number of marks was not accepted, never if all buckets of the window are working ones, and never
    // when the last pass through the throttle was more than a second ago.
    method Accept(now: int, draw: real) returns (ok: bool)
      requires Valid() && stat.lastTime <= now && 0.0 <= draw < 1.0
      modifies this`lastPass
      ensures Valid()
      ensures !ok <==> old(Refuses(now, draw))
      ensures lastPass == if ok && RatioAt(now) > 0.0 then now else old(lastPass)
      ensures old(Outage(now, draw) || Crowded(now, draw)) ==>
                (ok <==> old(lastPass) > 0 && now - old(lastPass) > FORCE_PASS_DURATION)
      ensures !ok ==>
                10 * (|Recent(now)| - Count(Recent(now), IsSuccess)) > 10 * PROTECTION + Count(Recent(now), IsSuccess)
      ensures |Working(Buckets(now))| == BUCKETS ==> ok
    {
      hide Tallies, Working, Failing, Weight, DropRatio, Probability, Count, InSlots, Outage, Crowded;
      if Outage(now, draw) {
        OutageRefused(now, draw);
      }
      if Crowded(now, draw) {
        CrowdedRefused(now, draw);
      }
      var history := History(now);
      BucketsTally(now);
      WorkingOrFailing(Buckets(now));
      RatioBounds(history.accepts, history.total, history.failingBuckets);
      var dropRatio := Ratio(history);
      if dropRatio <= 0.0 {
        return true;
      }
      ProbabilityBounds(history.accepts, history.total, history.failingBuckets, history.workingBuckets);
      if lastPass > 0 && now - lastPass > FORCE_PASS_DURATION {
        lastPass := now;
        return true;
      }
      dropRatio := Lowered(dropRatio, history.workingBuckets);
      if draw < dropRatio {
        return false;
      }
      lastPass := now;
      ok := true;
    }

    method Ratio(history: WindowResult) returns (ratio: real)
      ensures ratio == DropRatio(history.accepts, history.total, history.failingBuckets)
    {
      var w := K - (K - MIN_K) * history.failingBuckets as real / BUCKETS as real;
      var weightedAccepts := (if w < MIN_K then MIN_K else w) * history.accepts as real;
      ratio := ((history.total - PROTECTION) as real - weightedAccepts) / (history.total + 1) as real;
    }

    method Lowered(ratio: real, working: nat) returns (lowered: real)
      ensures lowered == Probability(ratio, working)
    {
      lowered := ratio * (BUCKETS - working) as real / BUCKETS as real;
    }

    // A request: a refused one is marked as a drop and answered by the fallback, if there is one; any other
    // is marked by its outcome, a panic as a failure. The marks are the log.
    method DoReq<E>(req: Answer<E>, fallback: Option<E -> Option<E>>, acceptable: Option<E> -> bool, unavailable: E,
                    now: int, draw: real, later: int) returns (ok: bool, result: Answer<E>)
      requires Valid() && stat.lastTime <= now <= later && 0.0 <= draw < 1.0
      modifies this`lastPass, stat`offset, stat`lastTime, stat`Cur, stat`Log, stat.buckets
      ensures Valid() && stat.lastTime <= later
      ensures stat.Log == old(stat.Log) +
                          if !ok then [Entry(stat.SlotOf(now), DROP)]
                          else [Entry(stat.SlotOf(later),
                                             if req.Answered? && acceptable(req.err) then SUCCESS else FAIL)]
      ensures result == if ok then req
                        else Answered(if fallback.Some? then fallback.value(unavailable) else Some(unavailable))
      ensures !ok <==> old(Refuses(now, draw))
      ensures old(lastPass) > 0 && now - old(lastPass) > FORCE_PASS_DURATION ==> ok
      ensures old(|Recent(now)|) <= PROTECTION ==> ok
    {
      ok := Accept(now, draw);
      if !ok {
        MarkOne(DROP, now);
        result := Answered(if fallback.Some? then fallback.value(unavailable) else Some(unavailable));
        return;
      }
      MarkOne(if req.Answered? && acceptable(req.err) then SUCCESS else FAIL, later);
      result := req;
    }
  }

  // The factor that accepted marks are weighed with: between MIN_K and K, less for more failing buckets.
  ghost function Weight(failing: nat): real {
    var w := K - (K - MIN_K) * failing as real / BUCKETS as real;
    if w < MIN_K then MIN_K else w
  }

  ghost function DropRatio(accepts: nat, total: nat, failing: nat): real {
    ((total - PROTECTION) as real - Weight(failing) * accepts as real) / (total + 1) as real
  }

  lemma WeightBounds(failing: nat)
    ensures MIN_K <= Weight(failing) <= K
    ensures failing == 0 ==> Weight(failing) == K
    ensures failing >= BUCKETS ==> Weight(failing) == MIN_K
  {
  }

  // The probability of refusing a request: the ratio, reduced by the working buckets.
  ghost function Probability(ratio: real, working: nat): real {
    ratio * (BUCKETS - working) as real / BUCKETS as real
  }

  // The ratio is below one, and positive only past the protected number of marks that were not accepted.
  lemma RatioBounds(accepts: nat, total: nat, failing: nat)
    ensures DropRatio(accepts, total, failing) < 1.0
    ensures DropRatio(accepts, total, failing) > 0.0 ==> 10 * (total - accepts) > 10 * PROTECTION + accepts
  {
    hide Weight;
    WeightBounds(failing);
    var a := accepts as real;
    AtLeastTimes(Weight(failing), a);
    Quotient((total - PROTECTION) as real, Weight(failing) * a, 1.1 * a, (total + 1) as real);
    InTenths(accepts, total);
  }

  // Every failing bucket takes 0.01 off the weight.
  lemma WeightLinear(failing: nat)
    requires failing <= BUCKETS
    ensures Weight(failing) == 1.5 - 0.01 * failing as real
  {
  }

  // What the throttle asks, without division: by how much the marks exceed the protected number and the
  // weighted accepts, and how many buckets work.
  lemma RefusedExactly(accepts: nat, total: nat, failing: nat, working: nat, draw: real)
    requires failing <= BUCKETS && working <= BUCKETS && draw >= 0.0
    ensures var t, excess := total as real, total as real - 5.0 - (1.5 - 0.01 * failing as real) * accepts as real;
            && (DropRatio(accepts, total, failing) > 0.0 <==> excess > 0.0)
            && (draw < Probability(DropRatio(accepts, total, failing), working) <==>
                  draw * 40.0 * (t + 1.0) < excess * (40.0 - working as real))
  {
    hide Weight;
    WeightLinear(failing);
    var bottom := total as real + 1.0;
    var excess := (total - PROTECTION) as real - Weight(failing) * accepts as real;
    var rest := 40.0 - working as real;
    Crossed(excess, bottom, rest, draw);
    assert (total + 1) as real == bottom && (BUCKETS - working) as real == rest;
  }

  lemma Crossed(excess: real, bottom: real, rest: real, draw: real)
    requires bottom > 0.0
    ensures excess / bottom > 0.0 <==> excess > 0.0
    ensures draw < (excess / bottom) * rest / 40.0 <==> draw * 40.0 * bottom < excess * rest
  {
    var ratio := excess / bottom;
    assert ratio * bottom == excess;
    Positive(ratio, bottom);
    Times(draw * 40.0, ratio * rest, bottom);
    assert ratio * rest * bottom == excess * rest by { Swap(ratio, rest, bottom); }
  }

  lemma Positive(a: real, b: real)
    requires b > 0.0
    ensures a * b > 0.0 <==> a > 0.0
  {
    if a > 0.0 {
      assert a * b > 0.0;
    } else {
      assert (-a) * b >= 0.0;
    }
  }

  lemma Times(a: real, b: real, c: real)
    requires c > 0.0
    ensures a < b <==> a * c < b * c
  {
    Positive(b - a, c);
    assert (b - a) * c == b * c - a * c;
  }

  lemma Swap(a: real, b: real, c: real)
    ensures a * b * c == a * c * b
  {
  }

  // The probability does not fall with fewer working buckets ...
  lemma FewerWorking(ratio: real, working: nat, more: nat)
    requires ratio >= 0.0 && working <= more
    ensures Probability(ratio, working) >= Probability(ratio, more)
    ensures Probability(ratio, 0) == ratio
  {
    assert ratio * (more - working) as real >= 0.0;
    assert ratio * (BUCKETS - working) as real
           == ratio * (BUCKETS - more) as real + ratio * (more - working) as real;
  }

  // ... nor the ratio with more marks that were not accepted, ...
  lemma MoreMarks(accepts: nat, total: nat, failing: nat)
    ensures DropRatio(accepts, total + 1, failing) > DropRatio(accepts, total, failing)
  {
    hide Weight;
    WeightBounds(failing);
    var w, a := Weight(failing), accepts as real;
    AtLeastTimes(w, a);
    OneMore((total - PROTECTION) as real - w * a, (total + 1) as real);
    assert (total + 1 - PROTECTION) as real == (total - PROTECTION) as real + 1.0;
    assert (total + 1 + 1) as real == (total + 1) as real + 1.0;
  }

  // ... with more failing buckets, ...
  lemma MoreFailing(accepts: nat, total: nat, failing: nat)
    ensures DropRatio(accepts, total, failing + 1) >= DropRatio(accepts, total, failing)
  {
    hide Weight;
    WeightFalls(failing);
    var x, a := (total - PROTECTION) as real, accepts as real;
    Heavier(Weight(failing + 1), Weight(failing), a);
    SameBottom(x - Weight(failing) * a, x - Weight(failing + 1) * a, (total + 1) as real);
  }

  // ... or with fewer accepts among the same marks.
  lemma FewerAccepts(accepts: nat, total: nat, failing: nat)
    ensures DropRatio(accepts, total, failing) > DropRatio(accepts + 1, total, failing)
  {
    hide Weight;
    WeightBounds(failing);
    var x, w, a := (total - PROTECTION) as real, Weight(failing), accepts as real;
    OneMoreTimes(w, a);
    assert (accepts + 1) as real == a + 1.0;
    SameBottom(x - w * (a + 1.0), x - w * a, (total + 1) as real);
  }

  lemma OneMoreTimes(w: real, a: real)
    ensures w * (a + 1.0) == w * a + w
  {
  }

  lemma Heavier(v: real, w: real, a: real)
    requires v <= w && a >= 0.0
    ensures v * a <= w * a
  {
    AtLeastZero(w - v, a);
    assert (w - v) * a == w * a - v * a;
  }

  lemma SameBottom(x: real, y: real, b: real)
    requires b > 0.0
    ensures x <= y ==> x / b <= y / b
    ensures x < y ==> x / b < y / b
  {
    Times(x / b, y / b, b);
    Times(y / b, x / b, b);
    assert (x / b) * b == x && (y / b) * b == y;
  }

  lemma OneMore(x: real, b: real)
    requires b > 0.0 && x < b
    ensures x / b < (x + 1.0) / (b + 1.0)
  {
    var p, q := x / b, (x + 1.0) / (b + 1.0);
    assert p * b == x && q * (b + 1.0) == x + 1.0;
    Times(p, 1.0, b);
    OneMoreTimes(p, b);
    Times(p, q, b + 1.0);
  }

  lemma WeightFalls(failing: nat)
    ensures Weight(failing + 1) <= Weight(failing)
  {
  }

  lemma AtLeastZero(x: real, y: real)
    requires x >= 0.0 && y >= 0.0
    ensures x * y >= 0.0
  {
  }

  lemma AtLeastTimes(w: real, a: real)
    requires w >= 1.1 && a >= 0.0
    ensures w * a >= 1.1 * a >= 0.0
  {
  }

  lemma InTenths(accepts: nat, total: nat)
    ensures total as real - 5.0 > 1.1 * accepts as real ==> 10 * (total - accepts) > 50 + accepts
  {
    assert (10 * total - 50 - 11 * accepts) as real == 10.0 * total as real - 50.0 - 11.0 * accepts as real;
  }

  // So the probability that is drawn against lies between 0 and 1.
  lemma ProbabilityBounds(accepts: nat, total: nat, failing: nat, working: nat)
    requires working <= BUCKETS && DropRatio(accepts, total, failing) > 0.0
    ensures 0.0 <= Probability(DropRatio(accepts, total, failing), working) < 1.0
    ensures working == BUCKETS ==> Probability(DropRatio(accepts, total, failing), working) == 0.0
  {
    hide DropRatio;
    RatioBounds(accepts, total, failing);
    Product(DropRatio(accepts, total, failing), (BUCKETS - working) as real);
  }

  lemma Quotient(x: real, p: real, q: real, bottom: real)
    requires 0.0 < bottom && p >= q >= 0.0 && x < bottom
    ensures (x - p) / bottom < 1.0
    ensures (x - p) / bottom > 0.0 ==> x > q
  {
    var r := (x - p) / bottom;
    assert r * bottom == x - p;
    assert r >= 1.0 ==> r * bottom >= bottom;
    assert r > 0.0 ==> r * bottom > 0.0;
  }

  lemma Product(ratio: real, rest: real)
    requires 0.0 <= ratio < 1.0 && 0.0 <= rest <= 40.0
    ensures 0.0 <= ratio * rest / 40.0 < 1.0
  {
    assert ratio * rest <= ratio * 40.0;
    assert ratio * rest >= 0.0;
  }
}
