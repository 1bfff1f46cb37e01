// core/stat/metrics.go: the container of finished tasks, and the report made of them. Percentiles are
// selected one from the other; they equal direct order statistics of all tasks.
module Metrics {
  import opened TopKTasks

  const MILLISECOND := 1_000_000
  const LOG_INTERVAL_SECONDS := 60

  datatype Pair = Pair(tasks: seq<Task>, duration: int, drops: nat)

  datatype Report = Report(ReqsPerSecond: real, Drops: nat, Average: real,
                           Median: real, Top90th: real, Top99th: real, Top99p9th: real)

  function InMillis(duration: int): real {
    duration as real / MILLISECOND as real
  }

  // The integer division of the source, which cuts towards zero.
  function Quot(a: int, b: int): int
    requires 0 < b
  {
    if a >= 0 then a / b else -((-a) / b)
  }

  function Total(tasks: seq<Task>): int {
    if tasks == [] then 0 else Total(tasks[..|tasks| - 1]) + tasks[|tasks| - 1].Duration
  }

  // The quotient is what is left of a when the rest, smaller than b and with the sign of a, is taken away.
  lemma QuotCutsTowardsZero(a: int, b: int)
    requires 0 < b
    ensures a >= 0 ==> 0 <= a - b * Quot(a, b) < b && Quot(a, b) >= 0
    ensures a <= 0 ==> -b < a - b * Quot(a, b) <= 0 && Quot(a, b) <= 0
  {
    var q := Quot(if a >= 0 then a else -a, b);
    assert (if a >= 0 then a else -a) == q * b + (if a >= 0 then a else -a) % b;
    assert a < 0 ==> b * Quot(a, b) == -(b * q);
  }

  // The total is that of the durations, in whatever parts they are added up.
  lemma {:induction false} TotalAdds(a: seq<Task>, b: seq<Task>)
    ensures Total(a + b) == Total(a) + Total(b)
    ensures forall t: Task :: Total([t]) == t.Duration
    ensures Total([]) == 0
  {
    forall t: Task
      ensures Total([t]) == t.Duration
    {
      assert [t][..0] == [];
    }
    if b == [] {
      assert a + b == a;
    } else {
      TotalAdds(a, b[..|b| - 1]);
      assert (a + b)[..|a + b| - 1] == a + b[..|b| - 1];
    }
  }

  // Milliseconds: a million of the units of a duration each, in the same order.
  lemma MillisLaw(a: int, b: int)
    ensures InMillis(a) * 1_000_000.0 == a as real
    ensures InMillis(a) <= InMillis(b) <==> a <= b
  {
    assert a <= b <==> a as real <= b as real;
  }

  // How many tasks a share of a share ... of them is, and at least one.
  function AtLeastOne(n: nat): (m: nat)
    ensures m >= 1
  {
    if n > 0 then n else 1
  }

  // The reported value is the duration of the rank-th longest task.
  ghost predicate HasRank(tasks: seq<Task>, rank: nat, value: real) {
    exists d :: IsRank(multiset(tasks), rank, d) && value == InMillis(d)
  }

  class MetricsContainer {
    var tasks: seq<Task>
    var duration: int
    var drops: nat

    // The running total is that of the tasks held.
    ghost predicate Valid()
      reads this
    {
      duration == Total(tasks) && forall t :: t in tasks ==> !t.Drop
    }

    constructor ()
      ensures Valid() && tasks == [] && drops == 0
    {
      tasks, duration, drops := [], 0, 0;
    }

    // The answer says whether the container wants to be flushed: never.
    method AddTask(task: Task) returns (flush: bool)
      requires Valid()
      modifies this
      ensures Valid() && !flush
      ensures tasks == old(tasks) + (if task.Drop then [] else [task])
              && drops == old(drops) + if task.Drop then 1 else 0
    {
      if task.Drop {
        drops := drops + 1;
      } else {
        assert (tasks + [task])[..|tasks|] == tasks;
        tasks := tasks + [task];
        duration := duration + task.Duration;
      }
      flush := false;
    }

    method RemoveAll() returns (pair: Pair)
      requires Valid()
      modifies this
      ensures Valid() && tasks == [] && drops == 0
      ensures pair == Pair(old(tasks), Total(old(tasks)), old(drops))
    {
      pair := Pair(tasks, duration, drops);
      tasks, duration, drops := [], 0, 0;
    }
  }

  method GetTopDuration(tasks: seq<Task>) returns (top: real)
    ensures tasks == [] ==> top == 0.0
    ensures tasks != [] ==> HasRank(tasks, 1, top)
  {
    var t := TopK(tasks, 1);
    if |t| < 1 {
      return 0.0;
    }
    return InMillis(t[0].Duration);
  }

  // A rank among a selection of the longest is that rank among all.
  lemma RankOfLongest(all: seq<Task>, top: seq<Task>, rank: nat, value: real)
    requires Longest(multiset(all), multiset(top)) && HasRank(top, rank, value)
    ensures HasRank(all, rank, value)
  {
    var d :| IsRank(multiset(top), rank, d) && value == InMillis(d);
    var sub :| Ranks(multiset(top), sub, rank, d);
    LongestOfLongest(multiset(all), multiset(top), sub);
    assert Ranks(multiset(all), sub, rank, d);
  }

  // Selecting a share of a selection: its rank among all, and the selection to go on with.
  method Share(all: seq<Task>, top: seq<Task>, k: nat) returns (share: seq<Task>, value: real)
    requires Longest(multiset(all), multiset(top)) && 0 < k <= |top|
    ensures Longest(multiset(all), multiset(share)) && |share| == k
    ensures HasRank(all, k, value)
  {
    share := TopK(top, k);
    value := InMillis(share[0].Duration);
    LongestOfLongest(multiset(all), multiset(top), multiset(share));
    assert HasRank(top, k, value);
    RankOfLongest(all, top, k, value);
  }

  method Most(all: seq<Task>, top: seq<Task>) returns (value: real)
    requires Longest(multiset(all), multiset(top)) && top != []
    ensures HasRank(all, 1, value)
  {
    value := GetTopDuration(top);
    RankOfLongest(all, top, 1, value);
  }

  // The report. Whatever branch is taken, each percentile is the duration of the task with the rank of
  // its share of all tasks, or of the longest task if the share is empty.
  method Execute(pair: Pair) returns (report: Report)
    ensures var size := |pair.tasks|;
            && report.Drops == pair.drops && report.ReqsPerSecond == size as real / LOG_INTERVAL_SECONDS as real
            && (size > 0 ==>
                  && report.Average == Quot(pair.duration, MILLISECOND) as real / size as real
                  && HasRank(pair.tasks, AtLeastOne(size / 2), report.Median)
                  && HasRank(pair.tasks, AtLeastOne(size / 2 / 5), report.Top90th)
                  && HasRank(pair.tasks, AtLeastOne(size / 2 / 5 / 10), report.Top99th)
                  && HasRank(pair.tasks, AtLeastOne(size / 2 / 5 / 10 / 10), report.Top99p9th))
            && (size == 0 ==>
                  report.Average == report.Median == report.Top90th == report.Top99th == report.Top99p9th == 0.0)
    ensures report.Median <= report.Top90th <= report.Top99th <= report.Top99p9th
  {
    var tasks, size := pair.tasks, |pair.tasks|;
    report := Report(size as real / LOG_INTERVAL_SECONDS as real, pair.drops, 0.0, 0.0, 0.0, 0.0, 0.0);
    if size > 0 {
      report := report.(Average := Quot(pair.duration, MILLISECOND) as real / size as real);
      var median, top90, top99, top999 := Percentiles(tasks);
      report := report.(Median := median, Top90th := top90, Top99th := top99, Top99p9th := top999);
      RanksInOrder(tasks, AtLeastOne(size / 2 / 5), AtLeastOne(size / 2), top90, median);
      RanksInOrder(tasks, AtLeastOne(size / 2 / 5 / 10), AtLeastOne(size / 2 / 5), top99, top90);
      RanksInOrder(tasks, AtLeastOne(size / 2 / 5 / 10 / 10), AtLeastOne(size / 2 / 5 / 10), top999, top99);
    }
  }

  method Percentiles(tasks: seq<Task>) returns (median: real, top90: real, top99: real, top999: real)
    requires tasks != []
    ensures HasRank(tasks, AtLeastOne(|tasks| / 2), median)
    ensures HasRank(tasks, AtLeastOne(|tasks| / 2 / 5), top90)
    ensures HasRank(tasks, AtLeastOne(|tasks| / 2 / 5 / 10), top99)
    ensures HasRank(tasks, AtLeastOne(|tasks| / 2 / 5 / 10 / 10), top999)
  {
    hide HasRank, Longest;
    LongestOfAll(multiset(tasks));
    var fiftyPercent := |tasks| / 2;
    if fiftyPercent > 0 {
      var top50pTasks;
      top50pTasks, median := Share(tasks, tasks, fiftyPercent);
      var tenPercent := fiftyPercent / 5;
      if tenPercent > 0 {
        var top10pTasks;
        top10pTasks, top90 := Share(tasks, top50pTasks, tenPercent);
        var onePercent := tenPercent / 10;
        if onePercent > 0 {
          var top1pTasks;
          top1pTasks, top99 := Share(tasks, top10pTasks, onePercent);
          var pointOnePercent := onePercent / 10;
          if pointOnePercent > 0 {
            var topPointOneTasks;
            topPointOneTasks, top999 := Share(tasks, top1pTasks, pointOnePercent);
          } else {
            top999 := Most(tasks, top1pTasks);
          }
        } else {
          top99 := Most(tasks, top10pTasks);
          top999 := top99;
        }
      } else {
        top90 := Most(tasks, top50pTasks);
        top99, top999 := top90, top90;
      }
    } else {
      median := Most(tasks, tasks);
      top90, top99, top999 := median, median, median;
    }
  }

  lemma LongestOfAll(all: multiset<Task>)
    ensures Longest(all, all)
  {
  }

  lemma RanksInOrder(tasks: seq<Task>, j: nat, k: nat, d: real, e: real)
    requires HasRank(tasks, j, d) && HasRank(tasks, k, e) && j <= k
    ensures e <= d
  {
    var dd :| IsRank(multiset(tasks), j, dd) && d == InMillis(dd);
    var ee :| IsRank(multiset(tasks), k, ee) && e == InMillis(ee);
    RankMonotone(multiset(tasks), j, k, dd, ee);
  }
}
