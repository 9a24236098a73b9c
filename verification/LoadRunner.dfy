/** The load harness (load-tests/run_load.py).

    Workers share a counter and a result list under one lock, in every interleaving; the report
    computes percentiles of the latencies. */
module LoadRunner {
  import opened Wrappers

  /** Where a worker is in its loop: before the stop and deadline checks, past them and about to
      take an index, running a request, or out of the loop. */
  datatype Worker = Top | Asking | Executing(index: nat) | Finished

  /** `lost` lists the requests that ended in an exception the request code does not catch: their
      worker ends without a result. */
  datatype State = State(counter: nat, results: seq<nat>, lost: seq<nat>, workers: seq<Worker>)

  /** One atomic step of one worker. `expired`: the deadline has passed, or the run was stopped.
      `crashes`: the request raises. */
  datatype Choice = Choice(worker: nat, expired: bool, crashes: bool)

  predicate Beyond(index: nat, limit: Option<nat>) {
    limit.Some? && index >= limit.value
  }

  function Moved(s: State, w: nat, worker: Worker): State
    requires w < |s.workers|
  {
    s.(workers := s.workers[w := worker])
  }

  function Step(s: State, c: Choice, limit: Option<nat>): State {
    if c.worker >= |s.workers| then s
    else
      match s.workers[c.worker]
      case Top => Moved(s, c.worker, if c.expired then Finished else Asking)
      case Asking =>
        var next := if Beyond(s.counter, limit) then Finished else Executing(s.counter);
        Moved(s, c.worker, next).(counter := s.counter + 1)
      case Executing(i) =>
        if c.crashes then Moved(s, c.worker, Finished).(lost := s.lost + [i])
        else Moved(s, c.worker, Top).(results := s.results + [i])
      case Finished => s
  }

  /** Any interleaving, as the sequence of the choices made. */
  function Run(s: State, schedule: seq<Choice>, limit: Option<nat>): State {
    if schedule == [] then s else Step(Run(s, schedule[..|schedule| - 1], limit), schedule[|schedule| - 1], limit)
  }

  function Started(workers: nat): State {
    State(0, [], [], seq(workers, _ => Top))
  }

  // ---------- each index once ----------

  /** The requests handed out: the first `counter` indices, but none beyond the limit. */
  function HandedOut(s: State, limit: Option<nat>): nat {
    if limit.Some? && limit.value < s.counter then limit.value else s.counter
  }

  function UpTo(n: nat): multiset<nat> {
    if n == 0 then multiset{} else UpTo(n - 1) + multiset{n - 1}
  }

  function HeldAt(worker: Worker, i: nat): nat {
    if worker == Executing(i) then 1 else 0
  }

  /** How many workers are running request `i`. */
  function InFlight(workers: seq<Worker>, i: nat): nat {
    if workers == [] then 0 else InFlight(workers[..|workers| - 1], i) + HeldAt(workers[|workers| - 1], i)
  }

  lemma {:induction false} UpToOnce(n: nat, i: nat)
    ensures UpTo(n)[i] == if i < n then 1 else 0
  {
    if n == 0 {
    } else {
      UpToOnce(n - 1, i);
    }
  }

  lemma {:induction false} UpToSize(n: nat)
    ensures |UpTo(n)| == n
  {
    if n == 0 {
    } else {
      UpToSize(n - 1);
    }
  }

  lemma {:induction false} InFlightMoved(workers: seq<Worker>, w: nat, worker: Worker, i: nat)
    requires w < |workers|
    ensures InFlight(workers[w := worker], i) + HeldAt(workers[w], i) == InFlight(workers, i) + HeldAt(worker, i)
  {
    var n := |workers| - 1;
    var moved := workers[w := worker];
    if w == n {
      assert moved[..n] == workers[..n];
    } else {
      assert moved[..n] == workers[..n][w := worker];
      InFlightMoved(workers[..n], w, worker, i);
    }
  }

  /** How often request `i` was executed: with a result, with an exception, or still running. */
  function Executions(s: State, i: nat): nat {
    multiset(s.results)[i] + multiset(s.lost)[i] + InFlight(s.workers, i)
  }

  /** Once if it was handed out, and otherwise not at all. */
  ghost predicate Accounted(s: State, limit: Option<nat>, i: nat) {
    Executions(s, i) == if i < HandedOut(s, limit) then 1 else 0
  }

  lemma {:induction false} NoneInFlight(n: nat, i: nat)
    ensures InFlight(Started(n).workers, i) == 0
  {
    if n == 0 {
    } else {
      NoneInFlight(n - 1, i);
      assert Started(n).workers[..n - 1] == Started(n - 1).workers;
    }
  }

  lemma {:induction false} Appended(list: seq<nat>, k: nat, i: nat)
    ensures multiset(list + [k])[i] == multiset(list)[i] + if k == i then 1 else 0
  {
    assert multiset(list + [k]) == multiset(list) + multiset{k};
  }

  lemma {:induction false} StepExecutions(s: State, c: Choice, limit: Option<nat>, i: nat)
    requires c.worker < |s.workers|
    ensures Executions(Step(s, c, limit), i) ==
            Executions(s, i) + if s.workers[c.worker] == Asking && !Beyond(s.counter, limit)
                && i == s.counter then 1 else 0
  {
    InFlightMoved(s.workers, c.worker, Step(s, c, limit).workers[c.worker], i);
    if s.workers[c.worker].Executing? {
      Appended(if c.crashes then s.lost else s.results, s.workers[c.worker].index, i);
    }
  }

  lemma {:induction false} StepAccounts(s: State, c: Choice, limit: Option<nat>, i: nat)
    requires Accounted(s, limit, i)
    ensures Accounted(Step(s, c, limit), limit, i)
  {
    if c.worker < |s.workers| {
      StepExecutions(s, c, limit, i);
    }
  }

  /** In every interleaving, with deadlines and exceptions: each request handed out is executed
      exactly once, and none at or beyond the limit ever is. */
  lemma {:induction false} NoRequestTwice(workers: nat, schedule: seq<Choice>, limit: Option<nat>, i: nat)
    ensures Executions(Run(Started(workers), schedule, limit), i) ==
            if i < Run(Started(workers), schedule, limit).counter && !Beyond(i, limit) then 1 else 0
  {
    if schedule == [] {
      NoneInFlight(workers, i);
    } else {
      var init := schedule[..|schedule| - 1];
      NoRequestTwice(workers, init, limit, i);
      StepAccounts(Run(Started(workers), init, limit), schedule[|schedule| - 1], limit, i);
    }
  }

  lemma {:induction false} SameWorkers(workers: nat, schedule: seq<Choice>, limit: Option<nat>)
    ensures |Run(Started(workers), schedule, limit).workers| == workers
  {
    if schedule == [] {
    } else {
      SameWorkers(workers, schedule[..|schedule| - 1], limit);
    }
  }

  /** The choice lets the request of a worker raise. */
  predicate Raises(s: State, c: Choice) {
    c.worker < |s.workers| && s.workers[c.worker].Executing? && c.crashes
  }

  function Raised(s: State, schedule: seq<Choice>, limit: Option<nat>): seq<nat> {
    if schedule == [] then []
    else
      var before, c := Run(s, schedule[..|schedule| - 1], limit), schedule[|schedule| - 1];
      Raised(s, schedule[..|schedule| - 1], limit)
      + if Raises(before, c) then [before.workers[c.worker].index] else []
  }

  /** Exactly the requests that raised are left without a result, and each ended its worker. */
  lemma {:induction false} LostExactly(s: State, schedule: seq<Choice>, limit: Option<nat>)
    requires s.lost == []
    ensures Run(s, schedule, limit).lost == Raised(s, schedule, limit)
    ensures schedule != [] ==>
              var before, after := Run(s, schedule[..|schedule| - 1], limit), Run(s, schedule, limit);
              var c := schedule[|schedule| - 1];
              Raises(before, c) ==> c.worker < |after.workers| && after.workers[c.worker] == Finished
  {
    if schedule == [] {
    } else {
      LostExactly(s, schedule[..|schedule| - 1], limit);
    }
  }

  // ---------- all workers end ----------

  function StepsOf(worker: Worker): nat {
    match worker
    case Top => 2
    case Asking => 1
    case Executing(_) => 3
    case Finished => 0
  }

  function Ranks(workers: seq<Worker>): nat {
    if workers == [] then 0 else Ranks(workers[..|workers| - 1]) + StepsOf(workers[|workers| - 1])
  }

  lemma {:induction false} RanksMoved(workers: seq<Worker>, w: nat, worker: Worker)
    requires w < |workers|
    ensures Ranks(workers[w := worker]) + StepsOf(workers[w]) == Ranks(workers) + StepsOf(worker)
  {
    var n := |workers| - 1;
    var moved := workers[w := worker];
    if w == n {
      assert moved[..n] == workers[..n];
    } else {
      assert moved[..n] == workers[..n][w := worker];
      RanksMoved(workers[..n], w, worker);
    }
  }

  function Left(s: State, limit: nat): nat {
    if s.counter < limit then limit - s.counter else 0
  }

  /** How many steps can still be taken, at most. */
  function Fuel(s: State, limit: nat): nat {
    3 * Left(s, limit) + Ranks(s.workers)
  }

  predicate CanMove(s: State, c: Choice) {
    c.worker < |s.workers| && s.workers[c.worker] != Finished
  }

  lemma {:induction false} StepBurns(s: State, c: Choice, limit: nat)
    requires CanMove(s, c)
    ensures Fuel(Step(s, c, Some(limit)), limit) < Fuel(s, limit)
  {
    RanksMoved(s.workers, c.worker, Step(s, c, Some(limit)).workers[c.worker]);
  }

  /** Only workers that are still running take steps. */
  ghost predicate Productive(s: State, schedule: seq<Choice>, limit: Option<nat>) {
    schedule == [] ||
    (Productive(s, schedule[..|schedule| - 1], limit)
     && CanMove(Run(s, schedule[..|schedule| - 1], limit), schedule[|schedule| - 1]))
  }

  lemma {:induction false} FuelBounds(s: State, schedule: seq<Choice>, limit: nat)
    requires Productive(s, schedule, Some(limit))
    ensures |schedule| + Fuel(Run(s, schedule, Some(limit)), limit) <= Fuel(s, limit)
  {
    if schedule == [] {
    } else {
      FuelBounds(s, schedule[..|schedule| - 1], limit);
      StepBurns(Run(s, schedule[..|schedule| - 1], Some(limit)), schedule[|schedule| - 1], limit);
    }
  }

  lemma {:induction false} StartedRanks(n: nat)
    ensures Ranks(Started(n).workers) == 2 * n
  {
    if n == 0 {
    } else {
      StartedRanks(n - 1);
      assert Started(n).workers[..n - 1] == Started(n - 1).workers;
    }
  }

  predicate AllFinished(s: State) {
    forall w :: 0 <= w < |s.workers| ==> s.workers[w] == Finished
  }

  /** With a request limit every interleaving ends: after a bounded number of steps no worker can
      move, and a state in which none can move has them all out of their loops. */
  lemma {:induction false} AllWorkersEnd(workers: nat, schedule: seq<Choice>, limit: nat)
    requires Productive(Started(workers), schedule, Some(limit))
    ensures |schedule| <= 3 * limit + 2 * workers
    ensures var s := Run(Started(workers), schedule, Some(limit));
            AllFinished(s) <==> forall c: Choice :: !CanMove(s, c)
  {
    FuelBounds(Started(workers), schedule, limit);
    StartedRanks(workers);
    var s := Run(Started(workers), schedule, Some(limit));
    if forall c: Choice :: !CanMove(s, c) {
      forall w | 0 <= w < |s.workers| ensures s.workers[w] == Finished {
        assert !CanMove(s, Choice(w, false, false));
      }
    }
  }

  /** Without a deadline and without exceptions. */
  ghost predicate Undisturbed(schedule: seq<Choice>) {
    forall k :: 0 <= k < |schedule| ==> !schedule[k].expired && !schedule[k].crashes
  }

  lemma {:induction false} EndsOnlyAtTheLimit(workers: nat, schedule: seq<Choice>, limit: nat)
    requires Undisturbed(schedule)
    ensures var s := Run(Started(workers), schedule, Some(limit));
            s.lost == [] && forall w :: 0 <= w < |s.workers| && s.workers[w] == Finished ==> s.counter > limit
  {
    if schedule == [] {
    } else {
      var init := schedule[..|schedule| - 1];
      assert forall k :: 0 <= k < |init| ==> init[k] == schedule[k];
      EndsOnlyAtTheLimit(workers, init, limit);
    }
  }

  lemma {:induction false} FinishedHoldNothing(workers: seq<Worker>, i: nat)
    requires forall w :: 0 <= w < |workers| ==> workers[w] == Finished
    ensures InFlight(workers, i) == 0
  {
    if workers == [] {
    } else {
      FinishedHoldNothing(workers[..|workers| - 1], i);
    }
  }

  /** When all workers of an undisturbed run have ended, the results are those of the requests
      0 to limit - 1, each exactly once, whatever the interleaving was. */
  lemma {:induction false} EveryRequestOnce(workers: nat, schedule: seq<Choice>, limit: nat)
    requires workers > 0 && Undisturbed(schedule) && AllFinished(Run(Started(workers), schedule, Some(limit)))
    ensures multiset(Run(Started(workers), schedule, Some(limit)).results) == UpTo(limit)
    ensures |Run(Started(workers), schedule, Some(limit)).results| == limit
  {
    var s := Run(Started(workers), schedule, Some(limit));
    EndsOnlyAtTheLimit(workers, schedule, limit);
    SameWorkers(workers, schedule, Some(limit));
    assert s.workers[0] == Finished;
    forall i: nat ensures multiset(s.results)[i] == UpTo(limit)[i] {
      NoRequestTwice(workers, schedule, Some(limit), i);
      FinishedHoldNothing(s.workers, i);
      UpToOnce(limit, i);
    }
    SameMultiset(s.results, limit);
  }

  lemma {:induction false} SameMultiset(results: seq<nat>, limit: nat)
    requires forall i: nat :: multiset(results)[i] == UpTo(limit)[i]
    ensures multiset(results) == UpTo(limit) && |results| == limit
  {
    UpToSize(limit);
    assert multiset(results) == UpTo(limit);
    assert |multiset(results)| == |results|;
  }

  // ---------- the runner ----------

  class Runner {
    const requests: nat
    var counter: nat
    var results: seq<nat>

    constructor (requests: nat)
      ensures this.requests == requests && counter == 0 && results == []
    {
      this.requests := requests;
      counter, results := 0, [];
    }

    /** The section under the lock: no two calls return the same index. */
    method NextIndex() returns (value: nat)
      modifies this`counter
      ensures value == old(counter) && counter == old(counter) + 1
    {
      value := counter;
      counter := counter + 1;
    }

    method ExecuteOne(index: nat)
      modifies this`results
      ensures results == old(results) + [index]
    {
      results := results + [index];
    }

    ghost function Now(workers: seq<Worker>): State
      reads this
    {
      State(counter, results, [], workers)
    }

    /** All workers of the pool to their end, with any worker moving next. */
    method RunAll(concurrency: nat)
      requires concurrency > 0 && counter == 0 && results == []
      modifies this
      ensures multiset(results) == UpTo(requests) && |results| == requests
    {
      var workers := seq(concurrency, _ => Top);
      ghost var schedule: seq<Choice> := [];
      while exists w: nat | w < |workers| :: workers[w] != Finished
        invariant Now(workers) == Run(Started(concurrency), schedule, Some(requests)) && |workers| == concurrency
        invariant Undisturbed(schedule)
        decreases Fuel(Now(workers), requests)
      {
        var w: nat :| w < |workers| && workers[w] != Finished;
        ghost var before, c := Now(workers), Choice(w, false, false);
        StepBurns(before, c, requests);
        match workers[w] {
          case Top => workers := workers[w := Asking];
          case Asking =>
            var index := NextIndex();
            workers := workers[w := if index >= requests then Finished else Executing(index)];
          case Executing(index) =>
            ExecuteOne(index);
            workers := workers[w := Top];
        }
        assert (schedule + [c])[..|schedule|] == schedule;
        schedule := schedule + [c];
      }
      EveryRequestOnce(concurrency, schedule, requests);
    }
  }

  // ---------- the percentile ----------

  function Ceiling(x: real): int {
    -((-x).Floor)
  }

  function Inserted(s: seq<real>, x: real): seq<real> {
    if s == [] || s[|s| - 1] <= x then s + [x] else Inserted(s[..|s| - 1], x) + [s[|s| - 1]]
  }

  function Sorted(s: seq<real>): seq<real> {
    if s == [] then [] else Inserted(Sorted(s[..|s| - 1]), s[|s| - 1])
  }

  /** The index of the nearest rank for a share of `x` values. */
  function RankOf(x: real): int {
    if Ceiling(x) - 1 < 0 then 0 else Ceiling(x) - 1
  }

  function Rank(percent: real, n: nat): int {
    RankOf(Share(percent, n))
  }

  function Share(percent: real, n: nat): real {
    percent / 100.0 * n as real
  }

  /** `RankOutOfRange`: the index error that a percentage above 100 can run into. */
  datatype Ranked = NoValues | RankOutOfRange | Value(value: real)

  /** Nearest rank. */
  function Percentile(values: seq<real>, percent: real): Ranked {
    if values == [] then NoValues
    else
      SortedAscending(values);
      var rank := Rank(percent, |values|);
      if rank >= |values| then RankOutOfRange else Value(Sorted(values)[rank])
  }

  lemma {:induction false} RankOfRange(x: real, n: nat)
    requires x <= n as real && n > 0
    ensures 0 <= RankOf(x) < n
    ensures x > 0.0 ==> RankOf(x) as real < x <= (RankOf(x) + 1) as real
  {
  }

  lemma {:induction false} RankInRange(n: nat, percent: real)
    requires percent <= 100.0 && n > 0
    ensures 0 <= Rank(percent, n) < n
  {
    ScaledAtMost(percent / 100.0, n as real);
    RankOfRange(Share(percent, n), n);
  }

  lemma {:induction false} ShareRange(percent: real, n: nat)
    requires 0.0 < percent <= 100.0 && n > 0
    ensures 0.0 < Share(percent, n) <= n as real
  {
    var share, x := percent / 100.0, n as real;
    ScaledAtMost(share, x);
    SharePositive(share, x);
  }

  lemma {:induction false} ScaledAtMost(share: real, n: real)
    requires share <= 1.0 && n > 0.0
    ensures share * n <= n
  {
    if share < 1.0 {
      assert (1.0 - share) * n > 0.0;
    }
  }

  /** How many values are at most `x`, and how many are below it. */
  function AtMost(s: seq<real>, x: real): nat {
    if s == [] then 0 else AtMost(s[..|s| - 1], x) + if s[|s| - 1] <= x then 1 else 0
  }

  function Under(s: seq<real>, x: real): nat {
    if s == [] then 0 else Under(s[..|s| - 1], x) + if s[|s| - 1] < x then 1 else 0
  }

  ghost predicate Ascending(s: seq<real>) {
    forall i, j :: 0 <= i < j < |s| ==> s[i] <= s[j]
  }

  lemma {:induction false} InsertedAtMost(s: seq<real>, x: real, y: real)
    ensures AtMost(Inserted(s, x), y) == AtMost(s, y) + (if x <= y then 1 else 0)
  {
    if s == [] || s[|s| - 1] <= x {
      assert (s + [x])[..|s|] == s;
    } else {
      InsertedAtMost(s[..|s| - 1], x, y);
      var rest := Inserted(s[..|s| - 1], x);
      assert (rest + [s[|s| - 1]])[..|rest|] == rest;
    }
  }

  lemma {:induction false} InsertedUnder(s: seq<real>, x: real, y: real)
    ensures Under(Inserted(s, x), y) == Under(s, y) + (if x < y then 1 else 0)
  {
    if s == [] || s[|s| - 1] <= x {
      assert (s + [x])[..|s|] == s;
    } else {
      InsertedUnder(s[..|s| - 1], x, y);
      var rest := Inserted(s[..|s| - 1], x);
      assert (rest + [s[|s| - 1]])[..|rest|] == rest;
    }
  }

  lemma {:induction false} InsertedElements(s: seq<real>, x: real)
    ensures multiset(Inserted(s, x)) == multiset(s) + multiset{x}
  {
    if s != [] && x < s[|s| - 1] {
      InsertedElements(s[..|s| - 1], x);
      assert s == s[..|s| - 1] + [s[|s| - 1]];
    }
  }

  ghost predicate Bounded(s: seq<real>, y: real) {
    forall k :: 0 <= k < |s| ==> s[k] <= y
  }

  lemma {:induction false} InsertedBounded(s: seq<real>, x: real, y: real)
    requires Bounded(s, y) && x <= y
    ensures Bounded(Inserted(s, x), y)
  {
    if s != [] && x < s[|s| - 1] {
      InsertedBounded(s[..|s| - 1], x, y);
    }
  }

  lemma {:induction false} InsertedAscending(s: seq<real>, x: real)
    requires Ascending(s)
    ensures Ascending(Inserted(s, x)) && |Inserted(s, x)| == |s| + 1
  {
    if s != [] && x < s[|s| - 1] {
      InsertedAscending(s[..|s| - 1], x);
      InsertedBounded(s[..|s| - 1], x, s[|s| - 1]);
    }
  }

  lemma {:induction false} SortedAscending(s: seq<real>)
    ensures |Sorted(s)| == |s| && Ascending(Sorted(s))
  {
    if s == [] {
    } else {
      SortedAscending(s[..|s| - 1]);
      InsertedAscending(Sorted(s[..|s| - 1]), s[|s| - 1]);
    }
  }

  lemma {:induction false} SortedCounts(s: seq<real>, y: real)
    ensures AtMost(Sorted(s), y) == AtMost(s, y) && Under(Sorted(s), y) == Under(s, y)
  {
    if s == [] {
    } else {
      SortedCounts(s[..|s| - 1], y);
      InsertedAtMost(Sorted(s[..|s| - 1]), s[|s| - 1], y);
      InsertedUnder(Sorted(s[..|s| - 1]), s[|s| - 1], y);
    }
  }

  lemma {:induction false} SortedElements(s: seq<real>)
    ensures multiset(Sorted(s)) == multiset(s)
  {
    if s == [] {
    } else {
      SortedElements(s[..|s| - 1]);
      InsertedElements(Sorted(s[..|s| - 1]), s[|s| - 1]);
      assert s == s[..|s| - 1] + [s[|s| - 1]];
    }
  }

  /** In an ascending list the value at `k` has at least k + 1 values at most it and at most k
      below it. */
  lemma {:induction false} CountsAt(s: seq<real>, k: nat, n: nat)
    requires Ascending(s) && k < |s| && n <= |s|
    ensures n <= k ==> AtMost(s[..n], s[k]) == n
    ensures n > k ==> AtMost(s[..n], s[k]) >= k + 1
    ensures Under(s[..n], s[k]) <= k
  {
    if n == 0 {
    } else {
      CountsAt(s, k, n - 1);
      assert s[..n][..n - 1] == s[..n - 1];
      if n <= k {
        UnderAtMost(s[..n], s[k]);
      } else {
        assert s[n - 1] >= s[k];
      }
    }
  }

  lemma {:induction false} UnderAtMost(s: seq<real>, x: real)
    ensures Under(s, x) <= |s|
  {
    if s == [] {
    } else {
      UnderAtMost(s[..|s| - 1], x);
    }
  }

  /** The percentile is one of the values; at least the given share of them is at most it, and
      less than that share is below it. */
  lemma {:induction false} PercentileMeaning(values: seq<real>, percent: real)
    requires values != [] && 0.0 < percent <= 100.0
    ensures Percentile(values, percent).Value?
    ensures var r, share := Percentile(values, percent).value, Share(percent, |values|);
            && r in multiset(values) && AtMost(values, r) as real >= share && (Under(values, r) as real) < share
  {
    ShareRange(percent, |values|);
    RankInRange(|values|, percent);
    SortedAscending(values);
    RankedValue(values, Share(percent, |values|));
  }

  /** No percentile without values, and none for a share of more than all of them. */
  lemma {:induction false} PercentileMissing(values: seq<real>, percent: real)
    ensures Percentile(values, percent) == NoValues <==> values == []
    ensures Percentile(values, percent) == RankOutOfRange <==>
            values != [] && Share(percent, |values|) > |values| as real
    ensures Share(percent, |values|) * 100.0 == percent * |values| as real
  {
    if values != [] {
      RankBeyond(Share(percent, |values|), |values|);
    }
  }

  /** A share of none or less is the least value. */
  lemma {:induction false} PercentileOfNone(values: seq<real>, percent: real)
    requires values != [] && percent <= 0.0
    ensures Percentile(values, percent).Value? && LeastOf(values, Percentile(values, percent).value)
  {
    FirstIsLeast(values);
    RankOfNone(percent, |values|);
  }

  ghost predicate LeastOf(values: seq<real>, least: real) {
    least in multiset(values) && forall x :: x in multiset(values) ==> least <= x
  }

  lemma {:induction false} RankOfNone(percent: real, n: nat)
    requires percent <= 0.0 && n > 0
    ensures Rank(percent, n) == 0
  {
    ShareNegative(percent / 100.0, n as real);
    RankBeyond(Share(percent, n), n);
  }

  lemma {:induction false} RankBeyond(x: real, n: nat)
    requires n > 0
    ensures RankOf(x) >= n <==> x > n as real
    ensures x <= 0.0 ==> RankOf(x) == 0
  {
  }

  lemma {:induction false} FirstIsLeast(values: seq<real>)
    requires values != []
    ensures |Sorted(values)| == |values|
    ensures LeastOf(values, Sorted(values)[0])
  {
    var ordered := Sorted(values);
    SortedAscending(values);
    SortedElements(values);
    assert ordered[0] in multiset(ordered);
    forall x | x in multiset(values) ensures ordered[0] <= x {
      assert x in multiset(ordered);
      var k :| 0 <= k < |ordered| && ordered[k] == x;
    }
  }

  lemma {:induction false} ShareNegative(share: real, n: real)
    requires share <= 0.0 && n > 0.0
    ensures share * n <= 0.0
  {
    if share < 0.0 { SharePositive(-share, n); }
  }

  lemma {:induction false} RankedValue(values: seq<real>, share: real)
    requires values != [] && 0.0 < share <= |values| as real && |Sorted(values)| == |values|
    ensures 0 <= RankOf(share) < |values|
    ensures var r := Sorted(values)[RankOf(share)];
            r in multiset(values) && AtMost(values, r) as real >= share && (Under(values, r) as real) < share
  {
    RankOfRange(share, |values|);
    CountsOfSorted(values, RankOf(share));
    SortedElements(values);
    assert Sorted(values)[RankOf(share)] in multiset(Sorted(values));
  }

  lemma {:induction false} CountsOfSorted(values: seq<real>, k: nat)
    requires |Sorted(values)| == |values| && k < |values|
    ensures AtMost(values, Sorted(values)[k]) >= k + 1 && Under(values, Sorted(values)[k]) <= k
  {
    var ordered := Sorted(values);
    SortedAscending(values);
    CountsAt(ordered, k, |ordered|);
    assert ordered[..|ordered|] == ordered;
    SortedCounts(values, ordered[k]);
  }

  lemma {:induction false} SharePositive(share: real, n: real)
    requires share > 0.0 && n > 0.0
    ensures share * n > 0.0
  {
  }
}
