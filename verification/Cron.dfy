/**
 The scheduler's tick, which re-enters itself when a job's message comes back to the scheduler.
 */
module Cron {
  import opened Options

  // `reentries`: how often handling the job's message calls the tick again.
  datatype Job = Job(interval: int, lastRun: int, enabled: bool, runCount: nat, reentries: nat)

  predicate Due(job: Job, now: int) {
    job.enabled && now - job.lastRun >= job.interval
  }

  function Stamp(job: Job, now: int): Job {
    job.(lastRun := now, runCount := job.runCount + 1)
  }

  // A tick without re-entry: every due job runs, once.
  function Once(job: Job, now: int): Job {
    if Due(job, now) then Stamp(job, now) else job
  }

  function Ticked(jobs: seq<Job>, now: int): (r: seq<Job>)
    ensures |r| == |jobs| && forall i | 0 <= i < |jobs| :: r[i] == Once(jobs[i], now)
  {
    seq(|jobs|, i requires 0 <= i < |jobs| => Once(jobs[i], now))
  }

  // ---------- when a tick ends ----------

  // A tick in which ticks are nested at most `depth` deep, or None if that is not enough.
  function Nested(jobs: seq<Job>, now: int, depth: nat): (r: Option<seq<Job>>)
    ensures r.Some? ==> |r.value| == |jobs|
    decreases depth, 0, 0
  {
    if depth == 0 then None else From(jobs, now, 0, depth)
  }

  // The tick from job `i` on.
  function From(jobs: seq<Job>, now: int, i: nat, depth: nat): (r: Option<seq<Job>>)
    requires i <= |jobs| && depth > 0
    ensures r.Some? ==> |r.value| == |jobs|
    decreases depth - 1, 2, |jobs| - i
  {
    if i == |jobs| then Some(jobs)
    else if !Due(jobs[i], now) then From(jobs, now, i + 1, depth)
    else
      var r := Sent(jobs[i := Stamp(jobs[i], now)], now, jobs[i].reentries, depth - 1);
      if r.None? then None else From(r.value, now, i + 1, depth)
  }

  // A message that calls the tick `n` times.
  function Sent(jobs: seq<Job>, now: int, n: nat, depth: nat): (r: Option<seq<Job>>)
    ensures r.Some? ==> |r.value| == |jobs|
    decreases depth, 1, n
  {
    if n == 0 then Some(jobs)
    else
      var r := Sent(jobs, now, n - 1, depth);
      if r.None? then None else Nested(r.value, now, depth)
  }

  // A due job that would run again at once and whose message comes back.
  predicate Loops(job: Job, now: int) {
    Due(job, now) && job.interval <= 0 && job.reentries > 0
  }

  ghost predicate Ends(jobs: seq<Job>, now: int) {
    forall i | 0 <= i < |jobs| :: !Loops(jobs[i], now)
  }

  // If there is such a job, no depth is enough.
  lemma {:induction false} Endless(jobs: seq<Job>, now: int, depth: nat, k: nat)
    requires k < |jobs| && Loops(jobs[k], now)
    ensures Nested(jobs, now, depth) == None
    decreases depth, 0, 0
  {
    if depth > 0 {
      EndlessFrom(jobs, now, 0, depth, k);
    }
  }

  lemma {:induction false} EndlessFrom(jobs: seq<Job>, now: int, i: nat, depth: nat, k: nat)
    requires i <= k < |jobs| && depth > 0 && Loops(jobs[k], now)
    ensures From(jobs, now, i, depth) == None
    decreases depth - 1, 2, |jobs| - i
  {
    if !Due(jobs[i], now) {
      EndlessFrom(jobs, now, i + 1, depth, k);
    } else {
      var jobs' := jobs[i := Stamp(jobs[i], now)];
      if jobs[i].reentries == 0 {
        EndlessFrom(jobs', now, i + 1, depth, k);
      } else {
        EndlessSent(jobs', now, jobs[i].reentries, depth - 1, k);
      }
    }
  }

  lemma {:induction false} EndlessSent(jobs: seq<Job>, now: int, n: nat, depth: nat, k: nat)
    requires k < |jobs| && Loops(jobs[k], now) && n > 0
    ensures Sent(jobs, now, n, depth) == None
    decreases depth, 1, n
  {
    if n == 1 {
      Endless(jobs, now, depth, k);
    } else {
      EndlessSent(jobs, now, n - 1, depth, k);
    }
  }

  // ---------- what a tick that ends does ----------

  // A job that re-enters the tick.
  predicate Reenters(job: Job, now: int) {
    Due(job, now) && job.reentries > 0
  }

  function CountReentering(jobs: seq<Job>, now: int): nat {
    if jobs == [] then 0
    else CountReentering(jobs[..|jobs| - 1], now) + if Reenters(jobs[|jobs| - 1], now) then 1 else 0
  }

  // The job has run at `now`: exactly once if its interval is positive.
  predicate Ran(job: Job, job0: Job, now: int) {
    && job == job0.(lastRun := now, runCount := job.runCount) && job.runCount > job0.runCount
    && (job0.interval >= 1 ==> job == Stamp(job0, now))
  }

  // The job is as before, or was due and has run.
  predicate MaybeRan(job: Job, job0: Job, now: int) {
    job == job0 || (Due(job0, now) && Ran(job, job0, now))
  }

  ghost predicate Partly(jobs: seq<Job>, jobs0: seq<Job>, now: int) {
    |jobs| == |jobs0| && forall i | 0 <= i < |jobs| :: MaybeRan(jobs[i], jobs0[i], now)
  }

  lemma PartlyTwice(jobs: seq<Job>, jobs1: seq<Job>, jobs0: seq<Job>, now: int)
    requires Partly(jobs, jobs1, now) && Partly(jobs1, jobs0, now)
    ensures Partly(jobs, jobs0, now)
  {
    forall i | 0 <= i < |jobs| ensures MaybeRan(jobs[i], jobs0[i], now) {
      assert MaybeRan(jobs[i], jobs1[i], now) && MaybeRan(jobs1[i], jobs0[i], now);
    }
  }

  // Running jobs leaves fewer that re-enter, the measure of the re-entry.
  lemma {:induction false} FewerReentering(jobs: seq<Job>, jobs0: seq<Job>, now: int, i: int)
    requires Ends(jobs0, now) && Partly(jobs, jobs0, now)
    ensures Ends(jobs, now) && CountReentering(jobs, now) <= CountReentering(jobs0, now)
    ensures 0 <= i < |jobs| && Reenters(jobs0[i], now) && jobs[i] != jobs0[i] ==>
              CountReentering(jobs, now) < CountReentering(jobs0, now)
  {
    forall k | 0 <= k < |jobs| ensures !Loops(jobs[k], now) {
      assert MaybeRan(jobs[k], jobs0[k], now) && !Loops(jobs0[k], now);
    }
    if jobs != [] {
      var last := |jobs| - 1;
      FewerReentering(jobs[..last], jobs0[..last], now, i);
      assert MaybeRan(jobs[last], jobs0[last], now) && !Loops(jobs0[last], now);
    }
  }

  // If no job loops, as many levels suffice as jobs re-enter, and one more. Every due job runs.
  lemma {:induction false} NestedEnds(jobs: seq<Job>, now: int, depth: nat)
    requires Ends(jobs, now) && CountReentering(jobs, now) < depth
    ensures var r := Nested(jobs, now, depth);
      && r.Some? && Partly(r.value, jobs, now)
      && forall k | 0 <= k < |jobs| && Due(jobs[k], now) :: r.value[k] != jobs[k]
    decreases depth, 0, 0
  {
    FromEnds(jobs, now, 0, depth);
  }

  lemma {:induction false} FromEnds(jobs: seq<Job>, now: int, i: nat, depth: nat)
    requires Ends(jobs, now) && CountReentering(jobs, now) < depth && i <= |jobs|
    ensures var r := From(jobs, now, i, depth);
      && r.Some? && Partly(r.value, jobs, now)
      && forall k | i <= k < |jobs| && Due(jobs[k], now) :: r.value[k] != jobs[k]
    decreases depth - 1, 2, |jobs| - i
  {
    if i < |jobs| {
      if !Due(jobs[i], now) {
        FromEnds(jobs, now, i + 1, depth);
      } else {
        var jobs1 := jobs[i := Stamp(jobs[i], now)];
        assert Partly(jobs1, jobs, now);
        FewerReentering(jobs1, jobs, now, i);
        SentEnds(jobs1, now, jobs[i].reentries, depth - 1);
        var jobs2 := Sent(jobs1, now, jobs[i].reentries, depth - 1).value;
        PartlyTwice(jobs2, jobs1, jobs, now);
        FewerReentering(jobs2, jobs, now, i);
        FromEnds(jobs2, now, i + 1, depth);
        RestRan(From(jobs2, now, i + 1, depth).value, jobs2, jobs1, jobs, now, i);
      }
    }
  }

  lemma RestRan(jobs3: seq<Job>, jobs2: seq<Job>, jobs1: seq<Job>, jobs: seq<Job>, now: int, i: nat)
    requires i < |jobs| && Due(jobs[i], now) && jobs1 == jobs[i := Stamp(jobs[i], now)]
    requires Partly(jobs3, jobs2, now) && Partly(jobs2, jobs1, now)
    requires forall k | i < k < |jobs| && Due(jobs2[k], now) :: jobs3[k] != jobs2[k]
    ensures Partly(jobs3, jobs, now) && forall k | i <= k < |jobs| && Due(jobs[k], now) :: jobs3[k] != jobs[k]
  {
    assert Partly(jobs1, jobs, now);
    PartlyTwice(jobs2, jobs1, jobs, now);
    PartlyTwice(jobs3, jobs2, jobs, now);
    forall k | i <= k < |jobs| && Due(jobs[k], now) ensures jobs3[k] != jobs[k] {
      assert MaybeRan(jobs3[k], jobs2[k], now) && MaybeRan(jobs2[k], jobs1[k], now);
    }
  }

  lemma {:induction false} SentEnds(jobs: seq<Job>, now: int, n: nat, depth: nat)
    requires Ends(jobs, now) && (n > 0 ==> CountReentering(jobs, now) < depth)
    ensures var r := Sent(jobs, now, n, depth); r.Some? && Partly(r.value, jobs, now)
    decreases depth, 1, n
  {
    if n > 0 {
      SentEnds(jobs, now, n - 1, depth);
      var jobs1 := Sent(jobs, now, n - 1, depth).value;
      FewerReentering(jobs1, jobs, now, 0);
      NestedEnds(jobs1, now, depth);
      PartlyTwice(Nested(jobs1, now, depth).value, jobs1, jobs, now);
    }
  }

  // A tick ends if and only if no due job with an interval that is not positive re-enters it.
  lemma EndsExactly(jobs: seq<Job>, now: int)
    ensures (exists depth: nat :: Nested(jobs, now, depth).Some?) <==> Ends(jobs, now)
  {
    if Ends(jobs, now) {
      NestedEnds(jobs, now, CountReentering(jobs, now) + 1);
      assert Nested(jobs, now, CountReentering(jobs, now) + 1).Some?;
    } else {
      var k :| 0 <= k < |jobs| && Loops(jobs[k], now);
      forall depth: nat ensures Nested(jobs, now, depth).None? {
        Endless(jobs, now, depth, k);
      }
    }
  }

  ghost predicate Positive(jobs: seq<Job>) {
    forall i | 0 <= i < |jobs| :: jobs[i].interval >= 1
  }

  // With positive intervals every due job runs exactly once, however often the tick re-enters itself.
  lemma EachOnce(jobs: seq<Job>, now: int, depth: nat)
    requires Positive(jobs) && CountReentering(jobs, now) < depth
    ensures Ends(jobs, now) && Nested(jobs, now, depth) == Some(Ticked(jobs, now))
  {
    NestedEnds(jobs, now, depth);
    var r := Nested(jobs, now, depth).value;
    forall k | 0 <= k < |jobs| ensures r[k] == Ticked(jobs, now)[k] {
      assert MaybeRan(r[k], jobs[k], now);
    }
    assert r == Ticked(jobs, now);
  }

  // ---------- how often a job runs ----------

  // The job after ticks at the times `clock`, and when it ran.
  function After(job: Job, clock: seq<int>): Job {
    if clock == [] then job else Once(After(job, clock[..|clock| - 1]), clock[|clock| - 1])
  }

  function Runs(job: Job, clock: seq<int>): seq<int> {
    if clock == [] then []
    else
      var last := |clock| - 1;
      Runs(job, clock[..last]) + if Due(After(job, clock[..last]), clock[last]) then [clock[last]] else []
  }

  predicate Spaced(stamps: seq<int>, interval: int) {
    forall k | 0 < k < |stamps| :: stamps[k] - stamps[k - 1] >= interval
  }

  // Runs are counted, the last one is remembered, and they are an interval apart.
  lemma {:induction false} RunsRecorded(job: Job, clock: seq<int>)
    ensures var runs, job' := Runs(job, clock), After(job, clock);
      && job' == job.(lastRun := job'.lastRun, runCount := job.runCount + |runs|)
      && Spaced(runs, job.interval) && job'.lastRun == (if runs == [] then job.lastRun else runs[|runs| - 1])
  {
    if clock != [] {
      RunsRecorded(job, clock[..|clock| - 1]);
    }
  }

  // A job never runs while it is disabled, nor before its interval is over since its last run.
  lemma {:induction false} NeverEarly(job: Job, clock: seq<int>)
    ensures Runs(job, clock) != [] ==> job.enabled && Runs(job, clock)[0] - job.lastRun >= job.interval
  {
    if clock != [] {
      var before := clock[..|clock| - 1];
      NeverEarly(job, before);
      RunsRecorded(job, before);
    }
  }

  // And it is not late: after a tick the interval of an enabled job is not over, unless it has just run.
  lemma NeverLate(job: Job, clock: seq<int>)
    requires job.enabled && clock != []
    ensures var now, last := clock[|clock| - 1], After(job, clock).lastRun; last == now || now - last < job.interval
  {
    RunsRecorded(job, clock[..|clock| - 1]);
  }

  // How many of the stamps lie from `from` to `to`.
  function CountIn(stamps: seq<int>, from: int, to: int): nat {
    if stamps == [] then 0
    else CountIn(stamps[..|stamps| - 1], from, to) + if from <= stamps[|stamps| - 1] <= to then 1 else 0
  }

  // If there are any, the first and the last of them are that many intervals apart but one.
  lemma {:induction false} FewIn(stamps: seq<int>, interval: int, from: int, to: int)
    requires Spaced(stamps, interval) && interval >= 1
    ensures var n := CountIn(stamps, from, to);
      n <= |stamps| && (n > 0 ==> from + (n - 1) * interval <= to && from + (n - 1) * interval <= stamps[|stamps| - 1])
  {
    if stamps != [] {
      var last, n := |stamps| - 1, CountIn(stamps, from, to);
      FewIn(stamps[..last], interval, from, to);
      if n > 1 {
        assert stamps[last] - stamps[last - 1] >= interval;
        assert (n - 1) * interval == (n - 2) * interval + interval;
      }
    }
  }

  lemma QuotientBound(n: int, k: int, d: nat)
    requires k >= 1 && n * k <= d
    ensures n <= d / k
  {
    var q := d / k;
    assert d == q * k + d % k;
    assert (n - q - 1) * k == n * k - q * k - k;
    NegativeFactor(n - q - 1, k);
  }

  lemma NegativeFactor(x: int, k: int)
    requires k > 0 && x * k < 0
    ensures x < 0
  {
  }

  // Whenever the scheduler ticks, in any span of `d` seconds a job runs at most d / interval + 1 times.
  lemma AtMost(job: Job, clock: seq<int>, from: int, d: nat)
    requires job.interval >= 1
    ensures CountIn(Runs(job, clock), from, from + d) <= d / job.interval + 1
  {
    RunsRecorded(job, clock);
    FewIn(Runs(job, clock), job.interval, from, from + d);
    var n := CountIn(Runs(job, clock), from, from + d);
    if n > 0 {
      QuotientBound(n - 1, job.interval, d);
    }
  }

  // ---------- the code ----------

  class Scheduler {
    var jobs: seq<Job>

    constructor (initial: seq<Job>)
      ensures jobs == initial
    {
      jobs := initial;
    }

    // cron_tick at time `now`, which ends unless a job loops.
    method Tick(now: int, ghost depth: nat)
      requires Ends(jobs, now) && CountReentering(jobs, now) < depth
      modifies this
      ensures Some(jobs) == Nested(old(jobs), now, depth)
      ensures Positive(old(jobs)) ==> jobs == Ticked(old(jobs), now)
      decreases depth, 0
    {
      NestedEnds(jobs, now, depth);
      if Positive(jobs) {
        EachOnce(jobs, now, depth);
      }
      for i := 0 to |jobs|
        invariant |jobs| == |old(jobs)| && Ends(jobs, now) && CountReentering(jobs, now) < depth
        invariant From(jobs, now, i, depth) == From(old(jobs), now, 0, depth)
      {
        if Due(jobs[i], now) {
          ghost var was := jobs;
          var reentries := jobs[i].reentries;
          jobs := jobs[i := jobs[i].(lastRun := now, runCount := jobs[i].runCount + 1)];
          assert jobs == was[i := Stamp(was[i], now)] && Partly(jobs, was, now);
          FewerReentering(jobs, was, now, i);
          Send(reentries, now, depth - 1);
        }
      }
    }

    // A message that calls the tick `reentries` times.
    method Send(reentries: nat, now: int, ghost depth: nat)
      requires Ends(jobs, now) && (reentries > 0 ==> CountReentering(jobs, now) < depth)
      modifies this
      ensures Some(jobs) == Sent(old(jobs), now, reentries, depth) && Ends(jobs, now)
        && CountReentering(jobs, now) <= CountReentering(old(jobs), now)
      decreases depth, 1
    {
      for k := 0 to reentries
        invariant Some(jobs) == Sent(old(jobs), now, k, depth) && Ends(jobs, now)
        invariant CountReentering(jobs, now) <= CountReentering(old(jobs), now)
      {
        NestedEnds(jobs, now, depth);
        FewerReentering(Nested(jobs, now, depth).value, jobs, now, 0);
        Tick(now, depth);
      }
    }

    // The scheduler ticking at the times `clock`.
    method Run(clock: seq<int>)
      requires Positive(jobs)
      modifies this
      ensures |jobs| == |old(jobs)| && forall i | 0 <= i < |jobs| :: jobs[i] == After(old(jobs)[i], clock)
    {
      for t := 0 to |clock|
        invariant |jobs| == |old(jobs)| && Positive(jobs)
        invariant forall i | 0 <= i < |jobs| :: jobs[i] == After(old(jobs)[i], clock[..t])
      {
        assert clock[..t + 1][..t] == clock[..t];
        EachOnce(jobs, clock[t], CountReentering(jobs, clock[t]) + 1);
        Tick(clock[t], CountReentering(jobs, clock[t]) + 1);
      }
      assert clock[..|clock|] == clock;
    }
  }
}
