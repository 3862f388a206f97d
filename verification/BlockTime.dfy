/**
 How long one turn of the loop blocks: the time slept and the time given to the backend.
 */
module BlockTime {
  import opened TimerHeap
  import opened Timers

  const MAX_BLOCKTIME := 59.743
  const MAX_BLOCKTIME2 := 1500001.07

  function Max(a: real, b: real): (r: real)
    ensures r >= a && r >= b && (r == a || r == b)
  {
    if a >= b then a else b
  }

  // `r` is the larger of 0 and the smaller of `a` and `b`.
  predicate LeastOf(r: real, a: real, b: real) {
    r >= 0.0 && (r > 0.0 ==> r <= a && r <= b) && (r >= a || r >= b)
  }

  // The settings of the loop and of the backend.
  datatype Settings = Settings(timerfd: bool, timeoutBlocktime: real, ioBlocktime: real, mintime: real) {
    predicate Sensible() {
      timeoutBlocktime >= 0.0 && ioBlocktime >= 0.0 && mintime > 0.0
    }

    function Longest(): real {
      if timerfd then MAX_BLOCKTIME2 else MAX_BLOCKTIME
    }

    // The most a deadline `remaining` seconds away lets the loop block.
    function Bound(remaining: real): real {
      Max(Max(remaining, timeoutBlocktime), mintime)
    }
  }

  // No watcher is held up beyond its bound, and none that is due is held up at all unless
  // timeouts are collected.
  ghost predicate InTime(v: Timetable, now: real, s: Settings, blocked: real) {
    forall w | w in v.Deadlines() ::
      && blocked <= s.Bound(v.Deadlines()[w] - now)
      && (v.Deadlines()[w] <= now && s.timeoutBlocktime == 0.0 ==> blocked == 0.0)
  }

  // The loop does not wake up before the earliest deadline without need.
  ghost predicate Earliest(v: Timetable, now: real, blocked: real) {
    exists w :: w in v.Deadlines() && blocked >= v.Deadlines()[w] - now
  }

  // Lowering the wait to the earliest deadline.
  method Lower(waittime: real, v: Timetable, now: real) returns (r: real)
    requires v.Valid()
    ensures r <= waittime && forall w | w in v.Deadlines() :: r <= v.Deadlines()[w] - now
    ensures r == waittime || exists w :: w in v.Deadlines() && r == v.Deadlines()[w] - now
  {
    r := waittime;
    NoDeadlines(v);
    if v.n > 0 {
      RootIsEarliest(v);
      var to := v.cells[HEAP0].at - now;
      if r > to {
        r := to;
      }
    }
  }

  lemma NoDeadlines(v: Timetable)
    requires v.Valid()
    ensures v.n == 0 ==> v.Deadlines() == map[]
  {
    assert v.Holds(Watchers);
    forall w | w in v.active ensures v.n == 0 ==> w !in v.Deadlines() {
      assert v.WatcherOk(w);
    }
  }

  // The block of ev_run that decides how long to sleep and how long to poll. `idle`: it must not
  // block at all.
  method Decide(s: Settings, idle: bool, timers: Timetable, periodics: Timetable, mnNow: real, prevMnNow: real,
                rtNow: real)
    returns (sleeptime: real, waittime: real)
    requires s.Sensible() && timers.Valid() && periodics.Valid()
    ensures sleeptime >= 0.0 && waittime >= 0.0 && (sleeptime > 0.0 ==> waittime >= s.mintime)
    ensures idle ==> sleeptime + waittime == 0.0
    ensures InTime(timers, mnNow, s, sleeptime + waittime) && InTime(periodics, rtNow, s, sleeptime + waittime)
    ensures sleeptime + waittime <= s.Bound(s.Longest())
    ensures var blocked := sleeptime + waittime;
      !idle ==> blocked >= s.Longest() || Earliest(timers, mnNow, blocked) || Earliest(periodics, rtNow, blocked)
    ensures !idle && s.ioBlocktime == 0.0 ==> sleeptime == 0.0
    ensures !idle && s.ioBlocktime != 0.0 ==>
              LeastOf(sleeptime, s.ioBlocktime - (mnNow - prevMnNow), sleeptime + waittime - s.mintime)
  {
    waittime, sleeptime := 0.0, 0.0;
    if !idle {
      waittime := MAX_BLOCKTIME;
      if s.timerfd {
        waittime := MAX_BLOCKTIME2;
      }
      waittime := Lower(waittime, timers, mnNow);
      waittime := Lower(waittime, periodics, rtNow);
      if waittime < s.timeoutBlocktime {
        waittime := s.timeoutBlocktime;
      }
      if waittime < s.mintime {
        waittime := if waittime <= 0.0 then 0.0 else s.mintime;
      }
      if s.ioBlocktime != 0.0 {
        var sleep := s.ioBlocktime - (mnNow - prevMnNow);
        if sleep > waittime - s.mintime {
          sleep := waittime - s.mintime;
        }
        if sleep > 0.0 {
          sleeptime := sleep;
          waittime := waittime - sleep;
        }
      }
    }
  }
}
