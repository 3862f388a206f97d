/**
 Relative timers: `ev_timer_start`, `ev_timer_stop`, `ev_timer_again`, `timers_reschedule`
 and `timers_reify`, on top of the heap and the pending queues.
 */
module Timers {
  import opened Pending
  import opened TimerHeap
  import ArraySize

  const CELL_SIZE: nat := 16     // sizeof (ANHE)
  const EV_TIMER: Mask := {8}

  // What there is to say about the heap and its watchers.
  datatype Facet = Cells | Watchers | Order

  // The heap array, how much of it is in use, and the `active` and `at` fields of the timer watchers.
  datatype Timetable = Timetable(cells: seq<Cell>, n: nat, active: map<Watcher, nat>, at: map<Watcher, real>) {

    // Cell `i` holds a watcher that knows its index, and a copy of its time.
    predicate CellOk(i: nat) {
      && i < |cells| && cells[i].Cell?
      && cells[i].w in active && active[cells[i].w] == i
      && cells[i].w in at && cells[i].at == at[cells[i].w]
    }

    // An active watcher is in the cell its index says.
    predicate WatcherOk(w: Watcher)
      requires w in active
    {
      active[w] == 0
        || (HEAP0 <= active[w] < n + HEAP0 && active[w] < |cells| && cells[active[w]].Cell? && cells[active[w]].w == w)
    }

    ghost predicate Holds(f: Facet) {
      match f
      case Cells => n + HEAP0 <= |cells| && forall i | HEAP0 <= i < n + HEAP0 :: CellOk(i)
      case Watchers => active.Keys == at.Keys && forall w | w in active :: WatcherOk(w)
      case Order => IsHeap(cells, n)
    }

    // This is what ev_verify asserts of the timers.
    ghost predicate Valid() {
      forall f: Facet :: Holds(f)
    }

    // The active timers and the times they expire at.
    function Deadlines(): map<Watcher, real> {
      map w | w in active && active[w] != 0 && w in at :: at[w]
    }
  }

  // ---------- changes of the timetable ----------

  // What the heap functions need to know about the cells.
  lemma Ready(v: Timetable)
    requires v.Holds(Cells)
    ensures InUse(v.cells, v.n)
    ensures forall i | HEAP0 <= i < v.n + HEAP0 :: v.cells[i].w in v.active && v.active[v.cells[i].w] == i
  {
    assert forall i | HEAP0 <= i < v.n + HEAP0 :: v.cells[i] == v.cells[i] && v.CellOk(i);
  }

  // Rearranging the cells into a heap and renewing the indices keeps a timetable and its deadlines.
  lemma Reordered(v: Timetable, v': Timetable)
    requires v.Holds(Cells) && v.Holds(Watchers) && v'.n == v.n && v'.at == v.at
    requires Rearranged(v'.cells, v.cells, v.n) && IsHeap(v'.cells, v.n) && Indexed(v'.cells, v.n, 0, v'.active)
    requires v'.active.Keys == v.active.Keys
    requires forall w | w in v.active && v.active[w] == 0 :: v'.active[w] == 0 || InCell(v'.cells, v.n, w, v'.active[w])
    ensures v'.Valid() && v'.Deadlines() == v.Deadlines()
  {
    forall i | HEAP0 <= i < v.n + HEAP0 ensures v'.CellOk(i) && v.active[v'.cells[i].w] != 0 {
      var j := FromCell(v'.cells, v.cells, v.n, i);
      assert v.CellOk(j);
    }
    forall w | w in v'.active ensures v'.WatcherOk(w) && (v'.active[w] == 0 <==> v.active[w] == 0) {
      assert v.WatcherOk(w);
      if v.active[w] != 0 {
        var j := FromCell(v.cells, v'.cells, v.n, v.active[w]);
      }
    }
  }

  // A watcher put behind the last cell is in place but for its order.
  lemma Appended(v: Timetable, v': Timetable, w: Watcher)
    requires v.Valid() && w in v.active && v.active[w] == 0 && w in v'.at
    requires v'.n == v.n + 1 && v.n + HEAP0 <= |v.cells| && v'.n + HEAP0 <= |v'.cells|
    requires forall i | HEAP0 <= i < v.n + HEAP0 :: v'.cells[i] == v.cells[i]
    requires v'.cells[v.n + HEAP0] == Cell(v'.at[w], w)
    requires v'.active == v.active[w := v.n + HEAP0] && v'.at == v.at[w := v'.at[w]]
    ensures v'.Holds(Cells) && v'.Holds(Watchers) && HeapUpTo(v'.cells, v'.n, v.n + HEAP0)
    ensures v'.Deadlines() == v.Deadlines()[w := v'.at[w]]
  {
    assert v.Holds(Cells) && v.Holds(Watchers) && v.Holds(Order);
    AppendedCells(v, v', w);
    AppendedOrder(v.cells, v'.cells, v.n);
  }

  lemma AppendedOrder(h: seq<Cell>, h': seq<Cell>, n: nat)
    requires IsHeap(h, n) && n + 1 + HEAP0 <= |h'| && h'[n + HEAP0].Cell?
    requires forall i | HEAP0 <= i < n + HEAP0 :: h'[i] == h[i]
    ensures HeapUpTo(h', n + 1, n + HEAP0)
  {
    SameHeap(h, h', n);
    HeapGrows(h', n);
  }

  lemma AppendedCells(v: Timetable, v': Timetable, w: Watcher)
    requires v.Holds(Cells) && v.Holds(Watchers) && w in v.active && v.active[w] == 0 && w in v'.at
    requires v'.n == v.n + 1 && v.n + HEAP0 <= |v.cells| && v'.n + HEAP0 <= |v'.cells|
    requires forall i | HEAP0 <= i < v.n + HEAP0 :: v'.cells[i] == v.cells[i]
    requires v'.cells[v.n + HEAP0] == Cell(v'.at[w], w)
    requires v'.active == v.active[w := v.n + HEAP0] && v'.at == v.at[w := v'.at[w]]
    ensures v'.Holds(Cells) && v'.Holds(Watchers)
  {
    forall i | HEAP0 <= i < v'.n + HEAP0 ensures v'.CellOk(i) {
      if i < v.n + HEAP0 { assert v.CellOk(i); }
    }
    forall u | u in v'.active ensures v'.WatcherOk(u) {
      assert v.WatcherOk(u);
    }
  }

  lemma SameHeap(h: seq<Cell>, h': seq<Cell>, n: nat)
    requires IsHeap(h, n) && n + HEAP0 <= |h'| && forall i | HEAP0 <= i < n + HEAP0 :: h'[i] == h[i]
    ensures IsHeap(h', n)
  {
    forall i | HEAP0 <= i < n + HEAP0 ensures Below(h', n, i) {
      assert Below(h, n, i);
    }
  }

  // Taking a watcher out by moving the last cell into its cell `k` leaves all in place but for the order of that cell.
  lemma Detached(v: Timetable, v': Timetable, w: Watcher, k: nat)
    requires v.Valid() && w in v.active && k == v.active[w] != 0 && w in v'.at
    requires v.n == v'.n + 1 && v.n + HEAP0 <= |v.cells| && v.cells[v'.n + HEAP0].Cell? && HEAP0 <= k < v.n + HEAP0
    requires v'.cells == v.cells[k := v.cells[v'.n + HEAP0]] && v'.at == v.at[w := v'.at[w]]
    requires v'.active == v.active[v.cells[v'.n + HEAP0].w := k][w := 0]
    ensures v'.Holds(Cells) && v'.Holds(Watchers)
    ensures if k < v'.n + HEAP0 then HeapExcept(v'.cells, v'.n, k) else IsHeap(v'.cells, v'.n)
  {
    assert v.Holds(Cells) && v.Holds(Watchers) && v.Holds(Order);
    var last := v'.n + HEAP0;
    assert v.WatcherOk(w) && v.CellOk(last) && v.CellOk(k);
    forall i | HEAP0 <= i < v'.n + HEAP0 ensures v'.CellOk(i) {
      assert v.CellOk(i);
    }
    forall u | u in v'.active ensures v'.WatcherOk(u) {
      assert v.WatcherOk(u);
    }
    Ready(v');
    if k < last {
      Excepted(v.cells, v.n, v'.cells, v'.n, k);
    } else {
      forall i | HEAP0 <= i < v'.n + HEAP0 ensures Below(v'.cells, v'.n, i) { assert Below(v.cells, v.n, i); }
    }
  }

  lemma DetachedDeadlines(v: Timetable, v': Timetable, w: Watcher, u: Watcher, k: nat)
    requires u in v.active && v.active[u] != 0 && k != 0 && w in v'.at
    requires v'.active == v.active[u := k][w := 0] && v'.at == v.at[w := v'.at[w]]
    ensures v'.Deadlines() == v.Deadlines() - {w}
  {
  }

  // Changing one cell of a heap, possibly after dropping the last, leaves a heap except there.
  lemma Excepted(h: seq<Cell>, m: nat, g: seq<Cell>, n: nat, k: nat)
    requires IsHeap(h, m) && n <= m && HEAP0 <= k < n + HEAP0 <= |g| && g[k].Cell?
    requires forall i | HEAP0 <= i < n + HEAP0 && i != k :: g[i] == h[i]
    ensures HeapExcept(g, n, k)
  {
    forall i | HEAP0 <= i < n + HEAP0 && i != k && Parent(i) != k ensures Below(g, n, i) {
      assert Below(h, m, i);
    }
    forall i | HEAP0 <= i < n + HEAP0 && i != k && Parent(i) == k && k > HEAP0 ensures g[Parent(k)].at <= g[i].at {
      assert Below(h, m, i) && Below(h, m, k);
    }
  }

  // Giving an active watcher another time leaves everything in place but for its order.
  lemma Retimed(v: Timetable, v': Timetable, w: Watcher, k: nat)
    requires v.Valid() && w in v.active && k == v.active[w] != 0 && k < |v.cells| && w in v'.at
    requires v' == v.(cells := v.cells[k := Cell(v'.at[w], w)], at := v.at[w := v'.at[w]])
    ensures v'.Holds(Cells) && v'.Holds(Watchers) && v'.Deadlines() == v.Deadlines()[w := v'.at[w]]
    ensures HEAP0 <= k < v.n + HEAP0 && HeapExcept(v'.cells, v.n, k)
  {
    assert v.Holds(Cells) && v.Holds(Watchers) && v.Holds(Order) && v.WatcherOk(w);
    forall i | HEAP0 <= i < v'.n + HEAP0 ensures v'.CellOk(i) {
      assert v.CellOk(i);
    }
    forall u | u in v'.active ensures v'.WatcherOk(u) {
      assert v.WatcherOk(u);
    }
    Excepted(v.cells, v.n, v'.cells, v.n, k);
  }

  // The time of an inactive watcher does not matter.
  lemma IdleTime(v: Timetable, v': Timetable, w: Watcher)
    requires v.Valid() && w in v.active && v.active[w] == 0 && w in v'.at && v' == v.(at := v.at[w := v'.at[w]])
    ensures v'.Valid() && v'.Deadlines() == v.Deadlines()
  {
    assert v.Holds(Cells) && v.Holds(Watchers) && v.Holds(Order);
    forall i | HEAP0 <= i < v.n + HEAP0 ensures v'.CellOk(i) {
      assert v.CellOk(i);
    }
    forall u | u in v'.active ensures v'.WatcherOk(u) {
      assert v.WatcherOk(u);
    }
  }

  // Shifting all times by the same amount keeps the heap.
  lemma Shifted(v: Timetable, v': Timetable, adjust: real)
    requires v.Valid() && v'.n == v.n && v'.active == v.active && |v'.cells| == |v.cells| >= v.n + HEAP0
      && v'.at.Keys == v.at.Keys
    requires forall i | HEAP0 <= i < v.n + HEAP0 ::
               v.cells[i].Cell? && v'.cells[i] == Cell(v.cells[i].at + adjust, v.cells[i].w)
    requires forall w | w in v.at :: v'.at[w] == v.at[w] + if w in v.active && v.active[w] != 0 then adjust else 0.0
    ensures v'.Valid()
  {
    assert v.Holds(Cells) && v.Holds(Watchers) && v.Holds(Order);
    forall i | HEAP0 <= i < v.n + HEAP0 ensures v'.CellOk(i) && Below(v.cells, v.n, i) {
      assert v.CellOk(i);
    }
    Ready(v');
    forall i | HEAP0 <= i < v.n + HEAP0 ensures Below(v'.cells, v.n, i) {
      assert Below(v.cells, v.n, i);
    }
    forall u | u in v'.active ensures v'.WatcherOk(u) {
      assert v.WatcherOk(u);
    }
  }

  // ---------- expiry ----------

  // The first cell holds a timer that expires first.
  lemma RootIsEarliest(v: Timetable)
    requires v.Valid() && v.n > 0
    ensures HEAP0 < |v.cells| && v.cells[HEAP0].Cell?
    ensures var w, d := v.cells[HEAP0].w, v.Deadlines();
      w in d && d[w] == v.cells[HEAP0].at && w in v.active && v.active[w] == HEAP0 && forall u | u in d :: d[w] <= d[u]
  {
    assert v.Holds(Cells) && v.Holds(Watchers) && v.Holds(Order) && v.CellOk(HEAP0);
    forall u | u in v.Deadlines() ensures v.cells[HEAP0].at <= v.Deadlines()[u] {
      assert v.WatcherOk(u) && v.CellOk(v.active[u]);
      RootIsMinimum(v.cells, v.n, v.active[u]);
    }
  }

  // If the first cell is not due, or there is none, no timer is.
  lemma NothingDue(v: Timetable, now: real)
    requires v.Valid() && !(v.n > 0 && HEAP0 < |v.cells| && v.cells[HEAP0].Cell? && v.cells[HEAP0].at < now)
    ensures Due(v.Deadlines(), now) == {}
  {
    if v.n > 0 {
      RootIsEarliest(v);
    } else {
      assert v.Holds(Watchers);
      forall w | w in v.active ensures w !in v.Deadlines() {
        assert v.WatcherOk(w);
      }
    }
  }

  // `t` is the least time that is neither in the past nor less than a repeat after `at`.
  predicate IsSoonest(t: real, at: real, repeat: real, now: real) {
    t >= now && t >= at + repeat && (t == now || t == at + repeat)
  }

  // The deadlines after timer `w` has expired: it is stopped, or due a repeat later.
  ghost predicate Renews(d': map<Watcher, real>, d: map<Watcher, real>, w: Watcher, repeat: map<Watcher, real>,
                         now: real)
    requires w in d && w in repeat
  {
    if repeat[w] == 0.0 then d' == d - {w}
    else w in d' && d' == d[w := d'[w]] && IsSoonest(d'[w], d[w], repeat[w], now)
  }

  ghost function Due(d: map<Watcher, real>, now: real): set<Watcher> {
    set w | w in d && d[w] < now
  }

  // The deadlines `d` are `d0` after the timers `done` have been rescheduled or stopped.
  ghost predicate Rescheduled(d: map<Watcher, real>, d0: map<Watcher, real>, done: seq<Watcher>,
                              repeat: map<Watcher, real>, now: real) {
    && d.Keys <= d0.Keys <= repeat.Keys
    && forall w | w in d0 ::
         if w !in done then w in d && d[w] == d0[w]
         else if repeat[w] == 0.0 then w !in d
         else w in d && IsSoonest(d[w], d0[w], repeat[w], now)
  }

  // `done` lists due timers once each, earliest first, and none still waiting is earlier.
  ghost predicate InOrder(done: seq<Watcher>, d0: map<Watcher, real>, now: real) {
    && (forall i | 0 <= i < |done| :: done[i] in d0 && d0[done[i]] < now)
    && (forall i, j | 0 <= i < j < |done| :: done[i] != done[j] && d0[done[i]] <= d0[done[j]])
    && (forall i, w | 0 <= i < |done| && w in d0 && w !in done :: d0[done[i]] <= d0[w])
  }

  datatype Matter = Deadline | Sequence

  ghost predicate About(m: Matter, d: map<Watcher, real>, d0: map<Watcher, real>, done: seq<Watcher>,
                        repeat: map<Watcher, real>, now: real) {
    match m
    case Deadline => Rescheduled(d, d0, done, repeat, now)
    case Sequence => InOrder(done, d0, now)
  }

  // So far, the timers of `done` have expired, and in order.
  ghost predicate Expiring(d: map<Watcher, real>, d0: map<Watcher, real>, done: seq<Watcher>,
                           repeat: map<Watcher, real>, now: real) {
    forall m: Matter :: About(m, d, d0, done, repeat, now)
  }

  lemma NothingExpired(d0: map<Watcher, real>, q0: View, repeat: map<Watcher, real>, now: real)
    requires d0.Keys <= repeat.Keys && q0.Valid()
    ensures Expiring(d0, d0, [], repeat, now) && Stopped(q0, q0, [], repeat)
  {
    assert Rescheduled(d0, d0, [], repeat, now) && InOrder([], d0, now);
  }

  lemma ExpiringSays(d: map<Watcher, real>, d0: map<Watcher, real>, done: seq<Watcher>, repeat: map<Watcher, real>,
                     now: real)
    requires Expiring(d, d0, done, repeat, now)
    ensures Rescheduled(d, d0, done, repeat, now) && InOrder(done, d0, now)
  {
    assert About(Deadline, d, d0, done, repeat, now) && About(Sequence, d, d0, done, repeat, now);
  }

  lemma RescheduleOne(d0: map<Watcher, real>, d: map<Watcher, real>, d': map<Watcher, real>, done: seq<Watcher>,
                      repeat: map<Watcher, real>, now: real, w: Watcher)
    requires Rescheduled(d, d0, done, repeat, now) && w in d && w in repeat && w !in done
    requires Renews(d', d, w, repeat, now)
    ensures Rescheduled(d', d0, done + [w], repeat, now)
  {
    assert d0[w] == d[w];
  }

  lemma ExpireOne(d0: map<Watcher, real>, d: map<Watcher, real>, d': map<Watcher, real>, done: seq<Watcher>,
                  repeat: map<Watcher, real>, now: real, w: Watcher)
    requires Expiring(d, d0, done, repeat, now) && forall u | u in repeat :: repeat[u] >= 0.0
    requires w in d && w in repeat && d[w] < now && forall u | u in d :: d[w] <= d[u]
    requires Renews(d', d, w, repeat, now)
    ensures Expiring(d', d0, done + [w], repeat, now)
    ensures |Due(d', now)| < |Due(d, now)|
  {
    ExpiringSays(d, d0, done, repeat, now);
    assert Due(d', now) == Due(d, now) - {w} && w in Due(d, now);
    assert w !in done && d0[w] == d[w];
    RescheduleOne(d0, d, d', done, repeat, now, w);
    forall u | u in d0 && u !in done ensures d0[w] <= d0[u] {
      assert u in d;
    }
    assert InOrder(done + [w], d0, now);
  }

  // When nothing is due any more, exactly the timers that were due are done.
  lemma ExpireAll(d0: map<Watcher, real>, d: map<Watcher, real>, done: seq<Watcher>, repeat: map<Watcher, real>,
                  now: real)
    requires Expiring(d, d0, done, repeat, now) && Due(d, now) == {}
    ensures forall w :: w in done <==> w in d0 && d0[w] < now
  {
    ExpiringSays(d, d0, done, repeat, now);
    forall w | w in d0 && d0[w] < now ensures w in done {
      assert w in d ==> d[w] >= now || w in Due(d, now);
    }
  }

  // The timers of `done` that do not repeat.
  function OneShots(done: seq<Watcher>, repeat: map<Watcher, real>): (r: seq<Watcher>)
    ensures forall w :: w in r <==> w in done && w in repeat && repeat[w] == 0.0
  {
    if done == [] then []
    else
      var w := done[|done| - 1];
      assert done == done[..|done| - 1] + [w];
      OneShots(done[..|done| - 1], repeat) + if w in repeat && repeat[w] == 0.0 then [w] else []
  }

  // `q` is `q0` after the timers of `done` that do not repeat have been cleared.
  ghost predicate Stopped(q: View, q0: View, done: seq<Watcher>, repeat: map<Watcher, real>) {
    && q0.Valid() && (forall w | w in done :: w in q0.pos)
    && q == ClearAll(q0, OneShots(done, repeat))
  }

  lemma StopOne(q: View, q': View, q0: View, done: seq<Watcher>, repeat: map<Watcher, real>, w: Watcher)
    requires Stopped(q, q0, done, repeat) && w in q.pos
    requires q' == if w in repeat && repeat[w] == 0.0 then q.Clear(w) else q
    ensures Stopped(q', q0, done + [w], repeat)
  {
    assert (done + [w])[..|done|] == done;
    var s := OneShots(done, repeat);
    if w in repeat && repeat[w] == 0.0 {
      assert OneShots(done + [w], repeat) == s + [w];
      assert (s + [w])[..|s|] == s;
      assert ClearAll(q0, s + [w]) == q.Clear(w);
    } else {
      assert OneShots(done + [w], repeat) == s;
    }
  }

  function Reverse(ws: seq<Watcher>): (r: seq<Watcher>)
    ensures |r| == |ws| && forall i | 0 <= i < |ws| :: r[i] == ws[|ws| - 1 - i]
  {
    seq(|ws|, i requires 0 <= i < |ws| => ws[|ws| - 1 - i])
  }

  ghost predicate FedSoFar(q: View, q0: View, fed: seq<Watcher>, k: nat) {
    q0.Valid() && (forall w | w in fed :: w in q0.pos) && k <= |fed| && q == FeedAll(q0, fed[..k], EV_TIMER)
  }

  lemma NothingFed(q0: View, fed: seq<Watcher>)
    requires q0.Valid() && forall w | w in fed :: w in q0.pos
    ensures FedSoFar(q0, q0, fed, 0)
  {
  }

  lemma AllFed(q: View, q0: View, fed: seq<Watcher>, k: nat)
    requires FedSoFar(q, q0, fed, k) && k == |fed|
    ensures q == FeedAll(q0, fed, EV_TIMER)
  {
    assert fed[..k] == fed;
  }

  lemma FeedOneMore(q: View, q0: View, fed: seq<Watcher>, k: nat)
    requires FedSoFar(q, q0, fed, k) && k < |fed|
    ensures fed[k] in q.pos && q.Linked(fed[k]) && FedSoFar(q.Feed(fed[k], EV_TIMER), q0, fed, k + 1)
  {
    FeedAllNext(q0, fed, EV_TIMER, k);
  }

  // The queues after the timers of `done` have expired: those that do not repeat are cleared when
  // they are stopped, then all are fed, the last first.
  ghost function Reified(q0: View, done: seq<Watcher>, repeat: map<Watcher, real>): View
    requires q0.Valid() && forall w | w in done :: w in q0.pos
  {
    FeedAll(ClearAll(q0, OneShots(done, repeat)), Reverse(done), EV_TIMER)
  }

  // ---------- repeating timers over many passes ----------

  // What a pass at time `now` makes of the deadlines: exactly the timers that were due are stopped or
  // put off.
  ghost predicate Passes(d: map<Watcher, real>, d': map<Watcher, real>, repeat: map<Watcher, real>, now: real) {
    && d'.Keys <= d.Keys <= repeat.Keys
    && forall w | w in d ::
         if d[w] >= now then w in d' && d'[w] == d[w]
         else if repeat[w] == 0.0 then w !in d'
         else w in d' && IsSoonest(d'[w], d[w], repeat[w], now)
  }

  ghost predicate IsTrail(trail: seq<map<Watcher, real>>, times: seq<real>, repeat: map<Watcher, real>) {
    |trail| == |times| + 1 && forall i | 0 <= i < |times| :: Passes(trail[i], trail[i + 1], repeat, times[i])
  }

  lemma ExpiredPasses(d: map<Watcher, real>, d': map<Watcher, real>, done: seq<Watcher>, repeat: map<Watcher, real>,
                      now: real)
    requires Expiring(d', d, done, repeat, now) && Due(d', now) == {}
    ensures Passes(d, d', repeat, now)
  {
    ExpiringSays(d', d, done, repeat, now);
    ExpireAll(d, d', done, repeat, now);
  }

  lemma TrailMore(trail: seq<map<Watcher, real>>, times: seq<real>, i: nat, d: map<Watcher, real>,
                  repeat: map<Watcher, real>)
    requires i < |times| && IsTrail(trail, times[..i], repeat) && Passes(trail[i], d, repeat, times[i])
    ensures IsTrail(trail + [d], times[..i + 1], repeat)
    ensures (trail + [d])[0] == trail[0] && (trail + [d])[i + 1] == d
  {
    var trail', times' := trail + [d], times[..i + 1];
    forall k | 0 <= k < |times'| ensures Passes(trail'[k], trail'[k + 1], repeat, times'[k]) {
      if k < i {
        assert times[..i][k] == times'[k] && Passes(trail[k], trail[k + 1], repeat, times[..i][k]);
      }
    }
  }

  // How often `w` expires in the first `n` passes.
  ghost function Expiries(trail: seq<map<Watcher, real>>, times: seq<real>, w: Watcher, n: nat): nat
    requires n <= |times| < |trail|
  {
    if n == 0 then 0
    else
      Expiries(trail, times, w, n - 1) + if w in trail[n - 1] && trail[n - 1][w] < times[n - 1] then 1 else 0
  }

  // No pass finds `w` more than a whole repeat late.
  ghost predicate Punctual(trail: seq<map<Watcher, real>>, times: seq<real>, w: Watcher, repeat: real, n: nat)
    requires n <= |times| < |trail|
  {
    forall i | 0 <= i < n && w in trail[i] :: times[i] <= trail[i][w] + repeat
  }

  // `k` repeats after `at`.
  function Grid(at: real, repeat: real, k: nat): real {
    if k == 0 then at else Grid(at, repeat, k - 1) + repeat
  }

  lemma {:induction false} GridIs(at: real, repeat: real, k: nat)
    ensures Grid(at, repeat, k) == at + k as real * repeat
  {
    if k > 0 {
      GridIs(at, repeat, k - 1);
      assert k as real * repeat == (k - 1) as real * repeat + repeat;
    }
  }

  // A repeating timer never gets ahead of the grid of its first deadline and its repeat, and it stays on
  // this grid if and only if no pass is more than a whole repeat late: lateness does not add up.
  lemma {:induction false} NoDrift(trail: seq<map<Watcher, real>>, times: seq<real>, repeat: map<Watcher, real>,
                                   w: Watcher, n: nat)
    requires IsTrail(trail, times, repeat) && n <= |times| && w in trail[0] && w in repeat && repeat[w] > 0.0
    ensures w in trail[n]
    ensures var grid := Grid(trail[0][w], repeat[w], Expiries(trail, times, w, n));
      trail[n][w] >= grid && (trail[n][w] == grid <==> Punctual(trail, times, w, repeat[w], n))
  {
    if n > 0 {
      NoDrift(trail, times, repeat, w, n - 1);
      assert Passes(trail[n - 1], trail[n], repeat, times[n - 1]);
    }
  }

  class TimerLoop {
    var timers: array<Cell>
    var timercnt: nat
    var active: map<Watcher, nat>
    var at: map<Watcher, real>
    var repeat: map<Watcher, real>
    var activecnt: int
    var mnNow: real

    constructor (after: map<Watcher, real>, repeat: map<Watcher, real>, now: real)
      ensures Table().Valid() && Table().Deadlines() == map[] && active.Keys == after.Keys
      ensures at == after && this.repeat == repeat && mnNow == now && activecnt == 0
    {
      timers := new Cell[HEAP0](_ => Unused);
      timercnt, activecnt, mnNow := 0, 0, now;
      active := map w | w in after :: 0;
      at := after;
      this.repeat := repeat;
    }

    ghost function Table(): Timetable
      reads this`timers, this`timercnt, this`active, this`at, timers
    {
      Timetable(timers[..], timercnt, active, at)
    }

    // In order except for cell `k`.
    ghost predicate Loose(k: nat)
      reads this`timers, this`timercnt, this`active, this`at, timers
    {
      timercnt + HEAP0 <= timers.Length && HEAP0 <= k < timercnt + HEAP0 && Table().Holds(Cells)
        && Table().Holds(Watchers)
    }

    method Rise(k: nat)
      requires Loose(k) && HeapUpTo(timers[..], timercnt, k)
      modifies timers, this`active
      ensures Table().Valid() && Table().Deadlines() == old(Table().Deadlines()) && active.Keys == old(active.Keys)
    {
      ghost var v := Table();
      Ready(v);
      active := Upheap(timers, timercnt, k, active);
      Reordered(v, Table());
    }

    method Settle(k: nat)
      requires Loose(k) && HeapExcept(timers[..], timercnt, k)
      modifies timers, this`active
      ensures Table().Valid() && Table().Deadlines() == old(Table().Deadlines()) && active.Keys == old(active.Keys)
    {
      ghost var v := Table();
      Ready(v);
      active := Adjustheap(timers, timercnt, k, active);
      Reordered(v, Table());
    }

    // Store `he` in cell `k`, making room if needed.
    method Put(k: nat, he: Cell)
      requires k <= timers.Length
      modifies this`timers, timers
      ensures timers == old(timers) || fresh(timers)
      ensures old(timers.Length) <= timers.Length && k < timers.Length && timers[k] == he
      ensures forall i | 0 <= i < old(timers.Length) && i != k :: timers[i] == old(timers[i])
    {
      if k >= timers.Length {
        var size := ArraySize.NextSize(CELL_SIZE, timers.Length, k + 1);
        var bigger := new Cell[size];
        forall i | 0 <= i < timers.Length { bigger[i] := timers[i]; }
        timers := bigger;
      }
      timers[k] := he;
    }

    // Append `w` to the heap, where it may be out of order.
    method Enlist(w: Watcher)
      requires Table().Valid() && w in active && active[w] == 0
      modifies this`timers, this`timercnt, this`active, this`at, timers
      ensures active.Keys == old(active.Keys) && (timers == old(timers) || fresh(timers)) && w in old(at)
      ensures active[w] == old(timercnt) + HEAP0 && Loose(active[w]) && HeapUpTo(timers[..], timercnt, active[w])
      ensures Table().Deadlines() == old(Table().Deadlines())[w := old(at)[w] + mnNow]
    {
      ghost var v := Table();
      assert v.Holds(Cells) && v.Holds(Watchers);
      at := at[w := at[w] + mnNow];
      timercnt := timercnt + 1;
      active := active[w := timercnt + HEAP0 - 1];
      Put(active[w], Cell(at[w], w));
      Appended(v, Table(), w);
    }

    method Start(w: Watcher)
      requires Table().Valid() && w in active
      modifies this`timers, this`timercnt, this`active, this`at, this`activecnt, timers
      ensures Table().Valid() && active.Keys == old(active.Keys) && (timers == old(timers) || fresh(timers))
      ensures old(active)[w] != 0 ==> Table() == old(Table()) && activecnt == old(activecnt)
      ensures old(active)[w] == 0 ==> w in old(at) && activecnt == old(activecnt) + 1
      ensures old(active)[w] == 0 ==> Table().Deadlines() == old(Table().Deadlines())[w := old(at)[w] + mnNow]
    {
      if active[w] != 0 {
        return;
      }
      Enlist(w);
      activecnt := activecnt + 1;
      Rise(active[w]);
    }

    // Overwrite cell `k` with the last cell, which is then no longer in use.
    method Vacate(k: nat) returns (last: Cell)
      requires HEAP0 <= k < timercnt + HEAP0 <= timers.Length
      modifies this`timercnt, timers
      ensures timercnt == old(timercnt) - 1 && last == old(timers[timercnt - 1 + HEAP0])
      ensures timers[..] == old(timers[..])[k := last]
    {
      timercnt := timercnt - 1;
      last := timers[timercnt + HEAP0];
      if k < timercnt + HEAP0 {
        timers[k] := last;
      }
    }

    // Take `w` out of the heap; the cell `k` it was in may then be out of order, or have become unused.
    method Detach(w: Watcher) returns (k: nat)
      requires Table().Valid() && w in active && active[w] != 0
      modifies this`timercnt, this`active, this`at, timers
      ensures active.Keys == old(active.Keys) && Table().Deadlines() == old(Table().Deadlines()) - {w}
      ensures active[w] == 0 && w in old(at) && at == old(at)[w := old(at)[w] - mnNow]
      ensures if k < timercnt + HEAP0 then Loose(k) && HeapExcept(timers[..], timercnt, k) else Table().Valid()
    {
      ghost var v := Table();
      assert v.Holds(Cells) && v.Holds(Watchers) && v.WatcherOk(w);
      assert v.CellOk(timercnt - 1 + HEAP0);
      k := active[w];
      var last := Vacate(k);
      at := at[w := at[w] - mnNow];
      active := active[last.w := k][w := 0];
      DetachedDeadlines(v, Table(), w, last.w, k);
      Detached(v, Table(), w, k);
    }

    // The heap part of ev_timer_stop.
    method Remove(w: Watcher)
      requires Table().Valid() && w in active && active[w] != 0
      modifies this`timercnt, this`active, this`at, this`activecnt, timers
      ensures Table().Valid() && active.Keys == old(active.Keys)
      ensures Table().Deadlines() == old(Table().Deadlines()) - {w} && activecnt == old(activecnt) - 1
      ensures w in old(at) && w in at && at[w] == old(at)[w] - mnNow
    {
      var k := Detach(w);
      activecnt := activecnt - 1;
      if k < timercnt + HEAP0 {
        Settle(k);
      }
    }

    ghost predicate Valid()
      reads this`timers, this`timercnt, this`active, this`at, this`repeat, timers
    {
      Table().Valid() && repeat.Keys == active.Keys && forall w | w in repeat :: repeat[w] >= 0.0
    }

    // The pending queues are passed in and returned.
    method Stop(w: Watcher, q: View) returns (q': View)
      requires Valid() && w in active && q.Valid() && w in q.pos
      modifies this`timercnt, this`active, this`at, this`activecnt, timers
      ensures Valid() && active.Keys == old(active.Keys)
      ensures q' == q.Clear(w) && Table().Deadlines() == old(Table().Deadlines()) - {w}
      ensures activecnt == old(activecnt) - if old(active)[w] != 0 then 1 else 0
    {
      q' := q.Clear(w);
      assert active[w] == 0 ==> w !in Table().Deadlines();
      if active[w] != 0 {
        Remove(w);
      }
    }

    // Change when an active timer expires; its cell may then be out of order.
    method Retime(w: Watcher, t: real) returns (k: nat)
      requires Table().Valid() && w in active && active[w] != 0
      modifies this`at, timers
      ensures k == active[w] && Loose(k) && HeapExcept(timers[..], timercnt, k)
      ensures Table().Deadlines() == old(Table().Deadlines())[w := t]
    {
      ghost var v := Table();
      assert v.Holds(Cells) && v.Holds(Watchers) && v.WatcherOk(w);
      k := active[w];
      at := at[w := t];
      timers[k] := Cell(at[w], timers[k].w);
      Retimed(v, Table(), w, k);
    }

    method Move(w: Watcher, t: real)
      requires Table().Valid() && w in active && active[w] != 0
      modifies this`active, this`at, timers
      ensures Table().Valid() && active.Keys == old(active.Keys)
        && Table().Deadlines() == old(Table().Deadlines())[w := t]
    {
      var k := Retime(w, t);
      Settle(k);
    }

    method StartAfter(w: Watcher, t: real)
      requires Table().Valid() && w in active && active[w] == 0
      modifies this`timers, this`timercnt, this`active, this`at, this`activecnt, timers
      ensures Table().Valid() && active.Keys == old(active.Keys) && (timers == old(timers) || fresh(timers))
      ensures Table().Deadlines() == old(Table().Deadlines())[w := t + mnNow]
    {
      ghost var v := Table();
      at := at[w := t];
      IdleTime(v, Table(), w);
      Start(w);
    }

    // The heap part of ev_timer_again.
    method Rearm(w: Watcher)
      requires Table().Valid() && w in active && w in repeat
      modifies this`timers, this`timercnt, this`active, this`at, this`activecnt, timers
      ensures Table().Valid() && active.Keys == old(active.Keys) && (timers == old(timers) || fresh(timers))
      ensures repeat[w] != 0.0 ==> Table().Deadlines() == old(Table().Deadlines())[w := mnNow + repeat[w]]
      ensures repeat[w] == 0.0 ==> Table().Deadlines() == old(Table().Deadlines()) - {w}
    {
      assert active[w] == 0 ==> w !in Table().Deadlines();
      if active[w] != 0 {
        if repeat[w] != 0.0 {
          Move(w, mnNow + repeat[w]);
        } else {
          Remove(w);
        }
      } else if repeat[w] != 0.0 {
        StartAfter(w, repeat[w]);
      }
    }

    method Again(w: Watcher, q: View) returns (q': View)
      requires Valid() && w in active && q.Valid() && w in q.pos
      modifies this`timers, this`timercnt, this`active, this`at, this`activecnt, timers
      ensures Valid() && active.Keys == old(active.Keys) && (timers == old(timers) || fresh(timers))
      ensures q' == q.Clear(w)
      ensures repeat[w] != 0.0 ==> Table().Deadlines() == old(Table().Deadlines())[w := mnNow + repeat[w]]
      ensures repeat[w] == 0.0 ==> Table().Deadlines() == old(Table().Deadlines()) - {w}
    {
      q' := q.Clear(w);
      Rearm(w);
    }

    // Shift every active timer, after a jump of the clock the timers run on.
    method Reschedule(adjust: real)
      requires Table().Valid()
      modifies this`at, timers
      ensures Table().Valid() && active.Keys == at.Keys == old(at.Keys)
      ensures forall w | w in active :: at[w] == old(at)[w] + if active[w] != 0 then adjust else 0.0
    {
      ghost var v := Table();
      assert v.Holds(Cells) && v.Holds(Watchers);
      Ready(v);
      for i := 0 to timercnt
        invariant timers.Length == |v.cells| && at.Keys == v.at.Keys
        invariant forall j | 0 <= j < |v.cells| ::
            timers[j] == if HEAP0 <= j < i + HEAP0 then Cell(v.cells[j].at + adjust, v.cells[j].w) else v.cells[j]
        invariant forall w | w in v.at :: at[w] == v.at[w] + if HEAP0 <= active[w] < i + HEAP0 then adjust else 0.0
      {
        assert v.CellOk(i + HEAP0);
        var w := timers[i + HEAP0].w;
        at := at[w := at[w] + adjust];
        timers[i + HEAP0] := Cell(at[w], w);
      }
      assert forall w | w in active :: v.WatcherOk(w);
      Shifted(v, Table(), adjust);
    }

    // Away from the root, from the root.
    method Sink()
      requires Loose(HEAP0) && HeapExcept(timers[..], timercnt, HEAP0)
      modifies timers, this`active
      ensures Table().Valid() && Table().Deadlines() == old(Table().Deadlines()) && active.Keys == old(active.Keys)
    {
      ghost var v := Table();
      Ready(v);
      ExceptSplits(timers[..], timercnt, HEAP0);
      active := Downheap(timers, timercnt, HEAP0, active);
      Reordered(v, Table());
    }

    // Reschedule the repeating timer in the first cell.
    method Reload(w: Watcher)
      requires Table().Valid() && w in active && active[w] == HEAP0 && w in repeat
      modifies this`active, this`at, timers
      ensures Table().Valid() && active.Keys == old(active.Keys)
      ensures w in old(Table().Deadlines())
      ensures var d, d' := old(Table().Deadlines()), Table().Deadlines();
        w in d' && d' == d[w := d'[w]] && IsSoonest(d'[w], d[w], repeat[w], mnNow)
    {
      assert Table().Holds(Watchers);
      var t := at[w] + repeat[w];
      if t < mnNow {
        t := mnNow;
      }
      var k := Retime(w, t);
      Sink();
    }

    predicate FirstIsDue()
      reads this`timers, this`timercnt, this`mnNow, timers
    {
      timercnt > 0 && HEAP0 < timers.Length && timers[HEAP0].Cell? && timers[HEAP0].at < mnNow
    }

    // One round of timers_reify: reschedule or stop the timer in the first cell.
    method ExpireRoot(q: View) returns (w: Watcher, q': View)
      requires Valid() && FirstIsDue() && q.Valid() && active.Keys <= q.pos.Keys
      modifies this`timercnt, this`active, this`at, this`activecnt, timers
      ensures Valid() && active.Keys == old(active.Keys) && w in active
      ensures var d := old(Table().Deadlines());
        && w in d && d[w] < mnNow && (forall u | u in d :: d[w] <= d[u])
        && Renews(Table().Deadlines(), d, w, repeat, mnNow)
      ensures q' == if repeat[w] == 0.0 then q.Clear(w) else q
    {
      RootIsEarliest(Table());
      w := timers[HEAP0].w;
      if repeat[w] != 0.0 {
        q' := q;
        Reload(w);
      } else {
        q' := Stop(w, q);
      }
    }

    // The do loop of timers_reify, which collects `rfeeds`.
    method Expire(q0: View) returns (rfeeds: seq<Watcher>, q: View)
      requires Valid() && q0.Valid() && active.Keys <= q0.pos.Keys
      modifies this`timercnt, this`active, this`at, this`activecnt, timers
      ensures Valid() && active.Keys == old(active.Keys) && Due(Table().Deadlines(), mnNow) == {}
      ensures Expiring(Table().Deadlines(), old(Table().Deadlines()), rfeeds, repeat, mnNow)
      ensures Stopped(q, q0, rfeeds, repeat)
    {
      ghost var d0 := Table().Deadlines();
      rfeeds, q := [], q0;
      NothingExpired(d0, q0, repeat, mnNow);
      while FirstIsDue()
        invariant Valid() && active.Keys == old(active.Keys)
        invariant Expiring(Table().Deadlines(), d0, rfeeds, repeat, mnNow) && Stopped(q, q0, rfeeds, repeat)
        decreases |Due(Table().Deadlines(), mnNow)|
      {
        ghost var d, q1 := Table().Deadlines(), q;
        var w;
        w, q := ExpireRoot(q);
        ExpireOne(d0, d, Table().Deadlines(), rfeeds, repeat, mnNow, w);
        StopOne(q1, q, q0, rfeeds, repeat, w);
        rfeeds := rfeeds + [w];
      }
      NothingDue(Table(), mnNow);
    }

    method FeedDone(w: Watcher, q: View, ghost q0: View, ghost fed: seq<Watcher>, ghost k: nat) returns (q': View)
      requires FedSoFar(q, q0, fed, k) && k < |fed| && w == fed[k]
      ensures FedSoFar(q', q0, fed, k + 1)
    {
      FeedOneMore(q, q0, fed, k);
      q' := q.Feed(w, EV_TIMER);
    }

    // feed_reverse_done: the timer that expired last is fed first.
    method FeedReverse(rfeeds: seq<Watcher>, q0: View) returns (q: View)
      requires rfeeds != [] && q0.Valid() && forall w | w in rfeeds :: w in q0.pos
      ensures q == FeedAll(q0, Reverse(rfeeds), EV_TIMER)
    {
      q := q0;
      var rfeedcnt := |rfeeds|;
      ghost var fed, k := Reverse(rfeeds), 0;
      NothingFed(q0, fed);
      while rfeedcnt > 0
        invariant 0 <= rfeedcnt <= |rfeeds| && k == |rfeeds| - rfeedcnt && FedSoFar(q, q0, fed, k)
      {
        rfeedcnt := rfeedcnt - 1;
        q := FeedDone(rfeeds[rfeedcnt], q, q0, fed, k);
        k := k + 1;
      }
      AllFed(q, q0, fed, k);
    }

    // timers_reify. `rfeeds` are the expired timers, earliest first.
    method Reify(q0: View) returns (q: View, ghost rfeeds: seq<Watcher>)
      requires Valid() && q0.Valid() && active.Keys <= q0.pos.Keys
      modifies this`timercnt, this`active, this`at, this`activecnt, timers
      ensures Valid() && active.Keys == old(active.Keys) && Due(Table().Deadlines(), mnNow) == {}
      ensures Expiring(Table().Deadlines(), old(Table().Deadlines()), rfeeds, repeat, mnNow)
      ensures (forall w | w in rfeeds :: w in q0.pos) && q == Reified(q0, rfeeds, repeat)
    {
      var expired;
      expired, q := Expire(q0);
      rfeeds := expired;
      if expired != [] {
        q := FeedReverse(expired, q);
      }
    }

    // A pass at time `now`.
    method PassAt(now: real, q0: View, ghost d: map<Watcher, real>) returns (q: View, ghost d': map<Watcher, real>)
      requires Valid() && q0.Valid() && active.Keys <= q0.pos.Keys && d == Table().Deadlines()
      modifies this`mnNow, this`timercnt, this`active, this`at, this`activecnt, timers
      ensures Valid() && active.Keys == old(active.Keys) && q.Valid() && active.Keys <= q.pos.Keys
      ensures d' == Table().Deadlines() && Passes(d, d', repeat, now)
    {
      mnNow := now;
      ghost var rfeeds;
      q, rfeeds := Reify(q0);
      d' := Table().Deadlines();
      ExpiredPasses(d, d', rfeeds, repeat, now);
    }

    // A series of passes at the times `times`. `trail` holds the deadlines before each pass and at last.
    method RunPasses(times: seq<real>, q0: View) returns (q: View, ghost trail: seq<map<Watcher, real>>)
      requires Valid() && q0.Valid() && active.Keys <= q0.pos.Keys
      modifies this`mnNow, this`timercnt, this`active, this`at, this`activecnt, timers
      ensures Valid() && active.Keys == old(active.Keys) && IsTrail(trail, times, repeat)
      ensures trail[0] == old(Table().Deadlines()) && trail[|times|] == Table().Deadlines()
    {
      ghost var first, last := Table().Deadlines(), Table().Deadlines();
      q, trail := q0, [first];
      for i := 0 to |times|
        invariant Valid() && active.Keys == old(active.Keys) && q.Valid() && active.Keys <= q.pos.Keys
        invariant IsTrail(trail, times[..i], repeat) && trail[0] == first && trail[i] == last
        invariant last == Table().Deadlines()
      {
        q, last := PassAt(times[i], q, last);
        TrailMore(trail, times, i, last, repeat);
        trail := trail + [last];
      }
      assert times[..|times|] == times;
    }
  }
}
