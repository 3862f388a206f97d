/**
 In which order expired timers are invoked: by priority, then by deadline.
 */
module Expiry {
  import opened Options
  import opened Pending
  import opened Timers

  // ---------- positions in the queues ----------

  lemma ClearMoves(v: View, w: Watcher, u: Watcher)
    requires v.Valid() && w in v.pos && u in v.pos
    ensures v.Linked(w) && u in v.Clear(w).pos && v.Clear(w).pos[u] == if u == w then 0 else v.pos[u]
  {
  }

  lemma {:induction false} ClearAllPositions(v: View, ws: seq<Watcher>, u: Watcher)
    requires v.Valid() && (forall w | w in ws :: w in v.pos) && u in v.pos
    ensures ClearAll(v, ws).pos[u] == if u in ws then 0 else v.pos[u]
  {
    if ws != [] {
      var last := |ws| - 1;
      var v1 := ClearAll(v, ws[..last]);
      ClearAllPositions(v, ws[..last], u);
      ClearMoves(v1, ws[last], u);
      assert ws == ws[..last] + [ws[last]];
    }
  }

  lemma FeedMoves(v: View, w: Watcher, revents: Mask, u: Watcher)
    requires v.Valid() && w in v.pos && u in v.pos
    ensures v.Linked(w) && v.Linked(u) && u in v.Feed(w, revents).pos && |v.Feed(w, revents).queues| == NUMPRI
    ensures v.Feed(w, revents).pos[u] == if u == w && v.pos[w] == 0 then |v.queues[w.pri]| + 1 else v.pos[u]
    ensures |v.Feed(w, revents).queues[u.pri]| == |v.queues[u.pri]| + if u.pri == w.pri && v.pos[w] == 0 then 1 else 0
  {
  }

  // What feeding the watchers `ws` in turn does to the position of `u`: it is stacked if it was
  // not pending and is fed, and otherwise stays where it is.
  ghost predicate Stacked(v: View, r: View, ws: seq<Watcher>, u: Watcher)
    requires u in v.pos && u in r.pos && |v.queues| == |r.queues| == NUMPRI && u.pri < NUMPRI
  {
    && |v.queues[u.pri]| <= |r.queues[u.pri]|
    && if v.pos[u] != 0 || u !in ws then r.pos[u] == v.pos[u]
       else |v.queues[u.pri]| < r.pos[u] <= |r.queues[u.pri]|
  }

  lemma StackedStep(v: View, r: View, r': View, ws: seq<Watcher>, w: Watcher, u: Watcher)
    requires u in v.pos && u in r.pos && w in r.pos && |v.queues| == |r.queues| == |r'.queues| == NUMPRI
      && u.pri < NUMPRI
    requires u in r'.pos && r'.pos[u] == if u == w && r.pos[w] == 0 then |r.queues[w.pri]| + 1 else r.pos[u]
    requires |r'.queues[u.pri]| == |r.queues[u.pri]| + if u.pri == w.pri && r.pos[w] == 0 then 1 else 0
    requires Stacked(v, r, ws, u)
    ensures Stacked(v, r', ws + [w], u)
  {
  }

  lemma {:induction false} FeedAllPositions(v: View, ws: seq<Watcher>, revents: Mask, u: Watcher)
    requires v.Valid() && (forall w | w in ws :: w in v.pos) && u in v.pos && u.pri < NUMPRI
    ensures Stacked(v, FeedAll(v, ws, revents), ws, u)
  {
    if ws != [] {
      var last := |ws| - 1;
      var r := FeedAll(v, ws[..last], revents);
      FeedAllPositions(v, ws[..last], revents, u);
      FeedMoves(r, ws[last], revents, u);
      StackedStep(v, r, r.Feed(ws[last], revents), ws[..last], ws[last], u);
      assert ws == ws[..last] + [ws[last]];
    }
  }

  predicate NoRepeats(ws: seq<Watcher>) {
    forall m, n | 0 <= m < n < |ws| :: ws[m] != ws[n]
  }

  // The watcher `ws[j]`, just fed, is on top of `ws[i]`, fed before it.
  lemma LastIsHighest(v: View, ws: seq<Watcher>, revents: Mask, i: nat, j: nat)
    requires v.Valid() && (forall w | w in ws :: w in v.pos) && NoRepeats(ws) && i < j < |ws|
    requires v.pos[ws[i]] == 0 && v.pos[ws[j]] == 0 && ws[i].pri == ws[j].pri < NUMPRI
    ensures 0 < FeedAll(v, ws[..j + 1], revents).pos[ws[i]] < FeedAll(v, ws[..j + 1], revents).pos[ws[j]]
  {
    var w, u := ws[j], ws[i];
    assert ws[..j + 1][..j] == ws[..j];
    var r := FeedAll(v, ws[..j], revents);
    FeedAllPositions(v, ws[..j], revents, u);
    FeedAllPositions(v, ws[..j], revents, w);
    assert u in ws[..j] && w !in ws[..j];
    FeedMoves(r, w, revents, u);
    FeedMoves(r, w, revents, w);
  }

  lemma FeedNext(v: View, ws: seq<Watcher>, revents: Mask, n: nat, u: Watcher)
    requires v.Valid() && (forall w | w in ws :: w in v.pos) && u in v.pos && n < |ws|
    requires FeedAll(v, ws[..n], revents).pos[u] != 0
    ensures FeedAll(v, ws[..n + 1], revents).pos[u] == FeedAll(v, ws[..n], revents).pos[u]
  {
    assert ws[..n + 1][..n] == ws[..n];
    FeedMoves(FeedAll(v, ws[..n], revents), ws[n], revents, u);
  }

  // Feeding more watchers leaves a pending one where it is.
  lemma {:induction false} Stays(v: View, ws: seq<Watcher>, revents: Mask, m: nat, n: nat, u: Watcher)
    requires v.Valid() && (forall w | w in ws :: w in v.pos) && u in v.pos && m <= n <= |ws|
    requires FeedAll(v, ws[..m], revents).pos[u] != 0
    ensures FeedAll(v, ws[..n], revents).pos[u] == FeedAll(v, ws[..m], revents).pos[u]
    decreases n - m
  {
    if m < n {
      FeedNext(v, ws, revents, m, u);
      Stays(v, ws, revents, m + 1, n, u);
    }
  }

  // Of two watchers that were not pending, the one fed later is nearer the top.
  lemma LaterIsHigher(v: View, ws: seq<Watcher>, revents: Mask, i: nat, j: nat)
    requires v.Valid() && (forall w | w in ws :: w in v.pos) && NoRepeats(ws) && i < j < |ws|
    requires v.pos[ws[i]] == 0 && v.pos[ws[j]] == 0 && ws[i].pri == ws[j].pri < NUMPRI
    ensures 0 < FeedAll(v, ws, revents).pos[ws[i]] < FeedAll(v, ws, revents).pos[ws[j]]
  {
    assert ws[..|ws|] == ws;
    LastIsHighest(v, ws, revents, i, j);
    Stays(v, ws, revents, j + 1, |ws|, ws[i]);
    Stays(v, ws, revents, j + 1, |ws|, ws[j]);
  }

  // ---------- the order of deliveries ----------

  // `e` comes before `f` in `log`.
  ghost predicate Before(log: seq<Event>, from: nat, e: Event, f: Event) {
    exists i, j :: from <= i < j < |log| && log[i] == e && log[j] == f
  }

  function At(q: seq<Slot>, k: nat): Event
    requires k < |q|
  {
    Invoked(q[k].w, q[k].events)
  }

  lemma {:induction false} StackDelivers(dummy: Watcher, q: seq<Slot>, k: nat) returns (i: nat)
    requires k < |q| && q[k].w != dummy
    ensures i < |StackOrder(dummy, q)| && StackOrder(dummy, q)[i] == At(q, k)
  {
    var last := |q| - 1;
    if k == last {
      i := 0;
    } else {
      var m := StackDelivers(dummy, q[..last], k);
      i := m + if q[last].w == dummy then 0 else 1;
    }
  }

  // Within a queue, the higher slot is delivered first.
  lemma {:induction false} StackOrdered(dummy: Watcher, q: seq<Slot>, k: nat, m: nat) returns (i: nat, j: nat)
    requires m < k < |q| && q[k].w != dummy && q[m].w != dummy
    ensures i < j < |StackOrder(dummy, q)| && StackOrder(dummy, q)[i] == At(q, k) && StackOrder(dummy, q)[j] == At(q, m)
  {
    var last := |q| - 1;
    if k == last {
      var r := StackDelivers(dummy, q[..last], m);
      i, j := 0, r + 1;
    } else {
      var a, b := StackOrdered(dummy, q[..last], k, m);
      var d := if q[last].w == dummy then 0 else 1;
      i, j := a + d, b + d;
    }
  }

  lemma {:induction false} QueueDelivers(dummy: Watcher, queues: seq<seq<Slot>>, p: nat, r: nat,
                                         k: nat) returns (i: nat)
    requires r < p <= |queues| && k < |queues[r]| && queues[r][k].w != dummy
    ensures i < |Deliveries(dummy, queues, p)| && Deliveries(dummy, queues, p)[i] == At(queues[r], k)
  {
    if r == p - 1 {
      i := StackDelivers(dummy, queues[r], k);
    } else {
      var m := QueueDelivers(dummy, queues, p - 1, r, k);
      i := m + |StackOrder(dummy, queues[p - 1])|;
    }
  }

  // The slot `k` of queue `r` is delivered before the slot `m` of queue `s` if it is of
  // higher priority, or in the same queue and higher.
  lemma {:induction false} DeliveredInOrder(dummy: Watcher, queues: seq<seq<Slot>>, p: nat, r: nat, k: nat, s: nat,
                                            m: nat)
    returns (i: nat, j: nat)
    requires r < p <= |queues| && k < |queues[r]| && queues[r][k].w != dummy
    requires s < p && m < |queues[s]| && queues[s][m].w != dummy
    requires r > s || (r == s && k > m)
    ensures i < j < |Deliveries(dummy, queues, p)|
    ensures Deliveries(dummy, queues, p)[i] == At(queues[r], k) && Deliveries(dummy, queues, p)[j] == At(queues[s], m)
  {
    var top := StackOrder(dummy, queues[p - 1]);
    if s == p - 1 {
      i, j := StackOrdered(dummy, queues[s], k, m);
    } else if r == p - 1 {
      i := StackDelivers(dummy, queues[r], k);
      var b := QueueDelivers(dummy, queues, p - 1, s, m);
      j := b + |top|;
    } else {
      var a, b := DeliveredInOrder(dummy, queues, p - 1, r, k, s, m);
      i, j := a + |top|, b + |top|;
    }
  }

  // A pending watcher is delivered, and before `u` if it is of higher priority or above it in the same queue.
  lemma PendingInOrder(v: View, w: Watcher, u: Watcher)
    requires v.Valid() && w in v.pos && u in v.pos && v.pos[w] != 0 && v.pos[u] != 0
    requires w.pri > u.pri || (w.pri == u.pri && v.pos[w] > v.pos[u])
    ensures v.OwedTo(w).Some? && v.OwedTo(u).Some?
    ensures Before(Outcome(v, NUMPRI), |v.log|, Invoked(w, v.OwedTo(w).value), Invoked(u, v.OwedTo(u).value))
  {
    assert v.Linked(w) && v.Linked(u) && v.Holds(Structure);
    var i, j := DeliveredInOrder(v.dummy, v.queues, NUMPRI, w.pri, v.pos[w] - 1, u.pri, v.pos[u] - 1);
    var log := Outcome(v, NUMPRI);
    assert log[|v.log| + i] == Invoked(w, v.OwedTo(w).value) && log[|v.log| + j] == Invoked(u, v.OwedTo(u).value);
  }

  // ---------- the order of expired timers ----------

  // Nothing was owed to `w` when it expired, or it lost that because stopping it cleared it.
  predicate Unqueued(q0: View, repeat: map<Watcher, real>, w: Watcher)
    requires w in q0.pos && w in repeat
  {
    q0.pos[w] == 0 || repeat[w] == 0.0
  }

  function FedLog(ws: seq<Watcher>, revents: Mask): seq<Event> {
    if ws == [] then [] else FedLog(ws[..|ws| - 1], revents) + [Fed(ws[|ws| - 1], revents)]
  }

  // Feeding the watchers `ws` is recorded as just that.
  lemma {:induction false} FeedAllLog(v: View, ws: seq<Watcher>, revents: Mask)
    requires v.Valid() && forall w | w in ws :: w in v.pos
    ensures FeedAll(v, ws, revents).log == v.log + FedLog(ws, revents)
  {
    if ws == [] {
      assert v.log + [] == v.log;
    } else {
      var last := |ws| - 1;
      FeedAllLog(v, ws[..last], revents);
      assert (v.log + FedLog(ws[..last], revents)) + [Fed(ws[last], revents)] == v.log + FedLog(ws, revents);
    }
  }

  lemma {:induction false} OwedFed(log: seq<Event>, ws: seq<Watcher>, revents: Mask, u: Watcher)
    requires Owed(log, u) == None && NoRepeats(ws)
    ensures Owed(log + FedLog(ws, revents), u) == if u in ws then Some(revents) else None
  {
    if ws == [] {
      assert log + [] == log;
    } else {
      var last := |ws| - 1;
      OwedFed(log, ws[..last], revents, u);
      var before := log + FedLog(ws[..last], revents);
      assert log + FedLog(ws, revents) == before + [Fed(ws[last], revents)];
      assert (before + [Fed(ws[last], revents)])[..|before|] == before;
      assert ws == ws[..last] + [ws[last]] && ws[last] !in ws[..last];
    }
  }

  // What was not pending and is fed once owes exactly what it was fed.
  lemma FedOnce(v: View, ws: seq<Watcher>, revents: Mask, u: Watcher)
    requires v.Valid() && (forall w | w in ws :: w in v.pos) && u in v.pos && v.pos[u] == 0 && NoRepeats(ws)
    ensures FeedAll(v, ws, revents).OwedTo(u) == if u in ws then Some(revents) else None
  {
    assert v.Holds(Debts) && FeedAll(v, ws, revents).Holds(Debts);
    FeedAllLog(v, ws, revents);
    OwedFed(v.log, ws, revents, u);
  }

  // Of two watchers fed while not pending, the one of higher priority is delivered first, and at
  // equal priority the one fed later.
  lemma FedInOrder(v: View, ws: seq<Watcher>, revents: Mask, i: nat, j: nat)
    requires v.Valid() && (forall w | w in ws :: w in v.pos) && NoRepeats(ws) && i < |ws| && j < |ws|
    requires v.pos[ws[i]] == 0 && v.pos[ws[j]] == 0
    requires ws[i].pri > ws[j].pri || (ws[i].pri == ws[j].pri && i > j)
    ensures var q := FeedAll(v, ws, revents);
      Before(Outcome(q, NUMPRI), |q.log|, Invoked(ws[i], revents), Invoked(ws[j], revents))
  {
    assert v.Linked(ws[i]) && v.Linked(ws[j]);
    FeedAllPositions(v, ws, revents, ws[i]);
    FeedAllPositions(v, ws, revents, ws[j]);
    if ws[i].pri == ws[j].pri {
      LaterIsHigher(v, ws, revents, j, i);
    }
    FedOnce(v, ws, revents, ws[i]);
    FedOnce(v, ws, revents, ws[j]);
    PendingInOrder(FeedAll(v, ws, revents), ws[i], ws[j]);
  }

  lemma ReversedOnce(done: seq<Watcher>)
    requires NoRepeats(done)
    ensures NoRepeats(Reverse(done))
  {
  }

  lemma OnceInOrder(done: seq<Watcher>, d0: map<Watcher, real>, now: real)
    requires InOrder(done, d0, now)
    ensures NoRepeats(done)
  {
  }

  // Where the expired timers stand in the order they are fed.
  lemma FedLastFirst(d0: map<Watcher, real>, done: seq<Watcher>, now: real, m: nat, n: nat)
    requires InOrder(done, d0, now) && m < |done| && n < |done|
    ensures done[m] in d0 && done[n] in d0 && (d0[done[m]] < d0[done[n]] ==> m < n)
    ensures Reverse(done)[|done| - 1 - m] == done[m] && Reverse(done)[|done| - 1 - n] == done[n]
  {
  }

  lemma Places(d0: map<Watcher, real>, d: map<Watcher, real>, done: seq<Watcher>, repeat: map<Watcher, real>,
               now: real, a: Watcher, b: Watcher) returns (i: nat, j: nat)
    requires Expiring(d, d0, done, repeat, now) && a in done && b in done && a in d0 && b in d0
    ensures NoRepeats(Reverse(done)) && i < |done| && j < |done| && Reverse(done)[i] == a && Reverse(done)[j] == b
    ensures d0[a] < d0[b] ==> i > j
  {
    ExpiringSays(d, d0, done, repeat, now);
    OnceInOrder(done, d0, now);
    ReversedOnce(done);
    var m :| 0 <= m < |done| && done[m] == a;
    var n :| 0 <= n < |done| && done[n] == b;
    FedLastFirst(d0, done, now, m, n);
    i, j := |done| - 1 - m, |done| - 1 - n;
  }

  // Timers run by priority, and at the same priority in the order of their deadlines.
  lemma ExpiredInOrder(q0: View, d0: map<Watcher, real>, d: map<Watcher, real>, done: seq<Watcher>,
                       repeat: map<Watcher, real>, now: real, a: Watcher, b: Watcher)
    requires q0.Valid() && (forall w | w in done :: w in q0.pos && w in repeat) && Expiring(d, d0, done, repeat, now)
    requires a in done && b in done && Unqueued(q0, repeat, a) && Unqueued(q0, repeat, b)
    requires a in d0 && b in d0 && (a.pri > b.pri || (a.pri == b.pri && d0[a] < d0[b]))
    ensures var q := Reified(q0, done, repeat);
      Before(Outcome(q, NUMPRI), |q.log|, Invoked(a, EV_TIMER), Invoked(b, EV_TIMER))
  {
    var q1 := ClearAll(q0, OneShots(done, repeat));
    ClearAllPositions(q0, OneShots(done, repeat), a);
    ClearAllPositions(q0, OneShots(done, repeat), b);
    var i, j := Places(d0, d, done, repeat, now, a, b);
    FedInOrder(q1, Reverse(done), EV_TIMER, i, j);
  }

  // A pass feeds every timer that was due exactly once, and no other.
  lemma ExpiredOnce(q0: View, d0: map<Watcher, real>, d: map<Watcher, real>, done: seq<Watcher>,
                    repeat: map<Watcher, real>, now: real)
    requires q0.Valid() && (forall w | w in done :: w in q0.pos) && Expiring(d, d0, done, repeat, now)
      && Due(d, now) == {}
    ensures Reified(q0, done, repeat).log == ClearAll(q0, OneShots(done, repeat)).log + FedLog(Reverse(done), EV_TIMER)
    ensures NoRepeats(Reverse(done)) && forall w :: w in Reverse(done) <==> w in d0 && d0[w] < now
  {
    FeedAllLog(ClearAll(q0, OneShots(done, repeat)), Reverse(done), EV_TIMER);
    ExpiringSays(d, d0, done, repeat, now);
    OnceInOrder(done, d0, now);
    ReversedOnce(done);
    ExpireAll(d0, d, done, repeat, now);
    SameElements(done);
  }

  lemma SameElements(ws: seq<Watcher>)
    ensures forall w :: w in Reverse(ws) <==> w in ws
  {
    forall w | w in ws ensures w in Reverse(ws) {
      var i :| 0 <= i < |ws| && ws[i] == w;
      assert Reverse(ws)[|ws| - 1 - i] == w;
    }
  }
}
