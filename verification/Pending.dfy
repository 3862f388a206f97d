/**
 The pending queues of the loop: `ev_feed_event`, `ev_clear_pending` and `ev_invoke_pending`.

 One stack per priority holds the watchers with an event to deliver. A watcher's `pending`
 field is its position in its stack, counted from 1, or 0. Callbacks are arbitrary finite
 programs that feed and clear watchers and may run `ev_invoke_pending` again.
 */
module Pending {
  import opened Options

  const NUMPRI: nat := 5          // EV_MAXPRI - EV_MINPRI + 1

  type Mask = set<nat>  // an int of event bits, as the set of the bits that are 1

  // Who a watcher is, and its priority (ABSPRI, as left by pri_adjust). What the loop stores
  // in a watcher (`pending`, `active`, `at`) is kept in maps of the loop.
  datatype Watcher = Watcher(id: nat, pri: nat)

  // ---------- the history of deliveries, and what it promises ----------

  datatype Event =
    | Fed(w: Watcher, revents: Mask)
    | Cleared(w: Watcher)
    | Invoked(w: Watcher, revents: Mask)

  // How one event changes what is owed to `w`.
  function OwedAfter(before: Option<Mask>, e: Event, w: Watcher): Option<Mask> {
    if e.w != w then before
    else if !e.Fed? then None
    else Some(if before.Some? then before.value + e.revents else e.revents)
  }

  // What is owed to `w`: everything fed since it was last invoked or cleared, or-ed together.
  function Owed(log: seq<Event>, w: Watcher): Option<Mask> {
    if log == [] then None
    else OwedAfter(Owed(log[..|log| - 1], w), log[|log| - 1], w)
  }

  // An invocation delivers exactly what is owed, when nothing of higher priority is owed.
  predicate Proper(all: set<Watcher>, log: seq<Event>, e: Event) {
    && e.w in all
    && (e.Invoked? ==>
          && Owed(log, e.w) == Some(e.revents)
          && forall v | v in all && v.pri > e.w.pri :: Owed(log, v) == None)
  }

  ghost predicate AllProper(all: set<Watcher>, log: seq<Event>) {
    forall i | 0 <= i < |log| :: Proper(all, log[..i], log[i])
  }

  // What appending an event does to every debt at once.
  lemma Record(all: set<Watcher>, log: seq<Event>, e: Event)
    requires AllProper(all, log) && Proper(all, log, e)
    ensures AllProper(all, log + [e])
    ensures forall w | w in all :: Owed(log + [e], w) == OwedAfter(Owed(log, w), e, w)
  {
    assert (log + [e])[..|log|] == log;
    forall i | 0 <= i < |log + [e]| ensures Proper(all, (log + [e])[..i], (log + [e])[i]) {
      assert (log + [e])[..i] == log[..i];
    }
  }

  // ---------- the queues as a value ----------

  datatype Slot = Slot(w: Watcher, events: Mask)

  // What there is to say about a state of the queues.
  datatype Aspect = Structure | Debts | History

  // The queues, the `pending` field of every watcher served, and the history so far.
  // `dummy` is pending_w, which stands in for cleared watchers.
  datatype View = View(dummy: Watcher, queues: seq<seq<Slot>>, pos: map<Watcher, nat>, log: seq<Event>) {

    // The back pointer of `w` leads to its slot.
    predicate Linked(w: Watcher)
      requires w in pos
    {
      && |queues| == NUMPRI
      && w.pri < NUMPRI
      && pos[w] <= |queues[w.pri]|
      && (pos[w] != 0 ==> queues[w.pri][pos[w] - 1].w == w)
    }

    function OwedTo(w: Watcher): Option<Mask>
      requires w in pos && Linked(w)
    {
      if pos[w] == 0 then None else Some(queues[w.pri][pos[w] - 1].events)
    }

    predicate SlotOk(p: nat, i: nat)
      requires p < |queues| && i < |queues[p]|
    {
      var w := queues[p][i].w;
      w == dummy || (w in pos && w.pri == p && pos[w] == i + 1)
    }

    ghost predicate Consistent() {
      && dummy !in pos
      && |queues| == NUMPRI
      && (forall p, i | 0 <= p < NUMPRI && 0 <= i < |queues[p]| :: SlotOk(p, i))
      && (forall w | w in pos :: Linked(w))
    }

    // The queues hold exactly what the history says is owed, and the history is proper.
    ghost predicate Holds(a: Aspect) {
      match a
      case Structure => Consistent()
      case Debts => Consistent() && forall w | w in pos :: OwedTo(w) == Owed(log, w)
      case History => AllProper(pos.Keys, log)
    }

    ghost predicate Valid() {
      && |queues| == NUMPRI
      && (forall w | w in pos :: Linked(w))
      && (forall a: Aspect :: Holds(a))
    }

    function Feed(w: Watcher, revents: Mask): View
      requires w in pos && Linked(w)
    {
      var q := queues[w.pri];
      if pos[w] != 0
      then this.(queues := queues[w.pri := q[pos[w] - 1 := Slot(w, q[pos[w] - 1].events + revents)]],
                 log := log + [Fed(w, revents)])
      else this.(queues := queues[w.pri := q + [Slot(w, revents)]],
                 pos := pos[w := |q| + 1],
                 log := log + [Fed(w, revents)])
    }

    function Clear(w: Watcher): View
      requires w in pos && Linked(w)
    {
      if pos[w] == 0 then this
      else
        var q := queues[w.pri];
        this.(queues := queues[w.pri := q[pos[w] - 1 := q[pos[w] - 1].(w := dummy)]],
              pos := pos[w := 0],
              log := log + [Cleared(w)])
    }

    // Take the top of queue `p` off and invoke its watcher.
    function Pop(p: nat): View
      requires p < |queues| && |queues[p]| > 0
    {
      var q := queues[p];
      var top := q[|q| - 1];
      if top.w == dummy then this.(queues := queues[p := q[..|q| - 1]])
      else this.(queues := queues[p := q[..|q| - 1]],
                 pos := pos[top.w := 0],
                 log := log + [Invoked(top.w, top.events)])
    }

    predicate EmptyAbove(p: int) {
      forall r | 0 <= r < |queues| && p < r :: queues[r] == []
    }
  }

  lemma FeedLinks(v: View, w: Watcher, revents: Mask, u: Watcher)
    requires v.Consistent() && w in v.pos && u in v.pos
    ensures v.Linked(u) && v.Linked(w) && v.Feed(w, revents).Linked(u)
    ensures v.Feed(w, revents).OwedTo(u) == OwedAfter(v.OwedTo(u), Fed(w, revents), u)
  {
    assert v.Linked(u) && v.Linked(w);
  }

  lemma FeedSlots(v: View, w: Watcher, revents: Mask)
    requires v.Consistent() && w in v.pos
    ensures v.Linked(w) && v.Feed(w, revents).Consistent()
  {
    assert v.Linked(w);
    var v' := v.Feed(w, revents);
    forall p, i | 0 <= p < NUMPRI && 0 <= i < |v'.queues[p]| ensures v'.SlotOk(p, i) {
      if i < |v.queues[p]| { assert v.SlotOk(p, i); }
    }
    forall u | u in v'.pos ensures v'.Linked(u) {
      FeedLinks(v, w, revents, u);
    }
  }

  lemma FeedKeeps(v: View, w: Watcher, revents: Mask)
    requires v.Valid() && w in v.pos
    ensures v.Linked(w) && v.Feed(w, revents).Valid() && v.Feed(w, revents).pos.Keys == v.pos.Keys
  {
    assert v.Holds(Structure) && v.Holds(Debts) && v.Holds(History);
    FeedSlots(v, w, revents);
    var v' := v.Feed(w, revents);
    assert v'.pos.Keys == v.pos.Keys;
    Record(v.pos.Keys, v.log, Fed(w, revents));
    forall u | u in v'.pos ensures v'.OwedTo(u) == Owed(v'.log, u) {
      FeedLinks(v, w, revents, u);
    }
  }

  lemma ClearLinks(v: View, w: Watcher, u: Watcher)
    requires v.Consistent() && w in v.pos && u in v.pos
    ensures v.Linked(u) && v.Linked(w) && v.Clear(w).Linked(u)
    ensures v.Clear(w).OwedTo(u) == if u == w then None else v.OwedTo(u)
  {
    assert v.Linked(u) && v.Linked(w);
  }

  lemma ClearSlots(v: View, w: Watcher)
    requires v.Consistent() && w in v.pos
    ensures v.Linked(w) && v.Clear(w).Consistent() && v.Clear(w).pos.Keys == v.pos.Keys
  {
    assert v.Linked(w);
    var v' := v.Clear(w);
    forall p, i | 0 <= p < NUMPRI && 0 <= i < |v'.queues[p]| ensures v'.SlotOk(p, i) {
      assert v.SlotOk(p, i);
    }
    forall u | u in v'.pos ensures v'.Linked(u) {
      ClearLinks(v, w, u);
    }
  }

  lemma ClearDebts(v: View, w: Watcher)
    requires v.Valid() && w in v.pos && v.pos[w] != 0 && v.Consistent()
    ensures v.Linked(w) && forall u | u in v.Clear(w).pos :: v.Clear(w).OwedTo(u) == Owed(v.Clear(w).log, u)
  {
    assert v.Holds(Debts) && v.Linked(w);
    var v' := v.Clear(w);
    forall u | u in v'.pos ensures v'.OwedTo(u) == Owed(v'.log, u) {
      ClearLinks(v, w, u);
    }
  }

  lemma ClearKeeps(v: View, w: Watcher)
    requires v.Valid() && w in v.pos
    ensures v.Linked(w) && v.Clear(w).Valid() && v.Clear(w).pos.Keys == v.pos.Keys
    ensures Owed(v.Clear(w).log, w) == None
  {
    assert v.Holds(Structure) && v.Holds(Debts) && v.Holds(History);
    if v.pos[w] == 0 {
      assert v.Linked(w) && v.Clear(w) == v;
    } else {
      ClearSlots(v, w);
      Record(v.pos.Keys, v.log, Cleared(w));
      ClearDebts(v, w);
    }
  }

  lemma PopLinks(v: View, p: nat, u: Watcher)
    requires v.Consistent() && p < NUMPRI && |v.queues[p]| > 0 && u in v.pos
    ensures u in v.Pop(p).pos && v.Pop(p).Linked(u)
    ensures v.Pop(p).OwedTo(u) == if u == v.queues[p][|v.queues[p]| - 1].w then None else v.OwedTo(u)
  {
    assert v.Linked(u);
    assert v.SlotOk(p, |v.queues[p]| - 1);
  }

  lemma PopSlots(v: View, p: nat)
    requires v.Consistent() && p < NUMPRI && |v.queues[p]| > 0
    ensures v.Pop(p).Consistent() && v.Pop(p).pos.Keys == v.pos.Keys
  {
    var v' := v.Pop(p);
    assert v.SlotOk(p, |v.queues[p]| - 1);
    forall r, i | 0 <= r < NUMPRI && 0 <= i < |v'.queues[r]| ensures v'.SlotOk(r, i) {
      assert v.SlotOk(r, i);
    }
    forall u | u in v'.pos ensures v'.Linked(u) {
      PopLinks(v, p, u);
    }
  }

  lemma PopKeeps(v: View, p: nat)
    requires v.Valid() && p < NUMPRI && p < |v.queues| && |v.queues[p]| > 0 && v.EmptyAbove(p)
    ensures v.Pop(p).Valid() && v.Pop(p).pos.Keys == v.pos.Keys
  {
    assert v.Holds(Structure) && v.Holds(Debts) && v.Holds(History);
    PopSlots(v, p);
    var v' := v.Pop(p);
    var top := v.queues[p][|v.queues[p]| - 1];
    assert v.SlotOk(p, |v.queues[p]| - 1);
    if top.w != v.dummy {
      forall u | u in v.pos && u.pri > p ensures Owed(v.log, u) == None {
        assert v.Linked(u);
      }
      Record(v.pos.Keys, v.log, Invoked(top.w, top.events));
    }
    forall u | u in v'.pos ensures v'.OwedTo(u) == Owed(v'.log, u) {
      PopLinks(v, p, u);
    }
  }

  // ---------- several watchers at once ----------

  ghost function ClearAll(v: View, ws: seq<Watcher>): (r: View)
    requires v.Valid() && forall w | w in ws :: w in v.pos
    ensures r.Valid() && r.pos.Keys == v.pos.Keys && r.dummy == v.dummy
  {
    if ws == [] then v
    else
      var v1 := ClearAll(v, ws[..|ws| - 1]);
      ClearKeeps(v1, ws[|ws| - 1]);
      v1.Clear(ws[|ws| - 1])
  }

  ghost function FeedAll(v: View, ws: seq<Watcher>, revents: Mask): (r: View)
    requires v.Valid() && forall w | w in ws :: w in v.pos
    ensures r.Valid() && r.pos.Keys == v.pos.Keys && r.dummy == v.dummy
  {
    if ws == [] then v
    else
      var v1 := FeedAll(v, ws[..|ws| - 1], revents);
      FeedKeeps(v1, ws[|ws| - 1], revents);
      v1.Feed(ws[|ws| - 1], revents)
  }

  lemma FeedAllNext(v: View, ws: seq<Watcher>, revents: Mask, n: nat)
    requires v.Valid() && (forall w | w in ws :: w in v.pos) && n < |ws|
    ensures FeedAll(v, ws[..n], revents).Linked(ws[n])
    ensures FeedAll(v, ws[..n + 1], revents) == FeedAll(v, ws[..n], revents).Feed(ws[n], revents)
  {
    assert ws[..n + 1][..n] == ws[..n];
    assert FeedAll(v, ws[..n], revents).Holds(Structure);
  }

  // ---------- what a proper history with nothing owed says ----------

  predicate Settles(e: Event, w: Watcher) {
    e.w == w && !e.Fed?
  }

  predicate Feeds(e: Event, w: Watcher) {
    e.w == w && e.Fed?
  }

  // Between two settlements the debt is exactly the union of what was fed.
  lemma {:induction false} OwedIsUnion(log: seq<Event>, w: Watcher, k: nat, n: nat)
    requires k <= n <= |log| && Owed(log[..k], w) == None
    requires forall i | k <= i < n :: !Settles(log[i], w)
    ensures Owed(log[..n], w).Some? <==> exists i :: k <= i < n && Feeds(log[i], w)
    ensures forall b :: (Owed(log[..n], w).Some? && b in Owed(log[..n], w).value)
              <==> exists i :: k <= i < n && Feeds(log[i], w) && b in log[i].revents
  {
    if k < n {
      OwedIsUnion(log, w, k, n - 1);
      assert log[..n][..n - 1] == log[..n - 1];
      assert Owed(log[..n], w) == OwedAfter(Owed(log[..n - 1], w), log[n - 1], w);
    }
  }

  // Every feed is followed by an invocation or a clear of its watcher, unless it is still owed.
  lemma {:induction false} EveryFeedIsSettled(log: seq<Event>, w: Watcher, i: nat) returns (j: nat)
    requires i < |log| && Feeds(log[i], w) && Owed(log, w) == None
    ensures i < j < |log| && Settles(log[j], w)
    ensures forall m | i < m < j :: !Settles(log[m], w)
  {
    if forall m | i < m < |log| :: !Settles(log[m], w) {
      assert log[..|log|] == log;
      StillOwed(log, w, i, |log|);
    } else {
      j := i + 1;
      while !Settles(log[j], w)
        invariant i < j <= |log|
        invariant forall m | i < m < j :: !Settles(log[m], w)
        invariant exists m :: j <= m < |log| && Settles(log[m], w)
        decreases |log| - j
      {
        j := j + 1;
      }
    }
  }

  lemma {:induction false} StillOwed(log: seq<Event>, w: Watcher, i: nat, n: nat)
    requires i < n <= |log| && Feeds(log[i], w)
    requires forall m | i < m < n :: !Settles(log[m], w)
    ensures Owed(log[..n], w).Some? && log[i].revents <= Owed(log[..n], w).value
  {
    assert log[..n][..n - 1] == log[..n - 1];
    assert Owed(log[..n], w) == OwedAfter(Owed(log[..n - 1], w), log[n - 1], w);
    if i < n - 1 {
      StillOwed(log, w, i, n - 1);
    }
  }

  // An invocation in a proper history carries the union of the feeds since the last settlement,
  // of which there is at least one, and nothing of higher priority is owed at that moment.
  lemma InvocationDelivers(all: set<Watcher>, log: seq<Event>, k: nat, j: nat)
    requires AllProper(all, log) && k <= j < |log| && log[j].Invoked?
    requires k == 0 || Settles(log[k - 1], log[j].w)
    requires forall i | k <= i < j :: !Settles(log[i], log[j].w)
    ensures exists i :: k <= i < j && Feeds(log[i], log[j].w)
    ensures forall b :: b in log[j].revents <==>
              exists i :: k <= i < j && Feeds(log[i], log[j].w) && b in log[i].revents
    ensures forall v | v in all && v.pri > log[j].w.pri :: Owed(log[..j], v) == None
  {
    var w := log[j].w;
    assert Proper(all, log[..j], log[j]);
    if k > 0 {
      assert log[..k][..k - 1] == log[..k - 1];
    }
    OwedIsUnion(log, w, k, j);
  }

  // ---------- deliveries in order, when callbacks do nothing ----------

  function StackOrder(dummy: Watcher, q: seq<Slot>): seq<Event> {
    if q == [] then []
    else
      var top := q[|q| - 1];
      (if top.w == dummy then [] else [Invoked(top.w, top.events)]) + StackOrder(dummy, q[..|q| - 1])
  }

  function Deliveries(dummy: Watcher, queues: seq<seq<Slot>>, p: nat): seq<Event>
    requires p <= |queues|
  {
    if p == 0 then [] else StackOrder(dummy, queues[p - 1]) + Deliveries(dummy, queues, p - 1)
  }

  lemma {:induction false} DeliveriesLocal(dummy: Watcher, queues: seq<seq<Slot>>, q: seq<Slot>, p: nat, r: nat)
    requires p <= r < |queues|
    ensures Deliveries(dummy, queues[r := q], p) == Deliveries(dummy, queues, p)
  {
    if p > 0 { DeliveriesLocal(dummy, queues, q, p - 1, r); }
  }

  // The history once everything up to queue `p` has been delivered to inert callbacks.
  function Outcome(v: View, p: nat): seq<Event>
    requires p <= |v.queues|
  {
    v.log + Deliveries(v.dummy, v.queues, p)
  }

  // Popping moves the first remaining delivery into the history.
  lemma PopDelivers(v: View, p: nat)
    requires p < |v.queues| && |v.queues[p]| > 0
    ensures Outcome(v.Pop(p), p + 1) == Outcome(v, p + 1)
  {
    var q := v.queues[p];
    var rest := q[..|q| - 1];
    var queues := v.queues[p := rest];
    DeliveriesLocal(v.dummy, v.queues, rest, p, p);
    assert v.Pop(p).queues == queues;
    var tail := StackOrder(v.dummy, rest) + Deliveries(v.dummy, v.queues, p);
    assert Deliveries(v.dummy, queues, p + 1) == tail;
    if q[|q| - 1].w == v.dummy {
      assert Deliveries(v.dummy, v.queues, p + 1) == tail;
    } else {
      assert Deliveries(v.dummy, v.queues, p + 1) == [Invoked(q[|q| - 1].w, q[|q| - 1].events)] + tail;
    }
  }

  // ---------- callbacks ----------

  datatype Op =
    | DoFeed(w: Watcher, revents: Mask)
    | DoClear(w: Watcher)
    | DoInvoke                          // a nested ev_run first invokes what is pending

  predicate ScriptOk(all: set<Watcher>, ops: seq<Op>) {
    forall i | 0 <= i < |ops| :: ops[i].DoInvoke? || ops[i].w in all
  }

  predicate ScriptsOk(all: set<Watcher>, scripts: seq<seq<Op>>) {
    forall i | 0 <= i < |scripts| :: ScriptOk(all, scripts[i])
  }

  // ---------- what a run of callbacks did ----------

  // The invocations of one ev_invoke_pending in order, each with what its callback did: the operations
  // of its script, and for a nested invocation what that did.
  datatype Trace = Start | Then(before: Trace, w: Watcher, revents: Mask, acts: Acts)
  datatype Acts = Nothing | More(before: Acts, op: Op, nested: Trace)

  // The history after all this has happened.
  function Played(log: seq<Event>, t: Trace): (r: seq<Event>)
    ensures log <= r
    decreases t, 0
  {
    match t
    case Start => log
    case Then(before, w, revents, acts) => PlayedActs(Played(log, before) + [Invoked(w, revents)], acts)
  }

  function PlayedActs(log: seq<Event>, acts: Acts): (r: seq<Event>)
    ensures log <= r
    decreases acts, 0
  {
    match acts
    case Nothing => log
    case More(before, op, nested) => PlayedOne(PlayedActs(log, before), op, nested)
  }

  // A feed is recorded, a clearing if there was something to clear, a nested invocation as a whole.
  function PlayedOne(log: seq<Event>, op: Op, nested: Trace): (r: seq<Event>)
    ensures log <= r
    decreases nested, 1
  {
    match op
    case DoFeed(w, revents) => log + [Fed(w, revents)]
    case DoClear(w) => if Owed(log, w) == None then log else log + [Cleared(w)]
    case DoInvoke => Played(log, nested)
  }

  // How many invocations there were, nested ones included.
  function Size(t: Trace): nat {
    match t
    case Start => 0
    case Then(before, _, _, acts) => Size(before) + 1 + SizeActs(acts)
  }

  function SizeActs(acts: Acts): nat {
    match acts
    case Nothing => 0
    case More(before, _, nested) => SizeActs(before) + Size(nested)
  }

  // In the order in which they are invoked, the callbacks do what the scripts from `next` on say, and
  // nothing once there are no more scripts.
  predicate Follows(t: Trace, scripts: seq<seq<Op>>, next: nat) {
    match t
    case Start => true
    case Then(before, _, _, acts) =>
      var k := next + Size(before);
      && Follows(before, scripts, next)
      && if k < |scripts| then FollowsActs(acts, scripts[k], scripts, k + 1) else acts == Nothing
  }

  predicate FollowsActs(acts: Acts, ops: seq<Op>, scripts: seq<seq<Op>>, next: nat) {
    match acts
    case Nothing => ops == []
    case More(before, op, nested) =>
      && ops != [] && op == ops[|ops| - 1] && FollowsActs(before, ops[..|ops| - 1], scripts, next)
      && if op.DoInvoke? then Follows(nested, scripts, next + SizeActs(before)) else nested == Start
  }

  // Nothing is owed to anybody.
  ghost predicate Quiet(all: set<Watcher>, log: seq<Event>) {
    forall w | w in all :: Owed(log, w) == None
  }

  // Every nested invocation ended with nothing owed.
  ghost predicate Thorough(all: set<Watcher>, log: seq<Event>, t: Trace)
    decreases t
  {
    match t
    case Start => true
    case Then(before, w, revents, acts) =>
      Thorough(all, log, before) && ThoroughActs(all, Played(log, before) + [Invoked(w, revents)], acts)
  }

  ghost predicate ThoroughActs(all: set<Watcher>, log: seq<Event>, acts: Acts)
    decreases acts
  {
    match acts
    case Nothing => true
    case More(before, op, nested) =>
      && ThoroughActs(all, log, before)
      && (op.DoInvoke? ==> Thorough(all, PlayedActs(log, before), nested)
                           && Quiet(all, Played(PlayedActs(log, before), nested)))
  }

  function Least(a: int, b: int): (r: int)
    ensures r <= a && r <= b && (r == a || r == b)
  {
    if a <= b then a else b
  }

  // What led from `log0` to `log` is `t`, which drew on the scripts from `next` up to `n`.
  ghost predicate Ran(all: set<Watcher>, log0: seq<Event>, log: seq<Event>, t: Trace, scripts: seq<seq<Op>>, next: nat,
                      n: nat) {
    && log == Played(log0, t) && Follows(t, scripts, next) && Thorough(all, log0, t)
    && n == Least(|scripts|, next + Size(t))
  }

  ghost predicate RanActs(all: set<Watcher>, log0: seq<Event>, log: seq<Event>, acts: Acts, ops: seq<Op>,
                          scripts: seq<seq<Op>>, next: nat, n: nat) {
    && log == PlayedActs(log0, acts) && FollowsActs(acts, ops, scripts, next) && ThoroughActs(all, log0, acts)
    && n == Least(|scripts|, next + SizeActs(acts))
  }

  // One more operation of a script.
  lemma RanMore(all: set<Watcher>, log0: seq<Event>, log: seq<Event>, acts: Acts, ops: seq<Op>,
                scripts: seq<seq<Op>>, next: nat, n: nat, i: nat, log': seq<Event>, n': nat, nested: Trace)
    requires i < |ops| && RanActs(all, log0, log, acts, ops[..i], scripts, next, n)
    requires log' == PlayedOne(log, ops[i], nested)
    requires if ops[i].DoInvoke? then Ran(all, log, log', nested, scripts, n, n') && Quiet(all, log')
             else nested == Start && n' == n
    ensures RanActs(all, log0, log', More(acts, ops[i], nested), ops[..i + 1], scripts, next, n')
  {
    assert ops[..i + 1][..i] == ops[..i];
    if ops[i].DoInvoke? {
      FollowsBeyond(nested, scripts, n, next + SizeActs(acts));
    }
  }

  // Where the scripts begin does not matter if there are none left.
  lemma {:induction false} FollowsBeyond(t: Trace, scripts: seq<seq<Op>>, n: nat, next: nat)
    requires Follows(t, scripts, n) && n == Least(|scripts|, next)
    ensures Follows(t, scripts, next)
  {
    if t.Then? {
      FollowsBeyond(t.before, scripts, n, next);
    }
  }

  function Invocations(log: seq<Event>): nat {
    if log == [] then 0 else Invocations(log[..|log| - 1]) + if log[|log| - 1].Invoked? then 1 else 0
  }

  lemma InvocationsMore(log: seq<Event>, e: Event)
    ensures Invocations(log + [e]) == Invocations(log) + if e.Invoked? then 1 else 0
  {
    assert (log + [e])[..|log|] == log;
  }

  // Every invocation is in the history.
  lemma {:induction false} SizeIsLogged(log: seq<Event>, t: Trace, scripts: seq<seq<Op>>, next: nat)
    requires Follows(t, scripts, next)
    ensures Invocations(Played(log, t)) == Invocations(log) + Size(t)
    decreases t
  {
    if t.Then? {
      var k := next + Size(t.before);
      SizeIsLogged(log, t.before, scripts, next);
      InvocationsMore(Played(log, t.before), Invoked(t.w, t.revents));
      if k < |scripts| {
        ActsAreLogged(Played(log, t.before) + [Invoked(t.w, t.revents)], t.acts, scripts[k], scripts, k + 1);
      }
    }
  }

  lemma {:induction false} ActsAreLogged(log: seq<Event>, acts: Acts, ops: seq<Op>, scripts: seq<seq<Op>>, next: nat)
    requires FollowsActs(acts, ops, scripts, next)
    ensures Invocations(PlayedActs(log, acts)) == Invocations(log) + SizeActs(acts)
    decreases acts
  {
    if acts.More? {
      var before := PlayedActs(log, acts.before);
      ActsAreLogged(log, acts.before, ops[..|ops| - 1], scripts, next);
      match acts.op
      case DoFeed(w, revents) => InvocationsMore(before, Fed(w, revents));
      case DoClear(w) => InvocationsMore(before, Cleared(w));
      case DoInvoke => SizeIsLogged(before, acts.nested, scripts, next + SizeActs(acts.before));
    }
  }

  class Queues {
    const dummy: Watcher               // pending_w
    var pendings: seq<seq<Slot>>
    var pendingpri: nat
    var pending: map<Watcher, nat>     // the `pending` fields of the watchers this loop serves
    ghost var log: seq<Event>

    ghost function Now(): View
      reads this`pendings, this`pending, this`log
    {
      View(dummy, pendings, pending, log)
    }

    ghost predicate Valid()
      reads this`pendings, this`pending, this`log
    {
      Now().Valid()
    }

    constructor (dummy: Watcher, all: set<Watcher>)
      requires dummy !in all && forall w | w in all :: w.pri < NUMPRI
      ensures Valid() && pending.Keys == all && log == []
    {
      this.dummy := dummy;
      pendings := seq(NUMPRI, _ => []);
      pendingpri := 0;
      pending := map w | w in all :: 0;
      log := [];
    }

    method FeedEvent(w: Watcher, revents: Mask)
      requires Valid() && w in pending
      modifies this
      ensures Valid() && pending.Keys == old(pending.Keys) && pendingpri == NUMPRI - 1
      ensures Now() == old(Now()).Feed(w, revents)
    {
      FeedKeeps(Now(), w, revents);
      var pri := w.pri;
      if pending[w] != 0 {
        var slot := pendings[pri][pending[w] - 1];
        pendings := pendings[pri := pendings[pri][pending[w] - 1 := slot.(events := slot.events + revents)]];
      } else {
        pending := pending[w := |pendings[pri]| + 1];
        pendings := pendings[pri := pendings[pri] + [Slot(w, revents)]];
      }
      pendingpri := NUMPRI - 1;
      log := log + [Fed(w, revents)];
    }

    method ClearPending(w: Watcher) returns (events: Mask)
      requires Valid() && w in pending
      modifies this`pendings, this`pending, this`log
      ensures Valid() && pending.Keys == old(pending.Keys)
      ensures Now() == old(Now()).Clear(w)
      ensures events == if old(pending)[w] == 0 then {} else old(pendings)[w.pri][old(pending)[w] - 1].events
    {
      ClearKeeps(Now(), w);
      if pending[w] != 0 {
        var slot := pendings[w.pri][pending[w] - 1];
        pendings := pendings[w.pri := pendings[w.pri][pending[w] - 1 := slot.(w := dummy)]];
        pending := pending[w := 0];
        log := log + [Cleared(w)];
        events := slot.events;
      } else {
        events := {};
      }
    }

    // Take the top slot of the current queue off; `w` is what its callback gets invoked on.
    method PopTop() returns (w: Watcher, revents: Mask)
      requires Valid() && pendingpri < NUMPRI && pendings[pendingpri] != [] && Now().EmptyAbove(pendingpri)
      modifies this`pendings, this`pending, this`log
      ensures Valid() && pending.Keys == old(pending.Keys) && Now() == old(Now()).Pop(pendingpri)
      ensures Slot(w, revents) == old(pendings)[pendingpri][|old(pendings)[pendingpri]| - 1]
    {
      PopKeeps(Now(), pendingpri);
      var q := pendings[pendingpri];
      var top := q[|q| - 1];
      pendings := pendings[pendingpri := q[..|q| - 1]];
      if top.w != dummy {
        pending := pending[top.w := 0];
        log := log + [Invoked(top.w, top.events)];
      }
      return top.w, top.events;
    }

    // What is owed to a watcher is what its slot says.
    lemma IdleOwesNothing(w: Watcher)
      requires Valid() && w in pending
      ensures pending[w] == 0 <==> Owed(log, w) == None
    {
      assert Now().Holds(Debts) && Now().Linked(w);
    }

    // One step of a callback; nested invocations draw on the scripts from `next` on.
    method Do(op: Op, scripts: seq<seq<Op>>, next: nat) returns (n: nat, ghost nested: Trace)
      requires Valid() && ScriptsOk(pending.Keys, scripts) && next <= |scripts| && (op.DoInvoke? || op.w in pending)
      requires pendingpri < NUMPRI && Now().EmptyAbove(pendingpri)
      modifies this
      ensures Valid() && pending.Keys == old(pending.Keys) && next <= n <= |scripts| && old(log) <= log
      ensures pendingpri < NUMPRI && Now().EmptyAbove(pendingpri)
      ensures op.DoFeed? ==> Now() == old(Now()).Feed(op.w, op.revents)
      ensures op.DoClear? ==> Now() == old(Now()).Clear(op.w)
      ensures log == PlayedOne(old(log), op, nested)
      ensures op.DoInvoke? ==>
                Ran(pending.Keys, old(log), log, nested, scripts, next, n) && Quiet(pending.Keys, log)
      ensures !op.DoInvoke? ==> nested == Start && n == next
      decreases |scripts| - next, 3
    {
      n, nested := next, Start;
      match op
      case DoFeed(w, revents) =>
        FeedEvent(w, revents);
      case DoClear(w) =>
        IdleOwesNothing(w);
        var _ := ClearPending(w);
      case DoInvoke =>
        n, nested := InvokePending(scripts, n);
    }

    method RunScript(ops: seq<Op>, scripts: seq<seq<Op>>, next: nat) returns (n: nat, ghost acts: Acts)
      requires Valid() && ScriptOk(pending.Keys, ops) && ScriptsOk(pending.Keys, scripts) && next <= |scripts|
      requires pendingpri < NUMPRI && Now().EmptyAbove(pendingpri)
      modifies this
      ensures Valid() && pending.Keys == old(pending.Keys) && next <= n <= |scripts| && old(log) <= log
      ensures pendingpri < NUMPRI && Now().EmptyAbove(pendingpri)
      ensures RanActs(pending.Keys, old(log), log, acts, ops, scripts, next, n)
      decreases |scripts| - next, 4
    {
      n, acts := next, Nothing;
      for i := 0 to |ops|
        invariant Valid() && pending.Keys == old(pending.Keys) && next <= n <= |scripts| && old(log) <= log
        invariant pendingpri < NUMPRI && Now().EmptyAbove(pendingpri)
        invariant RanActs(pending.Keys, old(log), log, acts, ops[..i], scripts, next, n)
      {
        ghost var log1, n1, nested := log, n, Start;
        n, nested := Do(ops[i], scripts, n);
        RanMore(pending.Keys, old(log), log1, acts, ops, scripts, next, n1, i, log, n, nested);
        acts := More(acts, ops[i], nested);
      }
      assert ops[..|ops|] == ops;
    }

    // `scripts[k]` is what the k-th callback does; later callbacks do nothing.
    method InvokePending(scripts: seq<seq<Op>>, next: nat) returns (n: nat, ghost t: Trace)
      requires Valid() && ScriptsOk(pending.Keys, scripts) && next <= |scripts|
      modifies this
      ensures Valid() && pending.Keys == old(pending.Keys) && next <= n <= |scripts| && old(log) <= log
      ensures pendingpri == 0 && forall p | 0 <= p < NUMPRI :: pendings[p] == []
      ensures (forall w | w in pending :: pending[w] == 0) && Quiet(pending.Keys, log)
      ensures Ran(pending.Keys, old(log), log, t, scripts, next, n)
      ensures n - next == Least(|scripts| - next, Invocations(log) - Invocations(old(log)))
      ensures next == |scripts| ==> log == old(Outcome(Now(), NUMPRI))
      decreases |scripts| - next, 2
    {
      n, t := next, Start;
      pendingpri := NUMPRI;
      ghost var goal := Outcome(Now(), NUMPRI);
      var more := true;
      while more
        invariant Valid() && pending.Keys == old(pending.Keys) && next <= n <= |scripts| && old(log) <= log
        invariant pendingpri <= NUMPRI && (more ==> pendingpri > 0) && (!more ==> pendingpri == 0)
        invariant Now().EmptyAbove(if more then pendingpri - 1 else -1)
        invariant Ran(pending.Keys, old(log), log, t, scripts, next, n)
        invariant next == |scripts| ==> Outcome(Now(), pendingpri) == goal
        decreases more, |scripts| - n, pendingpri
      {
        pendingpri := pendingpri - 1;
        n, t := Empty(scripts, n, next == |scripts|, goal, old(log), next, t);
        more := pendingpri != 0;
      }
      forall w | w in pending ensures pending[w] == 0 && Owed(log, w) == None {
        IdleOwesNothing(w);
      }
      SizeIsLogged(old(log), t, scripts, next);
    }

    // One round of the inner loop of ev_invoke_pending: pop, then run the callback. `t0` is what has
    // happened since `log0`.
    method InvokeTop(scripts: seq<seq<Op>>, next: nat, ghost log0: seq<Event>, ghost next0: nat, ghost t0: Trace)
      returns (n: nat, ghost t: Trace)
      requires Valid() && ScriptsOk(pending.Keys, scripts) && next <= |scripts|
      requires pendingpri < NUMPRI && Now().EmptyAbove(pendingpri) && pendings[pendingpri] != []
      requires Ran(pending.Keys, log0, log, t0, scripts, next0, next)
      modifies this
      ensures Valid() && pending.Keys == old(pending.Keys) && next <= n <= |scripts| && old(log) <= log
      ensures pendingpri < NUMPRI && Now().EmptyAbove(pendingpri)
      ensures n == next ==> pendingpri == old(pendingpri) && Now() == old(Now()).Pop(pendingpri)
      ensures Ran(pending.Keys, log0, log, t, scripts, next0, n)
      ensures var top := old(pendings)[old(pendingpri)][|old(pendings)[old(pendingpri)]| - 1];
        if top.w == dummy then t == t0 else t.Then? && t.before == t0 && Slot(t.w, t.revents) == top
      decreases |scripts| - next, 0
    {
      n, t := next, t0;
      var w, revents := PopTop();
      if w != dummy {
        ghost var acts := Nothing;
        if n < |scripts| {
          n, acts := RunScript(scripts[n], scripts, n + 1);
        }
        t := Then(t0, w, revents, acts);
      }
    }

    // The inner loop of ev_invoke_pending; callbacks may raise `pendingpri` under way.
    method Empty(scripts: seq<seq<Op>>, next: nat, ghost inert: bool, ghost goal: seq<Event>, ghost log0: seq<Event>,
                 ghost next0: nat, ghost t0: Trace)
      returns (n: nat, ghost t: Trace)
      requires Valid() && ScriptsOk(pending.Keys, scripts) && next <= |scripts|
      requires pendingpri < NUMPRI && Now().EmptyAbove(pendingpri)
      requires inert ==> next == |scripts| && Outcome(Now(), pendingpri + 1) == goal
      requires Ran(pending.Keys, log0, log, t0, scripts, next0, next)
      modifies this
      ensures Valid() && pending.Keys == old(pending.Keys) && next <= n <= |scripts| && old(log) <= log
      ensures pendingpri < NUMPRI && Now().EmptyAbove(pendingpri - 1)
      ensures n == next ==> pendingpri == old(pendingpri)
      ensures inert ==> Outcome(Now(), pendingpri) == goal
      ensures Ran(pending.Keys, log0, log, t, scripts, next0, n)
      decreases |scripts| - next, 1
    {
      n, t := next, t0;
      while pendings[pendingpri] != []
        invariant Valid() && pending.Keys == old(pending.Keys) && next <= n <= |scripts| && old(log) <= log
        invariant pendingpri < NUMPRI && Now().EmptyAbove(pendingpri)
        invariant n == next ==> pendingpri == old(pendingpri)
        invariant inert ==> Outcome(Now(), pendingpri + 1) == goal
        invariant Ran(pending.Keys, log0, log, t, scripts, next0, n)
        decreases |scripts| - n, |pendings[pendingpri]|
      {
        if inert { PopDelivers(Now(), pendingpri); }
        n, t := InvokeTop(scripts, n, log0, next0, t);
      }
    }
  }
}
