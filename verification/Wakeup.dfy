/**
 The wake-up pipe of the event loop: `evpipe_write`, `pipecb`, `ev_async_send`,
 `ev_feed_signal` and the part of `ev_run` around `backend_poll`.

 Any number of senders (threads or signal handlers) run concurrently with the one loop.
 Every shared-memory access of the source is one atomic action here, and the fences of the
 source are what makes that order the real one.
 */
module Wakeup {

  datatype Kind = Signal | Async

  // A signal number (`signals[index]`) or an async watcher (`asyncs[index]`).
  datatype Target = Target(kind: Kind, index: nat)

  // What a sender is about to do next.
  datatype SenderPc =
    | Mark          // w->sent = 1, or signals[signum - 1].pending = 1
    | CheckFlag     // if (*flag) return
    | SetFlag       // *flag = 1
    | SetSkipped    // pipe_write_skipped = 1
    | ReadWanted    // if (pipe_write_wanted)
    | ClearSkipped  // pipe_write_skipped = 0
    | Write         // write (evpipe [1], ...)
    | Done          // returned

  datatype Sender = Sender(target: Target, pc: SenderPc)

  // What the callback pipecb is about to do next.
  datatype CallbackPc =
    | Drain                        // read the pipe
    | ResetSkipped                 // pipe_write_skipped = 0
    | ReadFlag(kind: Kind)         // if (sig_pending), if (async_pending)
    | LowerFlag(kind: Kind)        // sig_pending = 0, async_pending = 0
    | Scan(kind: Kind, left: nat)  // test index left - 1, going down
    | Unmark(kind: Kind, at: nat)  // asyncs[at]->sent = 0, signals[at].pending = 0
    | Feed(kind: Kind, at: nat)    // ev_feed_event

  // What the loop is about to do next.
  datatype LoopPc =
    | SetWanted             // pipe_write_wanted = 1
    | TestSkipped           // may we block?
    | Poll(blocking: bool)  // inside backend_poll
    | ClearWanted           // pipe_write_wanted = 0
    | RetestSkipped         // was a write skipped meanwhile?
    | Invoke                // ev_invoke_pending, runs pipecb if pipe_w is pending
    | Callback(cb: CallbackPc)

  // How many signals and async watchers there are, and whether the pipe is an eventfd.
  datatype Config = Config(signals: nat, asyncs: nat, eventfd: bool) {
    function Count(k: Kind): nat {
      if k == Signal then signals else asyncs
    }

    predicate Known(t: Target) {
      t.index < Count(t.kind)
    }
  }

  // The words shared by the senders and the loop.
  datatype Memory = Memory(
    marked: set<Target>,  // targets whose sent / pending word is 1
    flags: set<Kind>,     // sig_pending, async_pending
    skipped: bool,        // pipe_write_skipped
    wanted: bool,         // pipe_write_wanted
    pipe: nat             // bytes in the pipe, or the eventfd counter
  )

  datatype State = State(
    mem: Memory,
    senders: map<nat, Sender>,
    loop: LoopPc,
    pipeRead: bool,     // pipe_w is pending with EV_READ
    pipeCustom: bool,   // pipe_w is pending with EV_CUSTOM
    owed: set<Target>   // history: sends that no feed has followed yet
  )

  const INIT := State(Memory({}, {}, false, false, 0), map[], SetWanted, false, false, {})

  datatype Action =
    | Call(id: nat, target: Target)  // somebody calls ev_async_send or ev_feed_signal
    | SenderStep(id: nat)
    | LoopStep
    | PollReturn(seen: bool)         // backend_poll returns; `seen`: it reported the pipe readable

  // ---------- actions ----------

  predicate Enabled(c: Config, s: State, a: Action) {
    match a
    case Call(id, t) => (id in s.senders ==> s.senders[id].pc == Done) && c.Known(t)
    case SenderStep(id) => id in s.senders && s.senders[id].pc != Done
    case LoopStep => !s.loop.Poll?
    case PollReturn(seen) => s.loop.Poll? && (seen ==> s.mem.pipe > 0)
  }

  function Apply(c: Config, s: State, a: Action): State
    requires Enabled(c, s, a)
  {
    match a
    case Call(id, t) => s.(senders := s.senders[id := Sender(t, Mark)])
    case SenderStep(id) => SenderApply(s, id)
    case LoopStep => if s.loop.Callback? then CallbackApply(c, s) else LoopApply(s)
    case PollReturn(seen) => s.(pipeRead := s.pipeRead || seen, loop := ClearWanted)
  }

  function SenderMemory(m: Memory, x: Sender): Memory {
    match x.pc
    case Mark => m.(marked := m.marked + {x.target})
    case SetFlag => m.(flags := m.flags + {x.target.kind})
    case SetSkipped => m.(skipped := true)
    case ClearSkipped => m.(skipped := false)
    case Write => m.(pipe := m.pipe + 1)
    case _ => m
  }

  function SenderNext(m: Memory, x: Sender): SenderPc
    requires x.pc != Done
  {
    match x.pc
    case Mark => CheckFlag
    case CheckFlag => if x.target.kind in m.flags then Done else SetFlag
    case SetFlag => SetSkipped
    case SetSkipped => ReadWanted
    case ReadWanted => if m.wanted then ClearSkipped else Done
    case ClearSkipped => Write
    case Write => Done
  }

  function SenderApply(s: State, id: nat): State
    requires id in s.senders && s.senders[id].pc != Done
  {
    var x := s.senders[id];
    s.(mem := SenderMemory(s.mem, x),
       senders := s.senders[id := x.(pc := SenderNext(s.mem, x))],
       owed := if x.pc == Mark then s.owed + {x.target} else s.owed)
  }

  function LoopApply(s: State): State
    requires !s.loop.Poll? && !s.loop.Callback?
  {
    match s.loop
    case SetWanted => s.(mem := s.mem.(wanted := true), loop := TestSkipped)
    case TestSkipped => s.(loop := Poll(!s.mem.skipped))
    case ClearWanted => s.(mem := s.mem.(wanted := false), loop := RetestSkipped)
    case RetestSkipped => s.(pipeCustom := s.pipeCustom || s.mem.skipped, loop := Invoke)
    case Invoke => s.(loop := if s.pipeRead || s.pipeCustom then Callback(Drain) else SetWanted)
  }

  function AfterFlag(k: Kind): LoopPc {
    if k == Signal then Callback(ReadFlag(Async)) else SetWanted
  }

  function CallbackMemory(c: Config, m: Memory, cb: CallbackPc, readable: bool): Memory {
    match cb
    case Drain =>
      m.(pipe := if !readable then m.pipe else if c.eventfd || m.pipe < 4 then 0 else m.pipe - 4)
    case ResetSkipped => m.(skipped := false)
    case LowerFlag(k) => m.(flags := m.flags - {k})
    case Unmark(k, i) => m.(marked := m.marked - {Target(k, i)})
    case _ => m
  }

  function CallbackNext(c: Config, m: Memory, cb: CallbackPc): LoopPc {
    match cb
    case Drain => Callback(ResetSkipped)
    case ResetSkipped => Callback(ReadFlag(Signal))
    case ReadFlag(k) => if k in m.flags then Callback(LowerFlag(k)) else AfterFlag(k)
    case LowerFlag(k) => Callback(Scan(k, c.Count(k)))
    case Scan(k, left) =>
      if left == 0 then AfterFlag(k)
      else if Target(k, left - 1) in m.marked then Callback(Unmark(k, left - 1))
      else Callback(Scan(k, left - 1))
    case Unmark(k, i) => Callback(Feed(k, i))
    case Feed(k, i) => Callback(Scan(k, i))
  }

  function CallbackApply(c: Config, s: State): State
    requires s.loop.Callback?
  {
    var cb := s.loop.cb;
    s.(mem := CallbackMemory(c, s.mem, cb, s.pipeRead),
       loop := CallbackNext(c, s.mem, cb),
       pipeRead := s.pipeRead && cb != Drain,
       pipeCustom := s.pipeCustom && cb != Drain,
       owed := if cb.Feed? then s.owed - {Target(cb.kind, cb.at)} else s.owed)
  }

  // ---------- runs ----------

  predicate IsRun(c: Config, s: State, run: seq<Action>)
    decreases |run|
  {
    run == [] || (Enabled(c, s, run[0]) && IsRun(c, Apply(c, s, run[0]), run[1..]))
  }

  function After(c: Config, s: State, run: seq<Action>): State
    requires IsRun(c, s, run)
    decreases |run|
  {
    if run == [] then s else After(c, Apply(c, s, run[0]), run[1..])
  }

  // ---------- the invariant ----------

  ghost predicate SomeSenderAt(s: State, pc: SenderPc) {
    exists id :: id in s.senders && s.senders[id].pc == pc
  }

  ghost predicate SomeSenderOf(s: State, k: Kind, pc: SenderPc) {
    exists id :: id in s.senders && s.senders[id].pc == pc && s.senders[id].target.kind == k
  }

  // The running pipecb has lowered the flag of `t` and is still going to look at `t`.
  predicate WillScan(loop: LoopPc, t: Target) {
    && loop.Callback?
    && match loop.cb
       case Scan(k, left) => k == t.kind && t.index < left
       case Unmark(k, i) => k == t.kind && t.index <= i
       case Feed(k, i) => k == t.kind && t.index < i
       case _ => false
  }

  // The running pipecb is still going to read the flag of kind `k`.
  predicate WillReadFlag(loop: LoopPc, k: Kind) {
    && loop.Callback?
    && match loop.cb
       case Drain => true
       case ResetSkipped => true
       case ReadFlag(j) => j == k || j == Signal
       case LowerFlag(j) => j == k || j == Signal
       case _ => loop.cb.kind == Signal && k == Async
  }

  predicate CallbackInRange(c: Config, cb: CallbackPc) {
    match cb
    case Scan(k, left) => left <= c.Count(k)
    case Unmark(k, i) => i < c.Count(k)
    case Feed(k, i) => i < c.Count(k)
    case _ => true
  }

  predicate TargetsKnown(c: Config, s: State) {
    && (forall t <- s.mem.marked :: c.Known(t))
    && (forall id <- s.senders :: c.Known(s.senders[id].target))
    && (s.loop.Callback? ==> CallbackInRange(c, s.loop.cb))
  }

  // `wanted` is set exactly around the poll, and pipe_w is pending only until pipecb starts. What pipecb
  // is about to feed was found marked, and what was read is there.
  predicate LoopSane(s: State) {
    && (s.pipeRead ==> s.mem.pipe > 0)
    && (s.loop == Callback(Drain) ==> s.pipeRead || s.pipeCustom)
    && (s.loop.Callback? && s.loop.cb.Unmark? ==> Target(s.loop.cb.kind, s.loop.cb.at) in s.mem.marked)
    && (s.mem.wanted <==> s.loop.TestSkipped? || s.loop.Poll? || s.loop.ClearWanted?)
    && (s.pipeRead || s.pipeCustom ==>
          s.loop.ClearWanted? || s.loop.RetestSkipped? || s.loop.Invoke? || s.loop == Callback(Drain))
  }

  // A set mark is backed by its raised flag, by a sender about to raise it, or by a scan under way.
  ghost predicate Backed(s: State, t: Target) {
    || t.kind in s.mem.flags
    || SomeSenderOf(s, t.kind, CheckFlag)
    || SomeSenderOf(s, t.kind, SetFlag)
    || WillScan(s.loop, t)
  }

  ghost predicate MarksBacked(s: State) {
    forall t <- s.mem.marked :: Backed(s, t)
  }

  // What makes the loop come round to pipecb and read the flag of kind `k`.
  ghost predicate Noticed(s: State, k: Kind) {
    || s.mem.skipped
    || s.mem.pipe > 0
    || s.pipeRead || s.pipeCustom
    || WillReadFlag(s.loop, k)
    || SomeSenderAt(s, SetSkipped)
    || SomeSenderAt(s, Write)
  }

  ghost predicate FlagsNoticed(s: State) {
    forall k <- s.mem.flags :: Noticed(s, k)
  }

  // A skipped write seen while the loop is parked belongs to a sender that will see `wanted`.
  ghost predicate SkipWillBeUndone(s: State) {
    s.loop == Poll(true) && s.mem.skipped ==> SomeSenderAt(s, ReadWanted) || SomeSenderAt(s, ClearSkipped)
  }

  // A send that no feed has followed is still marked, or about to be fed.
  predicate DebtsMarked(s: State) {
    forall t <- s.owed :: t in s.mem.marked || s.loop == Callback(Feed(t.kind, t.index))
  }

  ghost predicate Inv(c: Config, s: State) {
    && TargetsKnown(c, s)
    && LoopSane(s)
    && MarksBacked(s)
    && FlagsNoticed(s)
    && SkipWillBeUndone(s)
    && DebtsMarked(s)
  }

  // ---------- every action keeps the invariant ----------

  // A step of `id` leaves every other sender where it is.
  lemma OthersStay(s: State, s': State, id: nat, pc: SenderPc)
    requires forall i <- s.senders :: i != id ==> i in s'.senders && s'.senders[i] == s.senders[i]
    requires id in s.senders ==> s.senders[id].pc != pc
    ensures SomeSenderAt(s, pc) ==> SomeSenderAt(s', pc)
    ensures forall k | SomeSenderOf(s, k, pc) :: SomeSenderOf(s', k, pc)
  {
    if SomeSenderAt(s, pc) {
      var i :| i in s.senders && s.senders[i].pc == pc;
      assert i in s'.senders && s'.senders[i].pc == pc;
    }
    forall k | SomeSenderOf(s, k, pc) ensures SomeSenderOf(s', k, pc) {
      var i :| i in s.senders && s.senders[i].pc == pc && s.senders[i].target.kind == k;
      assert i in s'.senders && s'.senders[i].pc == pc;
    }
  }

  lemma CallKeeps(c: Config, s: State, id: nat, t: Target)
    requires Inv(c, s) && Enabled(c, s, Call(id, t))
    ensures Inv(c, Apply(c, s, Call(id, t)))
  {
    var s' := Apply(c, s, Call(id, t));
    forall pc | pc != Done ensures SomeSenderAt(s, pc) ==> SomeSenderAt(s', pc) {
      OthersStay(s, s', id, pc);
    }
    OthersStay(s, s', id, CheckFlag);
    OthersStay(s, s', id, SetFlag);
  }

  lemma SenderKeepsSane(c: Config, s: State, id: nat)
    requires TargetsKnown(c, s) && LoopSane(s) && DebtsMarked(s)
    requires id in s.senders && s.senders[id].pc != Done
    ensures TargetsKnown(c, SenderApply(s, id)) && LoopSane(SenderApply(s, id)) && DebtsMarked(SenderApply(s, id))
  {
  }

  lemma SenderKeepsMarksBacked(s: State, id: nat)
    requires MarksBacked(s) && id in s.senders && s.senders[id].pc != Done
    ensures MarksBacked(SenderApply(s, id))
  {
    var s' := SenderApply(s, id);
    var Sender(t, pc) := s.senders[id];
    if pc != CheckFlag { OthersStay(s, s', id, CheckFlag); }
    if pc != SetFlag { OthersStay(s, s', id, SetFlag); }
    forall u <- s'.mem.marked ensures Backed(s', u) {
      if u in s.mem.marked {
        assert Backed(s, u);
        if pc == CheckFlag && t.kind == u.kind && t.kind !in s.mem.flags {
          assert s'.senders[id] == Sender(t, SetFlag);
        }
      } else {
        assert s'.senders[id] == Sender(t, CheckFlag) && u == t;
      }
    }
  }

  lemma SenderKeepsFlagsNoticed(s: State, id: nat)
    requires FlagsNoticed(s) && id in s.senders && s.senders[id].pc != Done
    ensures FlagsNoticed(SenderApply(s, id))
  {
    var s' := SenderApply(s, id);
    var pc := s.senders[id].pc;
    if pc != SetSkipped { OthersStay(s, s', id, SetSkipped); }
    if pc != Write { OthersStay(s, s', id, Write); }
    if pc == SetFlag { assert s'.senders[id].pc == SetSkipped; }
    if pc == ClearSkipped { assert s'.senders[id].pc == Write; }
  }

  lemma SenderKeepsSkip(s: State, id: nat)
    requires LoopSane(s) && SkipWillBeUndone(s) && id in s.senders && s.senders[id].pc != Done
    ensures SkipWillBeUndone(SenderApply(s, id))
  {
    var s' := SenderApply(s, id);
    var pc := s.senders[id].pc;
    if pc != ReadWanted { OthersStay(s, s', id, ReadWanted); }
    if pc != ClearSkipped { OthersStay(s, s', id, ClearSkipped); }
    if pc == SetSkipped { assert s'.senders[id].pc == ReadWanted; }
    if s.loop == Poll(true) && pc == ReadWanted { assert s'.senders[id].pc == ClearSkipped; }
  }

  lemma SameSenders(s: State, s': State)
    requires s'.senders == s.senders
    ensures forall pc :: SomeSenderAt(s', pc) == SomeSenderAt(s, pc)
    ensures forall k, pc :: SomeSenderOf(s', k, pc) == SomeSenderOf(s, k, pc)
  {
  }

  lemma LoopKeeps(c: Config, s: State, a: Action)
    requires Inv(c, s) && Enabled(c, s, a) && (a.PollReturn? || (a.LoopStep? && !s.loop.Callback?))
    ensures Inv(c, Apply(c, s, a))
  {
    SameSenders(s, Apply(c, s, a));
  }

  lemma CallbackKeepsSane(c: Config, s: State)
    requires TargetsKnown(c, s) && LoopSane(s) && DebtsMarked(s) && s.loop.Callback?
    ensures TargetsKnown(c, CallbackApply(c, s)) && LoopSane(CallbackApply(c, s)) && DebtsMarked(CallbackApply(c, s))
  {
  }

  lemma CallbackKeepsBacked(c: Config, s: State, t: Target)
    requires s.loop.Callback? && c.Known(t) && Backed(s, t) && t in CallbackApply(c, s).mem.marked
    ensures Backed(CallbackApply(c, s), t)
  {
    SameSenders(s, CallbackApply(c, s));
  }

  lemma CallbackKeepsNoticed(c: Config, s: State, k: Kind)
    requires s.loop.Callback? && Noticed(s, k) && k in CallbackApply(c, s).mem.flags
    ensures Noticed(CallbackApply(c, s), k)
  {
    SameSenders(s, CallbackApply(c, s));
  }

  lemma CallbackKeeps(c: Config, s: State)
    requires Inv(c, s) && s.loop.Callback?
    ensures Inv(c, CallbackApply(c, s))
  {
    var s' := CallbackApply(c, s);
    CallbackKeepsSane(c, s);
    forall t <- s'.mem.marked ensures Backed(s', t) {
      CallbackKeepsBacked(c, s, t);
    }
    forall k <- s'.mem.flags ensures Noticed(s', k) {
      CallbackKeepsNoticed(c, s, k);
    }
  }

  lemma ActionKeeps(c: Config, s: State, a: Action)
    requires Inv(c, s) && Enabled(c, s, a)
    ensures Inv(c, Apply(c, s, a))
  {
    match a
    case Call(id, t) => CallKeeps(c, s, id, t);
    case SenderStep(id) =>
      SenderKeepsSane(c, s, id);
      SenderKeepsMarksBacked(s, id);
      SenderKeepsFlagsNoticed(s, id);
      SenderKeepsSkip(s, id);
    case _ =>
      if s.loop.Callback? { CallbackKeeps(c, s); } else { LoopKeeps(c, s, a); }
  }

  lemma {:induction false} RunKeeps(c: Config, s: State, run: seq<Action>)
    requires Inv(c, s) && IsRun(c, s, run)
    ensures Inv(c, After(c, s, run))
    decreases |run|
  {
    if run != [] {
      ActionKeeps(c, s, run[0]);
      RunKeeps(c, Apply(c, s, run[0]), run[1..]);
    }
  }

  // ---------- nothing is fed that was not sent ----------

  // The action is a sender's setting the mark of `t`.
  predicate Sends(s: State, a: Action, t: Target) {
    a.SenderStep? && a.id in s.senders && s.senders[a.id] == Sender(t, Mark)
  }

  // The action is pipecb's feeding `t`.
  predicate Feeds(s: State, a: Action, t: Target) {
    a.LoopStep? && s.loop == Callback(Feed(t.kind, t.index))
  }

  function SendCount(c: Config, s: State, run: seq<Action>, t: Target): nat
    requires IsRun(c, s, run)
    decreases |run|
  {
    if run == [] then 0
    else (if Sends(s, run[0], t) then 1 else 0) + SendCount(c, Apply(c, s, run[0]), run[1..], t)
  }

  function FeedCount(c: Config, s: State, run: seq<Action>, t: Target): nat
    requires IsRun(c, s, run)
    decreases |run|
  {
    if run == [] then 0
    else (if Feeds(s, run[0], t) then 1 else 0) + FeedCount(c, Apply(c, s, run[0]), run[1..], t)
  }

  // How many feeds of `t` are still to come of what was sent: one for its mark, one under way.
  function ToCome(s: State, t: Target): nat {
    (if t in s.mem.marked then 1 else 0) + if s.loop == Callback(Feed(t.kind, t.index)) then 1 else 0
  }

  lemma ActionBalances(c: Config, s: State, a: Action, t: Target)
    requires Inv(c, s) && Enabled(c, s, a)
    ensures (if Feeds(s, a, t) then 1 else 0) + ToCome(Apply(c, s, a), t)
         <= (if Sends(s, a, t) then 1 else 0) + ToCome(s, t)
  {
  }

  lemma {:induction false} RunBalances(c: Config, s: State, run: seq<Action>, t: Target)
    requires Inv(c, s) && IsRun(c, s, run)
    ensures FeedCount(c, s, run, t) + ToCome(After(c, s, run), t) <= SendCount(c, s, run, t) + ToCome(s, t)
    decreases |run|
  {
    if run != [] {
      ActionBalances(c, s, run[0], t);
      ActionKeeps(c, s, run[0]);
      RunBalances(c, Apply(c, s, run[0]), run[1..], t);
    }
  }

  // Whatever the interleaving, a target is fed at most as often as it was sent to; one that nobody
  // sent to is never fed.
  lemma FedOnlyIfSent(c: Config, run: seq<Action>, t: Target)
    requires IsRun(c, INIT, run)
    ensures FeedCount(c, INIT, run, t) <= SendCount(c, INIT, run, t)
  {
    RunBalances(c, INIT, run, t);
  }

  // ---------- no lost wake-up, as a safety property ----------

  // The call has set its mark, and by the shared words as they are it goes on to write the pipe.
  predicate WillWrite(m: Memory, x: Sender) {
    match x.pc
    case CheckFlag => x.target.kind !in m.flags && m.wanted
    case SetFlag => m.wanted
    case SetSkipped => m.wanted
    case ReadWanted => m.wanted
    case ClearSkipped => true
    case Write => true
    case _ => false
  }

  predicate InFlight(s: State, id: nat) {
    id in s.senders && WillWrite(s.mem, s.senders[id])
  }

  // The loop sits in a blocking poll and nothing in the pipe is going to end it.
  predicate Asleep(s: State) {
    s.loop == Poll(true) && s.mem.pipe == 0
  }

  lemma AsleepMeansInFlight(c: Config, s: State)
    requires Inv(c, s) && Asleep(s) && s.mem.marked != {}
    ensures exists id :: InFlight(s, id)
  {
    var t :| t in s.mem.marked;
    assert Backed(s, t);
    assert t.kind in s.mem.flags ==> Noticed(s, t.kind);
    var id :| id in s.senders && WillWrite(s.mem, s.senders[id]);
    assert InFlight(s, id);
  }

  // Whatever the interleaving: a set mark keeps the loop awake unless its sender,
  // or another one, is still on the way to writing the pipe.
  lemma NoLostWakeup(c: Config, run: seq<Action>)
    requires IsRun(c, INIT, run)
    ensures var s := After(c, INIT, run);
      Asleep(s) && s.mem.marked != {} ==> exists id :: InFlight(s, id)
  {
    RunKeeps(c, INIT, run);
    var s := After(c, INIT, run);
    if Asleep(s) && s.mem.marked != {} {
      AsleepMeansInFlight(c, s);
    }
  }

  // Once every call has returned, a sleeping loop owes nobody a callback.
  lemma SleepsOnlyWhenAllServed(c: Config, run: seq<Action>)
    requires IsRun(c, INIT, run)
    ensures var s := After(c, INIT, run);
      Asleep(s) && (forall id <- s.senders :: s.senders[id].pc == Done) ==> s.owed == {}
  {
    RunKeeps(c, INIT, run);
    NoLostWakeup(c, run);
  }

  // ---------- every send is followed by a feed, under fairness ----------

  // pipecb is in the middle of a scan that has yet to feed `t`.
  predicate Serving(loop: LoopPc, t: Target) {
    WillScan(loop, t) || loop == Callback(Feed(t.kind, t.index))
  }

  // Steps left in pipecb, at most.
  function CallbackLeft(c: Config, cb: CallbackPc): nat {
    var a := 3 * c.asyncs + 3;
    match cb
    case Drain => a + 3 * c.signals + 4
    case ResetSkipped => a + 3 * c.signals + 3
    case ReadFlag(k) => if k == Signal then a + 3 * c.signals + 2 else 3 * c.asyncs + 2
    case LowerFlag(k) => if k == Signal then a + 3 * c.signals + 1 else 3 * c.asyncs + 1
    case Scan(k, left) => 3 * left + if k == Signal then a else 0
    case Unmark(k, i) => 3 * i + 2 + if k == Signal then a else 0
    case Feed(k, i) => 3 * i + 1 + if k == Signal then a else 0
  }

  // Loop steps until pipecb ends, once pipe_w is pending.
  function ToServe(c: Config, loop: LoopPc): nat {
    match loop
    case Callback(cb) => CallbackLeft(c, cb)
    case Invoke => CallbackLeft(c, Drain) + 1
    case RetestSkipped => CallbackLeft(c, Drain) + 2
    case _ => CallbackLeft(c, Drain) + 3
  }

  // Loop steps until the next poll returns.
  function ToPoll(c: Config, loop: LoopPc): nat {
    match loop
    case Poll(_) => 0
    case TestSkipped => 1
    case SetWanted => 2
    case Invoke => 3
    case RetestSkipped => 4
    case ClearWanted => 5
    case Callback(cb) => 6 + CallbackLeft(c, cb)
  }

  // Loop steps until `skipped` is read again after a poll.
  function ToRetest(c: Config, loop: LoopPc): nat {
    match loop
    case RetestSkipped => 0
    case ClearWanted => 1
    case Poll(_) => 2
    case TestSkipped => 3
    case SetWanted => 4
    case Invoke => 5
    case Callback(cb) => 6 + CallbackLeft(c, cb)
  }

  // How far the promise made to `t` is from being kept; the smaller the nearer.
  ghost function Stage(s: State, t: Target): nat {
    if Serving(s.loop, t) then 0
    else if t.kind !in s.mem.flags then 6
    else if s.pipeRead || s.pipeCustom || WillReadFlag(s.loop, t.kind) then 1
    else if s.mem.pipe > 0 then 2
    else if SomeSenderAt(s, Write) then 3
    else if s.mem.skipped then 4
    else 5
  }

  ghost function Within(c: Config, s: State, t: Target): nat {
    match Stage(s, t)
    case 0 => ToServe(c, s.loop)
    case 1 => ToServe(c, s.loop)
    case 2 => ToPoll(c, s.loop)
    case 4 => 2 * ToRetest(c, s.loop) + if s.loop == Poll(true) && !SomeSenderAt(s, ClearSkipped) then 1 else 0
    case 6 => if SomeSenderOf(s, t.kind, SetFlag) then 0 else 1
    case _ => 0
  }

  ghost predicate Nearer(c: Config, s': State, s: State, t: Target) {
    Stage(s', t) < Stage(s, t) || (Stage(s', t) == Stage(s, t) && Within(c, s', t) < Within(c, s, t))
  }

  ghost predicate AsNear(c: Config, s': State, s: State, t: Target) {
    Stage(s', t) == Stage(s, t) && Within(c, s', t) == Within(c, s, t)
  }

  datatype Actor = TheLoop | TheSender(id: nat)

  predicate ActsAs(a: Action, h: Actor) {
    match h
    case TheLoop => a.LoopStep? || a.PollReturn?
    case TheSender(id) => a == SenderStep(id)
  }

  // `h` is somebody whose next step brings the promise to `t` nearer.
  ghost predicate Helps(c: Config, s: State, t: Target, h: Actor) {
    var stage := Stage(s, t);
    match h
    case TheLoop => stage <= 2 || (stage == 4 && s.loop != Poll(true))
    case TheSender(id) =>
      && id in s.senders
      && match s.senders[id].pc
         case Write => stage == 3
         case ReadWanted => stage == 4 && s.loop == Poll(true) && Within(c, s, t) == 5
         case ClearSkipped => stage == 4 && s.loop == Poll(true)
         case SetSkipped => stage == 5
         case CheckFlag => stage == 6 && Within(c, s, t) == 1 && s.senders[id].target.kind == t.kind
         case SetFlag => stage == 6 && s.senders[id].target.kind == t.kind
         case _ => false
  }

  lemma SomebodyHelps(c: Config, s: State, t: Target) returns (h: Actor)
    requires Inv(c, s) && t in s.owed
    ensures Helps(c, s, t, h)
  {
    var stage := Stage(s, t);
    if stage <= 2 || (stage == 4 && s.loop != Poll(true)) {
      return TheLoop;
    } else if stage == 6 {
      assert Backed(s, t);
      if SomeSenderOf(s, t.kind, SetFlag) {
        var id :| id in s.senders && s.senders[id].pc == SetFlag && s.senders[id].target.kind == t.kind;
        return TheSender(id);
      }
      var id :| id in s.senders && s.senders[id].pc == CheckFlag && s.senders[id].target.kind == t.kind;
      return TheSender(id);
    } else {
      assert Noticed(s, t.kind);
      var pc := if stage == 3 then Write
                else if stage == 5 then SetSkipped
                else if SomeSenderAt(s, ClearSkipped) then ClearSkipped else ReadWanted;
      assert SomeSenderAt(s, pc);
      var id :| id in s.senders && s.senders[id].pc == pc;
      return TheSender(id);
    }
  }

  // A returning poll reports the pipe if it is readable.
  predicate Faithful(s: State, a: Action) {
    a.PollReturn? ==> a.seen == (s.mem.pipe > 0)
  }

  lemma SenderIsNearer(c: Config, s: State, id: nat, t: Target)
    requires Inv(c, s) && t in s.owed && id in s.senders && s.senders[id].pc != Done
    requires Helps(c, s, t, TheSender(id))
    ensures Nearer(c, SenderApply(s, id), s, t)
  {
    var s' := SenderApply(s, id);
    assert s'.senders[id].pc == SenderNext(s.mem, s.senders[id]);
    assert SomeSenderAt(s', s'.senders[id].pc);
    assert SomeSenderOf(s', s'.senders[id].target.kind, s'.senders[id].pc);
  }

  lemma CallbackAdvances(c: Config, m: Memory, cb: CallbackPc)
    requires CallbackInRange(c, cb)
    ensures var next := CallbackNext(c, m, cb);
      next.SetWanted? || (next.Callback? && CallbackLeft(c, next.cb) < CallbackLeft(c, cb))
  {
  }

  // A scan that is going to look at a marked target does not pass it by.
  lemma CallbackServes(c: Config, s: State, t: Target)
    requires Inv(c, s) && s.loop.Callback? && t in CallbackApply(c, s).owed
    requires Serving(s.loop, t) || (t.kind in s.mem.flags && WillReadFlag(s.loop, t.kind))
    ensures var s' := CallbackApply(c, s);
      Serving(s'.loop, t) || (t.kind in s'.mem.flags && WillReadFlag(s'.loop, t.kind) && !Serving(s.loop, t))
  {
  }

  lemma CallbackIsNearer(c: Config, s: State, t: Target)
    requires Inv(c, s) && t in s.owed && s.loop.Callback?
    requires Helps(c, s, t, TheLoop) && t in CallbackApply(c, s).owed
    ensures Nearer(c, CallbackApply(c, s), s, t)
  {
    SameSenders(s, CallbackApply(c, s));
    CallbackAdvances(c, s.mem, s.loop.cb);
    if Serving(s.loop, t) || (t.kind in s.mem.flags && WillReadFlag(s.loop, t.kind)) {
      CallbackServes(c, s, t);
    }
  }

  lemma LoopIsNearer(c: Config, s: State, a: Action, t: Target)
    requires Inv(c, s) && t in s.owed && Enabled(c, s, a) && Faithful(s, a) && ActsAs(a, TheLoop)
    requires Helps(c, s, t, TheLoop) && t in Apply(c, s, a).owed
    ensures Nearer(c, Apply(c, s, a), s, t)
  {
    if s.loop.Callback? {
      CallbackIsNearer(c, s, t);
    } else {
      SameSenders(s, Apply(c, s, a));
    }
  }

  lemma OtherSenderIsNoHindrance(c: Config, s: State, id: nat, t: Target, h: Actor)
    requires Inv(c, s) && t in s.owed && id in s.senders && s.senders[id].pc != Done
    requires Helps(c, s, t, h) && h != TheSender(id)
    ensures var s' := SenderApply(s, id);
      Nearer(c, s', s, t) || (AsNear(c, s', s, t) && Helps(c, s', t, h))
  {
    var s' := SenderApply(s, id);
    var pc := s.senders[id].pc;
    assert s'.senders[id].pc == SenderNext(s.mem, s.senders[id]);
    assert SomeSenderAt(s', s'.senders[id].pc);
    assert SomeSenderOf(s', s'.senders[id].target.kind, s'.senders[id].pc);
    if pc != Write { OthersStay(s, s', id, Write); }
    if pc != ClearSkipped { OthersStay(s, s', id, ClearSkipped); }
    if pc != SetFlag { OthersStay(s, s', id, SetFlag); }
    if h.TheSender? {
      assert s'.senders[h.id] == s.senders[h.id];
      assert SomeSenderAt(s', s.senders[h.id].pc);
    }
  }

  lemma LoopIsNoHindrance(c: Config, s: State, a: Action, t: Target, id: nat)
    requires Inv(c, s) && t in s.owed && Enabled(c, s, a) && Faithful(s, a) && ActsAs(a, TheLoop)
    requires Helps(c, s, t, TheSender(id)) && t in Apply(c, s, a).owed
    ensures var s' := Apply(c, s, a);
      Nearer(c, s', s, t) || (AsNear(c, s', s, t) && Helps(c, s', t, TheSender(id)))
  {
    SameSenders(s, Apply(c, s, a));
  }

  lemma CallIsNoHindrance(c: Config, s: State, id: nat, u: Target, t: Target, h: Actor)
    requires Inv(c, s) && t in s.owed && Enabled(c, s, Call(id, u)) && Helps(c, s, t, h)
    ensures var s' := Apply(c, s, Call(id, u));
      AsNear(c, s', s, t) && Helps(c, s', t, h)
  {
    var s' := Apply(c, s, Call(id, u));
    OthersStay(s, s', id, Write);
    OthersStay(s, s', id, ClearSkipped);
    OthersStay(s, s', id, SetFlag);
  }

  // An infinite behaviour: `acts(i)` leads from `states(i)` to `states(i + 1)`.
  ghost predicate IsBehaviour(c: Config, states: nat -> State, acts: nat -> Action) {
    states(0) == INIT && forall i: nat :: StepAt(c, states, acts, i)
  }

  ghost predicate StepAt(c: Config, states: nat -> State, acts: nat -> Action, i: nat) {
    Enabled(c, states(i), acts(i)) && states(i + 1) == Apply(c, states(i), acts(i))
  }

  // Every call goes on, the loop goes on unless it sleeps, and polls report a readable pipe.
  ghost predicate IsFair(states: nat -> State, acts: nat -> Action) {
    && (forall i: nat, id: nat :: SenderGoesOn(states, acts, i, id))
    && (forall i: nat :: LoopGoesOn(states, acts, i))
    && (forall i: nat :: Faithful(states(i), acts(i)))
  }

  ghost predicate SenderGoesOn(states: nat -> State, acts: nat -> Action, i: nat, id: nat) {
    id in states(i).senders && states(i).senders[id].pc != Done ==>
      exists j: nat :: i <= j && acts(j) == SenderStep(id)
  }

  ghost predicate LoopGoesOn(states: nat -> State, acts: nat -> Action, i: nat) {
    exists j: nat :: i <= j && (ActsAs(acts(j), TheLoop) || Asleep(states(j)))
  }

  ghost predicate FeedsAt(states: nat -> State, acts: nat -> Action, j: nat, t: Target) {
    acts(j) == LoopStep && states(j).loop == Callback(Feed(t.kind, t.index))
  }

  lemma {:induction false} InvAt(c: Config, states: nat -> State, acts: nat -> Action, i: nat)
    requires IsBehaviour(c, states, acts)
    ensures Inv(c, states(i))
  {
    if i > 0 {
      InvAt(c, states, acts, i - 1);
      assert StepAt(c, states, acts, i - 1);
      ActionKeeps(c, states(i - 1), acts(i - 1));
    }
  }

  // A step either feeds `t`, or brings it nearer, or leaves the helper's help as useful as before.
  lemma StepTowards(c: Config, s: State, a: Action, t: Target, h: Actor)
    requires Inv(c, s) && Enabled(c, s, a) && Faithful(s, a) && t in s.owed && Helps(c, s, t, h)
    ensures var s' := Apply(c, s, a);
      || (a == LoopStep && s.loop == Callback(Feed(t.kind, t.index)))
      || (t in s'.owed && Nearer(c, s', s, t))
      || (t in s'.owed && AsNear(c, s', s, t) && Helps(c, s', t, h) && !ActsAs(a, h))
  {
    if t in Apply(c, s, a).owed {
      match a
      case Call(id, u) => CallIsNoHindrance(c, s, id, u, t, h);
      case SenderStep(id) =>
        if h == TheSender(id) { SenderIsNearer(c, s, id, t); } else { OtherSenderIsNoHindrance(c, s, id, t, h); }
      case _ =>
        if h == TheLoop { LoopIsNearer(c, s, a, t); } else { LoopIsNoHindrance(c, s, a, t, h.id); }
    }
  }

  // The same, along a behaviour.
  lemma Advance(c: Config, states: nat -> State, acts: nat -> Action, i: nat, t: Target, h: Actor)
    requires IsBehaviour(c, states, acts) && IsFair(states, acts) && t in states(i).owed && Helps(c, states(i), t, h)
    ensures var s, s' := states(i), states(i + 1);
      || FeedsAt(states, acts, i, t)
      || (t in s'.owed && Nearer(c, s', s, t))
      || (t in s'.owed && AsNear(c, s', s, t) && Helps(c, s', t, h) && !ActsAs(acts(i), h)
          && !(h == TheLoop && Asleep(s)))
  {
    InvAt(c, states, acts, i);
    assert StepAt(c, states, acts, i) && Faithful(states(i), acts(i));
    StepTowards(c, states(i), acts(i), t, h);
  }

  lemma {:induction false} FedFrom(c: Config, states: nat -> State, acts: nat -> Action, i: nat, t: Target, h: Actor,
                                   j: nat)
    returns (f: nat)
    requires IsBehaviour(c, states, acts) && IsFair(states, acts)
    requires t in states(i).owed && Helps(c, states(i), t, h)
    requires i <= j && (ActsAs(acts(j), h) || (h == TheLoop && Asleep(states(j))))
    ensures i <= f && FeedsAt(states, acts, f, t)
    decreases Stage(states(i), t), Within(c, states(i), t), j - i
  {
    Advance(c, states, acts, i, t, h);
    if FeedsAt(states, acts, i, t) {
      f := i;
    } else if Nearer(c, states(i + 1), states(i), t) {
      var h', j' := NextHelp(c, states, acts, i + 1, t);
      f := FedFrom(c, states, acts, i + 1, t, h', j');
    } else {
      f := FedFrom(c, states, acts, i + 1, t, h, j);
    }
  }

  lemma NextHelp(c: Config, states: nat -> State, acts: nat -> Action, i: nat, t: Target) returns (h: Actor, j: nat)
    requires IsBehaviour(c, states, acts) && IsFair(states, acts) && t in states(i).owed
    ensures Helps(c, states(i), t, h)
    ensures i <= j && (ActsAs(acts(j), h) || (h == TheLoop && Asleep(states(j))))
  {
    InvAt(c, states, acts, i);
    h := SomebodyHelps(c, states(i), t);
    if h == TheLoop {
      assert LoopGoesOn(states, acts, i);
      j :| i <= j && (ActsAs(acts(j), TheLoop) || Asleep(states(j)));
    } else {
      assert SenderGoesOn(states, acts, i, h.id);
      j :| i <= j && acts(j) == SenderStep(h.id);
    }
  }

  // In every fair behaviour, with any number of senders, a send is followed by a feed of its watcher.
  lemma EverySendIsFed(c: Config, states: nat -> State, acts: nat -> Action, i: nat, id: nat)
    requires IsBehaviour(c, states, acts) && IsFair(states, acts)
    requires acts(i) == SenderStep(id) && id in states(i).senders && states(i).senders[id].pc == Mark
    ensures exists f: nat :: i < f && FeedsAt(states, acts, f, states(i).senders[id].target)
  {
    var t := states(i).senders[id].target;
    assert StepAt(c, states, acts, i);
    var h, j := NextHelp(c, states, acts, i + 1, t);
    var f := FedFrom(c, states, acts, i + 1, t, h, j);
  }

  // ---------- the loop comes to rest ----------

  predicate AllReturned(s: State) {
    forall id <- s.senders :: s.senders[id].pc == Done
  }

  // What keeps the loop awake besides the bytes in the pipe.
  function Unrest(s: State): nat {
    if s.mem.skipped then (if s.loop == Callback(ResetSkipped) then 1 else 3) else if s.pipeCustom then 2 else 0
  }

  // pipecb is going to run before the next poll.
  predicate CallbackDue(s: State) {
    s.pipeRead || s.pipeCustom || (s.mem.skipped && (s.loop.ClearWanted? || s.loop.RetestSkipped?))
  }

  // Steps until pipecb drains the pipe, or else until the next poll.
  function Steps(c: Config, s: State): nat {
    if CallbackDue(s) then
      match s.loop
      case RetestSkipped => 2
      case Invoke => 1
      case Callback(_) => 0
      case _ => 3
    else if s.loop == Poll(false) && s.mem.pipe == 0 && !s.mem.skipped then 10
    else 4 + ToPoll(c, s.loop)
  }

  // While nobody sends, every step of a loop that does not sleep brings it nearer to sleep.
  lemma StepToRest(c: Config, s: State, a: Action)
    requires Inv(c, s) && AllReturned(s) && !Asleep(s) && Enabled(c, s, a) && Faithful(s, a) && !a.Call?
    ensures var s' := Apply(c, s, a);
      && AllReturned(s') && s'.mem.pipe <= s.mem.pipe
      && (s'.mem.pipe == s.mem.pipe ==> Unrest(s') <= Unrest(s))
      && (s'.mem.pipe == s.mem.pipe && Unrest(s') == Unrest(s) ==> Steps(c, s') < Steps(c, s))
  {
  }

  // Once every call has returned and as long as nobody sends, the loop does not spin: it soon blocks on
  // an empty pipe.
  lemma {:induction false} ComesToRest(c: Config, states: nat -> State, acts: nat -> Action, i: nat) returns (j: nat)
    requires IsBehaviour(c, states, acts) && AllReturned(states(i))
    requires forall k: nat | i <= k :: Faithful(states(k), acts(k)) && !acts(k).Call?
    ensures i <= j && Asleep(states(j))
    decreases states(i).mem.pipe, Unrest(states(i)), Steps(c, states(i))
  {
    if Asleep(states(i)) {
      j := i;
    } else {
      InvAt(c, states, acts, i);
      assert StepAt(c, states, acts, i) && Faithful(states(i), acts(i));
      StepToRest(c, states(i), acts(i));
      j := ComesToRest(c, states, acts, i + 1);
    }
  }
}
