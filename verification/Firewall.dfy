/**
 The rate limiter: rules, one window counter per source, and how often a source can get through.
 */
module Firewall {
  datatype Rule = Rule(source: string, deny: bool, active: bool)

  datatype Tracker = Tracker(source: string, count: int, windowStart: int, blocked: bool)

  // Names are kept in 128 bytes, the last of which ends them.
  function Stored(source: string): string {
    if |source| < 128 then source else source[..127]
  }

  // ---------- looking up ----------

  // The first tracker with the name, or -1.
  function First(trackers: seq<Tracker>, source: string): (r: int)
    ensures -1 <= r < |trackers|
  {
    if trackers == [] then -1
    else if trackers[0].source == source then 0
    else var r := First(trackers[1..], source); if r < 0 then -1 else r + 1
  }

  // The first active rule for the name, or -1.
  function FirstRule(rules: seq<Rule>, source: string): (r: int)
    ensures -1 <= r < |rules|
  {
    if rules == [] then -1
    else if rules[0].active && rules[0].source == source then 0
    else var r := FirstRule(rules[1..], source); if r < 0 then -1 else r + 1
  }

  lemma {:induction false} FirstSays(trackers: seq<Tracker>, source: string)
    ensures var r := First(trackers, source);
      && (r >= 0 ==> trackers[r].source == source)
      && forall i | 0 <= i < |trackers| && trackers[i].source == source :: 0 <= r <= i
  {
    if trackers != [] {
      FirstSays(trackers[1..], source);
      assert forall i | 0 < i < |trackers| :: trackers[i] == trackers[1..][i - 1];
    }
  }

  lemma {:induction false} FirstRuleSays(rules: seq<Rule>, source: string)
    ensures var r := FirstRule(rules, source);
      && (r >= 0 ==> rules[r].active && rules[r].source == source)
      && forall i | 0 <= i < |rules| && rules[i].active && rules[i].source == source :: 0 <= r <= i
  {
    if rules != [] {
      FirstRuleSays(rules[1..], source);
      assert forall i | 0 < i < |rules| :: rules[i] == rules[1..][i - 1];
    }
  }

  // A long name is never found, because what is stored of it is shorter.
  lemma LongNameNotFound(trackers: seq<Tracker>, source: string)
    requires |source| >= 128 && forall i | 0 <= i < |trackers| :: |trackers[i].source| < 128
    ensures First(trackers, source) == -1
  {
    FirstSays(trackers, source);
  }

  // ---------- what a source got through ----------

  // The times a source was let through by its tracker, and the start of the window of each.
  datatype History = History(stamps: seq<int>, windows: seq<int>)

  const NOTHING := History([], [])

  function Let(h: History, now: int, window: int): History {
    History(h.stamps + [now], h.windows + [window])
  }

  // Stamp `k` is not after the next one, nor the last after the clock.
  predicate NextOk(stamps: seq<int>, clock: int, k: nat) {
    k < |stamps| ==> stamps[k] <= if k + 1 < |stamps| then stamps[k + 1] else clock
  }

  ghost predicate InOrder(stamps: seq<int>, clock: int) {
    forall k: nat :: NextOk(stamps, clock, k)
  }

  lemma OrderLater(stamps: seq<int>, clock: int, clock': int)
    requires InOrder(stamps, clock) && clock <= clock'
    ensures InOrder(stamps, clock')
  {
    forall k: nat ensures NextOk(stamps, clock', k) {
      assert NextOk(stamps, clock, k);
    }
  }

  lemma OrderMore(stamps: seq<int>, clock: int)
    requires InOrder(stamps, clock)
    ensures InOrder(stamps + [clock], clock)
  {
    forall k: nat ensures NextOk(stamps + [clock], clock, k) {
      assert NextOk(stamps, clock, k);
    }
  }

  // Stamp `j` lies in its window, and the tracker is in that window, with this stamp counted, or in
  // a later one. Nothing is claimed if windows have no length.
  ghost predicate StampOk(h: History, j: nat, start: int, count: int, window: int) {
    j < |h.stamps| == |h.windows| && window >= 1 ==>
      && h.windows[j] <= h.stamps[j] < h.windows[j] + window
      && (h.windows[j] + window <= start || (h.windows[j] == start && |h.windows| - j <= count))
  }

  // No window lets more than `limit` through, and windows do not overlap.
  ghost predicate Apart(h: History, j: nat, limit: int, window: int) {
    0 <= j + limit < |h.windows| && limit >= 0 && window >= 1 ==> h.windows[j] + window <= h.windows[j + limit]
  }

  ghost predicate HistoryOk(h: History, start: int, count: int, limit: int, window: int) {
    && |h.windows| == |h.stamps|
    && (forall j: nat :: StampOk(h, j, start, count, window))
    && (forall j: nat :: Apart(h, j, limit, window))
  }

  // Restarting the window, letting one more through, and holding one back.
  lemma Restarted(h: History, start: int, count: int, limit: int, window: int, now: int)
    requires now - start >= window
    ensures HistoryOk(h, start, count, limit, window) ==> HistoryOk(h, now, 0, limit, window)
  {
    if HistoryOk(h, start, count, limit, window) {
      forall j: nat ensures StampOk(h, j, now, 0, window) {
        assert StampOk(h, j, start, count, window);
      }
    }
  }

  lemma LetThrough(h: History, start: int, count: int, limit: int, window: int, now: int)
    requires HistoryOk(h, start, count, limit, window) && 0 <= count < limit
    requires start <= now && (window >= 1 ==> now < start + window)
    ensures HistoryOk(Let(h, now, start), start, count + 1, limit, window)
  {
    var h', more := Let(h, now, start), count + 1;
    forall j: nat ensures StampOk(h', j, start, more, window) {
      assert StampOk(h, j, start, count, window);
    }
    forall j: nat ensures Apart(h', j, limit, window) {
      assert Apart(h, j, limit, window) && StampOk(h, j, start, count, window);
    }
  }

  lemma HeldBack(h: History, start: int, count: int, limit: int, window: int)
    ensures HistoryOk(h, start, count, limit, window) ==> HistoryOk(h, start, count + 1, limit, window)
  {
    if HistoryOk(h, start, count, limit, window) {
      var more := count + 1;
      forall j: nat ensures StampOk(h, j, start, more, window) {
        assert StampOk(h, j, start, count, window);
      }
    }
  }

  // In any half-open interval of `window` seconds a source gets through at most 2 * limit times:
  // the first and the last of one more are at least a window apart.
  lemma AtMostTwice(h: History, start: int, count: int, limit: int, window: int, i: nat, j: nat, from: int, clock: int)
    requires HistoryOk(h, start, count, limit, window) && InOrder(h.stamps, clock) && limit >= 0 && i <= j < |h.stamps|
    requires from <= h.stamps[i] && h.stamps[j] < from + window
    ensures j - i + 1 <= 2 * limit
  {
    NonDecreasing(h.stamps, clock, i, j);
    if j - i + 1 > 2 * limit {
      var a, b := i + limit, i + 2 * limit;
      assert StampOk(h, i, start, count, window) && StampOk(h, b, start, count, window);
      assert Apart(h, i, limit, window) && Apart(h, a, limit, window);
      NonDecreasing(h.stamps, clock, b, j);
      assert false;
    }
  }

  lemma {:induction false} NonDecreasing(s: seq<int>, clock: int, i: nat, j: nat)
    requires InOrder(s, clock) && i <= j < |s|
    ensures s[i] <= s[j]
  {
    if i < j {
      NonDecreasing(s, clock, i, j - 1);
      assert NextOk(s, clock, j - 1);
    }
  }

  // ---------- the trackers of all sources ----------

  function Of(histories: map<string, History>, source: string): History {
    if source in histories then histories[source] else NOTHING
  }

  ghost predicate TrackerOk(t: Tracker, clock: int) {
    |t.source| < 128 && 0 <= t.count && t.windowStart <= clock
  }

  ghost predicate TrackersOk(trackers: seq<Tracker>, clock: int) {
    forall i | 0 <= i < |trackers| :: TrackerOk(trackers[i], clock)
  }

  // The history `h` of a source whose first tracker is number `r`.
  ghost predicate SourceOk(trackers: seq<Tracker>, r: int, h: History, limit: int, window: int, clock: int)
    requires r < |trackers|
  {
    && InOrder(h.stamps, clock)
    && if r < 0 then h == NOTHING else HistoryOk(h, trackers[r].windowStart, trackers[r].count, limit, window)
  }

  // Claims are made for names that are stored whole.
  ghost predicate Tracked(trackers: seq<Tracker>, histories: map<string, History>, limit: int, window: int,
                          clock: int, s: string) {
    |s| < 128 ==> SourceOk(trackers, First(trackers, s), Of(histories, s), limit, window, clock)
  }

  ghost predicate HistoriesOk(trackers: seq<Tracker>, histories: map<string, History>, limit: int, window: int,
                              clock: int) {
    forall s: string :: Tracked(trackers, histories, limit, window, clock, s)
  }

  lemma SameNames(trackers: seq<Tracker>, i: nat, t: Tracker, source: string)
    requires i < |trackers| && t.source == trackers[i].source
    ensures First(trackers[i := t], source) == First(trackers, source)
  {
    var trackers' := trackers[i := t];
    FirstSays(trackers, source);
    FirstSays(trackers', source);
    var r, r' := First(trackers, source), First(trackers', source);
    assert r >= 0 ==> trackers'[r].source == source;
    assert r' >= 0 ==> trackers[r'].source == source;
  }

  lemma MoreNames(trackers: seq<Tracker>, t: Tracker, source: string)
    ensures First(trackers + [t], source) ==
      if First(trackers, source) >= 0 then First(trackers, source) else if t.source == source then |trackers| else -1
  {
    var trackers' := trackers + [t];
    FirstSays(trackers, source);
    FirstSays(trackers', source);
    var r, r' := First(trackers, source), First(trackers', source);
    assert r >= 0 ==> trackers'[r].source == source;
    assert r' >= 0 && r' < |trackers| ==> trackers[r'].source == source;
    assert trackers'[|trackers|] == t;
  }

  lemma HistoryOf(trackers: seq<Tracker>, histories: map<string, History>, limit: int, window: int, clock: int,
                  source: string, i: nat)
    requires HistoriesOk(trackers, histories, limit, window, clock) && |source| < 128 && i < |trackers|
      && First(trackers, source) == i
    ensures HistoryOk(Of(histories, source), trackers[i].windowStart, trackers[i].count, limit, window)
    ensures InOrder(Of(histories, source).stamps, clock)
  {
    assert Tracked(trackers, histories, limit, window, clock, source);
  }

  // The history of a name may be any that fits its first tracker.
  lemma Recorded(trackers: seq<Tracker>, histories: map<string, History>, limit: int, window: int, clock: int,
                 source: string, i: nat, h: History)
    requires HistoriesOk(trackers, histories, limit, window, clock) && i < |trackers| && First(trackers, source) == i
    requires InOrder(h.stamps, clock) && HistoryOk(h, trackers[i].windowStart, trackers[i].count, limit, window)
    ensures HistoriesOk(trackers, histories[source := h], limit, window, clock)
      && Of(histories[source := h], source) == h
  {
    var histories' := histories[source := h];
    forall s: string ensures Tracked(trackers, histories', limit, window, clock, s) {
      assert Tracked(trackers, histories, limit, window, clock, s);
    }
  }

  // A tracker may change alone as far as the history of its name allows, and as it likes if it is
  // not the first of its name.
  lemma Kept(trackers: seq<Tracker>, histories: map<string, History>, limit: int, window: int, clock: int, i: nat,
             t: Tracker)
    requires HistoriesOk(trackers, histories, limit, window, clock) && i < |trackers| && t.source == trackers[i].source
    requires var t0, h := trackers[i], Of(histories, t.source);
      HistoryOk(h, t0.windowStart, t0.count, limit, window) ==> HistoryOk(h, t.windowStart, t.count, limit, window)
    ensures HistoriesOk(trackers[i := t], histories, limit, window, clock)
  {
    var trackers' := trackers[i := t];
    forall s: string ensures Tracked(trackers', histories, limit, window, clock, s) {
      SameNames(trackers, i, t, s);
      FirstSays(trackers, s);
      assert Tracked(trackers, histories, limit, window, clock, s);
    }
  }

  lemma Appended(trackers: seq<Tracker>, histories: map<string, History>, limit: int, window: int, clock: int,
                 t: Tracker)
    requires HistoriesOk(trackers, histories, limit, window, clock)
    ensures HistoriesOk(trackers + [t], histories, limit, window, clock)
  {
    var trackers' := trackers + [t];
    forall s: string ensures Tracked(trackers', histories, limit, window, clock, s) {
      MoreNames(trackers, t, s);
      assert Tracked(trackers, histories, limit, window, clock, s);
    }
  }

  lemma Later(trackers: seq<Tracker>, histories: map<string, History>, limit: int, window: int, clock: int, clock': int)
    requires TrackersOk(trackers, clock) && HistoriesOk(trackers, histories, limit, window, clock) && clock <= clock'
    ensures TrackersOk(trackers, clock') && HistoriesOk(trackers, histories, limit, window, clock')
  {
    forall i | 0 <= i < |trackers| ensures TrackerOk(trackers[i], clock') {
      assert TrackerOk(trackers[i], clock);
    }
    forall s: string ensures Tracked(trackers, histories, limit, window, clock', s) {
      assert Tracked(trackers, histories, limit, window, clock, s);
      if |s| < 128 {
        OrderLater(Of(histories, s).stamps, clock, clock');
      }
    }
  }

  function Refreshed(t: Tracker, window: int, now: int): Tracker {
    if now - t.windowStart >= window then t.(count := 0, windowStart := now, blocked := false) else t
  }

  // The tracker at `i` is the first of its name, unless the name may have been cut.
  ghost predicate UniqueAt(trackers: seq<Tracker>, i: nat) {
    i < |trackers| && |trackers[i].source| < 127 ==> First(trackers, trackers[i].source) == i
  }

  ghost predicate Unique(trackers: seq<Tracker>) {
    forall i: nat :: UniqueAt(trackers, i)
  }

  lemma StillUnique(trackers: seq<Tracker>, i: nat, t: Tracker)
    requires Unique(trackers) && i < |trackers| && t.source == trackers[i].source
    ensures Unique(trackers[i := t])
  {
    var trackers' := trackers[i := t];
    forall j: nat | j < |trackers| ensures UniqueAt(trackers', j) {
      assert UniqueAt(trackers, j);
      SameNames(trackers, i, t, trackers[j].source);
    }
  }

  lemma MoreUnique(trackers: seq<Tracker>, t: Tracker)
    requires Unique(trackers) && (|t.source| < 127 ==> First(trackers, t.source) == -1)
    ensures Unique(trackers + [t])
  {
    var trackers' := trackers + [t];
    forall j: nat | j <= |trackers| ensures UniqueAt(trackers', j) {
      assert UniqueAt(trackers, j);
      MoreNames(trackers, t, trackers'[j].source);
    }
  }

  function Counted(t: Tracker, limit: int): Tracker {
    t.(count := t.count + 1, blocked := t.blocked || t.count + 1 > limit)
  }

  // What a check without a rule does: it passes if the table is full; otherwise the source's tracker
  // decides, and what it lets through is recorded.
  ghost predicate Decided(source: string, ok: bool, now: int, trackers: seq<Tracker>, trackers': seq<Tracker>,
                          histories: map<string, History>, histories': map<string, History>, limit: int, window: int) {
    var r := First(trackers, source);
    if r < 0 && |trackers| == 1024 then ok && trackers' == trackers && histories' == histories
    else
      var t := if r < 0 then Tracker(Stored(source), 0, now, false) else Refreshed(trackers[r], window, now);
      && (ok <==> t.count < limit)
      && trackers' == (if r < 0 then trackers + [Counted(t, limit)] else trackers[r := Counted(t, limit)])
      && Noted(histories, histories', source, now, ok)
  }

  // What is let through is recorded for its source and no other.
  ghost predicate Noted(histories: map<string, History>, histories': map<string, History>, source: string, now: int,
                        ok: bool) {
    if ok && |source| < 128
    then Of(histories', source).stamps == Of(histories, source).stamps + [now]
         && histories' == histories[source := Of(histories', source)]
    else histories' == histories
  }

  // How many checks let their source through.
  function Allowed(oks: seq<bool>): nat {
    if oks == [] then 0 else Allowed(oks[..|oks| - 1]) + if oks[|oks| - 1] then 1 else 0
  }

  // A check of `source` and what `s` got through, if `s` does not escape.
  lemma Further(histories: map<string, History>, histories': map<string, History>, source: string, now: int, ok: bool,
                s: string, before: seq<int>, passes: seq<int>)
    requires if source == s then Noted(histories, histories', source, now, ok) && |s| < 128
             else histories' == histories[source := Of(histories', source)] || histories' == histories
    requires Of(histories, s).stamps == before + passes
    ensures Of(histories', s).stamps == before + (passes + if source == s && ok then [now] else [])
  {
    assert (before + passes) + [now] == before + (passes + [now]) && passes + [] == passes;
  }

  // ---------- who is held back ----------

  // The last `n` stamps are not before `start`.
  ghost predicate LastSince(stamps: seq<int>, n: int, start: int) {
    n <= |stamps| && forall j | 0 <= |stamps| - n <= j < |stamps| :: stamps[j] >= start
  }

  // What the tracker of `s` has counted up to the limit, it has let through in its window. Names of 127
  // characters may share their tracker with longer ones.
  ghost predicate Earned(trackers: seq<Tracker>, histories: map<string, History>, limit: int, s: string) {
    var r := First(trackers, s);
    |s| < 127 && r >= 0 ==>
      LastSince(Of(histories, s).stamps, if trackers[r].count < limit then trackers[r].count else limit,
                trackers[r].windowStart)
  }

  ghost predicate AllEarned(trackers: seq<Tracker>, histories: map<string, History>, limit: int) {
    forall s: string :: Earned(trackers, histories, limit, s)
  }

  // A tracker is marked as blocked while its window has gone over the limit.
  ghost predicate Marked(trackers: seq<Tracker>, limit: int) {
    forall i | 0 <= i < |trackers| :: trackers[i].blocked <==> trackers[i].count > limit
  }

  lemma OneSince(stamps: seq<int>, n: int, start: int, now: int)
    requires LastSince(stamps, n, start) && n >= 0 && start <= now
    ensures LastSince(stamps + [now], n + 1, start)
  {
    assert forall j | 0 <= j < |stamps| :: (stamps + [now])[j] == stamps[j];
  }

  // The tracker of the source checked, from what it is refreshed to.
  lemma EarnedBy(stamps: seq<int>, t: Tracker, limit: int, now: int)
    requires 0 <= t.count && t.windowStart <= now
    requires LastSince(stamps, if t.count < limit then t.count else limit, t.windowStart)
    ensures var t', stamps' := Counted(t, limit), if t.count < limit then stamps + [now] else stamps;
      LastSince(stamps', if t'.count < limit then t'.count else limit, t'.windowStart)
  {
    if t.count < limit {
      OneSince(stamps, t.count, t.windowStart, now);
    }
  }

  lemma EarnedOn(source: string, ok: bool, now: int, trackers: seq<Tracker>, trackers': seq<Tracker>,
                 histories: map<string, History>, histories': map<string, History>, limit: int, window: int, s: string)
    requires Decided(source, ok, now, trackers, trackers', histories, histories', limit, window)
    requires Earned(trackers, histories, limit, s) && Sane(trackers, source, now) && |trackers| <= 1024
    ensures Earned(trackers', histories', limit, s)
  {
    var r := First(trackers, source);
    FirstSays(trackers, source);
    FirstSays(trackers, s);
    if r >= 0 {
      SameNames(trackers, r, trackers'[r], s);
      if s == source && |s| < 127 {
        EarnedBy(Of(histories, s).stamps, Refreshed(trackers[r], window, now), limit, now);
      }
    } else if |trackers| < 1024 {
      MoreNames(trackers, trackers'[|trackers|], s);
      if s == source && |s| < 127 {
        EarnedBy(Of(histories, s).stamps, Tracker(s, 0, now, false), limit, now);
      }
    }
  }

  lemma {:induction false} SinceIsIn(stamps: seq<int>, n: int, from: int, length: int)
    requires LastSince(stamps, n, from) && forall j | 0 <= j < |stamps| :: stamps[j] < from + length
    ensures CountIn(stamps, from, length) >= n
  {
    if n > 0 {
      SinceIsIn(stamps[..|stamps| - 1], n - 1, from, length);
    }
  }

  lemma NoneLater(stamps: seq<int>, clock: int)
    requires InOrder(stamps, clock)
    ensures forall j | 0 <= j < |stamps| :: stamps[j] <= clock
  {
    forall j | 0 <= j < |stamps| ensures stamps[j] <= clock {
      NonDecreasing(stamps, clock, j, |stamps| - 1);
      assert NextOk(stamps, clock, |stamps| - 1);
    }
  }

  // A source is held back only if it got as much as the limit through within one window up to now.
  lemma HeldBackFairly(source: string, now: int, trackers: seq<Tracker>, trackers': seq<Tracker>,
                       histories: map<string, History>, histories': map<string, History>, limit: int, window: int)
    requires Decided(source, false, now, trackers, trackers', histories, histories', limit, window)
    requires Earned(trackers, histories, limit, source) && |source| < 127 && InOrder(Of(histories, source).stamps, now)
    ensures CountIn(Of(histories, source).stamps, now - window + 1, window) >= limit
  {
    var r, stamps := First(trackers, source), Of(histories, source).stamps;
    if limit > 0 {
      assert r >= 0 && trackers[r].count >= limit && now - trackers[r].windowStart < window;
      NoneLater(stamps, now);
      SinceIsIn(stamps, limit, now - window + 1, window);
    }
  }

  // ---------- who is limited ----------

  // The name is too long to be found again, or it has no tracker and gets none.
  predicate Escapes(trackers: seq<Tracker>, source: string) {
    |source| >= 128 || (First(trackers, source) < 0 && |trackers| >= 1024)
  }

  // The source gets everything through: it has no tracker and gets none, or each check finds a new
  // tracker or a new window and the limit allows for one pass.
  predicate Free(trackers: seq<Tracker>, source: string, limit: int, window: int) {
    || (First(trackers, source) < 0 && |trackers| >= 1024)
    || (limit >= 1 && (|source| >= 128 || window <= 0))
  }

  // Who is free goes on being so, and is let through.
  lemma FreeOn(source: string, now: int, trackers: seq<Tracker>, trackers': seq<Tracker>, limit: int, window: int,
               s: string, ok: bool, histories: map<string, History>, histories': map<string, History>)
    requires Decided(source, ok, now, trackers, trackers', histories, histories', limit, window)
    requires |trackers| <= 1024 && Free(trackers, s, limit, window) && Sane(trackers, source, now)
    ensures Free(trackers', s, limit, window) && (source == s ==> ok)
  {
    var r := First(trackers, source);
    FirstSays(trackers, source);
    if r >= 0 {
      SameNames(trackers, r, trackers'[r], s);
    }
  }

  // What is known of the tracker a check finds: the name is not long, the count is not negative, and
  // the window has begun.
  predicate Sane(trackers: seq<Tracker>, source: string, now: int) {
    var r := First(trackers, source);
    r >= 0 ==> |source| < 128 && trackers[r].count >= 0 && trackers[r].windowStart <= now
  }

  // If the limit is not positive, whoever is not free is held back.
  lemma NothingPasses(source: string, now: int, trackers: seq<Tracker>, trackers': seq<Tracker>, limit: int,
                      window: int, ok: bool, histories: map<string, History>, histories': map<string, History>)
    requires Decided(source, ok, now, trackers, trackers', histories, histories', limit, window)
    requires |trackers| <= 1024 && limit <= 0 && !Free(trackers, source, limit, window) && Sane(trackers, source, now)
    ensures !ok
  {
  }

  // Who escapes goes on doing so.
  lemma EscapesOn(source: string, now: int, trackers: seq<Tracker>, trackers': seq<Tracker>, limit: int, window: int,
                  s: string, ok: bool, histories: map<string, History>, histories': map<string, History>)
    requires Decided(source, ok, now, trackers, trackers', histories, histories', limit, window)
    requires |trackers| <= 1024 && Escapes(trackers, s)
    ensures Escapes(trackers', s)
  {
    var r := First(trackers, source);
    FirstSays(trackers, source);
    if r >= 0 {
      SameNames(trackers, r, trackers'[r], s);
    }
  }

  // Who is limited when checked stays so.
  lemma LimitedOn(source: string, now: int, trackers: seq<Tracker>, trackers': seq<Tracker>, limit: int, window: int,
                  ok: bool, histories: map<string, History>, histories': map<string, History>)
    requires Decided(source, ok, now, trackers, trackers', histories, histories', limit, window)
    requires |trackers| <= 1024 && !Escapes(trackers, source)
    ensures !Escapes(trackers', source)
  {
    var r := First(trackers, source);
    FirstSays(trackers, source);
    if r >= 0 {
      SameNames(trackers, r, trackers'[r], source);
    } else {
      MoreNames(trackers, trackers'[|trackers|], source);
    }
  }

  // All requests are from `s`.
  ghost predicate OnlyFrom(requests: seq<Request>, s: string) {
    forall k | 0 <= k < |requests| :: requests[k].source == s
  }

  datatype Request = Request(source: string, now: int)

  // The times `s` was let through.
  function Passes(requests: seq<Request>, oks: seq<bool>, s: string): seq<int>
    requires |requests| == |oks|
  {
    if requests == [] then []
    else
      var last := |requests| - 1;
      Passes(requests[..last], oks[..last], s)
      + if requests[last].source == s && oks[last] then [requests[last].now] else []
  }

  lemma PassesMore(requests: seq<Request>, oks: seq<bool>, k: nat, ok: bool, s: string)
    requires k < |requests| && |oks| == k
    ensures Passes(requests[..k + 1], oks + [ok], s)
         == Passes(requests[..k], oks, s) + if requests[k].source == s && ok then [requests[k].now] else []
  {
    assert requests[..k + 1][..k] == requests[..k] && (oks + [ok])[..k] == oks;
  }

  // How many of the stamps lie in the half-open interval.
  function CountIn(stamps: seq<int>, from: int, length: int): nat {
    if stamps == [] then 0
    else CountIn(stamps[..|stamps| - 1], from, length) + if from <= stamps[|stamps| - 1] < from + length then 1 else 0
  }

  lemma {:induction false} CountMore(a: seq<int>, b: seq<int>, from: int, length: int)
    ensures CountIn(a + b, from, length) == CountIn(a, from, length) + CountIn(b, from, length)
  {
    if b == [] {
      assert a + b == a;
    } else {
      var last := |b| - 1;
      CountMore(a, b[..last], from, length);
      assert (a + b)[..|a + b| - 1] == a + b[..last];
    }
  }

  // Those in the interval are consecutive.
  lemma {:induction false} Consecutive(stamps: seq<int>, clock: int, from: int, length: int) returns (i: nat, j: nat)
    requires InOrder(stamps, clock) && CountIn(stamps, from, length) > 0
    ensures i <= j < |stamps| && j - i + 1 == CountIn(stamps, from, length)
    ensures from <= stamps[i] && stamps[j] < from + length
    ensures j + 1 < |stamps| ==> stamps[j + 1] >= from + length
  {
    var last := |stamps| - 1;
    var rest := stamps[..last];
    OrderLess(stamps, clock);
    if CountIn(rest, from, length) == 0 {
      i, j := last, last;
    } else {
      i, j := Consecutive(rest, stamps[last], from, length);
      NonDecreasing(stamps, clock, i, last);
      NonDecreasing(stamps, clock, if j < last then j + 1 else last, last);
      if from <= stamps[last] < from + length {
        j := last;
      }
    }
  }

  lemma OrderLess(stamps: seq<int>, clock: int)
    requires InOrder(stamps, clock) && stamps != []
    ensures InOrder(stamps[..|stamps| - 1], stamps[|stamps| - 1])
  {
    var rest, last := stamps[..|stamps| - 1], stamps[|stamps| - 1];
    forall k: nat ensures NextOk(rest, last, k) {
      assert NextOk(stamps, clock, k);
    }
  }

  ghost predicate AllPass(requests: seq<Request>, oks: seq<bool>, s: string)
    requires |requests| == |oks|
  {
    forall k | 0 <= k < |requests| && requests[k].source == s :: oks[k]
  }

  // What a series of checks has made of `s`, a source without a rule: what it got through is recorded
  // unless it escapes by now; if it was free from the start, it got everything through; if the limit is
  // not positive and it was not free, it was held back at once; and it escapes only because of others.
  ghost predicate ServedTo(trackers0: seq<Tracker>, trackers: seq<Tracker>, histories0: map<string, History>,
                           histories: map<string, History>, requests: seq<Request>, oks: seq<bool>, limit: int,
                           window: int, s: string)
    requires |requests| == |oks|
  {
    && (requests == [] ==> trackers == trackers0)
    && (Escapes(trackers, s) || Of(histories, s).stamps == Of(histories0, s).stamps + Passes(requests, oks, s))
    && (Free(trackers0, s, limit, window) ==> Free(trackers, s, limit, window) && AllPass(requests, oks, s))
    && (!Escapes(trackers0, s) && OnlyFrom(requests, s) ==> !Escapes(trackers, s))
    && (!Free(trackers0, s, limit, window) && limit <= 0 && OnlyFrom(requests, s) && oks != [] ==> !oks[0])
  }

  ghost predicate Served(rules: seq<Rule>, trackers0: seq<Tracker>, trackers: seq<Tracker>,
                         histories0: map<string, History>, histories: map<string, History>, requests: seq<Request>,
                         oks: seq<bool>, limit: int, window: int)
    requires |requests| == |oks|
  {
    forall s: string | FirstRule(rules, s) < 0 ::
      ServedTo(trackers0, trackers, histories0, histories, requests, oks, limit, window, s)
  }

  // The check of request `k`, if it is from `s` and was refused, came within one window of as many passes as
  // the limit, counting those of before.
  ghost predicate FairAt(before: seq<int>, requests: seq<Request>, oks: seq<bool>, limit: int, window: int, s: string,
                         k: nat) {
    k < |oks| <= |requests| && requests[k].source == s && !oks[k] ==>
      CountIn(before + Passes(requests[..k], oks[..k], s), requests[k].now - window + 1, window) >= limit
  }

  ghost predicate Fair(rules: seq<Rule>, histories0: map<string, History>, requests: seq<Request>, oks: seq<bool>,
                       limit: int, window: int) {
    forall s: string, k: nat | FirstRule(rules, s) < 0 && |s| < 127 ::
      FairAt(Of(histories0, s).stamps, requests, oks, limit, window, s, k)
  }

  lemma FairMore(rules: seq<Rule>, histories0: map<string, History>, requests: seq<Request>, oks: seq<bool>, ok: bool,
                 limit: int, window: int)
    requires Fair(rules, histories0, requests, oks, limit, window) && |oks| < |requests|
    requires var s, now := requests[|oks|].source, requests[|oks|].now;
      !ok && FirstRule(rules, s) < 0 && |s| < 127 ==>
        CountIn(Of(histories0, s).stamps + Passes(requests[..|oks|], oks, s), now - window + 1, window) >= limit
    ensures Fair(rules, histories0, requests, oks + [ok], limit, window)
  {
    forall s: string, k: nat | FirstRule(rules, s) < 0 && |s| < 127
      ensures FairAt(Of(histories0, s).stamps, requests, oks + [ok], limit, window, s, k)
    {
      assert FairAt(Of(histories0, s).stamps, requests, oks, limit, window, s, k);
      if k <= |oks| {
        assert (oks + [ok])[..k] == oks[..k];
        assert k == |oks| ==> oks[..k] == oks;
      }
    }
  }

  lemma OneRequestMore(requests: seq<Request>, oks: seq<bool>, k: nat, ok: bool, s: string)
    requires k < |requests| && |oks| == k
    ensures OnlyFrom(requests[..k + 1], s) ==> OnlyFrom(requests[..k], s) && requests[k].source == s
    ensures AllPass(requests[..k], oks, s) && (requests[k].source == s ==> ok) ==>
              AllPass(requests[..k + 1], oks + [ok], s)
  {
    if OnlyFrom(requests[..k + 1], s) {
      assert requests[..k + 1][k] == requests[k];
      assert forall j | 0 <= j < k :: requests[..k][j] == requests[..k + 1][j];
    }
  }

  // One check more, whether a rule decides it or the tracker.
  lemma ServedMore(trackers0: seq<Tracker>, trackers: seq<Tracker>, trackers': seq<Tracker>,
                   histories0: map<string, History>, histories: map<string, History>, histories': map<string, History>,
                   requests: seq<Request>, oks: seq<bool>, k: nat, ok: bool, limit: int, window: int, s: string)
    requires k < |requests| && |oks| == k && |trackers| <= 1024
    requires ServedTo(trackers0, trackers, histories0, histories, requests[..k], oks, limit, window, s)
    requires Sane(trackers, requests[k].source, requests[k].now)
    requires var source, now := requests[k].source, requests[k].now;
      || (source != s && trackers' == trackers && histories' == histories)
      || Decided(source, ok, now, trackers, trackers', histories, histories', limit, window)
    ensures ServedTo(trackers0, trackers', histories0, histories', requests[..k + 1], oks + [ok], limit, window, s)
  {
    var source, now := requests[k].source, requests[k].now;
    PassesMore(requests, oks, k, ok, s);
    OneRequestMore(requests, oks, k, ok, s);
    if Decided(source, ok, now, trackers, trackers', histories, histories', limit, window) {
      if Free(trackers, s, limit, window) {
        FreeOn(source, now, trackers, trackers', limit, window, s, ok, histories, histories');
      } else if source == s && limit <= 0 {
        NothingPasses(source, now, trackers, trackers', limit, window, ok, histories, histories');
      }
      if Escapes(trackers, s) {
        EscapesOn(source, now, trackers, trackers', limit, window, s, ok, histories, histories');
      } else {
        Further(histories, histories', source, now, ok, s, Of(histories0, s).stamps, Passes(requests[..k], oks, s));
        if source == s {
          LimitedOn(source, now, trackers, trackers', limit, window, ok, histories, histories');
        }
      }
    }
  }

  class Limiter {
    var rules: seq<Rule>
    var trackers: seq<Tracker>
    const rateLimit: int
    const rateWindow: int
    var totalChecked: nat
    var totalBlocked: nat

    // What each source got through its tracker, and the latest time seen.
    ghost var histories: map<string, History>
    ghost var clock: int

    ghost predicate Valid()
      reads this
    {
      Consistent() && AllEarned(trackers, histories, rateLimit) && Marked(trackers, rateLimit)
    }

    ghost predicate Consistent()
      reads this
    {
      && |trackers| <= 1024 && TrackersOk(trackers, clock) && Unique(trackers)
      && HistoriesOk(trackers, histories, rateLimit, rateWindow, clock)
    }

    constructor (rules: seq<Rule>, rateLimit: int, rateWindow: int)
      ensures Valid() && this.rules == rules && this.rateLimit == rateLimit && this.rateWindow == rateWindow
      ensures totalChecked == totalBlocked == 0 && trackers == [] && histories == map[] && clock == 0
    {
      this.rules, this.rateLimit, this.rateWindow := rules, rateLimit, rateWindow;
      trackers, totalChecked, totalBlocked, histories, clock := [], 0, 0, map[], 0;
    }

    // find_tracker
    method FindTracker(source: string) returns (r: int)
      ensures r == First(trackers, source)
    {
      FirstSays(trackers, source);
      for i := 0 to |trackers|
        invariant forall j | 0 <= j < i :: trackers[j].source != source
      {
        if trackers[i].source == source { return i; }
      }
      return -1;
    }

    // find_rule
    method FindRule(source: string) returns (r: int)
      ensures r == FirstRule(rules, source)
    {
      FirstRuleSays(rules, source);
      for i := 0 to |rules|
        invariant forall j | 0 <= j < i :: !(rules[j].active && rules[j].source == source)
      {
        if rules[i].active && rules[i].source == source { return i; }
      }
      return -1;
    }

    // The window of tracker `i` restarts if it has run out.
    method Refresh(i: nat, now: int, ghost source: string)
      requires Consistent() && i < |trackers| && now == clock
      modifies this`trackers
      ensures Consistent() && trackers == old(trackers)[i := Refreshed(old(trackers)[i], rateWindow, now)]
      ensures First(trackers, source) == First(old(trackers), source)
    {
      var t := trackers[i];
      assert TrackerOk(t, clock);
      if now - t.windowStart >= rateWindow {
        var t' := t.(count := 0, windowStart := now, blocked := false);
        Restarted(Of(histories, t.source), t.windowStart, t.count, rateLimit, rateWindow, now);
        Kept(trackers, histories, rateLimit, rateWindow, clock, i, t');
        SameNames(trackers, i, t', source);
        StillUnique(trackers, i, t');
        trackers := trackers[i := t'];
      }
    }

    // One more request in the window of tracker `i`, which the history of its name does not record.
    method Count(i: nat, ghost source: string) returns (ok: bool)
      requires Consistent() && i < |trackers|
      modifies this`trackers, this`totalBlocked
      ensures Consistent() && trackers == old(trackers)[i := Counted(old(trackers)[i], rateLimit)]
      ensures (ok <==> old(trackers)[i].count < rateLimit) && totalBlocked == old(totalBlocked) + if ok then 0 else 1
      ensures First(trackers, source) == First(old(trackers), source)
    {
      var t := trackers[i];
      assert TrackerOk(t, clock);
      ok := t.count + 1 <= rateLimit;
      var t' := t.(count := t.count + 1, blocked := t.blocked || !ok);
      HeldBack(Of(histories, t.source), t.windowStart, t.count, rateLimit, rateWindow);
      Kept(trackers, histories, rateLimit, rateWindow, clock, i, t');
      SameNames(trackers, i, t', source);
      StillUnique(trackers, i, t');
      trackers := trackers[i := t'];
      if !ok {
        totalBlocked := totalBlocked + 1;
      }
    }

    // A check decided by tracker `i`.
    method Admit(i: nat, source: string, now: int) returns (ok: bool)
      requires Consistent() && i < |trackers| && now == clock
      requires |source| < 128 ==> First(trackers, source) == i
      modifies this`trackers, this`totalBlocked, this`histories
      ensures Consistent()
        && trackers == old(trackers)[i := Counted(Refreshed(old(trackers)[i], rateWindow, now), rateLimit)]
      ensures (ok <==> Refreshed(old(trackers)[i], rateWindow, now).count < rateLimit)
        && totalBlocked == old(totalBlocked) + if ok then 0 else 1
      ensures Noted(old(histories), histories, source, now, ok)
    {
      Refresh(i, now, source);
      ghost var h, start, count := Of(histories, source), trackers[i].windowStart, trackers[i].count;
      assert TrackerOk(trackers[i], clock);
      if |source| < 128 {
        HistoryOf(trackers, histories, rateLimit, rateWindow, clock, source, i);
        ok := Count(i, source);
        if ok {
          LetThrough(h, start, count, rateLimit, rateWindow, now);
          OrderMore(h.stamps, now);
          Recorded(trackers, histories, rateLimit, rateWindow, clock, source, i, Let(h, now, start));
          histories := histories[source := Let(h, now, start)];
        }
      } else {
        ok := Count(i, source);
      }
    }

    // A new tracker.
    method Track(source: string, now: int)
      requires Consistent() && now == clock && First(trackers, source) == -1 && |trackers| < 1024
      modifies this`trackers
      ensures Consistent() && trackers == old(trackers) + [Tracker(Stored(source), 0, now, false)]
      ensures |source| < 128 ==> First(trackers, source) == |old(trackers)|
    {
      var t := Tracker(Stored(source), 0, now, false);
      Appended(trackers, histories, rateLimit, rateWindow, clock, t);
      MoreNames(trackers, t, source);
      MoreUnique(trackers, t);
      trackers := trackers + [t];
    }

    // check_source at time `now`.
    method Check(source: string, now: int) returns (ok: bool)
      requires Valid() && now >= clock
      modifies this
      ensures Valid() && clock == now && rules == old(rules)
      ensures totalChecked == old(totalChecked) + 1 && totalBlocked == old(totalBlocked) + if ok then 0 else 1
      ensures var r := FirstRule(rules, source);
        if r >= 0 then (ok <==> !rules[r].deny) && trackers == old(trackers) && histories == old(histories)
        else Decided(source, ok, now, old(trackers), trackers, old(histories), histories, rateLimit, rateWindow)
      ensures !ok && FirstRule(rules, source) < 0 && |source| < 127 ==>
                CountIn(Of(histories, source).stamps, now - rateWindow + 1, rateWindow) >= rateLimit
    {
      AllSane(source, now);
      Later(trackers, histories, rateLimit, rateWindow, clock, now);
      clock := now;
      totalChecked := totalChecked + 1;
      var rule := FindRule(source);
      if rule >= 0 {
        if rules[rule].deny {
          totalBlocked := totalBlocked + 1;
          return false;
        }
        return true;
      }
      var t := FindTracker(source);
      if t < 0 {
        if |trackers| >= 1024 { return true; }
        t := |trackers|;
        Track(source, now);
      } else {
        FirstSays(trackers, source);
        LongIsNotFound(source);
      }
      ok := Admit(t, source, now);
      Decision(source, ok, now, old(trackers), old(histories));
    }

    // The tracker has decided as it had to.
    lemma Decision(source: string, ok: bool, now: int, trackers0: seq<Tracker>, histories0: map<string, History>)
      requires Consistent() && now == clock && |trackers0| <= 1024 && Sane(trackers0, source, now)
      requires AllEarned(trackers0, histories0, rateLimit) && Marked(trackers0, rateLimit)
      requires Decided(source, ok, now, trackers0, trackers, histories0, histories, rateLimit, rateWindow)
      ensures Valid()
      ensures !ok && |source| < 127 ==>
                CountIn(Of(histories, source).stamps, now - rateWindow + 1, rateWindow) >= rateLimit
    {
      forall s: string ensures Earned(trackers, histories, rateLimit, s) {
        EarnedOn(source, ok, now, trackers0, trackers, histories0, histories, rateLimit, rateWindow, s);
      }
      if !ok && |source| < 127 {
        assert Tracked(trackers, histories, rateLimit, rateWindow, clock, source);
        assert Earned(trackers0, histories0, rateLimit, source);
        HeldBackFairly(source, now, trackers0, trackers, histories0, histories, rateLimit, rateWindow);
      }
    }

    lemma AllSane(source: string, now: int)
      requires Valid() && now >= clock
      ensures Sane(trackers, source, now)
    {
      var r := First(trackers, source);
      LongIsNotFound(source);
      if r >= 0 {
        assert TrackerOk(trackers[r], clock);
      }
    }

    lemma LongIsNotFound(source: string)
      requires Valid()
      ensures |source| >= 128 ==> First(trackers, source) == -1
    {
      forall i | 0 <= i < |trackers| ensures |trackers[i].source| < 128 {
        assert TrackerOk(trackers[i], clock);
      }
      if |source| >= 128 {
        LongNameNotFound(trackers, source);
      }
    }

    // The rate limit: whatever a source was let through by its tracker, any half-open interval of one
    // window contains at most twice the limit of it.
    lemma RateBound(source: string, from: int)
      requires Valid() && rateLimit >= 0 && |source| < 128
      ensures CountIn(Of(histories, source).stamps, from, rateWindow) <= 2 * rateLimit
    {
      var r, h := First(trackers, source), Of(histories, source);
      assert Tracked(trackers, histories, rateLimit, rateWindow, clock, source);
      if CountIn(h.stamps, from, rateWindow) > 0 {
        var i, j := Consecutive(h.stamps, clock, from, rateWindow);
        AtMostTwice(h, trackers[r].windowStart, trackers[r].count, rateLimit, rateWindow, i, j, from, clock);
      }
    }

    // One of a series of checks.
    method ServeOne(requests: seq<Request>, oks: seq<bool>, ghost trackers0: seq<Tracker>,
                    ghost histories0: map<string, History>)
      returns (ok: bool)
      requires Valid() && |oks| < |requests| && requests[|oks|].now >= clock
      requires Served(rules, trackers0, trackers, histories0, histories, requests[..|oks|], oks, rateLimit, rateWindow)
      requires Fair(rules, histories0, requests, oks, rateLimit, rateWindow)
      modifies this
      ensures Valid() && clock == requests[|oks|].now && rules == old(rules)
      ensures totalChecked == old(totalChecked) + 1 && totalBlocked == old(totalBlocked) + if ok then 0 else 1
      ensures Served(rules, trackers0, trackers, histories0, histories, requests[..|oks| + 1], oks + [ok], rateLimit,
                     rateWindow)
      ensures Fair(rules, histories0, requests, oks + [ok], rateLimit, rateWindow)
    {
      var source, now, k := requests[|oks|].source, requests[|oks|].now, |oks|;
      AllSane(source, now);
      ok := Check(source, now);
      FairMore(rules, histories0, requests, oks, ok, rateLimit, rateWindow);
      forall s: string | FirstRule(rules, s) < 0
        ensures ServedTo(trackers0, trackers, histories0, histories, requests[..k + 1], oks + [ok], rateLimit,
                         rateWindow, s)
      {
        ServedMore(trackers0, old(trackers), trackers, histories0, old(histories), histories, requests, oks, k, ok,
                   rateLimit, rateWindow, s);
      }
    }

    lemma ServedNothing(requests: seq<Request>)
      ensures Served(rules, trackers, trackers, histories, histories, requests[..0], [], rateLimit, rateWindow)
    {
      forall s: string ensures Of(histories, s).stamps + [] == Of(histories, s).stamps {
      }
    }

    // A series of checks. A source without a rule that is free at the start is never held back; one
    // that does not escape even at the end gets at most twice the limit through in any half-open
    // interval of one window; and none is held back before it got the limit through in the last window.
    method Serve(requests: seq<Request>) returns (oks: seq<bool>)
      requires Valid() && (requests != [] ==> requests[0].now >= clock)
      requires forall k | 0 < k < |requests| :: requests[k - 1].now <= requests[k].now
      modifies this
      ensures Valid() && rules == old(rules) && |oks| == |requests| && Allowed(oks) <= |oks|
      ensures totalChecked == old(totalChecked) + |requests|
      ensures totalBlocked == old(totalBlocked) + |requests| - Allowed(oks)
      ensures Served(rules, old(trackers), trackers, old(histories), histories, requests, oks, rateLimit, rateWindow)
      ensures forall s: string, from: int | rateLimit >= 0 && FirstRule(rules, s) < 0 && !Escapes(trackers, s) ::
                CountIn(Passes(requests, oks, s), from, rateWindow) <= 2 * rateLimit
      ensures Fair(rules, old(histories), requests, oks, rateLimit, rateWindow)
    {
      oks := [];
      ServedNothing(requests);
      for k := 0 to |requests|
        invariant Valid() && rules == old(rules) && |oks| == k && (k < |requests| ==> requests[k].now >= clock)
        invariant Allowed(oks) <= |oks|
        invariant totalChecked == old(totalChecked) + k && totalBlocked == old(totalBlocked) + k - Allowed(oks)
        invariant Served(rules, old(trackers), trackers, old(histories), histories, requests[..k], oks, rateLimit,
                         rateWindow)
        invariant Fair(rules, old(histories), requests, oks, rateLimit, rateWindow)
      {
        var ok := ServeOne(requests, oks, old(trackers), old(histories));
        assert (oks + [ok])[..k] == oks;
        oks := oks + [ok];
      }
      assert requests[..|requests|] == requests;
      forall s: string, from: int | rateLimit >= 0 && FirstRule(rules, s) < 0 && !Escapes(trackers, s)
        ensures CountIn(Passes(requests, oks, s), from, rateWindow) <= 2 * rateLimit
      {
        PassesBound(requests, oks, old(trackers), old(histories), s, from);
      }
    }

    lemma PassesBound(requests: seq<Request>, oks: seq<bool>, trackers0: seq<Tracker>,
                      histories0: map<string, History>, s: string, from: int)
      requires Valid() && rateLimit >= 0 && !Escapes(trackers, s) && |requests| == |oks|
      requires ServedTo(trackers0, trackers, histories0, histories, requests, oks, rateLimit, rateWindow, s)
      ensures CountIn(Passes(requests, oks, s), from, rateWindow) <= 2 * rateLimit
    {
      RateBound(s, from);
      CountMore(Of(histories0, s).stamps, Passes(requests, oks, s), from, rateWindow);
    }

    // Names below 127 characters have at most one tracker.
    lemma OneTracker(i: nat, j: nat)
      requires Valid() && i < j < |trackers| && trackers[i].source == trackers[j].source
      ensures |trackers[i].source| == 127
    {
      assert TrackerOk(trackers[i], clock);
      FirstSays(trackers, trackers[i].source);
      assert UniqueAt(trackers, i) && UniqueAt(trackers, j);
    }
  }

  // Some checks at one time, more than twice the limit, all get through if and only if the source is
  // free.
  method Flood(l: Limiter, source: string, now: int, n: nat) returns (oks: seq<bool>)
    requires l.Valid() && now >= l.clock && FirstRule(l.rules, source) < 0 && n > 0 && n > 2 * l.rateLimit
    modifies l
    ensures l.Valid() && l.totalChecked == old(l.totalChecked) + n
    ensures l.totalBlocked == old(l.totalBlocked) <==> Free(old(l.trackers), source, l.rateLimit, l.rateWindow)
  {
    var requests := seq(n, _ => Request(source, now));
    oks := l.Serve(requests);
    assert OnlyFrom(requests, source);
    assert ServedTo(old(l.trackers), l.trackers, old(l.histories), l.histories, requests, oks, l.rateLimit,
                    l.rateWindow, source);
    if Free(old(l.trackers), source, l.rateLimit, l.rateWindow) {
      AllAllowed(oks);
    } else if l.rateLimit <= 0 {
      NotAllAllowed(oks, 0);
    } else {
      AllPasses(requests, oks, source, now, l.rateWindow);
      assert CountIn(Passes(requests, oks, source), now, l.rateWindow) <= 2 * l.rateLimit;
    }
  }

  // A name of 127 characters can be held back without having got through at all: longer names that
  // start with it are counted by the tracker it finds.
  method CutNamesShare(l: Limiter, long: string, now: int) returns (first: bool, second: bool)
    requires l.Valid() && l.trackers == [] && now >= l.clock && l.rateLimit == 1 && l.rateWindow >= 1
    requires |long| == 128 && FirstRule(l.rules, long) < 0 && FirstRule(l.rules, long[..127]) < 0
    modifies l
    ensures first && !second && Of(l.histories, long[..127]) == NOTHING
  {
    assert Tracked(l.trackers, l.histories, l.rateLimit, l.rateWindow, l.clock, long[..127]);
    first := l.Check(long, now);
    second := l.Check(long[..127], now);
  }

  lemma {:induction false} NotAllAllowed(oks: seq<bool>, k: nat)
    requires k < |oks| && !oks[k]
    ensures Allowed(oks) < |oks|
  {
    var last := |oks| - 1;
    if k < last {
      NotAllAllowed(oks[..last], k);
    } else {
      AtMostAllowed(oks[..last]);
    }
  }

  lemma {:induction false} AtMostAllowed(oks: seq<bool>)
    ensures Allowed(oks) <= |oks|
  {
    if oks != [] { AtMostAllowed(oks[..|oks| - 1]); }
  }

  lemma {:induction false} AllAllowed(oks: seq<bool>)
    requires forall k | 0 <= k < |oks| :: oks[k]
    ensures Allowed(oks) == |oks|
  {
    if oks != [] { AllAllowed(oks[..|oks| - 1]); }
  }

  lemma {:induction false} AllPasses(requests: seq<Request>, oks: seq<bool>, s: string, now: int, window: int)
    requires |requests| == |oks| && window >= 1 && forall k | 0 <= k < |requests| :: requests[k] == Request(s, now)
    ensures CountIn(Passes(requests, oks, s), now, window) == Allowed(oks)
  {
    if requests != [] {
      var last := |requests| - 1;
      var before := Passes(requests[..last], oks[..last], s);
      AllPasses(requests[..last], oks[..last], s, now, window);
      if oks[last] {
        assert (before + [now])[..|before|] == before;
      } else {
        assert before + [] == before;
      }
    }
  }
}
