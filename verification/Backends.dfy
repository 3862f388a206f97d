/**
 The poll and the select backend as two encodings of one interest map.

 Both are driven by calls that say which events of a descriptor were wanted and which are now.
 */
module Backends {
  import opened ArraySize
  import opened Epoll
  import opened Options

  // ---------- poll ----------

  datatype Pollfd = Pollfd(fd: nat, events: Events)

  // The bits poll reports: POLLIN, POLLOUT, POLLERR, POLLHUP and POLLNVAL.
  datatype Revents = Revents(pin: bool, pout: bool, err: bool, hup: bool, nval: bool)

  const QUIET := Revents(false, false, false, false, false)

  // What the scan does about a descriptor: pass events on, or give it up as invalid.
  datatype Found = Found(fd: nat, got: Events) | Invalid(fd: nat)

  function Judge(fd: nat, r: Revents): Found {
    if r.nval then Invalid(fd) else Found(fd, Events(r.pin || r.err || r.hup, r.pout || r.err || r.hup))
  }

  // The first `n` descriptors that report something, in order.
  function Reports(polls: seq<Pollfd>, revents: seq<Revents>, n: nat): seq<Found>
    requires n <= |polls| == |revents|
  {
    if n == 0 then []
    else
      Reports(polls, revents, n - 1)
      + if revents[n - 1] == QUIET then [] else [Judge(polls[n - 1].fd, revents[n - 1])]
  }

  // How many descriptors report something.
  function Busy(revents: seq<Revents>): nat {
    if revents == [] then 0 else Busy(revents[..|revents| - 1]) + if revents[|revents| - 1] == QUIET then 0 else 1
  }

  lemma {:induction false} BusyGrows(revents: seq<Revents>, n: nat)
    requires n <= |revents|
    ensures Busy(revents[..n]) <= Busy(revents)
  {
    if n == |revents| {
      assert revents[..n] == revents;
    } else {
      var last := |revents| - 1;
      assert revents[..last][..n] == revents[..n];
      BusyGrows(revents[..last], n);
    }
  }

  lemma {:induction false} NothingMore(polls: seq<Pollfd>, revents: seq<Revents>, n: nat)
    requires n <= |polls| == |revents| && Busy(revents[..n]) == Busy(revents)
    ensures Reports(polls, revents, |polls|) == Reports(polls, revents, n)
    decreases |polls| - n
  {
    if n < |polls| {
      BusyGrows(revents, n + 1);
      assert revents[..n + 1][..n] == revents[..n];
      NothingMore(polls, revents, n + 1);
    }
  }

  predicate PollOk(polls: seq<Pollfd>, idxs: seq<int>, i: int) {
    0 <= i < |polls| ==> polls[i].fd < |idxs| && idxs[polls[i].fd] == i && polls[i].events != NONE
  }

  predicate IndexOk(polls: seq<Pollfd>, idxs: seq<int>, fd: int) {
    0 <= fd < |idxs| && idxs[fd] != -1 ==> 0 <= idxs[fd] < |polls| && polls[idxs[fd]].fd == fd
  }

  // `polls` and `idxs` are inverse to each other, and no entry asks for nothing.
  ghost predicate Inverse(polls: seq<Pollfd>, idxs: seq<int>) {
    && (forall i: int :: PollOk(polls, idxs, i))
    && (forall fd: int :: IndexOk(polls, idxs, fd))
  }

  // What is wanted of `fd`.
  function Asked(polls: seq<Pollfd>, idxs: seq<int>, fd: nat): Events {
    if fd < |idxs| && 0 <= idxs[fd] < |polls| then polls[idxs[fd]].events else NONE
  }

  // From one encoding to another: the map changes at `fd` and nowhere else.
  ghost predicate Updated(polls: seq<Pollfd>, idxs: seq<int>, polls': seq<Pollfd>, idxs': seq<int>, fd: nat,
                          nev: Events) {
    && Inverse(polls', idxs')
    && forall g: nat :: Asked(polls', idxs', g) == if g == fd then nev else Asked(polls, idxs, g)
  }

  lemma Added(polls: seq<Pollfd>, idxs: seq<int>, fd: nat, nev: Events)
    requires Inverse(polls, idxs) && fd < |idxs| && idxs[fd] < 0 && nev != NONE
    ensures Updated(polls, idxs, polls + [Pollfd(fd, nev)], idxs[fd := |polls|], fd, nev)
  {
    var polls', idxs' := polls + [Pollfd(fd, nev)], idxs[fd := |polls|];
    forall i: int ensures PollOk(polls', idxs', i) {
      assert PollOk(polls, idxs, i);
    }
    forall g: int ensures IndexOk(polls', idxs', g) {
      assert IndexOk(polls, idxs, g);
    }
    forall g: nat ensures Asked(polls', idxs', g) == if g == fd then nev else Asked(polls, idxs, g) {
      assert IndexOk(polls, idxs, g);
    }
  }

  lemma Replaced(polls: seq<Pollfd>, idxs: seq<int>, fd: nat, nev: Events)
    requires Inverse(polls, idxs) && fd < |idxs| && 0 <= idxs[fd] < |polls| && nev != NONE
    ensures Updated(polls, idxs, polls[idxs[fd] := Pollfd(fd, nev)], idxs, fd, nev)
  {
    assert IndexOk(polls, idxs, fd);
    var polls' := polls[idxs[fd] := Pollfd(fd, nev)];
    forall i: int ensures PollOk(polls', idxs, i) {
      assert PollOk(polls, idxs, i);
    }
    forall g: int ensures IndexOk(polls', idxs, g) {
      assert IndexOk(polls, idxs, g);
    }
    forall g: nat ensures Asked(polls', idxs, g) == if g == fd then nev else Asked(polls, idxs, g) {
      assert IndexOk(polls, idxs, g);
    }
  }

  // The last entry moves to the place of the removed one, if that was another.
  lemma Removed(polls: seq<Pollfd>, idxs: seq<int>, fd: nat, polls': seq<Pollfd>, idxs': seq<int>)
    requires Inverse(polls, idxs) && fd < |idxs| && 0 <= idxs[fd] < |polls|
    requires var last, idx := |polls| - 1, idxs[fd];
      if idx < last then polls[last].fd < |idxs| && polls' == polls[idx := polls[last]][..last]
        && idxs' == idxs[fd := -1][polls[last].fd := idx]
      else polls' == polls[..last] && idxs' == idxs[fd := -1]
    ensures Updated(polls, idxs, polls', idxs', fd, NONE)
  {
    var last, idx := |polls| - 1, idxs[fd];
    assert IndexOk(polls, idxs, fd) && PollOk(polls, idxs, last) && PollOk(polls, idxs, idx);
    forall i: int ensures PollOk(polls', idxs', i) {
      assert PollOk(polls, idxs, i);
    }
    forall g: int ensures IndexOk(polls', idxs', g) {
      assert IndexOk(polls, idxs, g);
    }
    forall g: nat ensures Asked(polls', idxs', g) == if g == fd then NONE else Asked(polls, idxs, g) {
      assert IndexOk(polls, idxs, g);
    }
  }

  lemma Lengthened(polls: seq<Pollfd>, idxs: seq<int>, n: nat)
    requires Inverse(polls, idxs)
    ensures Inverse(polls, idxs + seq(n, _ => -1))
    ensures forall g: nat :: Asked(polls, idxs + seq(n, _ => -1), g) == Asked(polls, idxs, g)
  {
    var idxs' := idxs + seq(n, _ => -1);
    forall i: int ensures PollOk(polls, idxs', i) {
      assert PollOk(polls, idxs, i);
    }
    forall g: int ensures IndexOk(polls, idxs', g) {
      assert IndexOk(polls, idxs, g);
    }
  }

  // What is found on a descriptor with the bits `r`: errors and hang-ups count as both events.
  ghost predicate Says(f: Found, fd: nat, r: Revents) {
    && f.fd == fd && (r.pin || r.pout || r.err || r.hup || r.nval) && (f.Invalid? <==> r.nval)
    && (f.Found? ==> (f.got.read <==> r.pin || r.err || r.hup) && (f.got.write <==> r.pout || r.err || r.hup))
  }

  lemma JudgeSays(f: Found, fd: nat, r: Revents)
    ensures Says(f, fd, r) <==> r != QUIET && f == Judge(fd, r)
  {
  }

  lemma {:induction false} ReportsSays(polls: seq<Pollfd>, revents: seq<Revents>, n: nat, f: Found)
    requires n <= |polls| == |revents|
    ensures f in Reports(polls, revents, n) <==> exists i :: 0 <= i < n && Says(f, polls[i].fd, revents[i])
  {
    if n > 0 {
      ReportsSays(polls, revents, n - 1, f);
      JudgeSays(f, polls[n - 1].fd, revents[n - 1]);
    }
  }

  // Every descriptor that reports something is found, and none is found twice.
  lemma {:induction false} FoundOnce(polls: seq<Pollfd>, idxs: seq<int>, revents: seq<Revents>, n: nat, j: nat, k: nat)
    requires Inverse(polls, idxs) && n <= |polls| == |revents| && j < k < |Reports(polls, revents, n)|
    ensures Reports(polls, revents, n)[j].fd != Reports(polls, revents, n)[k].fd
  {
    var before := Reports(polls, revents, n - 1);
    if k < |before| {
      FoundOnce(polls, idxs, revents, n - 1, j, k);
    } else {
      ReportsSays(polls, revents, n - 1, before[j]);
      var i :| 0 <= i < n - 1 && Says(before[j], polls[i].fd, revents[i]);
      assert PollOk(polls, idxs, i) && PollOk(polls, idxs, n - 1) && polls[i].fd != polls[n - 1].fd;
      assert Reports(polls, revents, n)[k] == Judge(polls[n - 1].fd, revents[n - 1]);
    }
  }

  class PollSet {
    var polls: seq<Pollfd>
    var pollidxs: seq<int>

    ghost predicate Valid()
      reads this
    {
      Inverse(polls, pollidxs)
    }

    ghost function Interest(fd: nat): Events
      reads this
    {
      Asked(polls, pollidxs, fd)
    }

    constructor ()
      ensures Valid() && forall fd: nat :: Interest(fd) == NONE
    {
      polls, pollidxs := [], [];
    }

    method NeedSize(fd: nat)
      requires Valid()
      modifies this`pollidxs
      ensures Valid() && fd < |pollidxs| && forall g: nat :: Interest(g) == old(Interest(g))
    {
      if fd >= |pollidxs| {
        var size := NextSize(4, |pollidxs|, fd + 1);
        Lengthened(polls, pollidxs, size - |pollidxs|);
        pollidxs := pollidxs + seq(size - |pollidxs|, _ => -1);
      }
    }

    // poll_modify: the map changes at `fd` and nowhere else.
    method Modify(fd: nat, oev: Events, nev: Events)
      requires Valid() && oev == Interest(fd)
      modifies this
      ensures Valid() && forall g: nat :: Interest(g) == if g == fd then nev else old(Interest(g))
    {
      if oev == nev { return; }
      NeedSize(fd);
      ghost var polls0, idxs0 := polls, pollidxs;
      assert Asked(polls0, idxs0, fd) == oev && IndexOk(polls0, idxs0, fd);
      var idx := pollidxs[fd];
      if idx < 0 {
        idx := |polls|;
        pollidxs := pollidxs[fd := idx];
        polls := polls + [Pollfd(fd, nev)];
        Added(polls0, idxs0, fd, nev);
      } else if nev != NONE {
        polls := polls[idx := Pollfd(fd, nev)];
        Replaced(polls0, idxs0, fd, nev);
      } else {
        pollidxs := pollidxs[fd := -1];
        var pollcnt := |polls| - 1;
        assert PollOk(polls0, idxs0, pollcnt);
        if idx < pollcnt {
          polls := polls[idx := polls[pollcnt]];
          pollidxs := pollidxs[polls[idx].fd := idx];
        }
        polls := polls[..pollcnt];
        Removed(polls0, idxs0, fd, polls, pollidxs);
      }
    }

    // The scan of poll_poll over what the kernel reports, which is `res` descriptors.
    method Scan(revents: seq<Revents>, res: nat) returns (out: seq<Found>)
      requires |revents| == |polls| && res == Busy(revents)
      ensures out == Reports(polls, revents, |polls|)
    {
      out := [];
      var p, left := 0, res;
      assert revents[..0] == [] && revents[..|polls|] == revents;
      while left > 0
        invariant 0 <= p <= |polls| && out == Reports(polls, revents, p) && left == res - Busy(revents[..p])
        decreases |polls| - p
      {
        assert revents[..p + 1][..p] == revents[..p];
        if revents[p] != QUIET {
          left := left - 1;
          out := out + [Judge(polls[p].fd, revents[p])];
        }
        p := p + 1;
      }
      NothingMore(polls, revents, p);
    }
  }

  // ---------- select ----------

  // A word of a bit vector, as the set of its one bits.
  type Word = set<nat>

  function Bit(vec: seq<Word>, fd: nat): bool {
    fd / 64 < |vec| && fd % 64 in vec[fd / 64]
  }

  lemma SplitFd(word: nat, bit: nat)
    requires bit < 64
    ensures (64 * word + bit) / 64 == word && (64 * word + bit) % 64 == bit
  {
  }

  // Ready descriptors at or above `from`, highest first and each once, with what is ready.
  ghost predicate Scanned(out: seq<Found>, ro: seq<Word>, wo: seq<Word>, from: int) {
    && (forall k | 0 <= k < |out| ::
          out[k].Found? && from <= out[k].fd && out[k].got == Events(Bit(ro, out[k].fd), Bit(wo, out[k].fd)) != NONE)
    && (forall j, k | 0 <= j < k < |out| :: out[j].fd > out[k].fd)
    && (forall fd: nat | from <= fd && (Bit(ro, fd) || Bit(wo, fd)) ::
          Found(fd, Events(Bit(ro, fd), Bit(wo, fd))) in out)
  }

  lemma EmptyWord(out: seq<Found>, ro: seq<Word>, wo: seq<Word>, word: nat)
    requires word < |ro| == |wo| && ro[word] == {} && wo[word] == {} && Scanned(out, ro, wo, 64 * word + 64)
    ensures Scanned(out, ro, wo, 64 * word)
  {
  }

  class SelectSet {
    var vecRi: seq<Word>
    var vecWi: seq<Word>

    ghost predicate Valid()
      reads this
    {
      |vecRi| == |vecWi|
    }

    ghost function Interest(fd: nat): Events
      reads this
    {
      Events(Bit(vecRi, fd), Bit(vecWi, fd))
    }

    constructor ()
      ensures Valid() && forall fd: nat :: Interest(fd) == NONE
    {
      vecRi, vecWi := [], [];
    }

    method NeedWord(word: nat)
      requires Valid()
      modifies this
      ensures Valid() && word < |vecRi| && forall g: nat :: Interest(g) == old(Interest(g))
    {
      while |vecRi| <= word
        invariant Valid() && forall g: nat :: Interest(g) == old(Interest(g))
        decreases word + 1 - |vecRi|
      {
        vecRi, vecWi := vecRi + [{}], vecWi + [{}];
      }
    }

    // select_modify: the map changes at `fd` and nowhere else.
    method Modify(fd: nat, oev: Events, nev: Events)
      requires Valid() && oev == Interest(fd)
      modifies this
      ensures Valid() && forall g: nat :: Interest(g) == if g == fd then nev else old(Interest(g))
    {
      if oev == nev { return; }
      var word, mask := fd / 64, {fd % 64};
      NeedWord(word);
      vecRi := vecRi[word := vecRi[word] + mask];
      if !nev.read {
        vecRi := vecRi[word := vecRi[word] - mask];
      }
      vecWi := vecWi[word := vecWi[word] + mask];
      if !nev.write {
        vecWi := vecWi[word := vecWi[word] - mask];
      }
    }

    // One word of the scan, if it has any bit set.
    method ScanWord(vecRo: seq<Word>, vecWo: seq<Word>, word: nat, found: seq<Found>) returns (out: seq<Found>)
      requires word < |vecRo| == |vecWo| && Scanned(found, vecRo, vecWo, 64 * word + 64)
      ensures Scanned(out, vecRo, vecWo, 64 * word)
    {
      out := found;
      var bit := 64;
      while bit > 0
        invariant 0 <= bit <= 64 && Scanned(out, vecRo, vecWo, 64 * word + bit)
      {
        bit := bit - 1;
        var events := Events(bit in vecRo[word], bit in vecWo[word]);
        SplitFd(word, bit);
        if events != NONE {
          out := out + [Found(64 * word + bit, events)];
        }
      }
    }

    // The scan of select_poll over the vectors the kernel returns.
    method Scan(vecRo: seq<Word>, vecWo: seq<Word>) returns (out: seq<Found>)
      requires |vecRo| == |vecWo| == |vecRi|
      ensures Scanned(out, vecRo, vecWo, 0)
    {
      out := [];
      var word := |vecRi|;
      while word > 0
        invariant 0 <= word <= |vecRi| && Scanned(out, vecRo, vecWo, 64 * word)
      {
        word := word - 1;
        if vecRo[word] != {} || vecWo[word] != {} {
          out := ScanWord(vecRo, vecWo, word, out);
        } else {
          EmptyWord(out, vecRo, vecWo, word);
        }
      }
    }
  }

  // ---------- one pass of the loop ----------

  // The backends follow a pass over the change list: if they hold the events of every descriptor
  // before, they hold them after.
  method Follow(poll: PollSet, select: SelectSet, calls: seq<Call>, ghost anfds: seq<Anfd>, ghost changes: seq<nat>)
    requires poll.Valid() && select.Valid() && Once(changes) && calls == PassCalls(anfds, changes)
    requires forall g: nat :: poll.Interest(g) == select.Interest(g) == At(anfds, g).events
    modifies poll, select
    ensures poll.Valid() && select.Valid()
    ensures forall g: nat ::
              poll.Interest(g) == select.Interest(g)
              == if g in changes then Union(At(anfds, g).head) else At(anfds, g).events
  {
    for k := 0 to |calls|
      invariant poll.Valid() && select.Valid()
      invariant forall g: nat :: poll.Interest(g) == select.Interest(g) == After(calls[..k], g, At(anfds, g).events)
    {
      var c := calls[k];
      PassChained(anfds, changes, k);
      assert calls[..k + 1][..k] == calls[..k];
      poll.Modify(c.fd, c.oev, c.nev);
      select.Modify(c.fd, c.oev, c.nev);
    }
    assert calls[..|calls|] == calls;
    forall g: nat
      ensures After(calls, g, At(anfds, g).events)
           == if g in changes then Union(At(anfds, g).head) else At(anfds, g).events
    {
      PassTracks(anfds, changes, g);
    }
  }

  // What happens to a loop: files are opened and closed, watchers started and stopped, and passes run.
  datatype Action =
    | Opened(fd: nat, file: File)
    | Closed(fd: nat, kept: bool)
    | Started(w: Io, fdset: bool)
    | Stopped(w: Io)
    | Pass(refused: set<nat>)

  // Both backends hold the events of every descriptor.
  ghost predicate InStep(loop: EpollLoop, poll: PollSet, select: SelectSet)
    reads loop, poll, select
  {
    && loop.Valid() && poll.Valid() && select.Valid()
    && forall g: nat :: poll.Interest(g) == select.Interest(g) == At(loop.anfds, g).events
  }

  // One action; opening an open number or closing a closed one does nothing. Only a pass concerns the
  // backends.
  method Act(loop: EpollLoop, poll: PollSet, select: SelectSet, action: Action)
    requires InStep(loop, poll, select)
    modifies loop, poll, select
    ensures InStep(loop, poll, select)
    ensures action.Pass? ==>
              forall g: nat | g !in loop.fdchanges :: At(loop.anfds, g).events == Union(At(loop.anfds, g).head)
  {
    match action {
      case Opened(fd, file) =>
        if Under(loop.kernel, fd).file == None { loop.Open(fd, file); }
      case Closed(fd, kept) =>
        if Under(loop.kernel, fd).file.Some? { loop.Close(fd, kept); }
      case Started(w, fdset) => loop.Start(w, fdset);
      case Stopped(w) => loop.Stop(w);
      case Pass(refused) => RunPass(loop, poll, select, refused);
    }
  }

  method RunPass(loop: EpollLoop, poll: PollSet, select: SelectSet, refused: set<nat>)
    requires InStep(loop, poll, select)
    modifies loop, poll, select
    ensures InStep(loop, poll, select)
    ensures forall g: nat | g !in loop.fdchanges :: At(loop.anfds, g).events == Union(At(loop.anfds, g).head)
  {
    ghost var anfds, changes := loop.anfds, loop.fdchanges;
    var done := |loop.calls|;
    PassEvents(loop, refused);
    Follow(poll, select, loop.calls[done..], anfds, changes);
  }

  // The events a pass leaves.
  method PassEvents(loop: EpollLoop, refused: set<nat>)
    requires loop.Valid()
    modifies loop
    ensures loop.Valid() && Once(old(loop.fdchanges)) && |loop.calls| >= |old(loop.calls)|
    ensures loop.calls[|old(loop.calls)|..] == PassCalls(old(loop.anfds), old(loop.fdchanges))
    ensures forall g: nat ::
              At(loop.anfds, g).events
              == if g in old(loop.fdchanges) then old(Union(At(loop.anfds, g).head)) else old(At(loop.anfds, g).events)
    ensures forall g: nat | g !in loop.fdchanges :: At(loop.anfds, g).events == Union(At(loop.anfds, g).head)
  {
    ghost var anfds, changes, kernel, standing := loop.anfds, loop.fdchanges, loop.kernel, loop.standing;
    loop.Reify(refused);
    forall g: nat
      ensures At(loop.anfds, g).events == if g in changes then Union(At(anfds, g).head) else At(anfds, g).events
    {
      assert PassedAt(At(anfds, g), At(loop.anfds, g), Under(kernel, g), Under(loop.kernel, g), Stand(standing, g),
                      Stand(loop.standing, g), g in changes, g in loop.fdchanges, g in refused, loop.notes);
    }
    forall g: nat | g !in loop.fdchanges ensures At(loop.anfds, g).events == Union(At(loop.anfds, g).head) {
      assert NumberOk(loop.anfds, loop.kernel, loop.standing, loop.eperms, g);
    }
  }

  // Any series of actions from the start: the poll arrays and the select vectors encode the same map,
  // which is what the watchers of every descriptor want, as of the last pass.
  method Run(actions: seq<Action>) returns (loop: EpollLoop, poll: PollSet, select: SelectSet)
    ensures InStep(loop, poll, select)
    ensures actions != [] && actions[|actions| - 1].Pass? ==>
              forall g: nat | g !in loop.fdchanges ::
                poll.Interest(g) == select.Interest(g) == Union(At(loop.anfds, g).head)
  {
    loop := new EpollLoop();
    poll := new PollSet();
    select := new SelectSet();
    for k := 0 to |actions|
      invariant InStep(loop, poll, select)
      invariant fresh(loop) && fresh(poll) && fresh(select)
      invariant k > 0 && actions[k - 1].Pass? ==>
                  forall g: nat | g !in loop.fdchanges :: At(loop.anfds, g).events == Union(At(loop.anfds, g).head)
    {
      Act(loop, poll, select, actions[k]);
    }
  }
}
