/**
 The descriptor table, its change list and the epoll backend, against a model of the kernel.

 The kernel keeps one registration per pair of descriptor number and open file. Closing a number
 drops the registration of its file only if nothing else refers to that file, so registrations of
 files a number meant earlier may live on and report events under that number.

 Nothing is asked of the program beyond what the kernel itself enforces. What is proved is when a
 pass leaves a number in line with the kernel (`Settles`), what that means for its events, and a
 rule a program can keep to (`Proper`) under which it always does.
 */
module Epoll {
  import opened ArraySize
  import opened Options

  // ---------- descriptors, as the loop and as the kernel see them ----------

  datatype Events = Events(read: bool, write: bool)

  const NONE := Events(false, false)

  function Or(a: Events, b: Events): Events {
    Events(a.read || b.read, a.write || b.write)
  }

  function And(a: Events, b: Events): Events {
    Events(a.read && b.read, a.write && b.write)
  }

  // An I/O watcher. Its descriptor and its events stay constant while it is active.
  datatype Io = Io(id: nat, fd: nat, events: Events)

  // What the loop remembers of the kernel's mask: a mask, where NONE means unknown, or that the
  // kernel refuses to poll the file.
  datatype Emask = Known(mask: Events) | Eperm

  // EV_ANFD_REIFY and EV__IOFDSET.
  datatype Flags = Flags(changed: bool, fdset: bool)

  const CLEAN := Flags(false, false)

  datatype Anfd = Anfd(head: seq<Io>, events: Events, reify: Flags, emask: Emask, egen: nat)

  const ZERO := Anfd([], NONE, CLEAN, Known(NONE), 0)

  function Union(head: seq<Io>): Events {
    if head == [] then NONE else Or(Union(head[..|head| - 1]), head[|head| - 1].events)
  }

  // Some watcher wants the event, and only then it is asked for.
  ghost predicate JustWanted(events: Events, head: seq<Io>) {
    && (events.read <==> exists w :: w in head && w.events.read)
    && (events.write <==> exists w :: w in head && w.events.write)
  }

  lemma {:induction false} UnionIsWanted(head: seq<Io>)
    ensures JustWanted(Union(head), head)
  {
    if head != [] {
      var last := |head| - 1;
      assert head == head[..last] + [head[last]];
      UnionIsWanted(head[..last]);
    }
  }

  // What is both in `a` and in `b`.
  predicate IsCommon(r: Events, a: Events, b: Events) {
    (r.read <==> a.read && b.read) && (r.write <==> a.write && b.write)
  }

  // An open file. The kernel refuses to poll regular files.
  datatype File = File(id: nat, pollable: bool)

  // A registration: the events asked for, and the generation in the upper half of its data.
  datatype Entry = Entry(mask: Events, tag: nat)

  // What the kernel holds under one descriptor number: the open file, if any, and the
  // registrations of this and of earlier files.
  datatype Descriptor = Descriptor(file: Option<File>, entries: map<File, Entry>) {
    predicate Live() {
      file.Some? && file.value in entries
    }
  }

  const UNUSED := Descriptor(None, map[])

  // ---------- epoll_ctl ----------

  datatype Errno = SUCCESS | ENOENT | EEXIST | EPERM | OTHER

  // `refused`: the kernel is out of memory or of registrations.
  function CtlAdd(d: Descriptor, e: Entry, refused: bool): (Errno, Descriptor) {
    if d.file.None? then (OTHER, d)
    else if !d.file.value.pollable then (EPERM, d)
    else if d.Live() then (EEXIST, d)
    else if refused then (OTHER, d)
    else (SUCCESS, d.(entries := d.entries[d.file.value := e]))
  }

  function CtlMod(d: Descriptor, e: Entry): (Errno, Descriptor) {
    if d.file.None? then (OTHER, d)
    else if !d.file.value.pollable then (EPERM, d)
    else if !d.Live() then (ENOENT, d)
    else (SUCCESS, d.(entries := d.entries[d.file.value := e]))
  }

  function CtlDel(d: Descriptor): (Errno, Descriptor) {
    if d.file.None? then (OTHER, d)
    else if !d.file.value.pollable then (EPERM, d)
    else if !d.Live() then (ENOENT, d)
    else (SUCCESS, d.(entries := d.entries - {d.file.value}))
  }

  // ---------- what was asked under a number ----------

  // One time the loop came to remember a mask under a number: the file the number meant, the mask,
  // whether a new generation was used, and whether the kernel took it for that file.
  datatype Ask = Ask(file: Option<File>, mask: Emask, anew: bool, taken: bool)

  const FORGOTTEN := Ask(None, Known(NONE), false, false)

  predicate About(x: Ask, f: File) {
    x.taken && x.file == Some(f)
  }

  // How many generations were used.
  function Gen(asks: seq<Ask>): nat {
    if asks == [] then 0 else Gen(asks[..|asks| - 1]) + if asks[|asks| - 1].anew then 1 else 0
  }

  // The mask asked for last.
  function Remembered(asks: seq<Ask>): Emask {
    if asks == [] then Known(NONE) else asks[|asks| - 1].mask
  }

  // How many generations were used since the kernel last took something for `f`.
  function Newer(asks: seq<Ask>, f: File): nat {
    if asks == [] || About(asks[|asks| - 1], f) then 0
    else Newer(asks[..|asks| - 1], f) + if asks[|asks| - 1].anew then 1 else 0
  }

  // What the kernel last took for `f`.
  function Wish(asks: seq<Ask>, f: File): Emask {
    if asks == [] then Known(NONE)
    else if About(asks[|asks| - 1], f) then asks[|asks| - 1].mask
    else Wish(asks[..|asks| - 1], f)
  }

  lemma AskMore(asks: seq<Ask>, x: Ask, f: File)
    ensures Gen(asks + [x]) == Gen(asks) + (if x.anew then 1 else 0) && Remembered(asks + [x]) == x.mask
    ensures Newer(asks + [x], f) == if About(x, f) then 0 else Newer(asks, f) + if x.anew then 1 else 0
    ensures Wish(asks + [x], f) == if About(x, f) then x.mask else Wish(asks, f)
  {
    assert (asks + [x])[..|asks|] == asks;
  }

  // ---------- what holds of every descriptor ----------

  // The registration of `f` has the current generation.
  predicate Current(egen: nat, d: Descriptor, f: File) {
    f in d.entries && d.entries[f].tag == egen
  }

  ghost predicate EntryOk(f: File, e: Entry, asks: seq<Ask>) {
    f.pollable && Known(e.mask) == Wish(asks, f) && e.tag + Newer(asks, f) == Gen(asks)
  }

  // The generation counter, the remembered mask and every registration that still exists are what
  // the asking has made them.
  ghost predicate Explained(emask: Emask, egen: nat, d: Descriptor, asks: seq<Ask>) {
    && egen == Gen(asks) && emask == Remembered(asks)
    && forall f | f in d.entries :: EntryOk(f, d.entries[f], asks)
  }

  // Registrations may disappear, and one ask changes at most the registration of its file.
  lemma ExplainedMore(emask: Emask, egen: nat, d: Descriptor, asks: seq<Ask>, x: Ask, d': Descriptor)
    requires Explained(emask, egen, d, asks)
    requires forall f | f in d'.entries && !About(x, f) :: f in d.entries && d'.entries[f] == d.entries[f]
    requires forall f | f in d'.entries && About(x, f) ::
               f.pollable && x.mask.Known? && d'.entries[f] == Entry(x.mask.mask, egen + if x.anew then 1 else 0)
    ensures Explained(x.mask, egen + if x.anew then 1 else 0, d', asks + [x])
  {
    forall f | f in d'.entries ensures EntryOk(f, d'.entries[f], asks + [x]) {
      AskMore(asks, x, f);
      assert f in d.entries ==> EntryOk(f, d.entries[f], asks);
    }
    AskMore(asks, x, File(0, false));
  }

  // The kernel watches the open file for exactly the events of the descriptor, or cannot.
  ghost predicate Registered(events: Events, emask: Emask, egen: nat, d: Descriptor) {
    && d.file.Some?
    && if d.file.value.pollable then d.Live() && d.entries[d.file.value] == Entry(events, egen) else emask.Eperm?
  }

  // Every registration of a file the number meant earlier has an older generation.
  ghost predicate Outdated(egen: nat, d: Descriptor) {
    forall f | Current(egen, d, f) :: d.file == Some(f)
  }

  // The kernel does what the loop believes it does.
  ghost predicate Engaged(a: Anfd, d: Descriptor) {
    a.events != NONE ==> Registered(a.events, a.emask, a.egen, d) && Outdated(a.egen, d)
  }

  // The descriptor's events are those of its watchers, and the kernel watches it for just these.
  ghost predicate InLine(a: Anfd, d: Descriptor) {
    a.events == Union(a.head) && Engaged(a, d)
  }

  // ---------- epoll_modify, up to the bookkeeping ----------

  // What a call for `nev` asks, in terms of what was asked before.
  function AskOf(d: Descriptor, asks: seq<Ask>, nev: Events, refused: bool): seq<Ask> {
    if d.file.None? then [Ask(None, Known(nev), false, false)]
    else if !d.file.value.pollable then [Ask(d.file, Eperm, true, false)]
    else if d.Live() && Remembered(asks) == Known(nev) then []
    else if !d.Live() && refused then [Ask(d.file, Known(nev), false, false)]
    else [Ask(d.file, Known(nev), true, true)]
  }

  // Of all that still exists, the registration of `f` is the latest, and it is for `nev`.
  ghost predicate Latest(d: Descriptor, asks: seq<Ask>, f: File, nev: Events) {
    && Wish(asks, f) == Known(nev) && Newer(asks, f) == 0
    && forall g | g in d.entries && g != f :: Newer(asks, g) > 0
  }

  // The case a call gets wrong: the file has a registration from before, the mask is the one asked
  // for last, and yet that registration is not what was asked for last.
  ghost predicate Misled(d: Descriptor, asks: seq<Ask>, nev: Events) {
    d.Live() && Remembered(asks) == Known(nev) && !Latest(d, asks, d.file.value, nev)
  }

  lemma LatestSays(emask: Emask, egen: nat, d: Descriptor, asks: seq<Ask>, nev: Events)
    requires Explained(emask, egen, d, asks) && d.Live()
    ensures Latest(d, asks, d.file.value, nev) <==> d.entries[d.file.value] == Entry(nev, egen) && Outdated(egen, d)
  {
    var f := d.file.value;
    assert forall g | g in d.entries ::
        EntryOk(g, d.entries[g], asks) && (Current(egen, d, g) <==> Newer(asks, g) == 0);
    if Outdated(egen, d) {
      forall g | g in d.entries && g != f ensures Newer(asks, g) > 0 {
        assert !Current(egen, d, g);
      }
    }
  }

  // No registration is ahead of the generation counter.
  lemma ExplainedBelow(emask: Emask, egen: nat, d: Descriptor, asks: seq<Ask>)
    requires Explained(emask, egen, d, asks)
    ensures forall f | f in d.entries :: f.pollable && d.entries[f].tag <= egen
  {
    forall f | f in d.entries ensures f.pollable && d.entries[f].tag <= egen {
      assert EntryOk(f, d.entries[f], asks);
    }
  }

  // A registration with a new generation is right.
  lemma Anew(emask: Emask, egen: nat, d: Descriptor, asks: seq<Ask>, nev: Events)
    requires Explained(emask, egen, d, asks) && d.file.Some? && d.file.value.pollable
    ensures var d' := d.(entries := d.entries[d.file.value := Entry(nev, egen + 1)]);
      && Explained(Known(nev), egen + 1, d', asks + [Ask(d.file, Known(nev), true, true)])
      && Registered(nev, Known(nev), egen + 1, d') && Outdated(egen + 1, d')
  {
    var d' := d.(entries := d.entries[d.file.value := Entry(nev, egen + 1)]);
    ExplainedMore(emask, egen, d, asks, Ask(d.file, Known(nev), true, true), d');
    ExplainedBelow(emask, egen, d, asks);
  }

  // The number is not open, or the kernel does not take the file.
  predicate Refuses(d: Descriptor, refused: bool) {
    d.file.None? || (d.file.value.pollable && !d.Live() && refused)
  }

  datatype Outcome = Done | AlwaysReady | Failed

  // What the two attempts at epoll_ctl come to: a registration made, one found that is taken for the
  // right one, a file the kernel cannot poll, or a failure.
  datatype Attempted = Made | Kept | Unpollable | Refused

  // Both attempts at epoll_ctl. `mod`: the first one is MOD; `same`: the mask is the remembered one.
  method TryTwice(d: Descriptor, e: Entry, mod: bool, same: bool, refused: bool)
    returns (r: Attempted, d': Descriptor)
    requires mod ==> !same
    ensures r == Unpollable <==> d.file.Some? && !d.file.value.pollable
    ensures r == Refused <==> Refuses(d, refused)
    ensures r == Kept <==> d.file.Some? && d.file.value.pollable && d.Live() && same
    ensures r == Made ==> d.file.Some? && d' == d.(entries := d.entries[d.file.value := e])
    ensures r != Made ==> d' == d
  {
    var err: Errno;
    if mod {
      var t := CtlMod(d, e);
      err, d' := t.0, t.1;
    } else {
      var t := CtlAdd(d, e, refused);
      err, d' := t.0, t.1;
    }
    if err == SUCCESS { return Made, d'; }
    if err == ENOENT {
      var t := CtlAdd(d, e, refused);
      err, d' := t.0, t.1;
      if err == SUCCESS { return Made, d'; }
    } else if err == EEXIST {
      if same { return Kept, d; }
      var t := CtlMod(d, e);
      err, d' := t.0, t.1;
      if err == SUCCESS { return Made, d'; }
    } else if err == EPERM {
      return Unpollable, d;
    }
    return Refused, d;
  }

  // The generation counter and the mask around these attempts. A registration made or found is right
  // exactly if the call is not misled.
  method Register(a: Anfd, d: Descriptor, oev: Events, nev: Events, refused: bool, ghost asks: seq<Ask>)
    returns (a': Anfd, d': Descriptor, outcome: Outcome)
    requires Explained(a.emask, a.egen, d, asks) && nev != NONE
    ensures a'.head == a.head && a'.events == a.events && a'.reify == a.reify && d'.file == d.file
    ensures Explained(a'.emask, a'.egen, d', asks + AskOf(d, asks, nev, refused))
    ensures outcome == AlwaysReady <==> d.file.Some? && !d.file.value.pollable
    ensures outcome == Failed <==> Refuses(d, refused)
    ensures outcome == Done ==>
              d'.Live() && d' == d.(entries := d.entries[d.file.value := d'.entries[d.file.value]])
    ensures outcome != Done || AskOf(d, asks, nev, refused) == [] ==> d' == d
    ensures outcome == Done ==>
              (Registered(nev, a'.emask, a'.egen, d') && Outdated(a'.egen, d') <==> !Misled(d, asks, nev))
    ensures outcome == AlwaysReady ==> a'.emask == Eperm && Outdated(a'.egen, d')
    ensures outcome != AlwaysReady ==> a'.emask == Known(nev)
  {
    var oldmask := a.emask;
    a' := a.(emask := Known(nev), egen := a.egen + 1);
    var e := Entry(nev, a'.egen);
    var r;
    r, d' := TryTwice(d, e, oev != NONE && oldmask != Known(nev), oldmask == Known(nev), refused);
    ExplainedBelow(a.emask, a.egen, d, asks);
    match r {
      case Made =>
        Anew(a.emask, a.egen, d, asks, nev);
        outcome := Done;
      case Unpollable =>
        a' := a'.(emask := Eperm);
        ExplainedMore(a.emask, a.egen, d, asks, Ask(d.file, Eperm, true, false), d);
        outcome := AlwaysReady;
      case Kept =>
        a' := a'.(egen := a.egen);
        assert asks + [] == asks && d == d.(entries := d.entries[d.file.value := d.entries[d.file.value]]);
        LatestSays(a.emask, a.egen, d, asks, nev);
        outcome := Done;
      case Refused =>
        a' := a'.(egen := a.egen);
        ExplainedMore(a.emask, a.egen, d, asks, Ask(d.file, Known(nev), false, false), d);
        outcome := Failed;
    }
  }

  // ---------- lists without repeats ----------

  ghost predicate Once<T>(s: seq<T>) {
    forall i, j | 0 <= i < j < |s| :: s[i] != s[j]
  }

  function IndexOf(head: seq<Io>, w: Io): (k: nat)
    requires w in head
    ensures k < |head| && head[k] == w && w !in head[..k]
  {
    if head[0] == w then 0 else 1 + IndexOf(head[1..], w)
  }

  // wlist_del: the list without the first occurrence of `w`.
  function Without(head: seq<Io>, w: Io): (r: seq<Io>)
    requires w in head
    ensures forall x | x in r :: x in head
    ensures forall x | x in head && x != w :: x in r
    ensures Once(head) ==> Once(r) && w !in r
    ensures |r| == |head| - 1
  {
    var k := IndexOf(head, w);
    assert head == head[..k] + [w] + head[k + 1..];
    head[..k] + head[k + 1..]
  }

  // ---------- the loop ----------

  datatype Note = Ready(w: Io, revents: Events, source: Option<File>) | Broken(w: Io) | Cleared(w: Io)

  // An event of epoll_wait: the registration it comes from, and what is ready.
  datatype Event = Event(fd: nat, file: File, tag: nat, got: Events)

  function At(anfds: seq<Anfd>, fd: nat): Anfd {
    if fd < |anfds| then anfds[fd] else ZERO
  }

  function Under(kernel: map<nat, Descriptor>, fd: nat): Descriptor {
    if fd in kernel then kernel[fd] else UNUSED
  }

  // What is known of a number besides: whether it was closed, opened or given up since its last turn
  // in a pass, whether that turn left it out of line, and what was asked under it.
  datatype Standing = Standing(renewed: bool, astray: bool, asks: seq<Ask>)

  function Stand(standing: map<nat, Standing>, fd: nat): Standing {
    if fd in standing then standing[fd] else Standing(false, false, [])
  }

  ghost predicate FdOk(fd: nat, a: Anfd, d: Descriptor, s: Standing, listed: bool) {
    && Explained(a.emask, a.egen, d, s.asks)
    && (a.reify == CLEAN ==> a.events == Union(a.head))
    && (s.renewed || s.astray || a.reify.fdset || Engaged(a, d))
    && Once(a.head) && (forall w | w in a.head :: w.fd == fd)
    && (a.emask.Eperm? ==> listed)
  }

  // A number that was not closed or opened since a turn that put it in line stays in line as long as
  // no change is pending.
  lemma CleanIsInLine(fd: nat, a: Anfd, d: Descriptor, s: Standing, listed: bool)
    requires FdOk(fd, a, d, s, listed) && a.reify == CLEAN && !s.renewed && !s.astray
    ensures InLine(a, d)
  {
  }

  // The number `fd` is in order. Beyond the table nothing is registered or listed.
  ghost predicate NumberOk(anfds: seq<Anfd>, kernel: map<nat, Descriptor>, standing: map<nat, Standing>,
                           eperms: seq<nat>, fd: nat) {
    && FdOk(fd, At(anfds, fd), Under(kernel, fd), Stand(standing, fd), fd in eperms)
    && (fd >= |anfds| ==> Under(kernel, fd).entries == map[] && fd !in eperms)
  }

  ghost predicate AllOk(anfds: seq<Anfd>, kernel: map<nat, Descriptor>, standing: map<nat, Standing>,
                        eperms: seq<nat>) {
    forall fd: nat :: NumberOk(anfds, kernel, standing, eperms, fd)
  }

  // Outside a pass, a descriptor is in the change list once if it has pending changes, else never.
  ghost predicate Listed(anfds: seq<Anfd>, changes: seq<nat>) {
    && Once(changes)
    && forall fd: nat :: fd in changes <==> At(anfds, fd).reify != CLEAN
  }

  lemma ListedMore(anfds: seq<Anfd>, changes: seq<nat>, fd: nat, a: Anfd)
    requires Listed(anfds, changes) && fd < |anfds| && a.reify != CLEAN
    ensures Listed(anfds[fd := a], if anfds[fd].reify == CLEAN then changes + [fd] else changes)
  {
    var anfds', changes' := anfds[fd := a], if anfds[fd].reify == CLEAN then changes + [fd] else changes;
    assert fd in changes <==> At(anfds, fd).reify != CLEAN;
    assert Once(changes') && fd in changes';
    forall g: nat ensures g in changes' <==> At(anfds', g).reify != CLEAN {
      assert g != fd ==> At(anfds', g) == At(anfds, g) && (g in changes <==> g in changes');
    }
  }

  lemma ListedLess(anfds: seq<Anfd>, changes: seq<nat>, a: Anfd)
    requires Listed(anfds, changes) && changes != [] && changes[0] < |anfds| && a.reify == CLEAN
    ensures Listed(anfds[changes[0] := a], changes[1..])
  {
    var fd := changes[0];
    var anfds' := anfds[fd := a];
    assert changes == [fd] + changes[1..];
    forall g: nat | g != fd ensures At(anfds', g) == At(anfds, g) {
    }
  }

  // All descriptors but `fd` are in order.
  ghost predicate OthersOk(anfds: seq<Anfd>, kernel: map<nat, Descriptor>, standing: map<nat, Standing>,
                           eperms: seq<nat>, fd: nat) {
    forall g: nat | g != fd :: NumberOk(anfds, kernel, standing, eperms, g)
  }

  // Changing what is known of one descriptor leaves the others as they are.
  lemma UpdateKeeps(anfds: seq<Anfd>, kernel: map<nat, Descriptor>, standing: map<nat, Standing>, eperms: seq<nat>,
                    kernel': map<nat, Descriptor>, standing': map<nat, Standing>, eperms': seq<nat>, fd: nat, a: Anfd)
    requires fd < |anfds| && OthersOk(anfds, kernel, standing, eperms, fd)
    requires kernel' == kernel[fd := Under(kernel', fd)] || kernel' == kernel
    requires standing' == standing[fd := Stand(standing', fd)] || standing' == standing
    requires forall g | g != fd :: g in eperms <==> g in eperms'
    requires FdOk(fd, a, Under(kernel', fd), Stand(standing', fd), fd in eperms')
    ensures AllOk(anfds[fd := a], kernel', standing', eperms')
  {
    var anfds' := anfds[fd := a];
    forall g: nat ensures NumberOk(anfds', kernel', standing', eperms', g) {
      if g != fd {
        assert NumberOk(anfds, kernel, standing, eperms, g);
        assert At(anfds', g) == At(anfds, g) && Under(kernel', g) == Under(kernel, g);
        assert Stand(standing', g) == Stand(standing, g);
      }
    }
  }

  function Changed(a: Anfd, fdset: bool): Anfd {
    a.(reify := Flags(true, a.reify.fdset || fdset))
  }

  function Extended(changes: seq<nat>, a: Anfd, fd: nat): seq<nat> {
    if a.reify == CLEAN then changes + [fd] else changes
  }

  function Killed(a: Anfd): Anfd {
    if a.head == [] then a else Changed(a.(head := []), false)
  }

  function Report(head: seq<Io>): seq<Note> {
    if head == [] then []
    else Report(head[..|head| - 1]) + [Cleared(head[|head| - 1]), Broken(head[|head| - 1])]
  }

  lemma {:induction false} ReportSays(head: seq<Io>, w: Io)
    ensures w in head ==> Broken(w) in Report(head)
    ensures forall n | n in Report(head) :: !n.Ready? && n.w in head
  {
    if head != [] {
      assert head == head[..|head| - 1] + [head[|head| - 1]];
      ReportSays(head[..|head| - 1], w);
    }
  }

  lemma ReportMore(head: seq<Io>, k: nat)
    requires k < |head|
    ensures Report(head[..k + 1]) == Report(head[..k]) + [Cleared(head[k]), Broken(head[k])]
  {
    assert head[..k + 1][..k] == head[..k];
  }

  // Descriptor `fd` in the middle of a pass: its events are up to date, the kernel may not be.
  ghost predicate Midway(fd: nat, a: Anfd, d: Descriptor, asks: seq<Ask>, listed: bool) {
    && Explained(a.emask, a.egen, d, asks) && a.reify == CLEAN && a.events == Union(a.head)
    && Once(a.head) && (forall w | w in a.head :: w.fd == fd)
    && (a.emask.Eperm? ==> listed)
  }

  // The standing of a number after its turn.
  ghost function Turned(a: Anfd, d: Descriptor, asks: seq<Ask>, killed: bool): Standing {
    Standing(killed, !killed && !Engaged(a, d), asks)
  }

  // ---------- the calls of a pass, whatever the backend ----------

  datatype Call = Call(fd: nat, oev: Events, nev: Events)

  // Whether the turn of a descriptor calls the backend.
  predicate Calls(a: Anfd) {
    a.reify.fdset || a.events != Union(a.head)
  }

  function CallOf(fd: nat, a: Anfd): seq<Call> {
    if Calls(a) then [Call(fd, a.events, Union(a.head))] else []
  }

  function PassCalls(anfds: seq<Anfd>, changes: seq<nat>): seq<Call> {
    if changes == [] then []
    else PassCalls(anfds, changes[..|changes| - 1]) + CallOf(changes[|changes| - 1], At(anfds, changes[|changes| - 1]))
  }

  // The events of `fd` according to the calls, from `start`.
  function After(calls: seq<Call>, fd: nat, start: Events): Events {
    if calls == [] then start
    else if calls[|calls| - 1].fd == fd then calls[|calls| - 1].nev
    else After(calls[..|calls| - 1], fd, start)
  }

  // When epoll_modify lists a number as always ready.
  predicate Appends(emask: Emask, d: Descriptor, nev: Events) {
    nev != NONE && d.file.Some? && !d.file.value.pollable && emask != Eperm
  }

  function AppendOf(fd: nat, a: Anfd, d: Descriptor): seq<nat> {
    if Calls(a) && Appends(a.emask, d, Union(a.head)) then [fd] else []
  }

  function PassAppends(anfds: seq<Anfd>, kernel: map<nat, Descriptor>, changes: seq<nat>): seq<nat> {
    if changes == [] then []
    else
      var fd := changes[|changes| - 1];
      PassAppends(anfds, kernel, changes[..|changes| - 1]) + AppendOf(fd, At(anfds, fd), Under(kernel, fd))
  }

  // ---------- what a turn makes of a descriptor ----------

  ghost predicate SameElsewhere(d0: Descriptor, d: Descriptor) {
    && d.file == d0.file
    && forall f | d.file != Some(f) ::
         (f in d.entries <==> f in d0.entries) && (f in d.entries ==> d.entries[f] == d0.entries[f])
  }

  function NewAsks(d: Descriptor, asks: seq<Ask>, nev: Events, refused: bool): seq<Ask> {
    if nev == NONE then [] else AskOf(d, asks, nev, refused)
  }

  // What a call of the backend makes of a descriptor.
  ghost predicate Modified(a0: Anfd, a: Anfd, d0: Descriptor, d: Descriptor, s0: Standing, s: Standing, killed: bool,
                           refused: bool) {
    var nev := a0.events;
    var asks := NewAsks(d0, s0.asks, nev, refused);
    && SameElsewhere(d0, d) && a.events == nev && (killed <==> nev != NONE && Refuses(d0, refused))
    && s == Turned(a, d, s0.asks + asks, killed) && (killed || asks == [] ==> d == d0)
    && a.head == (if killed then [] else a0.head)
    && (!killed && nev != NONE ==> (Engaged(a, d) <==> !Misled(d0, s0.asks, nev)))
  }

  lemma RegisterModifies(a0: Anfd, a: Anfd, d0: Descriptor, d: Descriptor, s0: Standing, outcome: Outcome,
                         refused: bool)
    requires a0.reify == CLEAN && a0.events == Union(a0.head) != NONE && forall f | f in d0.entries :: f.pollable
    requires a.head == a0.head && a.events == a0.events && a.reify == CLEAN && d.file == d0.file
    requires outcome == AlwaysReady <==> d0.file.Some? && !d0.file.value.pollable
    requires outcome == Failed <==> Refuses(d0, refused)
    requires outcome == Done ==> d.Live() && d == d0.(entries := d0.entries[d0.file.value := d.entries[d0.file.value]])
    requires outcome != Done || AskOf(d0, s0.asks, a0.events, refused) == [] ==> d == d0
    requires outcome == Done ==>
               (Registered(a.events, a.emask, a.egen, d) && Outdated(a.egen, d) <==> !Misled(d0, s0.asks, a0.events))
    requires outcome == AlwaysReady ==> a.emask == Eperm && Outdated(a.egen, d)
    ensures var asks, killed := s0.asks + NewAsks(d0, s0.asks, a0.events, refused), outcome == Failed;
      var a' := if killed then Killed(a) else a;
      && Modified(a0, a', d0, d, s0, Turned(a', d, asks, killed), killed, refused)
      && (killed <==> a'.reify != CLEAN)
  {
  }

  // epoll_modify, as far as it concerns one descriptor.
  method Attempt(fd: nat, a: Anfd, d: Descriptor, oev: Events, nev: Events, refused: bool, ghost s: Standing,
                 ghost listed: bool)
    returns (a': Anfd, d': Descriptor, outcome: Outcome, append: bool)
    requires Midway(fd, a, d, s.asks, listed) && nev == a.events != NONE
    ensures var asks, killed := s.asks + NewAsks(d, s.asks, nev, refused), outcome == Failed;
      var a'' := if killed then Killed(a') else a';
      && Midway(fd, a', d', asks, append || listed) && a'.head == a.head != []
      && Modified(a, a'', d, d', s, Turned(a'', d', asks, killed), killed, refused) && (killed <==> a''.reify != CLEAN)
    ensures append <==> Appends(a.emask, d, nev)
    ensures outcome == Failed ==> d' == d && !append
  {
    a', d', outcome := Register(a, d, oev, nev, refused, s.asks);
    append := outcome == AlwaysReady && a.emask != Eperm;
    ExplainedBelow(a.emask, a.egen, d, s.asks);
    RegisterModifies(a, a', d, d', s, outcome, refused);
  }

  // What was asked so far stands: a file is open under the number, and what was asked for last is this
  // very file and mask, or, for a file the kernel cannot poll, to list it as always ready.
  ghost predicate Stands(d: Descriptor, asks: seq<Ask>, nev: Events) {
    && d.file.Some?
    && if d.file.value.pollable then d.Live() && Latest(d, asks, d.file.value, nev)
       else Remembered(asks) == Eperm && forall g | g in d.entries :: Newer(asks, g) > 0
  }

  // The kernel does what the loop believes just if what was asked stands.
  lemma StandsSays(a: Anfd, d: Descriptor, asks: seq<Ask>)
    requires Explained(a.emask, a.egen, d, asks) && a.events != NONE
    ensures Engaged(a, d) <==> Stands(d, asks, a.events)
  {
    if d.Live() {
      LatestSays(a.emask, a.egen, d, asks, a.events);
    }
    ExplainedBelow(a.emask, a.egen, d, asks);
    forall g | g in d.entries ensures Current(a.egen, d, g) <==> Newer(asks, g) == 0 {
      assert EntryOk(g, d.entries[g], asks);
    }
  }

  // When the turn of a descriptor leaves it in line, if it is not given up: nobody wants anything, or
  // the backend is called and not misled, or it is not called and what was asked so far stands.
  ghost predicate Settles(a: Anfd, d: Descriptor, asks: seq<Ask>) {
    var nev := Union(a.head);
    nev == NONE || if Calls(a) then !Misled(d, asks, nev) else Stands(d, asks, nev)
  }

  function TurnAsks(a: Anfd, d: Descriptor, asks: seq<Ask>, refused: bool): seq<Ask> {
    if Calls(a) then NewAsks(d, asks, Union(a.head), refused) else []
  }

  // What a turn makes of a descriptor: it is in line exactly if that settles it, or it is given up
  // just if the backend is called and the kernel refuses.
  ghost predicate Passed(a0: Anfd, a: Anfd, d0: Descriptor, d: Descriptor, s0: Standing, s: Standing, killed: bool,
                         refused: bool) {
    var nev := Union(a0.head);
    var asks := TurnAsks(a0, d0, s0.asks, refused);
    && SameElsewhere(d0, d) && a.events == nev && (killed <==> Calls(a0) && nev != NONE && Refuses(d0, refused))
    && s == Turned(a, d, s0.asks + asks, killed) && (killed || asks == [] ==> d == d0)
    && a.head == (if killed then [] else a0.head)
    && (!killed ==> (Engaged(a, d) <==> Settles(a0, d0, s0.asks)))
  }

  lemma ModifiedPasses(a0: Anfd, a1: Anfd, a: Anfd, d0: Descriptor, d: Descriptor, s0: Standing, s: Standing,
                       killed: bool, refused: bool)
    requires a1 == a0.(reify := CLEAN, events := Union(a0.head)) && Calls(a0)
    requires Modified(a1, a, d0, d, s0, s, killed, refused)
    ensures Passed(a0, a, d0, d, s0, s, killed, refused)
  {
  }

  lemma UncalledPasses(a0: Anfd, a: Anfd, d: Descriptor, s0: Standing, refused: bool)
    requires a == a0.(reify := CLEAN, events := Union(a0.head)) && !Calls(a0)
    requires Explained(a.emask, a.egen, d, s0.asks)
    ensures Passed(a0, a, d, d, s0, Turned(a, d, s0.asks, false), false, refused)
  {
    assert s0.asks + [] == s0.asks;
    if a.events != NONE { StandsSays(a, d, s0.asks); }
  }

  // ---------- a rule for programs ----------

  // From some call that got a new generation on, all that was asked under the number was for `f`, and
  // the kernel took it.
  ghost predicate Alone(asks: seq<Ask>, f: File) {
    exists k: nat :: AloneFrom(asks, f, k)
  }

  ghost predicate AloneFrom(asks: seq<Ask>, f: File, k: nat) {
    k < |asks| && asks[k].anew && forall j | k <= j < |asks| :: About(asks[j], f)
  }

  // If a file comes back to its number while its registration still exists, and it is to be watched
  // for what was asked for last, then nothing else was registered or refused under the number since.
  // A number that was closed or opened is set up again.
  ghost predicate Proper(a: Anfd, d: Descriptor, s: Standing) {
    var nev := Union(a.head);
    || nev == NONE
    || if Calls(a) then d.Live() && Remembered(s.asks) == Known(nev) ==> Alone(s.asks, d.file.value)
       else !s.renewed && !s.astray
  }

  ghost predicate AllProper(anfds: seq<Anfd>, kernel: map<nat, Descriptor>, standing: map<nat, Standing>) {
    forall g: nat :: Proper(At(anfds, g), Under(kernel, g), Stand(standing, g))
  }

  lemma {:induction false} AloneIsNewer(asks: seq<Ask>, f: File, k: nat, g: File)
    requires AloneFrom(asks, f, k)
    ensures g != f ==> Newer(asks, g) > 0
    ensures Newer(asks, f) == 0 && Wish(asks, f) == Remembered(asks)
  {
    if |asks| > k + 1 {
      AloneIsNewer(asks[..|asks| - 1], f, k, g);
    }
  }

  lemma ProperSettles(fd: nat, a: Anfd, d: Descriptor, s: Standing, listed: bool)
    requires FdOk(fd, a, d, s, listed) && Proper(a, d, s)
    ensures Settles(a, d, s.asks)
  {
    var nev := Union(a.head);
    if nev != NONE && Calls(a) && d.Live() && Remembered(s.asks) == Known(nev) {
      var k: nat :| AloneFrom(s.asks, d.file.value, k);
      forall g ensures (g != d.file.value ==> Newer(s.asks, g) > 0) && Newer(s.asks, d.file.value) == 0
                       && Wish(s.asks, d.file.value) == Known(nev) {
        AloneIsNewer(s.asks, d.file.value, k, g);
      }
    } else if nev != NONE && !Calls(a) {
      StandsSays(a, d, s.asks);
    }
  }

  // ---------- a pass ----------

  lemma OthersStay(anfds: seq<Anfd>, kernel: map<nat, Descriptor>, standing: map<nat, Standing>, eperms: seq<nat>,
                   fd: nat, a: Anfd)
    requires fd < |anfds| && AllOk(anfds, kernel, standing, eperms)
    ensures OthersOk(anfds[fd := a], kernel, standing, eperms, fd)
  {
    var anfds' := anfds[fd := a];
    forall g: nat | g != fd ensures NumberOk(anfds', kernel, standing, eperms, g) {
      assert NumberOk(anfds, kernel, standing, eperms, g) && At(anfds', g) == At(anfds, g);
    }
  }

  method UnionOf(head: seq<Io>) returns (events: Events)
    ensures events == Union(head)
  {
    events := NONE;
    for i := 0 to |head|
      invariant events == Union(head[..i])
    {
      events := Or(events, head[i].events);
      assert head[..i + 1][..i] == head[..i];
    }
    assert head[..|head|] == head;
  }

  // One turn of a pass over `changes`, at position `i`, as seen by the change list.
  lemma PassStep(anfds: seq<Anfd>, changes: seq<nat>, i: nat, a: Anfd)
    requires i < |changes| && Listed(anfds, changes[i..]) && changes[i] < |anfds|
    ensures Listed(anfds[changes[i] := a], (if a.reify == CLEAN then changes else changes + [changes[i]])[i + 1..])
  {
    var fd := changes[i];
    assert changes[i..][1..] == changes[i + 1..];
    ListedLess(anfds, changes[i..], a.(reify := CLEAN));
    if a.reify != CLEAN {
      var anfds' := anfds[fd := a.(reify := CLEAN)];
      ListedMore(anfds', changes[i + 1..], fd, a);
      assert (changes + [fd])[i + 1..] == changes[i + 1..] + [fd];
      assert anfds'[fd := a] == anfds[fd := a];
    }
  }

  // What has become of a descriptor in the middle of a pass. `done`: its turn has been.
  ghost predicate PassedAt(a0: Anfd, a: Anfd, d0: Descriptor, d: Descriptor, s0: Standing, s: Standing, done: bool,
                           killed: bool, refused: bool, notes: seq<Note>) {
    && (if done then Passed(a0, a, d0, d, s0, s, killed, refused) else a == a0 && d == d0 && s == s0 && !killed)
    && (killed ==> Told(a0.head, notes))
  }

  // Every watcher of a descriptor given up has been told.
  ghost predicate Told(head: seq<Io>, notes: seq<Note>) {
    forall w | w in head :: Broken(w) in notes
  }

  ghost predicate AllPassed(anfds0: seq<Anfd>, anfds: seq<Anfd>, kernel0: map<nat, Descriptor>,
                            kernel: map<nat, Descriptor>, standing0: map<nat, Standing>, standing: map<nat, Standing>,
                            done: seq<nat>, killed: seq<nat>, refused: set<nat>, notes: seq<Note>) {
    forall g: nat ::
      PassedAt(At(anfds0, g), At(anfds, g), Under(kernel0, g), Under(kernel, g), Stand(standing0, g),
               Stand(standing, g), g in done, g in killed, g in refused, notes)
  }

  lemma StillPassed(a0: Anfd, a: Anfd, d0: Descriptor, d: Descriptor, s0: Standing, s: Standing, done: bool,
                    killed: bool, refused: bool, notes: seq<Note>, notes': seq<Note>)
    requires PassedAt(a0, a, d0, d, s0, s, done, killed, refused, notes) && notes <= notes'
    ensures PassedAt(a0, a, d0, d, s0, s, done, killed, refused, notes')
  {
  }

  lemma PassedOne(anfds0: seq<Anfd>, was: seq<Anfd>, anfds: seq<Anfd>,
                  kernel0: map<nat, Descriptor>, kernel1: map<nat, Descriptor>, kernel: map<nat, Descriptor>,
                  standing0: map<nat, Standing>, standing1: map<nat, Standing>, standing: map<nat, Standing>,
                  done: seq<nat>, killed: seq<nat>, killed': seq<nat>, fd: nat, refused: set<nat>, notes: seq<Note>,
                  notes': seq<Note>)
    requires AllPassed(anfds0, was, kernel0, kernel1, standing0, standing1, done, killed, refused, notes) && fd < |was|
    requires anfds == was[fd := At(anfds, fd)] && (kernel == kernel1[fd := Under(kernel, fd)] || kernel == kernel1)
    requires standing == standing1[fd := Stand(standing, fd)]
    requires (killed' == killed || killed' == killed + [fd]) && notes <= notes'
    requires PassedAt(At(anfds0, fd), At(anfds, fd), Under(kernel0, fd), Under(kernel, fd), Stand(standing0, fd),
                      Stand(standing, fd), true, fd in killed', fd in refused, notes')
    ensures AllPassed(anfds0, anfds, kernel0, kernel, standing0, standing, done + [fd], killed', refused, notes')
  {
    var done' := done + [fd];
    forall g: nat
      ensures PassedAt(At(anfds0, g), At(anfds, g), Under(kernel0, g), Under(kernel, g), Stand(standing0, g),
                       Stand(standing, g), g in done', g in killed', g in refused, notes')
    {
      if g != fd {
        assert At(anfds, g) == At(was, g) && Under(kernel, g) == Under(kernel1, g);
        assert Stand(standing, g) == Stand(standing1, g);
        assert (g in done' <==> g in done) && (g in killed' <==> g in killed);
        StillPassed(At(anfds0, g), At(was, g), Under(kernel0, g), Under(kernel1, g), Stand(standing0, g),
                    Stand(standing1, g), g in done, g in killed, g in refused, notes, notes');
      }
    }
  }

  lemma NotYetKilled(anfds: seq<Anfd>, changes: seq<nat>, i: nat, n: nat)
    requires i < n <= |changes| && Listed(anfds, changes[i..])
    ensures changes[i] !in changes[n..] && changes[i] < |anfds| && anfds[changes[i]].reify != CLEAN
  {
    assert changes[i..][0] == changes[i] && At(anfds, changes[i]).reify != CLEAN;
    forall k | n <= k < |changes| ensures changes[k] != changes[i] {
      assert changes[i..][k - i] == changes[k];
    }
  }

  lemma ReportTells(head: seq<Io>, notes: seq<Note>)
    ensures Told(head, notes + Report(head))
  {
    forall w | w in head ensures Broken(w) in notes + Report(head) {
      ReportSays(head, w);
    }
  }

  lemma PassBegins(anfds: seq<Anfd>, kernel: map<nat, Descriptor>, standing: map<nat, Standing>, changes: seq<nat>,
                   notes: seq<Note>, calls: seq<Call>, eperms: seq<nat>, refused: set<nat>)
    ensures changes[0..] == changes
      && AllPassed(anfds, anfds, kernel, kernel, standing, standing, changes[..0], changes[|changes|..], refused, notes)
    ensures calls == calls + PassCalls(anfds, changes[..0])
    ensures eperms == eperms + PassAppends(anfds, kernel, changes[..0])
  {
  }

  lemma MoreCalls(calls: seq<Call>, eperms: seq<nat>, anfds: seq<Anfd>, kernel: map<nat, Descriptor>,
                  changes: seq<nat>, i: nat)
    requires i < |changes|
    ensures (calls + PassCalls(anfds, changes[..i])) + CallOf(changes[i], At(anfds, changes[i]))
         == calls + PassCalls(anfds, changes[..i + 1])
    ensures (eperms + PassAppends(anfds, kernel, changes[..i]))
            + AppendOf(changes[i], At(anfds, changes[i]), Under(kernel, changes[i]))
         == eperms + PassAppends(anfds, kernel, changes[..i + 1])
  {
    assert changes[..i + 1][..i] == changes[..i];
  }

  // The calls of a pass over distinct descriptors tell a backend exactly what changes: each starts
  // from the events of before, and together they lead to the events of after.
  lemma {:induction false} PassTracks(anfds: seq<Anfd>, changes: seq<nat>, g: nat)
    requires Once(changes)
    ensures var events := After(PassCalls(anfds, changes), g, At(anfds, g).events);
      && events == (if g in changes then Union(At(anfds, g).head) else At(anfds, g).events)
      && (g in changes ==> JustWanted(events, At(anfds, g).head))
  {
    UnionIsWanted(At(anfds, g).head);
    if changes != [] {
      var last := |changes| - 1;
      var before, call := PassCalls(anfds, changes[..last]), CallOf(changes[last], At(anfds, changes[last]));
      PassTracks(anfds, changes[..last], g);
      assert changes == changes[..last] + [changes[last]] && changes[last] !in changes[..last];
      if call == [] {
        assert before + call == before;
      } else {
        AfterMore(before, call[0], g, At(anfds, g).events);
      }
    }
  }

  lemma AfterMore(before: seq<Call>, c: Call, g: nat, start: Events)
    ensures After(before + [c], g, start) == if c.fd == g then c.nev else After(before, g, start)
  {
    assert (before + [c])[..|before|] == before;
  }

  lemma {:induction false} PassChained(anfds: seq<Anfd>, changes: seq<nat>, k: nat)
    requires Once(changes) && k < |PassCalls(anfds, changes)|
    ensures var calls := PassCalls(anfds, changes);
      calls[k].oev == After(calls[..k], calls[k].fd, At(anfds, calls[k].fd).events)
  {
    var last := |changes| - 1;
    var calls, before := PassCalls(anfds, changes), PassCalls(anfds, changes[..last]);
    if k < |before| {
      PassChained(anfds, changes[..last], k);
      assert calls[..k] == before[..k];
    } else {
      assert calls[..k] == before && changes[last] !in changes[..last];
      PassTracks(anfds, changes[..last], changes[last]);
    }
  }

  // After a pass, a number that is not given up is in line exactly if the pass settles it.
  lemma PassSettles(anfds0: seq<Anfd>, anfds: seq<Anfd>, kernel0: map<nat, Descriptor>, kernel: map<nat, Descriptor>,
                    standing0: map<nat, Standing>, standing: map<nat, Standing>, eperms: seq<nat>, changes: seq<nat>,
                    killed: seq<nat>, refused: set<nat>, notes: seq<Note>)
    requires AllOk(anfds0, kernel0, standing0, eperms) && Listed(anfds0, changes)
    requires AllPassed(anfds0, anfds, kernel0, kernel, standing0, standing, changes, killed, refused, notes)
    ensures forall g: nat | g !in killed ::
              InLine(At(anfds, g), Under(kernel, g))
              <==> Settles(At(anfds0, g), Under(kernel0, g), Stand(standing0, g).asks)
    ensures forall g: nat | Proper(At(anfds0, g), Under(kernel0, g), Stand(standing0, g)) ::
              g in killed || InLine(At(anfds, g), Under(kernel, g))
    ensures forall g: nat | Proper(At(anfds0, g), Under(kernel0, g), Stand(standing0, g)) ::
              Stand(standing, g).astray ==> Stand(standing0, g).astray
  {
    forall g: nat
      ensures g !in killed ==>
                (InLine(At(anfds, g), Under(kernel, g))
                 <==> Settles(At(anfds0, g), Under(kernel0, g), Stand(standing0, g).asks))
      ensures Proper(At(anfds0, g), Under(kernel0, g), Stand(standing0, g)) ==>
                Settles(At(anfds0, g), Under(kernel0, g), Stand(standing0, g).asks)
                && (Stand(standing, g).astray ==> Stand(standing0, g).astray)
    {
      assert NumberOk(anfds0, kernel0, standing0, eperms, g);
      assert PassedAt(At(anfds0, g), At(anfds, g), Under(kernel0, g), Under(kernel, g), Stand(standing0, g),
                      Stand(standing, g), g in changes, g in killed, g in refused, notes);
      if At(anfds0, g).events != NONE {
        StandsSays(At(anfds0, g), Under(kernel0, g), Stand(standing0, g).asks);
      }
      if Proper(At(anfds0, g), Under(kernel0, g), Stand(standing0, g)) {
        ProperSettles(g, At(anfds0, g), Under(kernel0, g), Stand(standing0, g), g in eperms);
      }
    }
  }

  // After a pass each descriptor has the events that some watcher wants, and no others.
  lemma PassWants(anfds0: seq<Anfd>, anfds: seq<Anfd>, kernel0: map<nat, Descriptor>, kernel: map<nat, Descriptor>,
                  standing0: map<nat, Standing>, standing: map<nat, Standing>, eperms: seq<nat>, changes: seq<nat>,
                  killed: seq<nat>, refused: set<nat>, notes: seq<Note>)
    requires AllOk(anfds0, kernel0, standing0, eperms) && Listed(anfds0, changes)
    requires AllPassed(anfds0, anfds, kernel0, kernel, standing0, standing, changes, killed, refused, notes)
    ensures forall g: nat | g !in killed :: JustWanted(At(anfds, g).events, At(anfds, g).head)
    ensures forall g: nat | g in changes :: JustWanted(At(anfds, g).events, At(anfds0, g).head)
  {
    forall g: nat
      ensures g !in killed ==> JustWanted(At(anfds, g).events, At(anfds, g).head)
      ensures g in changes ==> JustWanted(At(anfds, g).events, At(anfds0, g).head)
    {
      assert NumberOk(anfds0, kernel0, standing0, eperms, g);
      assert PassedAt(At(anfds0, g), At(anfds, g), Under(kernel0, g), Under(kernel, g), Stand(standing0, g),
                      Stand(standing, g), g in changes, g in killed, g in refused, notes);
      UnionIsWanted(At(anfds0, g).head);
    }
  }

  lemma {:induction false} AppendsSay(anfds: seq<Anfd>, kernel: map<nat, Descriptor>, changes: seq<nat>)
    requires Once(changes)
    ensures Once(PassAppends(anfds, kernel, changes))
    ensures forall g: nat ::
              g in PassAppends(anfds, kernel, changes)
              <==> g in changes && AppendOf(g, At(anfds, g), Under(kernel, g)) != []
  {
    if changes != [] {
      var last := |changes| - 1;
      AppendsSay(anfds, kernel, changes[..last]);
      assert changes == changes[..last] + [changes[last]] && changes[last] !in changes[..last];
    }
  }

  lemma OnceTogether(a: seq<nat>, b: seq<nat>)
    requires Once(b)
    ensures Once(a + b) <==> Once(a) && forall x | x in a :: x !in b
  {
    var s := a + b;
    if Once(s) {
      assert forall i, j | 0 <= i < j < |a| :: a[i] == s[i] && a[j] == s[j];
      forall x | x in a ensures x !in b {
        var i :| 0 <= i < |a| && a[i] == x;
        forall j | 0 <= j < |b| ensures b[j] != x {
          assert s[i] == x && s[|a| + j] == b[j];
        }
      }
    } else {
      var i, j :| 0 <= i < j < |s| && s[i] == s[j];
      if j < |a| {
        assert a[i] == a[j];
      } else if i < |a| {
        assert a[i] == b[j - |a|] && a[i] in a && a[i] in b;
      } else {
        assert false;
      }
    }
  }

  // A listed number is listed again by the next pass.
  ghost predicate Relisted(anfds: seq<Anfd>, kernel: map<nat, Descriptor>, g: nat) {
    Calls(At(anfds, g)) && Appends(At(anfds, g).emask, Under(kernel, g), Union(At(anfds, g).head))
  }

  // A pass leaves the list of always-ready numbers without repeats just if it had none and lists none
  // of its numbers again.
  lemma ListedOnce(anfds: seq<Anfd>, kernel: map<nat, Descriptor>, standing: map<nat, Standing>, eperms: seq<nat>,
                   changes: seq<nat>)
    requires AllOk(anfds, kernel, standing, eperms) && Listed(anfds, changes)
    ensures Once(eperms + PassAppends(anfds, kernel, changes))
            <==> Once(eperms) && forall g | g in eperms :: !Relisted(anfds, kernel, g)
  {
    AppendsSay(anfds, kernel, changes);
    OnceTogether(eperms, PassAppends(anfds, kernel, changes));
    forall g: nat ensures Relisted(anfds, kernel, g) <==> g in PassAppends(anfds, kernel, changes) {
      assert NumberOk(anfds, kernel, standing, eperms, g);
    }
  }

  // ---------- events ----------

  lemma Assoc(a: seq<Note>, b: seq<Note>, c: seq<Note>)
    ensures (a + b) + c == a + (b + c)
  {
  }

  // What fd_event_nocheck feeds.
  function Wakes(head: seq<Io>, got: Events, source: Option<File>): seq<Note> {
    if head == [] then []
    else
      var w := head[|head| - 1];
      Wakes(head[..|head| - 1], got, source)
      + if And(w.events, got) != NONE then [Ready(w, And(w.events, got), source)] else []
  }

  lemma {:induction false} NobodyWakes(head: seq<Io>, got: Events, source: Option<File>)
    requires Union(head) == NONE
    ensures Wakes(head, got, source) == []
  {
    if head != [] { NobodyWakes(head[..|head| - 1], got, source); }
  }

  // Just the watchers that want some of it are fed, each with what it wants.
  lemma {:induction false} WakesSays(head: seq<Io>, got: Events, source: Option<File>, w: Io)
    ensures w in head && And(w.events, got) != NONE ==>
              Ready(w, And(w.events, got), source) in Wakes(head, got, source)
    ensures forall n | n in Wakes(head, got, source) ::
              n.w in head && n == Ready(n.w, And(n.w.events, got), source) && n.revents != NONE
  {
    if head != [] {
      assert head == head[..|head| - 1] + [head[|head| - 1]];
      WakesSays(head[..|head| - 1], got, source, w);
    }
  }

  // epoll_wait reports registrations.
  predicate Reported(e: Event, d: Descriptor) {
    e.file in d.entries && d.entries[e.file].tag == e.tag
  }

  // An event reported a moment ago: only the registration of the file now open may have changed since.
  ghost predicate Source(e: Event, d: Descriptor) {
    e.file.pollable && (d.file != Some(e.file) ==> Reported(e, d))
  }

  // The tests of epoll_poll: the event has the current generation, and is wanted or can be silenced.
  predicate Passes(a: Anfd, d: Descriptor, e: Event) {
    a.egen == e.tag && (And(e.got, a.events) == e.got || d.Live())
  }

  // What being in line means for the events of a descriptor somebody wants something of: the kernel
  // watches the open file for just that, or cannot, and of all that is reported exactly the events of
  // the open file pass.
  ghost predicate Handled(a: Anfd, d: Descriptor) {
    && d.file.Some?
    && (if d.file.value.pollable then d.Live() && JustWanted(d.entries[d.file.value].mask, a.head)
        else a.emask == Eperm)
    && forall e | Reported(e, d) :: Passes(a, d, e) <==> d.file == Some(e.file)
  }

  lemma InLineExactly(a: Anfd, d: Descriptor)
    requires a.events == Union(a.head) != NONE && forall f | f in d.entries :: f.pollable
    ensures InLine(a, d) <==> Handled(a, d)
  {
    UnionIsWanted(a.head);
    if InLine(a, d) {
      forall e | Reported(e, d) ensures Passes(a, d, e) <==> d.file == Some(e.file) {
        assert a.egen == e.tag ==> Current(a.egen, d, e.file);
      }
    }
    if Handled(a, d) {
      forall f | f in d.entries ensures Current(a.egen, d, f) <==> d.file == Some(f) {
        var e := Event(0, f, d.entries[f].tag, a.events);
        assert Reported(e, d) && And(a.events, a.events) == a.events;
      }
    }
  }

  // The attempt to silence events nobody wants.
  function Silence(d: Descriptor, want: Events, tag: nat): (Errno, Descriptor) {
    if want != NONE then CtlMod(d, Entry(want, tag)) else CtlDel(d)
  }

  // What that asks: the mask is remembered even if it fails.
  function Hush(d: Descriptor, want: Events): Ask {
    Ask(d.file, Known(want), false, d.Live())
  }

  lemma SilenceOk(fd: nat, a: Anfd, d: Descriptor, s: Standing, e: Event, listed: bool)
    requires FdOk(fd, a, d, s, listed) && Source(e, d) && e.tag == a.egen
    ensures var a', d' := a.(emask := Known(a.events)), Silence(d, a.events, e.tag).1;
      && FdOk(fd, a', d', s.(asks := s.asks + [Hush(d, a.events)]), listed) && SilencedAt(a, a', d, d')
    ensures Silence(d, a.events, e.tag).0 == SUCCESS <==> d.Live()
  {
    var a', d' := a.(emask := Known(a.events)), Silence(d, a.events, e.tag).1;
    ExplainedBelow(a.emask, a.egen, d, s.asks);
    ExplainedMore(a.emask, a.egen, d, s.asks, Hush(d, a.events), d');
    SilenceEngaged(a, d, e);
  }

  lemma SilenceEngaged(a: Anfd, d: Descriptor, e: Event)
    requires Source(e, d) && e.tag == a.egen && forall f | f in d.entries :: f.pollable
    ensures var a', d' := a.(emask := Known(a.events)), Silence(d, a.events, e.tag).1;
      SilencedAt(a, a', d, d')
  {
    var d' := Silence(d, a.events, e.tag).1;
    assert d.file != Some(e.file) ==> Current(a.egen, d, e.file);
    forall f | Current(a.egen, d', f) ensures Current(a.egen, d, f) || d.file == Some(f) {
    }
  }

  // What an event feeds.
  ghost function Delivered(anfds: seq<Anfd>, kernel: map<nat, Descriptor>, e: Event): seq<Note> {
    if At(anfds, e.fd).reify == CLEAN && Passes(At(anfds, e.fd), Under(kernel, e.fd), e)
    then Wakes(At(anfds, e.fd).head, e.got, Some(e.file))
    else []
  }

  // For a descriptor in line, what passes is fed and comes from the open file, or nobody wants it.
  lemma PassedOn(a: Anfd, d: Descriptor, e: Event)
    requires InLine(a, d) && Reported(e, d) && forall f | f in d.entries :: f.pollable
    ensures var wakes := Wakes(a.head, e.got, Some(e.file));
      (if Passes(a, d, e) then wakes else []) == if d.file == Some(e.file) then wakes else []
  {
    if Union(a.head) == NONE {
      NobodyWakes(a.head, e.got, Some(e.file));
    } else {
      InLineExactly(a, d);
    }
  }

  // Only remembered masks, and registrations of the files now open, have changed, and nothing that was
  // right became wrong.
  ghost predicate Silenced(anfds0: seq<Anfd>, anfds: seq<Anfd>, kernel0: map<nat, Descriptor>,
                           kernel: map<nat, Descriptor>) {
    && |anfds| == |anfds0|
    && forall g: nat :: SilencedAt(At(anfds0, g), At(anfds, g), Under(kernel0, g), Under(kernel, g))
  }

  ghost predicate SilencedAt(a0: Anfd, a: Anfd, d0: Descriptor, d: Descriptor) {
    && a == a0.(emask := a.emask) && SameElsewhere(d0, d)
    && (d.Live() ==> d0.Live()) && (d0.Live() && a.events != NONE ==> d.Live())
    && (Engaged(a0, d0) ==> Engaged(a, d))
  }

  lemma SilencedOne(anfds: seq<Anfd>, kernel: map<nat, Descriptor>, kernel': map<nat, Descriptor>, changes: seq<nat>,
                    fd: nat, a: Anfd)
    requires fd < |anfds| && SilencedAt(anfds[fd], a, Under(kernel, fd), Under(kernel', fd)) && Listed(anfds, changes)
    requires kernel' == kernel || kernel' == kernel[fd := Under(kernel', fd)]
    ensures Silenced(anfds, anfds[fd := a], kernel, kernel') && Listed(anfds[fd := a], changes)
  {
    var anfds' := anfds[fd := a];
    forall g: nat
      ensures SilencedAt(At(anfds, g), At(anfds', g), Under(kernel, g), Under(kernel', g))
      ensures At(anfds', g).reify == At(anfds, g).reify
    {
      assert g != fd ==> Under(kernel', g) == Under(kernel, g) && At(anfds', g) == At(anfds, g);
    }
  }

  // Silencing changes neither where an event comes from nor whom it reaches, and what is dropped after
  // it would have been dropped before.
  lemma SourceStays(anfds0: seq<Anfd>, anfds: seq<Anfd>, kernel0: map<nat, Descriptor>, kernel: map<nat, Descriptor>,
                    e: Event)
    requires Silenced(anfds0, anfds, kernel0, kernel)
    requires At(anfds0, e.fd).reify == CLEAN ==> At(anfds0, e.fd).events == Union(At(anfds0, e.fd).head)
    ensures Source(e, Under(kernel0, e.fd)) ==> Source(e, Under(kernel, e.fd))
    ensures Delivered(anfds, kernel, e) == Delivered(anfds0, kernel0, e)
    ensures Passes(At(anfds, e.fd), Under(kernel, e.fd), e) ==> Passes(At(anfds0, e.fd), Under(kernel0, e.fd), e)
  {
    var a := At(anfds0, e.fd);
    assert SilencedAt(a, At(anfds, e.fd), Under(kernel0, e.fd), Under(kernel, e.fd));
    if a.reify == CLEAN && a.events == NONE {
      NobodyWakes(a.head, e.got, Some(e.file));
    }
  }

  lemma SilencedTwice(anfds0: seq<Anfd>, anfds1: seq<Anfd>, anfds: seq<Anfd>,
                      kernel0: map<nat, Descriptor>, kernel1: map<nat, Descriptor>, kernel: map<nat, Descriptor>)
    requires Silenced(anfds0, anfds1, kernel0, kernel1) && Silenced(anfds1, anfds, kernel1, kernel)
    ensures Silenced(anfds0, anfds, kernel0, kernel)
  {
    forall g: nat ensures SilencedAt(At(anfds0, g), At(anfds, g), Under(kernel0, g), Under(kernel, g)) {
      assert SilencedAt(At(anfds0, g), At(anfds1, g), Under(kernel0, g), Under(kernel1, g));
      assert SilencedAt(At(anfds1, g), At(anfds, g), Under(kernel1, g), Under(kernel, g));
    }
  }

  ghost function AllDelivered(anfds: seq<Anfd>, kernel: map<nat, Descriptor>, events: seq<Event>): seq<Note> {
    if events == [] then []
    else AllDelivered(anfds, kernel, events[..|events| - 1]) + Delivered(anfds, kernel, events[|events| - 1])
  }

  lemma DeliveredMore(anfds: seq<Anfd>, kernel: map<nat, Descriptor>, events: seq<Event>, i: nat)
    requires i < |events|
    ensures AllDelivered(anfds, kernel, events[..i + 1])
         == AllDelivered(anfds, kernel, events[..i]) + Delivered(anfds, kernel, events[i])
  {
    assert events[..i + 1][..i] == events[..i];
  }

  // Some event of the list did not pass.
  ghost predicate Dropped(anfds: seq<Anfd>, kernel: map<nat, Descriptor>, events: seq<Event>) {
    exists e :: e in events && !Passes(At(anfds, e.fd), Under(kernel, e.fd), e)
  }

  lemma DroppedMore(anfds: seq<Anfd>, kernel: map<nat, Descriptor>, events: seq<Event>, i: nat)
    requires i < |events| && Dropped(anfds, kernel, events[..i + 1])
    ensures var e := events[i];
      Dropped(anfds, kernel, events[..i]) || !Passes(At(anfds, e.fd), Under(kernel, e.fd), e)
  {
    var e :| e in events[..i + 1] && !Passes(At(anfds, e.fd), Under(kernel, e.fd), e);
    if e != events[i] {
      assert e in events[..i];
    }
  }

  // What is fed for a descriptor the kernel cannot poll: it is always ready.
  ghost function Always(anfds: seq<Anfd>, kernel: map<nat, Descriptor>, fd: nat): seq<Note> {
    var a := At(anfds, fd);
    if a.emask == Eperm && a.events != NONE && a.reify == CLEAN
    then Wakes(a.head, a.events, Under(kernel, fd).file)
    else []
  }

  ghost function AllAlways(anfds: seq<Anfd>, kernel: map<nat, Descriptor>, fds: seq<nat>): seq<Note> {
    if fds == [] then [] else AllAlways(anfds, kernel, fds[1..]) + Always(anfds, kernel, fds[0])
  }

  lemma AlwaysMore(anfds: seq<Anfd>, kernel: map<nat, Descriptor>, fds: seq<nat>, i: nat)
    requires i < |fds|
    ensures AllAlways(anfds, kernel, fds[i..]) == AllAlways(anfds, kernel, fds[i + 1..]) + Always(anfds, kernel, fds[i])
  {
    assert fds[i..][1..] == fds[i + 1..];
  }

  // A remembered mask may be forgotten, except of a descriptor that is fed for always.
  ghost predicate Forgets(anfds0: seq<Anfd>, anfds: seq<Anfd>) {
    && |anfds| == |anfds0|
    && forall g: nat :: ForgetsAt(At(anfds0, g), At(anfds, g))
  }

  ghost predicate ForgetsAt(a0: Anfd, a: Anfd) {
    a == a0 || (a == a0.(emask := Known(NONE)) && !(a0.emask == Eperm && a0.events != NONE))
  }

  lemma ForgetOk(fd: nat, a: Anfd, d: Descriptor, s: Standing, listed: bool)
    requires FdOk(fd, a, d, s, listed) && !(a.emask == Eperm && a.events != NONE)
    ensures FdOk(fd, a.(emask := Known(NONE)), d, s.(asks := s.asks + [FORGOTTEN]), false)
  {
    ExplainedMore(a.emask, a.egen, d, s.asks, FORGOTTEN, d);
  }

  lemma SwapRemoved(s: seq<nat>, i: nat)
    requires i < |s|
    ensures var r := s[i := s[|s| - 1]][..|s| - 1]; r[..i] == s[..i] && forall x | x != s[i] :: x in s <==> x in r
  {
    var r := s[i := s[|s| - 1]][..|s| - 1];
    forall x | x in s && x != s[i] ensures x in r {
      var k :| 0 <= k < |s| && s[k] == x;
      assert k == |s| - 1 ==> r[i] == x;
      assert k < |s| - 1 ==> r[k] == x;
    }
  }

  lemma AlwaysStays(anfds0: seq<Anfd>, anfds: seq<Anfd>, kernel: map<nat, Descriptor>, fd: nat)
    requires Forgets(anfds0, anfds)
    ensures Always(anfds, kernel, fd) == Always(anfds0, kernel, fd)
  {
    assert ForgetsAt(At(anfds0, fd), At(anfds, fd));
  }

  lemma ForgetsTwice(anfds0: seq<Anfd>, anfds1: seq<Anfd>, anfds: seq<Anfd>)
    requires Forgets(anfds0, anfds1) && Forgets(anfds1, anfds)
    ensures Forgets(anfds0, anfds)
  {
    forall g: nat ensures ForgetsAt(At(anfds0, g), At(anfds, g)) {
      assert ForgetsAt(At(anfds0, g), At(anfds1, g)) && ForgetsAt(At(anfds1, g), At(anfds, g));
    }
  }

  // Nothing has happened to the numbers but asking.
  ghost predicate SameTrust(standing0: map<nat, Standing>, standing: map<nat, Standing>) {
    forall g: nat :: Stand(standing, g) == Stand(standing0, g).(asks := Stand(standing, g).asks)
  }

  ghost predicate NoneAstray(standing: map<nat, Standing>) {
    forall g: nat :: !Stand(standing, g).astray
  }

  lemma StillNoneAstray(standing0: map<nat, Standing>, standing: map<nat, Standing>)
    requires SameTrust(standing0, standing) && NoneAstray(standing0)
    ensures NoneAstray(standing)
  {
    forall g: nat ensures !Stand(standing, g).astray {
      assert Stand(standing, g) == Stand(standing0, g).(asks := Stand(standing, g).asks);
    }
  }

  lemma TrustStays(standing: map<nat, Standing>, fd: nat, asks: seq<Ask>)
    ensures SameTrust(standing, standing[fd := Stand(standing, fd).(asks := asks)])
  {
    var standing' := standing[fd := Stand(standing, fd).(asks := asks)];
    forall g: nat ensures Stand(standing', g) == Stand(standing, g).(asks := Stand(standing', g).asks) {
    }
  }

  lemma SilencedNothing(anfds: seq<Anfd>, kernel: map<nat, Descriptor>, standing: map<nat, Standing>)
    ensures Silenced(anfds, anfds, kernel, kernel) && AllHushed(anfds, kernel, standing, kernel, standing, [])
    ensures Forgets(anfds, anfds) && AllLapsed(anfds, standing, standing, [])
  {
    forall g: nat ensures Stand(standing, g).asks + [] == Stand(standing, g).asks {
    }
  }

  lemma HasSource(anfds: seq<Anfd>, kernel: map<nat, Descriptor>, standing: map<nat, Standing>, eperms: seq<nat>,
                  e: Event)
    requires AllOk(anfds, kernel, standing, eperms) && Reported(e, Under(kernel, e.fd))
    ensures e.fd < |anfds| && Source(e, Under(kernel, e.fd))
    ensures At(anfds, e.fd).reify == CLEAN ==> At(anfds, e.fd).events == Union(At(anfds, e.fd).head)
    ensures forall f | f in Under(kernel, e.fd).entries :: f.pollable
    ensures forall w | w in At(anfds, e.fd).head :: w.fd == e.fd
  {
    var fd := e.fd;
    assert NumberOk(anfds, kernel, standing, eperms, fd);
    ExplainedBelow(At(anfds, fd).emask, At(anfds, fd).egen, Under(kernel, fd), Stand(standing, fd).asks);
  }

  // One event silenced.
  lemma SilencedOk(anfds: seq<Anfd>, anfds': seq<Anfd>, kernel: map<nat, Descriptor>, kernel': map<nat, Descriptor>,
                   standing: map<nat, Standing>, standing': map<nat, Standing>, eperms: seq<nat>, changes: seq<nat>,
                   e: Event)
    requires AllOk(anfds, kernel, standing, eperms) && Listed(anfds, changes)
    requires e.fd < |anfds| && Source(e, Under(kernel, e.fd)) && anfds[e.fd].egen == e.tag
    requires var fd, a, d, s := e.fd, anfds[e.fd], Under(kernel, e.fd), Stand(standing, e.fd);
      && anfds' == anfds[fd := a.(emask := Known(a.events))] && kernel' == kernel[fd := Silence(d, a.events, e.tag).1]
      && standing' == standing[fd := s.(asks := s.asks + [Hush(d, a.events)])]
    ensures AllOk(anfds', kernel', standing', eperms) && Listed(anfds', changes)
    ensures Silenced(anfds, anfds', kernel, kernel')
    ensures NoneAstray(standing) ==> NoneAstray(standing')
    ensures Silence(Under(kernel, e.fd), anfds[e.fd].events, e.tag).0 == SUCCESS <==> Under(kernel, e.fd).Live()
  {
    var fd, a, d, s := e.fd, anfds[e.fd], Under(kernel, e.fd), Stand(standing, e.fd);
    assert NumberOk(anfds, kernel, standing, eperms, fd);
    SilenceOk(fd, a, d, s, e, fd in eperms);
    UpdateKeeps(anfds, kernel, standing, eperms, kernel', standing', eperms, fd, anfds'[fd]);
    SilencedOne(anfds, kernel, kernel', changes, fd, anfds'[fd]);
    TrustStays(standing, fd, s.asks + [Hush(d, a.events)]);
    if NoneAstray(standing) { StillNoneAstray(standing, standing'); }
  }

  // One number taken off the list of always-ready ones.
  lemma ForgottenOk(anfds: seq<Anfd>, anfds': seq<Anfd>, kernel: map<nat, Descriptor>, standing: map<nat, Standing>,
                    standing': map<nat, Standing>, eperms: seq<nat>, eperms': seq<nat>, changes: seq<nat>, i: nat)
    requires AllOk(anfds, kernel, standing, eperms) && Listed(anfds, changes) && i < |eperms| && eperms[i] < |anfds|
    requires !(anfds[eperms[i]].emask == Eperm && anfds[eperms[i]].events != NONE)
    requires var fd := eperms[i];
      && anfds' == anfds[fd := anfds[fd].(emask := Known(NONE))]
      && standing' == standing[fd := Stand(standing, fd).(asks := Stand(standing, fd).asks + [FORGOTTEN])]
      && eperms' == eperms[i := eperms[|eperms| - 1]][..|eperms| - 1]
    ensures AllOk(anfds', kernel, standing', eperms') && Listed(anfds', changes) && eperms'[..i] == eperms[..i]
    ensures Forgets(anfds, anfds')
    ensures NoneAstray(standing) ==> NoneAstray(standing')
  {
    var fd, s := eperms[i], Stand(standing, eperms[i]);
    assert NumberOk(anfds, kernel, standing, eperms, fd);
    ForgetOk(fd, anfds[fd], Under(kernel, fd), s, fd in eperms);
    SwapRemoved(eperms, i);
    UpdateKeeps(anfds, kernel, standing, eperms, kernel, standing', eperms', fd, anfds'[fd]);
    ForgetsOne(anfds, changes, fd);
    TrustStays(standing, fd, s.asks + [FORGOTTEN]);
    if NoneAstray(standing) { StillNoneAstray(standing, standing'); }
  }

  lemma ForgetsOne(anfds: seq<Anfd>, changes: seq<nat>, fd: nat)
    requires fd < |anfds| && Listed(anfds, changes) && !(anfds[fd].emask == Eperm && anfds[fd].events != NONE)
    ensures var anfds' := anfds[fd := anfds[fd].(emask := Known(NONE))];
      Listed(anfds', changes) && Forgets(anfds, anfds')
  {
    var anfds' := anfds[fd := anfds[fd].(emask := Known(NONE))];
    forall g: nat ensures At(anfds', g).reify == At(anfds, g).reify && ForgetsAt(At(anfds, g), At(anfds', g)) {
    }
  }

  // ---------- what a poll asks ----------

  // Whether an event makes the loop silence what it comes from.
  predicate Unwanted(a: Anfd, e: Event) {
    a.egen == e.tag && And(e.got, a.events) != e.got
  }

  // What the kernel holds under a number, and what was asked under it.
  datatype Hushed = Hushed(d: Descriptor, asks: seq<Ask>)

  function HushOne(a: Anfd, h: Hushed, e: Event): Hushed {
    Hushed(Silence(h.d, a.events, e.tag).1, h.asks + [Hush(h.d, a.events)])
  }

  // The same after the events of one epoll_wait: those of this number that nobody wants are silenced
  // one after the other.
  function HushAll(a: Anfd, d: Descriptor, asks: seq<Ask>, events: seq<Event>, fd: nat): Hushed {
    if events == [] then Hushed(d, asks)
    else
      var h, e := HushAll(a, d, asks, events[..|events| - 1], fd), events[|events| - 1];
      if e.fd == fd && Unwanted(a, e) then HushOne(a, h, e) else h
  }

  ghost predicate HushedAt(a: Anfd, d0: Descriptor, s0: Standing, d: Descriptor, s: Standing, events: seq<Event>,
                           fd: nat) {
    Hushed(d, s.asks) == HushAll(a, d0, s0.asks, events, fd) && s == s0.(asks := s.asks)
  }

  ghost predicate AllHushed(anfds: seq<Anfd>, kernel0: map<nat, Descriptor>, standing0: map<nat, Standing>,
                            kernel: map<nat, Descriptor>, standing: map<nat, Standing>, events: seq<Event>) {
    forall g: nat ::
      HushedAt(At(anfds, g), Under(kernel0, g), Stand(standing0, g), Under(kernel, g), Stand(standing, g), events, g)
  }

  // What one event does to the kernel and to what was asked.
  ghost predicate Hushes(a: Anfd, e: Event, kernel0: map<nat, Descriptor>, kernel: map<nat, Descriptor>,
                         standing0: map<nat, Standing>, standing: map<nat, Standing>) {
    var d, s := Under(kernel0, e.fd), Stand(standing0, e.fd);
    if Unwanted(a, e)
    then kernel == kernel0[e.fd := Silence(d, a.events, e.tag).1]
         && standing == standing0[e.fd := s.(asks := s.asks + [Hush(d, a.events)])]
    else kernel == kernel0 && standing == standing0
  }

  lemma HushMore(anfds0: seq<Anfd>, anfds1: seq<Anfd>, kernel0: map<nat, Descriptor>, kernel1: map<nat, Descriptor>,
                 kernel: map<nat, Descriptor>, standing0: map<nat, Standing>, standing1: map<nat, Standing>,
                 standing: map<nat, Standing>, events: seq<Event>, i: nat)
    requires i < |events| && Silenced(anfds0, anfds1, kernel0, kernel1)
    requires AllHushed(anfds0, kernel0, standing0, kernel1, standing1, events[..i])
    requires Hushes(At(anfds1, events[i].fd), events[i], kernel1, kernel, standing1, standing)
    ensures AllHushed(anfds0, kernel0, standing0, kernel, standing, events[..i + 1])
  {
    var e, more := events[i], events[..i + 1];
    assert more[..i] == events[..i];
    assert SilencedAt(At(anfds0, e.fd), At(anfds1, e.fd), Under(kernel0, e.fd), Under(kernel1, e.fd));
    forall g: nat
      ensures HushedAt(At(anfds0, g), Under(kernel0, g), Stand(standing0, g), Under(kernel, g), Stand(standing, g),
                       more, g)
    {
      assert HushedAt(At(anfds0, g), Under(kernel0, g), Stand(standing0, g), Under(kernel1, g), Stand(standing1, g),
                      events[..i], g);
      if g != e.fd {
        assert Under(kernel, g) == Under(kernel1, g) && Stand(standing, g) == Stand(standing1, g);
      }
    }
  }

  // Whether a number on the list of always-ready ones stays there.
  predicate Remains(a: Anfd) {
    a.emask == Eperm && a.events != NONE
  }

  // What is forgotten of a number in the last loop of epoll_poll, once for each time it is listed.
  function Lapses(a: Anfd, fds: seq<nat>, fd: nat): seq<Ask> {
    if fds == [] then [] else Lapses(a, fds[1..], fd) + if fds[0] == fd && !Remains(a) then [FORGOTTEN] else []
  }

  ghost predicate LapsedAt(a: Anfd, s0: Standing, s: Standing, fds: seq<nat>, fd: nat) {
    s == s0.(asks := s0.asks + Lapses(a, fds, fd))
  }

  ghost predicate AllLapsed(anfds: seq<Anfd>, standing0: map<nat, Standing>, standing: map<nat, Standing>,
                            fds: seq<nat>) {
    forall g: nat :: LapsedAt(At(anfds, g), Stand(standing0, g), Stand(standing, g), fds, g)
  }

  // What one turn of that loop does to what was asked.
  ghost predicate LapsesOne(a: Anfd, fd: nat, standing0: map<nat, Standing>, standing: map<nat, Standing>) {
    standing == if Remains(a) then standing0
                else standing0[fd := Stand(standing0, fd).(asks := Stand(standing0, fd).asks + [FORGOTTEN])]
  }

  lemma LapseMore(anfds0: seq<Anfd>, anfds1: seq<Anfd>, standing0: map<nat, Standing>, standing1: map<nat, Standing>,
                  standing: map<nat, Standing>, fds: seq<nat>, i: nat)
    requires i < |fds| && Forgets(anfds0, anfds1) && AllLapsed(anfds0, standing0, standing1, fds[i + 1..])
    requires LapsesOne(At(anfds1, fds[i]), fds[i], standing1, standing)
    ensures AllLapsed(anfds0, standing0, standing, fds[i..])
  {
    var fd, rest := fds[i], fds[i..];
    assert rest[1..] == fds[i + 1..] && ForgetsAt(At(anfds0, fd), At(anfds1, fd));
    forall g: nat ensures LapsedAt(At(anfds0, g), Stand(standing0, g), Stand(standing, g), rest, g) {
      assert LapsedAt(At(anfds0, g), Stand(standing0, g), Stand(standing1, g), fds[i + 1..], g);
      LapseAssoc(Stand(standing0, g).asks, Lapses(At(anfds0, g), fds[i + 1..], g));
    }
  }

  lemma LapseAssoc(a: seq<Ask>, b: seq<Ask>)
    ensures (a + b) + [FORGOTTEN] == a + (b + [FORGOTTEN]) && a + (b + []) == a + b
  {
    assert b + [] == b;
  }

  // What was asked under a number after a poll.
  function PollAsks(a: Anfd, d: Descriptor, asks: seq<Ask>, events: seq<Event>, eperms: seq<nat>, fd: nat): seq<Ask> {
    var asks1 := HushAll(a, d, asks, events, fd).asks;
    asks1 + Lapses(a.(emask := Remembered(asks1)), eperms, fd)
  }

  ghost predicate PolledAt(a: Anfd, d: Descriptor, s0: Standing, s: Standing, events: seq<Event>, eperms: seq<nat>,
                           fd: nat) {
    s == s0.(asks := PollAsks(a, d, s0.asks, events, eperms, fd))
  }

  lemma PolledOnce(anfds0: seq<Anfd>, anfds1: seq<Anfd>, kernel0: map<nat, Descriptor>, kernel: map<nat, Descriptor>,
                   standing0: map<nat, Standing>, standing1: map<nat, Standing>, standing: map<nat, Standing>,
                   eperms: seq<nat>, events: seq<Event>)
    requires AllOk(anfds1, kernel, standing1, eperms) && Silenced(anfds0, anfds1, kernel0, kernel)
    requires AllHushed(anfds0, kernel0, standing0, kernel, standing1, events)
    requires AllLapsed(anfds1, standing1, standing, eperms)
    ensures forall g: nat ::
              PolledAt(At(anfds0, g), Under(kernel0, g), Stand(standing0, g), Stand(standing, g), events, eperms, g)
  {
    forall g: nat
      ensures PolledAt(At(anfds0, g), Under(kernel0, g), Stand(standing0, g), Stand(standing, g), events, eperms, g)
    {
      assert NumberOk(anfds1, kernel, standing1, eperms, g);
      assert SilencedAt(At(anfds0, g), At(anfds1, g), Under(kernel0, g), Under(kernel, g));
      assert HushedAt(At(anfds0, g), Under(kernel0, g), Stand(standing0, g), Under(kernel, g), Stand(standing1, g),
                      events, g);
      assert LapsedAt(At(anfds1, g), Stand(standing1, g), Stand(standing, g), eperms, g);
    }
  }

  // A poll does not spoil what was asked for the open file alone: it stays so, or the mask is forgotten.
  lemma {:induction false} HushesAlone(a: Anfd, d: Descriptor, asks: seq<Ask>, events: seq<Event>, fd: nat, f: File,
                                       k: nat)
    requires AloneFrom(asks, f, k) && d.file == Some(f) && f.pollable && d.Live() && a.events != NONE
    ensures var h := HushAll(a, d, asks, events, fd); AloneFrom(h.asks, f, k) && h.d.Live() && h.d.file == d.file
  {
    if events != [] {
      HushesAlone(a, d, asks, events[..|events| - 1], fd, f, k);
    }
  }

  lemma {:induction false} LapsesForget(a: Anfd, fds: seq<nat>, fd: nat)
    ensures var l := Lapses(a, fds, fd); l == [] || l[|l| - 1] == FORGOTTEN
  {
    if fds != [] { LapsesForget(a, fds[1..], fd); }
  }

  lemma PollKeepsAlone(a: Anfd, d: Descriptor, asks: seq<Ask>, events: seq<Event>, eperms: seq<nat>, fd: nat, f: File)
    requires Alone(asks, f) && d.file == Some(f) && f.pollable && d.Live() && a.events != NONE
    ensures var asks' := PollAsks(a, d, asks, events, eperms, fd); Alone(asks', f) || Remembered(asks') == Known(NONE)
  {
    var k: nat :| AloneFrom(asks, f, k);
    HushesAlone(a, d, asks, events, fd, f, k);
    var asks1 := HushAll(a, d, asks, events, fd).asks;
    var l := Lapses(a.(emask := Remembered(asks1)), eperms, fd);
    LapsesForget(a.(emask := Remembered(asks1)), eperms, fd);
    if l == [] {
      assert asks1 + l == asks1;
    }
  }

  // ---------- what a poll feeds ----------

  // The note is for an active watcher, and if its number is in line, about the file the number means.
  ghost predicate Justified(n: Note, anfds: seq<Anfd>, kernel: map<nat, Descriptor>) {
    && n.Ready? && n.w in At(anfds, n.w.fd).head && At(anfds, n.w.fd).reify == CLEAN
    && (n.revents.read || n.revents.write)
    && (n.revents.read ==> n.w.events.read) && (n.revents.write ==> n.w.events.write)
    && (InLine(At(anfds, n.w.fd), Under(kernel, n.w.fd)) ==> n.source.Some? && Under(kernel, n.w.fd).file == n.source)
  }

  // The watcher wants some of `got`, of file `f` open under number `fd`, which is in line.
  ghost predicate Wanted(w: Io, got: Events, anfds: seq<Anfd>, kernel: map<nat, Descriptor>, fd: nat, f: File) {
    && w in At(anfds, fd).head && At(anfds, fd).reify == CLEAN
    && ((w.events.read && got.read) || (w.events.write && got.write))
    && Under(kernel, fd).file == Some(f) && InLine(At(anfds, fd), Under(kernel, fd))
  }

  lemma {:induction false} DeliveredSays(anfds: seq<Anfd>, kernel: map<nat, Descriptor>, standing: map<nat, Standing>,
                                         eperms: seq<nat>, events: seq<Event>, n: Note)
    requires AllOk(anfds, kernel, standing, eperms) && n in AllDelivered(anfds, kernel, events)
    requires forall e | e in events :: Reported(e, Under(kernel, e.fd))
    ensures Justified(n, anfds, kernel)
  {
    var last := |events| - 1;
    var e := events[last];
    if n in Delivered(anfds, kernel, e) {
      var a, d := At(anfds, e.fd), Under(kernel, e.fd);
      HasSource(anfds, kernel, standing, eperms, e);
      WakesSays(a.head, e.got, Some(e.file), n.w);
      if InLine(a, d) {
        PassedOn(a, d, e);
      }
    } else {
      DeliveredSays(anfds, kernel, standing, eperms, events[..last], n);
    }
  }

  lemma {:induction false} EventArrives(anfds: seq<Anfd>, kernel: map<nat, Descriptor>, standing: map<nat, Standing>,
                                        eperms: seq<nat>, events: seq<Event>, e: Event, w: Io)
    requires AllOk(anfds, kernel, standing, eperms) && Reported(e, Under(kernel, e.fd))
    requires e in events && Wanted(w, e.got, anfds, kernel, e.fd, e.file)
    ensures Ready(w, And(w.events, e.got), Some(e.file)) in AllDelivered(anfds, kernel, events)
  {
    var last := |events| - 1;
    if e == events[last] {
      HasSource(anfds, kernel, standing, eperms, e);
      PassedOn(At(anfds, e.fd), Under(kernel, e.fd), e);
      WakesSays(At(anfds, e.fd).head, e.got, Some(e.file), w);
    } else {
      assert events == events[..last] + [events[last]];
      EventArrives(anfds, kernel, standing, eperms, events[..last], e, w);
    }
  }

  lemma {:induction false} AlwaysSays(anfds0: seq<Anfd>, anfds: seq<Anfd>, kernel0: map<nat, Descriptor>,
                                      kernel: map<nat, Descriptor>, standing: map<nat, Standing>, eperms: seq<nat>,
                                      fds: seq<nat>, n: Note)
    requires AllOk(anfds, kernel, standing, eperms) && Silenced(anfds0, anfds, kernel0, kernel)
      && n in AllAlways(anfds, kernel, fds)
    ensures Justified(n, anfds0, kernel0)
  {
    var fd := fds[0];
    if n in Always(anfds, kernel, fd) {
      var a, d := At(anfds, fd), Under(kernel, fd);
      assert NumberOk(anfds, kernel, standing, eperms, fd);
      assert SilencedAt(At(anfds0, fd), a, Under(kernel0, fd), d);
      WakesSays(a.head, a.events, d.file, n.w);
    } else {
      AlwaysSays(anfds0, anfds, kernel0, kernel, standing, eperms, fds[1..], n);
    }
  }

  lemma {:induction false} WatcherInUnion(head: seq<Io>, w: Io)
    requires w in head
    ensures And(w.events, Union(head)) == w.events
  {
    var last := |head| - 1;
    if w != head[last] {
      assert head == head[..last] + [head[last]];
      WatcherInUnion(head[..last], w);
    }
  }

  lemma {:induction false} OneOfAlways(anfds: seq<Anfd>, kernel: map<nat, Descriptor>, fds: seq<nat>, fd: nat, n: Note)
    requires fd in fds && n in Always(anfds, kernel, fd)
    ensures n in AllAlways(anfds, kernel, fds)
  {
    if fd != fds[0] {
      OneOfAlways(anfds, kernel, fds[1..], fd, n);
    }
  }

  lemma AlwaysArrives(anfds0: seq<Anfd>, anfds: seq<Anfd>, kernel0: map<nat, Descriptor>, kernel: map<nat, Descriptor>,
                      standing: map<nat, Standing>, eperms: seq<nat>, w: Io, f: File)
    requires AllOk(anfds, kernel, standing, eperms) && Silenced(anfds0, anfds, kernel0, kernel)
    requires Wanted(w, w.events, anfds0, kernel0, w.fd, f) && !f.pollable
    ensures Ready(w, w.events, Some(f)) in AllAlways(anfds, kernel, eperms)
  {
    var fd := w.fd;
    var a, d := At(anfds, fd), Under(kernel, fd);
    assert NumberOk(anfds, kernel, standing, eperms, fd);
    assert SilencedAt(At(anfds0, fd), a, Under(kernel0, fd), d);
    WatcherInUnion(a.head, w);
    WakesSays(a.head, a.events, d.file, w);
    OneOfAlways(anfds, kernel, eperms, fd, Ready(w, w.events, Some(f)));
  }

  // Whatever the watcher of a number in line is fed comes from the file the number means now.
  ghost predicate OnlyJustified(notes: seq<Note>, anfds: seq<Anfd>, kernel: map<nat, Descriptor>) {
    forall n | n in notes :: Justified(n, anfds, kernel)
  }

  // The watcher is told just what it wants of the event.
  ghost predicate Notified(notes: seq<Note>, w: Io, e: Event) {
    exists r :: IsCommon(r, w.events, e.got) && Ready(w, r, Some(e.file)) in notes
  }

  // Whatever is fed for events is just what the watcher wants of one of them.
  ghost predicate OnlyCaused(notes: seq<Note>, events: seq<Event>) {
    forall n | n in notes :: n.Ready? && exists e :: e in events && Causes(e, n)
  }

  predicate Causes(e: Event, n: Note)
    requires n.Ready?
  {
    e.fd == n.w.fd && n.source == Some(e.file) && IsCommon(n.revents, n.w.events, e.got)
  }

  lemma {:induction false} DeliveredIsCaused(anfds: seq<Anfd>, kernel: map<nat, Descriptor>,
                                             standing: map<nat, Standing>, eperms: seq<nat>, events: seq<Event>,
                                             n: Note)
    requires AllOk(anfds, kernel, standing, eperms) && n in AllDelivered(anfds, kernel, events)
    ensures n.Ready? && exists e :: e in events && Causes(e, n)
  {
    var last := |events| - 1;
    var e := events[last];
    if n in Delivered(anfds, kernel, e) {
      assert NumberOk(anfds, kernel, standing, eperms, e.fd);
      WakesSays(At(anfds, e.fd).head, e.got, Some(e.file), n.w);
      assert e in events && Causes(e, n);
    } else {
      DeliveredIsCaused(anfds, kernel, standing, eperms, events[..last], n);
    }
  }

  // Every event of a file that is still open under a number in line reaches every watcher that wants it.
  ghost predicate EventsArrive(notes: seq<Note>, anfds: seq<Anfd>, kernel: map<nat, Descriptor>, events: seq<Event>) {
    forall e, w | e in events && Wanted(w, e.got, anfds, kernel, e.fd, e.file) ::
      Notified(notes, w, e)
  }

  // Every watcher of a file that is always ready is fed.
  ghost predicate AlwaysReadyArrive(notes: seq<Note>, anfds: seq<Anfd>, kernel: map<nat, Descriptor>) {
    forall w: Io, f: File | Wanted(w, w.events, anfds, kernel, w.fd, f) && !f.pollable ::
      Ready(w, w.events, Some(f)) in notes
  }

  lemma PollFeeds(anfds0: seq<Anfd>, anfds: seq<Anfd>, kernel0: map<nat, Descriptor>, kernel: map<nat, Descriptor>,
                  standing0: map<nat, Standing>, standing: map<nat, Standing>, eperms: seq<nat>, events: seq<Event>)
    requires AllOk(anfds0, kernel0, standing0, eperms) && AllOk(anfds, kernel, standing, eperms)
      && Silenced(anfds0, anfds, kernel0, kernel)
    requires forall e | e in events :: Reported(e, Under(kernel0, e.fd))
    ensures var notes := AllDelivered(anfds0, kernel0, events) + AllAlways(anfds, kernel, eperms);
      OnlyJustified(notes, anfds0, kernel0) && EventsArrive(notes, anfds0, kernel0, events)
        && AlwaysReadyArrive(notes, anfds0, kernel0)
  {
    var delivered, always := AllDelivered(anfds0, kernel0, events), AllAlways(anfds, kernel, eperms);
    forall n | n in delivered ensures Justified(n, anfds0, kernel0) {
      DeliveredSays(anfds0, kernel0, standing0, eperms, events, n);
    }
    forall n | n in always ensures Justified(n, anfds0, kernel0) {
      AlwaysSays(anfds0, anfds, kernel0, kernel, standing, eperms, eperms, n);
    }
    forall e, w | e in events && Wanted(w, e.got, anfds0, kernel0, e.fd, e.file)
      ensures Notified(delivered + always, w, e)
    {
      EventArrives(anfds0, kernel0, standing0, eperms, events, e, w);
      assert IsCommon(And(w.events, e.got), w.events, e.got);
    }
    forall w: Io, f: File | Wanted(w, w.events, anfds0, kernel0, w.fd, f) && !f.pollable
      ensures Ready(w, w.events, Some(f)) in always
    {
      AlwaysArrives(anfds0, anfds, kernel0, kernel, standing, eperms, w, f);
    }
  }

  // What was in line stays so through a poll.
  lemma StillInLine(anfds0: seq<Anfd>, anfds1: seq<Anfd>, anfds: seq<Anfd>, kernel0: map<nat, Descriptor>,
                    kernel: map<nat, Descriptor>)
    requires Silenced(anfds0, anfds1, kernel0, kernel) && Forgets(anfds1, anfds)
    ensures forall g: nat | InLine(At(anfds0, g), Under(kernel0, g)) :: InLine(At(anfds, g), Under(kernel, g))
  {
    forall g: nat | InLine(At(anfds0, g), Under(kernel0, g)) ensures InLine(At(anfds, g), Under(kernel, g)) {
      assert SilencedAt(At(anfds0, g), At(anfds1, g), Under(kernel0, g), Under(kernel, g));
      assert ForgetsAt(At(anfds1, g), At(anfds, g));
    }
  }

  // ---------- fork, open and close ----------

  function Rearmed(a: Anfd): Anfd {
    if a.events != NONE then Changed(a.(events := NONE, emask := Known(NONE)), true) else a
  }

  function Emptied(kernel: map<nat, Descriptor>): map<nat, Descriptor> {
    map g | g in kernel :: kernel[g].(entries := map[])
  }

  // What was asked under each number, after fd_rearm_all.
  function Cleansed(anfds: seq<Anfd>, standing: map<nat, Standing>): map<nat, Standing> {
    standing + map g: nat | g < |anfds| && anfds[g].events != NONE ::
      Stand(standing, g).(asks := Stand(standing, g).asks + [FORGOTTEN])
  }

  // The same for one number: its mask is forgotten if it had events.
  function Rested(a: Anfd, s: Standing): Standing {
    if a.events != NONE then s.(asks := s.asks + [FORGOTTEN]) else s
  }

  lemma CleansedSays(anfds: seq<Anfd>, standing: map<nat, Standing>, g: nat)
    ensures Stand(Cleansed(anfds, standing), g) == Rested(At(anfds, g), Stand(standing, g))
  {
  }

  lemma RearmedOne(fd: nat, a: Anfd, d: Descriptor, s: Standing, s': Standing, listed: bool)
    requires FdOk(fd, a, d, s, listed)
    requires s' == Rested(a, s)
    ensures FdOk(fd, Rearmed(a), d.(entries := map[]), s', listed)
  {
    if a.events != NONE {
      ExplainedMore(a.emask, a.egen, d, s.asks, FORGOTTEN, d.(entries := map[]));
    }
  }

  lemma RearmedOk(anfds0: seq<Anfd>, anfds: seq<Anfd>, kernel0: map<nat, Descriptor>, kernel: map<nat, Descriptor>,
                  standing0: map<nat, Standing>, standing: map<nat, Standing>, eperms: seq<nat>)
    requires AllOk(anfds0, kernel0, standing0, eperms) && |anfds| == |anfds0|
    requires forall g: nat :: At(anfds, g) == Rearmed(At(anfds0, g))
    requires kernel == Emptied(kernel0) && standing == Cleansed(anfds0, standing0)
    ensures AllOk(anfds, kernel, standing, eperms)
    ensures forall g: nat :: Under(kernel, g) == Under(kernel0, g).(entries := map[])
    ensures forall g: nat :: Stand(standing, g) == Rested(At(anfds0, g), Stand(standing0, g))
    ensures NoneAstray(standing0) ==> NoneAstray(standing)
  {
    forall g: nat ensures Under(kernel, g) == Under(kernel0, g).(entries := map[]) {
    }
    forall g: nat
      ensures NumberOk(anfds, kernel, standing, eperms, g)
      ensures Stand(standing, g) == Rested(At(anfds0, g), Stand(standing0, g))
    {
      assert NumberOk(anfds0, kernel0, standing0, eperms, g);
      CleansedSays(anfds0, standing0, g);
      RearmedOne(g, At(anfds0, g), Under(kernel0, g), Stand(standing0, g), Stand(standing, g), g in eperms);
    }
    if NoneAstray(standing0) { StillNoneAstray(standing0, standing); }
  }

  // The standing after a fork.
  lemma Forgotten(anfds0: seq<Anfd>, anfds: seq<Anfd>, kernel0: map<nat, Descriptor>, kernel: map<nat, Descriptor>,
                  standing0: map<nat, Standing>, eperms: seq<nat>)
    returns (standing: map<nat, Standing>)
    requires AllOk(anfds0, kernel0, standing0, eperms) && |anfds| == |anfds0|
    requires forall g: nat :: At(anfds, g) == Rearmed(At(anfds0, g))
    requires kernel == Emptied(kernel0)
    ensures AllOk(anfds, kernel, standing, eperms)
    ensures forall g: nat :: Under(kernel, g) == Under(kernel0, g).(entries := map[])
    ensures forall g: nat :: Stand(standing, g) == Rested(At(anfds0, g), Stand(standing0, g))
    ensures NoneAstray(standing0) ==> NoneAstray(standing)
  {
    standing := Cleansed(anfds0, standing0);
    RearmedOk(anfds0, anfds, kernel0, kernel, standing0, standing, eperms);
  }

  lemma Shrinks(a: Anfd, d: Descriptor, d': Descriptor, asks: seq<Ask>)
    requires Explained(a.emask, a.egen, d, asks)
    requires forall f | f in d'.entries :: f in d.entries && d'.entries[f] == d.entries[f]
    ensures Explained(a.emask, a.egen, d', asks)
    ensures d'.file == d.file && (d.Live() ==> d'.Live()) && Engaged(a, d) ==> Engaged(a, d')
  {
    forall f | f in d'.entries ensures EntryOk(f, d'.entries[f], asks) {
    }
    forall f | Current(a.egen, d', f) ensures Current(a.egen, d, f) {
    }
  }

  lemma KernelKeeps(anfds: seq<Anfd>, kernel: map<nat, Descriptor>, standing: map<nat, Standing>, eperms: seq<nat>,
                    fd: nat, d: Descriptor, s: Standing)
    requires AllOk(anfds, kernel, standing, eperms)
    requires FdOk(fd, At(anfds, fd), d, s, fd in eperms) && (fd >= |anfds| ==> d.entries == map[])
    ensures AllOk(anfds, kernel[fd := d], standing[fd := s], eperms)
    ensures s == Stand(standing, fd) ==> AllOk(anfds, kernel[fd := d], standing, eperms)
    ensures NoneAstray(standing) && !s.astray ==> NoneAstray(standing[fd := s])
  {
    var kernel', standing' := kernel[fd := d], standing[fd := s];
    forall g: nat
      ensures NumberOk(anfds, kernel', standing', eperms, g)
      ensures s == Stand(standing, fd) ==> NumberOk(anfds, kernel', standing, eperms, g)
      ensures g != fd ==> Stand(standing', g) == Stand(standing, g)
    {
      assert NumberOk(anfds, kernel, standing, eperms, g);
      if g != fd {
        assert Under(kernel', g) == Under(kernel, g) && Stand(standing', g) == Stand(standing, g);
      }
    }
  }

  // Growing the table with zeroes.
  lemma GrownOk(anfds: seq<Anfd>, anfds': seq<Anfd>, kernel: map<nat, Descriptor>, standing: map<nat, Standing>,
                eperms: seq<nat>)
    requires AllOk(anfds, kernel, standing, eperms) && |anfds'| >= |anfds|
    requires forall g: nat :: At(anfds', g) == At(anfds, g)
    ensures AllOk(anfds', kernel, standing, eperms)
  {
    forall g: nat ensures NumberOk(anfds', kernel, standing, eperms, g) {
      assert NumberOk(anfds, kernel, standing, eperms, g);
    }
  }

  class EpollLoop {
    var anfds: seq<Anfd>
    var fdchanges: seq<nat>
    var eperms: seq<nat>
    var kernel: map<nat, Descriptor>
    var notes: seq<Note>
    var postfork: bool
    // The calls of backend_modify so far.
    var calls: seq<Call>

    ghost var standing: map<nat, Standing>
    // Every pass so far found the program proper.
    ghost var proper: bool

    ghost predicate Valid()
      reads this
    {
      AllOk(anfds, kernel, standing, eperms) && Listed(anfds, fdchanges) && (proper ==> NoneAstray(standing))
    }

    // As long as the program is proper, every number that is not closed, opened or given up since the
    // last pass and has no changes pending is in line.
    lemma ProperIsInLine(fd: nat)
      requires Valid() && proper && At(anfds, fd).reify == CLEAN && !Stand(standing, fd).renewed
      ensures InLine(At(anfds, fd), Under(kernel, fd))
    {
      assert NumberOk(anfds, kernel, standing, eperms, fd);
    }

    constructor ()
      ensures Valid() && anfds == [] && kernel == map[] && notes == [] && standing == map[] && eperms == []
      ensures !postfork && proper
    {
      anfds, fdchanges, eperms, kernel, notes, postfork := [], [], [], map[], [], false;
      standing, calls, proper := map[], [], true;
    }

    // fd_change
    method FdChange(fd: nat, fdset: bool)
      requires fd < |anfds|
      modifies this`anfds, this`fdchanges
      ensures anfds == old(anfds)[fd := Changed(old(anfds[fd]), fdset)]
      ensures fdchanges == Extended(old(fdchanges), old(anfds[fd]), fd)
    {
      var reify := anfds[fd].reify;
      anfds := anfds[fd := anfds[fd].(reify := Flags(true, reify.fdset || fdset))];
      if reify == CLEAN {
        fdchanges := fdchanges + [fd];
      }
    }

    // array_needsize for `anfds`, filling with zeroes.
    method NeedSize(fd: nat)
      requires Valid()
      modifies this`anfds
      ensures Valid() && fd < |anfds|
      ensures forall g: nat :: At(anfds, g) == old(At(anfds, g))
    {
      if fd >= |anfds| {
        var size := NextSize(16, |anfds|, fd + 1);
        anfds := anfds + seq(size - |anfds|, _ => ZERO);
        GrownOk(old(anfds), anfds, kernel, standing, eperms);
      }
    }

    // ev_io_start. `fdset`: the watcher was set up by ev_io_set since it last ran.
    method Start(w: Io, fdset: bool)
      requires Valid()
      modifies this`anfds, this`fdchanges
      ensures Valid()
      ensures var a := old(At(anfds, w.fd));
        At(anfds, w.fd) == if w in a.head then a else Changed(a.(head := [w] + a.head), fdset)
      ensures forall g: nat | g != w.fd :: At(anfds, g) == old(At(anfds, g))
    {
      if w.fd < |anfds| && w in anfds[w.fd].head { return; }
      var fd := w.fd;
      assert NumberOk(anfds, kernel, standing, eperms, fd);
      NeedSize(fd);
      ghost var was := anfds;
      assert At(was, fd) == was[fd];
      anfds := anfds[fd := anfds[fd].(head := [w] + anfds[fd].head)];
      FdChange(fd, fdset);
      assert anfds == was[fd := anfds[fd]];
      UpdateKeeps(was, kernel, standing, eperms, kernel, standing, eperms, fd, anfds[fd]);
      ListedMore(was, old(fdchanges), fd, anfds[fd]);
    }

    // The part of ev_io_stop for an active watcher.
    method Unlink(w: Io)
      requires w.fd < |anfds| && w in anfds[w.fd].head
      modifies this`anfds, this`fdchanges
      ensures anfds == old(anfds)[w.fd := Changed(old(anfds[w.fd]).(head := Without(old(anfds[w.fd].head), w)), false)]
      ensures fdchanges == Extended(old(fdchanges), old(anfds[w.fd]), w.fd)
    {
      var a := anfds[w.fd];
      anfds := anfds[w.fd := a.(head := Without(a.head, w))];
      FdChange(w.fd, false);
    }

    // ev_io_stop
    method Stop(w: Io)
      requires Valid()
      modifies this`anfds, this`fdchanges, this`notes
      ensures Valid() && notes == old(notes) + [Cleared(w)]
      ensures var a := old(At(anfds, w.fd));
        At(anfds, w.fd) == if w in a.head then Changed(a.(head := Without(a.head, w)), false) else a
      ensures w !in At(anfds, w.fd).head
      ensures forall g: nat | g != w.fd :: At(anfds, g) == old(At(anfds, g))
    {
      notes := notes + [Cleared(w)];
      if !(w.fd < |anfds| && w in anfds[w.fd].head) { return; }
      var fd := w.fd;
      assert NumberOk(anfds, kernel, standing, eperms, fd);
      Unlink(w);
      UpdateKeeps(old(anfds), kernel, standing, eperms, kernel, standing, eperms, fd, anfds[fd]);
      ListedMore(old(anfds), old(fdchanges), fd, anfds[fd]);
    }

    method KillFirst(fd: nat)
      requires fd < |anfds| && anfds[fd].head != [] && anfds[fd].head[0].fd == fd
      modifies this`anfds, this`fdchanges, this`notes
      ensures anfds == old(anfds)[fd := Changed(old(anfds[fd]).(head := old(anfds[fd].head[1..])), false)]
      ensures fdchanges == Extended(old(fdchanges), old(anfds[fd]), fd)
      ensures notes == old(notes) + [Cleared(old(anfds[fd].head[0])), Broken(old(anfds[fd].head[0]))]
    {
      var w := anfds[fd].head[0];
      notes := notes + [Cleared(w)];
      assert Without(anfds[fd].head, w) == anfds[fd].head[1..];
      Unlink(w);
      notes := notes + [Broken(w)];
    }

    // fd_kill: stop all watchers of the descriptor and report an error to each.
    method Kill(fd: nat)
      requires fd < |anfds| && forall w | w in anfds[fd].head :: w.fd == fd
      modifies this`anfds, this`fdchanges, this`notes
      ensures anfds == old(anfds)[fd := Killed(old(anfds[fd]))]
      ensures fdchanges
           == if old(anfds[fd].head) == [] then old(fdchanges) else Extended(old(fdchanges), old(anfds[fd]), fd)
      ensures notes == old(notes) + Report(old(anfds[fd].head))
    {
      ghost var a, k := anfds[fd], 0;
      while anfds[fd].head != []
        invariant 0 <= k <= |a.head| && |anfds| == |old(anfds)| && anfds[fd].head == a.head[k..]
        invariant anfds == old(anfds)[fd := if k == 0 then a else Changed(a.(head := a.head[k..]), false)]
        invariant fdchanges == if k == 0 then old(fdchanges) else Extended(old(fdchanges), a, fd)
        invariant notes == old(notes) + Report(a.head[..k])
        decreases |a.head| - k
      {
        ReportMore(a.head, k);
        KillFirst(fd);
        k := k + 1;
      }
      assert a.head[..k] == a.head;
    }

    // The number is given up; `asks` is what was asked under it.
    method GiveUp(fd: nat, a: Anfd, ghost asks: seq<Ask>)
      requires fd < |anfds| && OthersOk(anfds, kernel, standing, eperms, fd) && a.reify == CLEAN && a.head != []
      requires Midway(fd, a, Under(kernel, fd), asks, fd in eperms)
      modifies this`anfds, this`fdchanges, this`notes, this`standing
      ensures AllOk(anfds, kernel, standing, eperms) && anfds == old(anfds)[fd := Killed(a)]
      ensures standing == old(standing)[fd := Turned(Killed(a), Under(kernel, fd), asks, true)]
      ensures fdchanges == old(fdchanges) + [fd] && notes == old(notes) + Report(a.head)
    {
      anfds, standing := anfds[fd := a], standing[fd := Turned(Killed(a), Under(kernel, fd), asks, true)];
      Kill(fd);
      assert anfds == old(anfds)[fd := Killed(a)];
      UpdateKeeps(old(anfds), kernel, old(standing), eperms, kernel, standing, eperms, fd, Killed(a));
    }

    method Accept(fd: nat, a: Anfd, d: Descriptor, append: bool, ghost asks: seq<Ask>)
      requires fd < |anfds| && OthersOk(anfds, kernel, standing, eperms, fd)
      requires Midway(fd, a, d, asks, append || fd in eperms)
      modifies this`anfds, this`kernel, this`eperms, this`standing
      ensures AllOk(anfds, kernel, standing, eperms) && anfds == old(anfds)[fd := a] && kernel == old(kernel)[fd := d]
      ensures eperms == old(eperms) + if append then [fd] else []
      ensures standing == old(standing)[fd := Turned(a, d, asks, false)]
    {
      anfds, kernel, standing := anfds[fd := a], kernel[fd := d], standing[fd := Turned(a, d, asks, false)];
      if append {
        eperms := eperms + [fd];
      }
      UpdateKeeps(old(anfds), old(kernel), old(standing), old(eperms), kernel, standing, eperms, fd, a);
    }

    // A turn that asks nothing.
    ghost method Leave(fd: nat)
      requires fd < |anfds| && OthersOk(anfds, kernel, standing, eperms, fd)
      requires Midway(fd, anfds[fd], Under(kernel, fd), Stand(standing, fd).asks, fd in eperms)
      modifies this`standing
      ensures AllOk(anfds, kernel, standing, eperms)
      ensures var asks := old(Stand(standing, fd)).asks;
        standing == old(standing)[fd := Turned(anfds[fd], Under(kernel, fd), asks, false)]
    {
      standing := standing[fd := Turned(anfds[fd], Under(kernel, fd), Stand(standing, fd).asks, false)];
      assert anfds == anfds[fd := anfds[fd]];
      UpdateKeeps(anfds, kernel, old(standing), eperms, kernel, standing, eperms, fd, anfds[fd]);
    }

    // The bookkeeping of epoll_modify.
    method Settle(fd: nat, a: Anfd, d: Descriptor, outcome: Outcome, append: bool, ghost asks: seq<Ask>)
      requires fd < |anfds| && OthersOk(anfds, kernel, standing, eperms, fd)
      requires Midway(fd, a, d, asks, append || fd in eperms) && !(outcome == Failed && append)
      requires outcome == Failed ==> d == Under(kernel, fd) && a.head != []
      modifies this`anfds, this`kernel, this`eperms, this`fdchanges, this`notes, this`standing
      ensures AllOk(anfds, kernel, standing, eperms)
      ensures var a' := if outcome == Failed then Killed(a) else a;
        && anfds == old(anfds)[fd := a'] && standing == old(standing)[fd := Turned(a', d, asks, outcome == Failed)]
      ensures kernel == if outcome == Failed then old(kernel) else old(kernel)[fd := d]
      ensures fdchanges == if outcome == Failed then old(fdchanges) + [fd] else old(fdchanges)
      ensures notes == old(notes) + if outcome == Failed then Report(a.head) else []
      ensures eperms == old(eperms) + if append then [fd] else []
    {
      if outcome == Failed {
        GiveUp(fd, a, asks);
      } else {
        Accept(fd, a, d, append, asks);
      }
    }

    // epoll_modify
    method Modify(fd: nat, oev: Events, nev: Events, refused: set<nat>)
      requires fd < |anfds| && nev == anfds[fd].events && OthersOk(anfds, kernel, standing, eperms, fd)
      requires Midway(fd, anfds[fd], Under(kernel, fd), Stand(standing, fd).asks, fd in eperms)
      modifies this`anfds, this`kernel, this`eperms, this`fdchanges, this`notes, this`standing, this`calls
      ensures AllOk(anfds, kernel, standing, eperms) && anfds == old(anfds)[fd := At(anfds, fd)]
      ensures kernel == old(kernel)[fd := Under(kernel, fd)] || kernel == old(kernel)
      ensures standing == old(standing)[fd := Stand(standing, fd)]
      ensures fdchanges == if At(anfds, fd).reify == CLEAN then old(fdchanges) else old(fdchanges) + [fd]
      ensures Modified(old(anfds[fd]), At(anfds, fd), old(Under(kernel, fd)), Under(kernel, fd),
                       old(Stand(standing, fd)), Stand(standing, fd), At(anfds, fd).reify != CLEAN, fd in refused)
      ensures notes == old(notes) + if At(anfds, fd).reify == CLEAN then [] else Report(old(anfds[fd].head))
      ensures calls == old(calls) + [Call(fd, oev, nev)]
      ensures eperms == old(eperms) + if Appends(old(anfds[fd]).emask, old(Under(kernel, fd)), nev) then [fd] else []
    {
      calls := calls + [Call(fd, oev, nev)];
      if nev == NONE {
        assert Stand(standing, fd).asks + [] == Stand(standing, fd).asks;
        Leave(fd);
        return;
      }
      ghost var s0 := Stand(standing, fd);
      var a, d, outcome, append := Attempt(fd, anfds[fd], Under(kernel, fd), oev, nev, fd in refused, s0, fd in eperms);
      Settle(fd, a, d, outcome, append, s0.asks + NewAsks(Under(kernel, fd), s0.asks, nev, fd in refused));
    }

    // One turn of the loop of fd_reify.
    method ReifyOne(fd: nat, refused: set<nat>)
      requires fd < |anfds| && AllOk(anfds, kernel, standing, eperms) && anfds[fd].reify != CLEAN
      modifies this`anfds, this`kernel, this`eperms, this`fdchanges, this`notes, this`standing, this`calls
      ensures AllOk(anfds, kernel, standing, eperms) && anfds == old(anfds)[fd := At(anfds, fd)]
      ensures kernel == old(kernel)[fd := Under(kernel, fd)] || kernel == old(kernel)
      ensures standing == old(standing)[fd := Stand(standing, fd)]
      ensures fdchanges == if At(anfds, fd).reify == CLEAN then old(fdchanges) else old(fdchanges) + [fd]
      ensures Passed(old(anfds[fd]), At(anfds, fd), old(Under(kernel, fd)), Under(kernel, fd),
                     old(Stand(standing, fd)), Stand(standing, fd), At(anfds, fd).reify != CLEAN, fd in refused)
      ensures notes == old(notes) + if At(anfds, fd).reify == CLEAN then [] else Report(old(anfds[fd].head))
      ensures calls == old(calls) + CallOf(fd, old(anfds[fd]))
      ensures eperms == old(eperms) + AppendOf(fd, old(anfds[fd]), old(Under(kernel, fd)))
    {
      assert NumberOk(anfds, kernel, standing, eperms, fd);
      var oldEvents, fdset := anfds[fd].events, anfds[fd].reify.fdset;
      ghost var a0, s0 := anfds[fd], Stand(standing, fd);
      var events := UnionOf(anfds[fd].head);
      ghost var a1 := a0.(reify := CLEAN, events := events);
      OthersStay(anfds, kernel, standing, eperms, fd, a1);
      anfds := anfds[fd := anfds[fd].(reify := CLEAN, events := events)];
      if oldEvents != events {
        fdset := true;
      }
      if fdset {
        Modify(fd, oldEvents, events, refused);
        ModifiedPasses(a0, a1, At(anfds, fd), old(Under(kernel, fd)), Under(kernel, fd), s0, Stand(standing, fd),
                       At(anfds, fd).reify != CLEAN, fd in refused);
      } else {
        Leave(fd);
        UncalledPasses(a0, a1, Under(kernel, fd), s0, fd in refused);
      }
    }

    method Turn(i: nat, refused: set<nat>, ghost anfds0: seq<Anfd>, ghost kernel0: map<nat, Descriptor>,
                ghost standing0: map<nat, Standing>, ghost changes0: seq<nat>)
      requires i < |changes0| && changes0 <= fdchanges && Once(changes0)
      requires Listed(anfds, fdchanges[i..]) && AllOk(anfds, kernel, standing, eperms)
      requires AllPassed(anfds0, anfds, kernel0, kernel, standing0, standing, changes0[..i], fdchanges[|changes0|..],
                         refused, notes)
      modifies this`anfds, this`kernel, this`eperms, this`fdchanges, this`notes, this`standing, this`calls
      ensures changes0 <= fdchanges && old(notes) <= notes
      ensures Listed(anfds, fdchanges[i + 1..]) && AllOk(anfds, kernel, standing, eperms)
      ensures AllPassed(anfds0, anfds, kernel0, kernel, standing0, standing, changes0[..i + 1], fdchanges[|changes0|..],
                        refused, notes)
      ensures calls == old(calls) + CallOf(changes0[i], At(anfds0, changes0[i]))
      ensures eperms == old(eperms) + AppendOf(changes0[i], At(anfds0, changes0[i]), Under(kernel0, changes0[i]))
    {
      var fd := fdchanges[i];
      ghost var n := |changes0|;
      NotYetKilled(anfds, fdchanges, i, n);
      ghost var was, changes, kernel1, standing1 := anfds, fdchanges, kernel, standing;
      ghost var killed, notes0 := fdchanges[n..], notes;
      assert fd !in changes0[..i] && changes0[..i + 1] == changes0[..i] + [fd];
      assert PassedAt(At(anfds0, fd), At(was, fd), Under(kernel0, fd), Under(kernel1, fd), Stand(standing0, fd),
                      Stand(standing1, fd), fd in changes0[..i], fd in killed, fd in refused, notes0);
      ReportTells(was[fd].head, notes);
      ReifyOne(fd, refused);
      assert At(anfds, fd).reify != CLEAN ==> fdchanges[n..] == killed + [fd];
      PassStep(was, changes, i, At(anfds, fd));
      PassedOne(anfds0, was, anfds, kernel0, kernel1, kernel, standing0, standing1, standing, changes0[..i], killed,
                fdchanges[n..], fd, refused, notes0, notes);
    }

    // The loop of fd_reify.
    method RunPass(refused: set<nat>)
      requires Valid()
      modifies this`anfds, this`kernel, this`eperms, this`fdchanges, this`notes, this`standing, this`calls
      ensures AllOk(anfds, kernel, standing, eperms) && old(fdchanges) <= fdchanges
        && Listed(anfds, fdchanges[|old(fdchanges)|..])
      ensures AllPassed(old(anfds), anfds, old(kernel), kernel, old(standing), standing,
                        old(fdchanges)[..|old(fdchanges)|], fdchanges[|old(fdchanges)|..], refused, notes)
      ensures old(notes) <= notes && calls == old(calls) + PassCalls(old(anfds), old(fdchanges)[..|old(fdchanges)|])
      ensures eperms == old(eperms) + PassAppends(old(anfds), old(kernel), old(fdchanges)[..|old(fdchanges)|])
    {
      PassBegins(anfds, kernel, standing, fdchanges, notes, calls, eperms, refused);
      for i := 0 to |fdchanges|
        invariant AllOk(anfds, kernel, standing, eperms) && old(fdchanges) <= fdchanges && Listed(anfds, fdchanges[i..])
        invariant AllPassed(old(anfds), anfds, old(kernel), kernel, old(standing), standing,
                            old(fdchanges)[..i], fdchanges[|old(fdchanges)|..], refused, notes)
        invariant old(notes) <= notes && calls == old(calls) + PassCalls(old(anfds), old(fdchanges)[..i])
        invariant eperms == old(eperms) + PassAppends(old(anfds), old(kernel), old(fdchanges)[..i])
      {
        MoreCalls(old(calls), old(eperms), old(anfds), old(kernel), old(fdchanges), i);
        Turn(i, refused, old(anfds), old(kernel), old(standing), old(fdchanges));
      }
    }

    // fd_reify. Every changed descriptor gets its turn; those the kernel refuses are given up and wait
    // in the list for the next pass. All others are in line exactly if the pass settles them, which it
    // always does if the program is proper.
    method Reify(refused: set<nat>)
      requires Valid()
      modifies this`anfds, this`kernel, this`eperms, this`fdchanges, this`notes, this`standing, this`calls,
        this`proper
      ensures Valid() && old(notes) <= notes
      ensures AllPassed(old(anfds), anfds, old(kernel), kernel, old(standing), standing, old(fdchanges), fdchanges,
                        refused, notes)
      ensures forall g: nat | g !in fdchanges ::
                InLine(At(anfds, g), Under(kernel, g))
                <==> Settles(old(At(anfds, g)), old(Under(kernel, g)), old(Stand(standing, g)).asks)
      ensures forall g: nat | Proper(old(At(anfds, g)), old(Under(kernel, g)), old(Stand(standing, g))) ::
                g in fdchanges || InLine(At(anfds, g), Under(kernel, g))
      ensures forall g: nat | g !in fdchanges :: JustWanted(At(anfds, g).events, At(anfds, g).head)
      ensures forall g: nat | g in old(fdchanges) :: JustWanted(At(anfds, g).events, old(At(anfds, g)).head)
      ensures proper <==> old(proper) && AllProper(old(anfds), old(kernel), old(standing))
      ensures calls == old(calls) + PassCalls(old(anfds), old(fdchanges))
      ensures eperms == old(eperms) + PassAppends(old(anfds), old(kernel), old(fdchanges))
      ensures Once(eperms)
              <==> Once(old(eperms)) && forall g | g in old(eperms) :: !Relisted(old(anfds), old(kernel), g)
    {
      var changecnt := |fdchanges|;
      RunPass(refused);
      assert old(fdchanges)[..|old(fdchanges)|] == old(fdchanges);
      fdchanges := fdchanges[changecnt..];
      PassSettles(old(anfds), anfds, old(kernel), kernel, old(standing), standing, old(eperms), old(fdchanges),
                  fdchanges, refused, notes);
      proper := proper && AllProper(old(anfds), old(kernel), old(standing));
      ListedOnce(old(anfds), old(kernel), old(standing), old(eperms), old(fdchanges));
      PassWants(old(anfds), anfds, old(kernel), kernel, old(standing), standing, old(eperms), old(fdchanges),
                fdchanges, refused, notes);
    }

    // fd_event: a descriptor with pending changes passes nothing on.
    method FdEvent(fd: nat, got: Events, source: Option<File>)
      requires fd < |anfds|
      modifies this`notes
      ensures notes == old(notes) + if anfds[fd].reify == CLEAN then Wakes(anfds[fd].head, got, source) else []
    {
      if anfds[fd].reify != CLEAN { return; }
      var head := anfds[fd].head;
      for i := 0 to |head|
        invariant notes == old(notes) + Wakes(head[..i], got, source)
      {
        assert head[..i + 1][..i] == head[..i];
        var w := head[i];
        var ev := And(w.events, got);
        if ev != NONE {
          notes := notes + [Ready(w, ev, source)];
        }
      }
      assert head[..|head|] == head;
    }

    method SilenceEvent(e: Event) returns (ok: bool)
      requires Valid() && e.fd < |anfds| && Source(e, Under(kernel, e.fd)) && Unwanted(anfds[e.fd], e)
      modifies this`anfds, this`kernel, this`standing
      ensures Valid() && Silenced(old(anfds), anfds, old(kernel), kernel)
      ensures Hushes(old(anfds[e.fd]), e, old(kernel), kernel, old(standing), standing)
      ensures ok <==> old(Under(kernel, e.fd).Live())
    {
      var fd := e.fd;
      var a, d := anfds[fd], Under(kernel, fd);
      ghost var s := Stand(standing, fd);
      var r := Silence(d, a.events, e.tag);
      var anfds1, kernel1 := anfds[fd := a.(emask := Known(a.events))], kernel[fd := r.1];
      ghost var standing1 := standing[fd := s.(asks := s.asks + [Hush(d, a.events)])];
      SilencedOk(anfds, anfds1, kernel, kernel1, standing, standing1, eperms, fdchanges, e);
      assert Hushes(a, e, kernel, kernel1, standing, standing1);
      anfds, kernel, standing := anfds1, kernel1, standing1;
      ok := r.0 == SUCCESS;
    }

    // One turn of the first loop of epoll_poll. An event that does not pass makes the loop rebuild the
    // kernel's state.
    method PollOne(e: Event)
      requires Valid() && e.fd < |anfds| && Source(e, Under(kernel, e.fd))
      modifies this`anfds, this`kernel, this`notes, this`postfork, this`standing
      ensures Valid() && Silenced(old(anfds), anfds, old(kernel), kernel)
      ensures Hushes(old(anfds[e.fd]), e, old(kernel), kernel, old(standing), standing)
      ensures notes == old(notes) + Delivered(old(anfds), old(kernel), e)
      ensures postfork <==> old(postfork) || !Passes(old(anfds[e.fd]), old(Under(kernel, e.fd)), e)
    {
      ghost var fd, a, d := e.fd, At(anfds, e.fd), Under(kernel, e.fd);
      SilencedNothing(anfds, kernel, standing);
      if anfds[e.fd].egen != e.tag {
        postfork := true;
        return;
      }
      if And(e.got, anfds[e.fd].events) != e.got {
        var ok := SilenceEvent(e);
        assert SilencedAt(a, At(anfds, fd), d, Under(kernel, fd));
        if !ok {
          postfork := true;
          return;
        }
      }
      FdEvent(e.fd, e.got, Some(e.file));
    }

    // The first loop of epoll_poll, over the events of one epoll_wait.
    method PollEvents(events: seq<Event>)
      requires Valid() && forall e | e in events :: Reported(e, Under(kernel, e.fd))
      modifies this`anfds, this`kernel, this`notes, this`postfork, this`standing
      ensures Valid() && Silenced(old(anfds), anfds, old(kernel), kernel)
      ensures AllHushed(old(anfds), old(kernel), old(standing), kernel, standing, events)
      ensures notes == old(notes) + AllDelivered(old(anfds), old(kernel), events)
      ensures OnlyCaused(AllDelivered(old(anfds), old(kernel), events), events)
      ensures old(postfork) || Dropped(old(anfds), old(kernel), events) ==> postfork
    {
      forall n | n in AllDelivered(anfds, kernel, events) ensures n.Ready? && exists e :: e in events && Causes(e, n) {
        DeliveredIsCaused(anfds, kernel, standing, eperms, events, n);
      }
      SilencedNothing(anfds, kernel, standing);
      for i := 0 to |events|
        invariant Valid() && Silenced(old(anfds), anfds, old(kernel), kernel)
        invariant AllHushed(old(anfds), old(kernel), old(standing), kernel, standing, events[..i])
        invariant notes == old(notes) + AllDelivered(old(anfds), old(kernel), events[..i])
        invariant old(postfork) || Dropped(old(anfds), old(kernel), events[..i]) ==> postfork
      {
        PollTurn(events, i, old(anfds), old(kernel), old(standing), old(notes));
      }
      assert events[..|events|] == events;
    }

    method PollTurn(events: seq<Event>, i: nat, ghost anfds0: seq<Anfd>, ghost kernel0: map<nat, Descriptor>,
                    ghost standing0: map<nat, Standing>, ghost notes0: seq<Note>)
      requires Valid() && AllOk(anfds0, kernel0, standing0, eperms) && i < |events|
      requires Reported(events[i], Under(kernel0, events[i].fd))
      requires Silenced(anfds0, anfds, kernel0, kernel)
      requires AllHushed(anfds0, kernel0, standing0, kernel, standing, events[..i])
      requires notes == notes0 + AllDelivered(anfds0, kernel0, events[..i])
      requires Dropped(anfds0, kernel0, events[..i]) ==> postfork
      modifies this`anfds, this`kernel, this`notes, this`postfork, this`standing
      ensures Valid() && Silenced(anfds0, anfds, kernel0, kernel)
      ensures AllHushed(anfds0, kernel0, standing0, kernel, standing, events[..i + 1])
      ensures notes == notes0 + AllDelivered(anfds0, kernel0, events[..i + 1])
      ensures old(postfork) || Dropped(anfds0, kernel0, events[..i + 1]) ==> postfork
    {
      var e := events[i];
      HasSource(anfds0, kernel0, standing0, eperms, e);
      DeliveredMore(anfds0, kernel0, events, i);
      if Dropped(anfds0, kernel0, events[..i + 1]) {
        DroppedMore(anfds0, kernel0, events, i);
      }
      SourceStays(anfds0, anfds, kernel0, kernel, e);
      ghost var anfds1, kernel1, standing1 := anfds, kernel, standing;
      Assoc(notes0, AllDelivered(anfds0, kernel0, events[..i]), Delivered(anfds0, kernel0, e));
      PollOne(e);
      SilencedTwice(anfds0, anfds1, anfds, kernel0, kernel1, kernel);
      HushMore(anfds0, anfds1, kernel0, kernel1, kernel, standing0, standing1, standing, events, i);
    }

    // One turn of the last loop of epoll_poll.
    method EpermOne(i: nat)
      requires Valid() && i < |eperms|
      modifies this`anfds, this`eperms, this`notes, this`standing
      ensures Valid() && i <= |eperms| && eperms[..i] == old(eperms[..i])
      ensures LapsesOne(old(At(anfds, eperms[i])), old(eperms[i]), old(standing), standing)
      ensures notes == old(notes) + Always(old(anfds), kernel, old(eperms[i]))
      ensures Forgets(old(anfds), anfds)
    {
      var fd := eperms[i];
      assert fd in eperms && NumberOk(anfds, kernel, standing, eperms, fd);
      SilencedNothing(anfds, kernel, standing);
      if anfds[fd].emask == Eperm && anfds[fd].events != NONE {
        FdEvent(fd, anfds[fd].events, Under(kernel, fd).file);
      } else {
        ForgetOne(i);
      }
    }

    // A number leaves the list of always-ready ones.
    method ForgetOne(i: nat)
      requires Valid() && i < |eperms| && eperms[i] < |anfds|
      requires !(anfds[eperms[i]].emask == Eperm && anfds[eperms[i]].events != NONE)
      modifies this`anfds, this`eperms, this`standing
      ensures Valid() && i <= |eperms| && eperms[..i] == old(eperms[..i])
      ensures LapsesOne(old(At(anfds, eperms[i])), old(eperms[i]), old(standing), standing)
      ensures Forgets(old(anfds), anfds)
    {
      var fd := eperms[i];
      ghost var s := Stand(standing, fd);
      var anfds1 := anfds[fd := anfds[fd].(emask := Known(NONE))];
      var eperms1 := eperms[i := eperms[|eperms| - 1]][..|eperms| - 1];
      ghost var standing1 := standing[fd := s.(asks := s.asks + [FORGOTTEN])];
      ForgottenOk(anfds, anfds1, kernel, standing, standing1, eperms, eperms1, fdchanges, i);
      anfds, eperms, standing := anfds1, eperms1, standing1;
    }

    method EpermTurn(i: nat, ghost anfds0: seq<Anfd>, ghost standing0: map<nat, Standing>, ghost eperms0: seq<nat>,
                     ghost notes0: seq<Note>)
      requires Valid() && Forgets(anfds0, anfds)
      requires i < |eperms| && i < |eperms0| && eperms[..i + 1] == eperms0[..i + 1]
      requires AllLapsed(anfds0, standing0, standing, eperms0[i + 1..])
      requires notes == notes0 + AllAlways(anfds0, kernel, eperms0[i + 1..])
      modifies this`anfds, this`eperms, this`notes, this`standing
      ensures Valid() && Forgets(anfds0, anfds) && AllLapsed(anfds0, standing0, standing, eperms0[i..])
      ensures i <= |eperms| && eperms[..i] == eperms0[..i]
      ensures notes == notes0 + AllAlways(anfds0, kernel, eperms0[i..])
    {
      ghost var mid, standing1, fd := anfds, standing, eperms0[i];
      assert eperms[i] == fd && eperms[..i] == eperms0[..i] by {
        assert eperms[..i + 1][i] == eperms[i] && eperms[..i] == eperms[..i + 1][..i];
      }
      AlwaysMore(anfds0, kernel, eperms0, i);
      AlwaysStays(anfds0, mid, kernel, fd);
      Assoc(notes0, AllAlways(anfds0, kernel, eperms0[i + 1..]), Always(anfds0, kernel, fd));
      EpermOne(i);
      ForgetsTwice(anfds0, mid, anfds);
      LapseMore(anfds0, mid, standing0, standing1, standing, eperms0, i);
    }

    method PollEperms()
      requires Valid()
      modifies this`anfds, this`eperms, this`notes, this`standing
      ensures Valid() && Forgets(old(anfds), anfds) && AllLapsed(old(anfds), old(standing), standing, old(eperms))
      ensures notes == old(notes) + AllAlways(old(anfds), kernel, old(eperms))
    {
      var i := |eperms|;
      SilencedNothing(anfds, kernel, standing);
      while i > 0
        invariant Valid() && Forgets(old(anfds), anfds) && 0 <= i <= |old(eperms)|
        invariant AllLapsed(old(anfds), old(standing), standing, old(eperms)[i..])
        invariant i <= |eperms| && eperms[..i] == old(eperms)[..i]
        invariant notes == old(notes) + AllAlways(old(anfds), kernel, old(eperms)[i..])
      {
        i := i - 1;
        EpermTurn(i, old(anfds), old(standing), old(eperms), old(notes));
      }
      assert old(eperms)[0..] == old(eperms);
    }

    // epoll_poll, when epoll_wait succeeds.
    method Poll(events: seq<Event>)
      requires Valid() && forall e | e in events :: Reported(e, Under(kernel, e.fd))
      modifies this`anfds, this`kernel, this`notes, this`postfork, this`eperms, this`standing
      ensures Valid() && old(notes) <= notes
      ensures OnlyJustified(notes[|old(notes)|..], old(anfds), old(kernel))
      ensures EventsArrive(notes[|old(notes)|..], old(anfds), old(kernel), events)
      ensures AlwaysReadyArrive(notes[|old(notes)|..], old(anfds), old(kernel))
      ensures old(postfork) || Dropped(old(anfds), old(kernel), events) ==> postfork
      ensures forall g: nat | InLine(old(At(anfds, g)), old(Under(kernel, g))) :: InLine(At(anfds, g), Under(kernel, g))
      ensures forall g: nat ::
                PolledAt(old(At(anfds, g)), old(Under(kernel, g)), old(Stand(standing, g)), Stand(standing, g), events,
                         old(eperms), g)
    {
      PollEvents(events);
      ghost var mid, standing1, delivered := anfds, standing, AllDelivered(old(anfds), old(kernel), events);
      PollEperms();
      ghost var always := AllAlways(mid, kernel, old(eperms));
      Assoc(old(notes), delivered, always);
      assert notes[|old(notes)|..] == delivered + always;
      PollFeeds(old(anfds), mid, old(kernel), kernel, old(standing), standing1, old(eperms), events);
      PolledOnce(old(anfds), mid, old(kernel), kernel, old(standing), standing1, standing, old(eperms), events);
      StillInLine(old(anfds), mid, anfds, old(kernel), kernel);
    }

    // fd_rearm_all
    method RearmAll()
      requires Listed(anfds, fdchanges)
      modifies this`anfds, this`fdchanges
      ensures Listed(anfds, fdchanges) && |anfds| == |old(anfds)|
      ensures forall g: nat :: At(anfds, g) == Rearmed(old(At(anfds, g)))
    {
      for fd := 0 to |anfds|
        invariant |anfds| == |old(anfds)| && Listed(anfds, fdchanges)
        invariant forall g | 0 <= g < fd :: anfds[g] == Rearmed(old(anfds)[g])
        invariant forall g | fd <= g < |anfds| :: anfds[g] == old(anfds)[g]
      {
        if anfds[fd].events != NONE {
          ghost var was, changes := anfds, fdchanges;
          anfds := anfds[fd := anfds[fd].(events := NONE, emask := Known(NONE))];
          FdChange(fd, true);
          assert anfds == was[fd := anfds[fd]];
          ListedMore(was, changes, fd, anfds[fd]);
        }
      }
    }

    // epoll_fork: a new epoll instance, with nothing registered, and fd_rearm_all.
    method Fork()
      requires Valid()
      modifies this`kernel, this`anfds, this`fdchanges, this`postfork, this`standing
      ensures Valid() && !postfork
      ensures forall g: nat :: Stand(standing, g) == Rested(old(At(anfds, g)), old(Stand(standing, g)))
      ensures forall g: nat :: At(anfds, g) == Rearmed(old(At(anfds, g)))
      ensures forall g: nat :: Under(kernel, g) == old(Under(kernel, g)).(entries := map[])
    {
      kernel := Emptied(kernel);
      RearmAll();
      postfork := false;
      ghost var standing1 := Forgotten(old(anfds), anfds, old(kernel), kernel, standing, eperms);
      standing := standing1;
    }

    // What a dropped event leads to: the next turn of the loop forks and reifies, and then every
    // number is in line again, whatever the program has done, unless the kernel refuses it.
    method Recover(refused: set<nat>)
      requires Valid()
      modifies this
      ensures Valid() && !postfork
      ensures forall g: nat | g !in fdchanges ::
                InLine(At(anfds, g), Under(kernel, g)) && At(anfds, g).head == old(At(anfds, g).head)
      ensures forall g: nat | g in fdchanges :: old(Under(kernel, g)).file.None? || g in refused
    {
      Fork();
      ghost var anfds1, kernel1, standing1, changes1 := anfds, kernel, standing, fdchanges;
      forall g: nat ensures Settles(At(anfds1, g), Under(kernel1, g), Stand(standing1, g).asks)
                            && At(anfds1, g).head == old(At(anfds, g).head) {
      }
      Reify(refused);
      forall g: nat
        ensures g !in fdchanges ==> At(anfds, g).head == At(anfds1, g).head
        ensures g in fdchanges ==> Under(kernel1, g).file.None? || g in refused
      {
        assert PassedAt(At(anfds1, g), At(anfds, g), Under(kernel1, g), Under(kernel, g), Stand(standing1, g),
                        Stand(standing, g), g in changes1, g in fdchanges, g in refused, notes);
      }
    }

    // ---------- what the program and the kernel do between passes ----------

    // The number comes to mean `file`, a new one or one it meant before.
    method Open(fd: nat, file: File)
      requires Valid() && Under(kernel, fd).file == None
      modifies this`kernel, this`standing
      ensures Valid() && kernel == old(kernel)[fd := old(Under(kernel, fd)).(file := Some(file))]
        && standing == old(standing)[fd := old(Stand(standing, fd)).(renewed := true)]
    {
      var d := Under(kernel, fd).(file := Some(file));
      ghost var s := Stand(standing, fd);
      assert NumberOk(anfds, kernel, standing, eperms, fd);
      Shrinks(At(anfds, fd), Under(kernel, fd), d, s.asks);
      kernel, standing := kernel[fd := d], standing[fd := s.(renewed := true)];
      KernelKeeps(anfds, old(kernel), old(standing), eperms, fd, d, s.(renewed := true));
    }

    // The number is closed. `kept`: something else still refers to the file, so its registration lives
    // on.
    method Close(fd: nat, kept: bool)
      requires Valid() && Under(kernel, fd).file.Some?
      modifies this`kernel, this`standing
      ensures Valid() && standing == old(standing)[fd := old(Stand(standing, fd)).(renewed := true)]
      ensures var d := old(Under(kernel, fd));
        kernel == old(kernel)[fd := Descriptor(None, d.entries - if kept then {} else {d.file.value})]
    {
      var d := Under(kernel, fd);
      ghost var s := Stand(standing, fd);
      assert NumberOk(anfds, kernel, standing, eperms, fd);
      var d' := Descriptor(None, d.entries - if kept then {} else {d.file.value});
      Shrinks(At(anfds, fd), d, d', s.asks);
      kernel, standing := kernel[fd := d'], standing[fd := s.(renewed := true)];
      KernelKeeps(anfds, old(kernel), old(standing), eperms, fd, d', s.(renewed := true));
    }

    // The last reference to a file the number meant earlier goes away.
    method Vanish(fd: nat, f: File)
      requires Valid() && Under(kernel, fd).file != Some(f)
      modifies this`kernel
      ensures Valid()
        && kernel == old(kernel)[fd := old(Under(kernel, fd)).(entries := old(Under(kernel, fd)).entries - {f})]
    {
      var d := Under(kernel, fd);
      assert NumberOk(anfds, kernel, standing, eperms, fd);
      var d' := d.(entries := d.entries - {f});
      Shrinks(At(anfds, fd), d, d', Stand(standing, fd).asks);
      kernel := kernel[fd := d'];
      KernelKeeps(anfds, old(kernel), standing, eperms, fd, d', Stand(standing, fd));
    }
  }
}
