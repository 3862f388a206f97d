/**
 Runs of the loop that show what goes wrong when a program is not proper, each from the start.
 */
module EpollRuns {
  import opened Epoll
  import opened Options

  // What becomes of a number when a watcher appears on it: `a1` is the descriptor before the pass.
  ghost predicate Appeared(a1: Anfd, d1: Descriptor, asks1: seq<Ask>, a: Anfd, d: Descriptor, asks: seq<Ask>, w: Io,
                           refused: bool) {
    var more, killed := TurnAsks(a1, d1, asks1, refused), Calls(a1) && Refuses(d1, refused);
    && asks == asks1 + more && SameElsewhere(d1, d) && (more == [] || killed ==> d == d1)
    && a.head == (if killed then [] else [w]) && a.events == w.events
    && (!killed ==> a.reify == CLEAN && (InLine(a, d) <==> Settles(a1, d1, asks1)))
    && (!killed && Calls(a1) && d1.file.value.pollable ==> d.Live())
  }

  // A watcher is started on `file` under a number without watchers, and a pass is run. `fdset`: the
  // watcher is set up anew.
  method Appear(l: EpollLoop, w: Io, file: File, fdset: bool, refused: set<nat>)
    requires l.Valid() && Under(l.kernel, w.fd).file == None && At(l.anfds, w.fd).head == [] && w.events != NONE
    modifies l
    ensures l.Valid() && Under(l.kernel, w.fd).file == Some(file)
    ensures Appeared(Changed(old(At(l.anfds, w.fd)).(head := [w]), fdset),
                     old(Under(l.kernel, w.fd)).(file := Some(file)), old(Stand(l.standing, w.fd)).asks,
                     At(l.anfds, w.fd), Under(l.kernel, w.fd), Stand(l.standing, w.fd).asks, w, w.fd in refused)
  {
    var fd := w.fd;
    l.Open(fd, file);
    l.Start(w, fdset);
    assert Union([w]) == w.events by {
      assert [w][..0] == [];
    }
    ghost var anfds1, kernel1, standing1, changes1 := l.anfds, l.kernel, l.standing, l.fdchanges;
    assert At(anfds1, fd).head == [w] + [] == [w] && At(anfds1, fd).reify != CLEAN && fd in changes1;
    l.Reify(refused);
    assert PassedAt(At(anfds1, fd), At(l.anfds, fd), Under(kernel1, fd), Under(l.kernel, fd), Stand(standing1, fd),
                    Stand(l.standing, fd), fd in changes1, fd in l.fdchanges, fd in refused, l.notes);
  }

  lemma WithoutOne(w: Io)
    ensures w in [w] && Without([w], w) == []
  {
    assert [w][..0] + [w][1..] == [];
  }

  // The same with the watcher set up anew; then it is stopped and its number closed, while the file
  // stays open elsewhere.
  method Visit(l: EpollLoop, w: Io, file: File, refused: set<nat>)
    requires l.Valid() && Under(l.kernel, w.fd).file == None && At(l.anfds, w.fd).head == [] && w.events != NONE
    requires file.pollable
    modifies l
    ensures l.Valid() && Under(l.kernel, w.fd).file == None
    ensures At(l.anfds, w.fd).head == [] && At(l.anfds, w.fd).events == w.events
    ensures w.fd !in refused ==> At(l.anfds, w.fd).reify == Flags(true, false)
    ensures var d, asks := old(Under(l.kernel, w.fd)).(file := Some(file)), old(Stand(l.standing, w.fd)).asks;
      && Stand(l.standing, w.fd).asks == asks + AskOf(d, asks, w.events, w.fd in refused)
      && Stays(d, Under(l.kernel, w.fd), file, Refuses(d, w.fd in refused))
  {
    var fd := w.fd;
    ghost var a1, d1 := Changed(At(l.anfds, fd).(head := [w]), true), Under(l.kernel, fd).(file := Some(file));
    ghost var asks1 := Stand(l.standing, fd).asks;
    Appear(l, w, file, true, refused);
    ghost var a, d := At(l.anfds, fd), Under(l.kernel, fd);
    assert Union([w]) == w.events by {
      assert [w][..0] == [];
    }
    StaysAfter(a1, d1, asks1, a, d, Stand(l.standing, fd).asks, w, fd in refused);
    Depart(l, w);
  }

  // The watcher is stopped and its number closed, while the file stays open elsewhere.
  method Depart(l: EpollLoop, w: Io)
    requires l.Valid() && Under(l.kernel, w.fd).file.Some? && At(l.anfds, w.fd).head in {[], [w]}
    modifies l
    ensures l.Valid() && Under(l.kernel, w.fd) == old(Under(l.kernel, w.fd)).(file := None)
    ensures Stand(l.standing, w.fd).asks == old(Stand(l.standing, w.fd)).asks
    ensures var a := old(At(l.anfds, w.fd));
      At(l.anfds, w.fd) == if a.head == [] then a else Changed(a.(head := []), false)
  {
    ghost var d := Under(l.kernel, w.fd);
    WithoutOne(w);
    l.Stop(w);
    l.Close(w.fd, true);
    assert d.entries - {} == d.entries;
  }

  // The registrations under a number after a visit of `file`.
  ghost predicate Stays(d0: Descriptor, d: Descriptor, file: File, refused: bool) {
    forall f :: f in d.entries <==> f in d0.entries || (f == file && !refused)
  }

  lemma StaysAfter(a1: Anfd, d1: Descriptor, asks1: seq<Ask>, a: Anfd, d: Descriptor, asks: seq<Ask>, w: Io,
                   refused: bool)
    requires Appeared(a1, d1, asks1, a, d, asks, w, refused) && a1.head == [w] && a1.reify.fdset
    requires d1.file.Some? && d1.file.value.pollable && w.events == Union([w]) != NONE
    ensures Stays(d1, d, d1.file.value, Refuses(d1, refused)) && asks == asks1 + AskOf(d1, asks1, w.events, refused)
  {
  }

  // What an event for everything the watcher wants feeds, if the watcher is alone.
  lemma OneWakes(w: Io, source: Option<File>)
    requires w.events != NONE
    ensures Wakes([w], w.events, source) == [Ready(w, w.events, source)]
  {
    assert [w][..0] == [];
  }

  lemma TwoAsks(x: Ask, y: Ask, f: File)
    requires About(x, f) && !About(y, f)
    ensures var asks := [x] + [y];
      && Newer(asks, f) == (if y.anew then 1 else 0) && Wish(asks, f) == x.mask && Remembered(asks) == y.mask
      && (y.taken && y.file.Some? ==> Newer(asks, y.file.value) == 0)
  {
    assert [x] == [] + [x];
    AskMore([], x, f);
    AskMore([x], y, f);
    AskMore([x], y, if y.file.Some? then y.file.value else f);
  }

  // A first file visits a number.
  method FirstVisit(w: Io, f: File) returns (l: EpollLoop)
    requires f.pollable && w.events != NONE
    ensures fresh(l) && l.Valid() && Under(l.kernel, w.fd).file == None
    ensures var a := At(l.anfds, w.fd); a.head == [] && a.events == w.events && a.reify == Flags(true, false)
    ensures Under(l.kernel, w.fd).entries.Keys == {f}
    ensures Stand(l.standing, w.fd).asks == [Ask(Some(f), Known(w.events), true, true)]
  {
    l := new EpollLoop();
    Visit(l, w, f, {});
    assert forall x :: x in Under(l.kernel, w.fd).entries <==> x == f;
  }

  // Two files visit a number one after the other. `refused`: the kernel refuses the second.
  method TwoVisits(w: Io, v: Io, f: File, g: File, refused: bool) returns (l: EpollLoop)
    requires f != g && f.pollable && g.pollable && w.fd == v.fd && w.events != NONE && v.events != NONE
    ensures fresh(l) && l.Valid() && Under(l.kernel, w.fd).file == None && At(l.anfds, w.fd).head == []
    ensures f in Under(l.kernel, w.fd).entries && (g in Under(l.kernel, w.fd).entries <==> !refused)
    ensures Stand(l.standing, w.fd).asks
         == [Ask(Some(f), Known(w.events), true, true)] + [Ask(Some(g), Known(v.events), !refused, !refused)]
  {
    l := FirstVisit(w, f);
    Visit(l, v, g, if refused then {w.fd} else {});
  }

  // A file comes back to its number, set up for what was asked for last: the backend does nothing.
  method ComeBack(l: EpollLoop, w: Io, f: File)
    requires l.Valid() && Under(l.kernel, w.fd).file == None && At(l.anfds, w.fd).head == [] && w.events != NONE
    requires f.pollable && f in Under(l.kernel, w.fd).entries
    requires Remembered(Stand(l.standing, w.fd).asks) == Known(w.events)
    modifies l
    ensures l.Valid() && Under(l.kernel, w.fd) == old(Under(l.kernel, w.fd)).(file := Some(f))
    ensures Stand(l.standing, w.fd).asks == old(Stand(l.standing, w.fd)).asks
    ensures var a := At(l.anfds, w.fd); a.head == [w] && a.reify == CLEAN && a.events == w.events
  {
    ghost var a1, d1 := Changed(At(l.anfds, w.fd).(head := [w]), true), Under(l.kernel, w.fd).(file := Some(f));
    ghost var asks1 := Stand(l.standing, w.fd).asks;
    Appear(l, w, f, true, {});
    assert Union([w]) == w.events by {
      assert [w][..0] == [];
    }
    KeptAfter(a1, d1, asks1, At(l.anfds, w.fd), Under(l.kernel, w.fd), Stand(l.standing, w.fd).asks, w);
  }

  lemma KeptAfter(a1: Anfd, d1: Descriptor, asks1: seq<Ask>, a: Anfd, d: Descriptor, asks: seq<Ask>, w: Io)
    requires Appeared(a1, d1, asks1, a, d, asks, w, false) && a1.head == [w] && a1.reify.fdset
    requires d1.Live() && d1.file.value.pollable && Remembered(asks1) == Known(w.events)
    requires w.events == Union([w]) != NONE
    ensures asks == asks1 && d == d1 && a.head == [w] && a.reify == CLEAN && a.events == w.events
  {
    assert asks1 + [] == asks1;
  }

  // What the registration of the open file and that of another come to.
  lemma EventsOf(anfds: seq<Anfd>, kernel: map<nat, Descriptor>, standing: map<nat, Standing>, eperms: seq<nat>,
                 w: Io, f: File, e: Event)
    requires AllOk(anfds, kernel, standing, eperms) && Reported(e, Under(kernel, e.fd)) && e.fd == w.fd
    requires var a := At(anfds, w.fd); a.head == [w] && a.reify == CLEAN && a.events == w.events == e.got != NONE
    requires Under(kernel, w.fd).file == Some(f) && f in Under(kernel, w.fd).entries
    ensures var asks := Stand(standing, w.fd).asks;
      && Delivered(anfds, kernel, e) == (if Newer(asks, e.file) == 0 then [Ready(w, w.events, Some(e.file))] else [])
      && (InLine(At(anfds, w.fd), Under(kernel, w.fd)) ==> Newer(asks, f) == 0 && Wish(asks, f) == Known(w.events))
  {
    var a, d, s := At(anfds, w.fd), Under(kernel, w.fd), Stand(standing, w.fd);
    assert NumberOk(anfds, kernel, standing, eperms, w.fd);
    assert EntryOk(e.file, d.entries[e.file], s.asks) && EntryOk(f, d.entries[f], s.asks);
    OneWakes(w, Some(e.file));
  }

  // A file that comes back to its number after another was registered there for the same events: its
  // own events are dropped, and those of the other file reach the watcher.
  method Superseded(w: Io, f: File, g: File) returns (l: EpollLoop, own: Event, other: Event)
    requires f != g && f.pollable && g.pollable && w.events != NONE
    ensures fresh(l) && l.Valid() && At(l.anfds, w.fd).head == [w] && Under(l.kernel, w.fd).file == Some(f)
    ensures At(l.anfds, w.fd).reify == CLEAN && !InLine(At(l.anfds, w.fd), Under(l.kernel, w.fd))
    ensures own == Event(w.fd, f, own.tag, w.events) && Reported(own, Under(l.kernel, w.fd))
    ensures other == Event(w.fd, g, other.tag, w.events) && Reported(other, Under(l.kernel, w.fd))
    ensures Delivered(l.anfds, l.kernel, own) == []
    ensures Delivered(l.anfds, l.kernel, other) == [Ready(w, w.events, Some(g))]
  {
    var fd := w.fd;
    l := TwoVisits(w, w, f, g, false);
    TwoAsks(Ask(Some(f), Known(w.events), true, true), Ask(Some(g), Known(w.events), true, true), f);
    ComeBack(l, w, f);
    own := Event(fd, f, Under(l.kernel, fd).entries[f].tag, w.events);
    other := Event(fd, g, Under(l.kernel, fd).entries[g].tag, w.events);
    EventsOf(l.anfds, l.kernel, l.standing, l.eperms, w, f, own);
    EventsOf(l.anfds, l.kernel, l.standing, l.eperms, w, f, other);
  }

  // A file that comes back to its number after another was refused there for other events, which are
  // then asked for: the kernel goes on watching it for the events of before.
  method RefusedMeanwhile(w: Io, v: Io, f: File, g: File) returns (l: EpollLoop)
    requires f != g && f.pollable && g.pollable && w.fd == v.fd && w.events != v.events
    requires w.events != NONE && v.events != NONE
    ensures fresh(l) && l.Valid() && At(l.anfds, v.fd).head == [v] && Under(l.kernel, v.fd).file == Some(f)
    ensures At(l.anfds, v.fd).reify == CLEAN && !InLine(At(l.anfds, v.fd), Under(l.kernel, v.fd))
    ensures Under(l.kernel, v.fd).Live()
    ensures Under(l.kernel, v.fd).entries[f].mask == w.events != At(l.anfds, v.fd).events
  {
    l := TwoVisits(w, v, f, g, true);
    TwoAsks(Ask(Some(f), Known(w.events), true, true), Ask(Some(g), Known(v.events), false, false), f);
    ComeBack(l, v, f);
    MaskOf(l.anfds, l.kernel, l.standing, l.eperms, v.fd, f);
  }

  lemma MaskOf(anfds: seq<Anfd>, kernel: map<nat, Descriptor>, standing: map<nat, Standing>, eperms: seq<nat>, fd: nat,
               f: File)
    requires AllOk(anfds, kernel, standing, eperms) && f in Under(kernel, fd).entries
    ensures Known(Under(kernel, fd).entries[f].mask) == Wish(Stand(standing, fd).asks, f)
  {
    assert NumberOk(anfds, kernel, standing, eperms, fd);
    assert EntryOk(f, Under(kernel, fd).entries[f], Stand(standing, fd).asks);
  }

  // Why a renewed number needs ev_io_set: a watcher stopped and started again without it between two
  // passes causes no call of the backend if the events are the same. If the number means another
  // file by then, the kernel does not watch that file, and an event of the earlier one is fed.
  method WithoutIoSet(w: Io, f: File, g: File, fdset: bool) returns (l: EpollLoop, earlier: Event)
    requires f != g && f.pollable && g.pollable && w.events != NONE
    ensures fresh(l) && l.Valid() && At(l.anfds, w.fd).head == [w] && Under(l.kernel, w.fd).file == Some(g)
    ensures At(l.anfds, w.fd).reify == CLEAN && (InLine(At(l.anfds, w.fd), Under(l.kernel, w.fd)) <==> fdset)
    ensures earlier == Event(w.fd, f, earlier.tag, w.events) && Reported(earlier, Under(l.kernel, w.fd))
    ensures Delivered(l.anfds, l.kernel, earlier) == if fdset then [] else [Ready(w, w.events, Some(f))]
  {
    var fd := w.fd;
    l := FirstVisit(w, f);
    Newcomer(l, w, f, g, fdset);
    earlier := Event(fd, f, Under(l.kernel, fd).entries[f].tag, w.events);
    EarlierEvent(l.anfds, l.kernel, l.standing, l.eperms, w, g, earlier);
  }

  method Newcomer(l: EpollLoop, w: Io, f: File, g: File, fdset: bool)
    requires l.Valid() && Under(l.kernel, w.fd).file == None && g.pollable && f != g
    requires var a := At(l.anfds, w.fd); a.head == [] && a.events == w.events != NONE && a.reify == Flags(true, false)
    requires Under(l.kernel, w.fd).entries.Keys == {f}
    requires Stand(l.standing, w.fd).asks == [Ask(Some(f), Known(w.events), true, true)]
    modifies l
    ensures l.Valid() && Under(l.kernel, w.fd).file == Some(g) && f in Under(l.kernel, w.fd).entries
    ensures var a := At(l.anfds, w.fd); a.head == [w] && a.reify == CLEAN && a.events == w.events
    ensures InLine(At(l.anfds, w.fd), Under(l.kernel, w.fd)) <==> fdset
    ensures !fdset ==> Newer(Stand(l.standing, w.fd).asks, f) == 0
  {
    ghost var a1, d1 := Changed(At(l.anfds, w.fd).(head := [w]), fdset), Under(l.kernel, w.fd).(file := Some(g));
    ghost var asks1 := Stand(l.standing, w.fd).asks;
    assert f in d1.entries && g !in d1.entries;
    Appear(l, w, g, fdset, {});
    NewcomerAfter(a1, d1, asks1, At(l.anfds, w.fd), Under(l.kernel, w.fd), Stand(l.standing, w.fd).asks, w, f);
  }

  lemma NewcomerAfter(a1: Anfd, d1: Descriptor, asks1: seq<Ask>, a: Anfd, d: Descriptor, asks: seq<Ask>, w: Io, f: File)
    requires Appeared(a1, d1, asks1, a, d, asks, w, false) && a1.head == [w] && a1.events == w.events != NONE
    requires d1.file.Some? && d1.file.value.pollable && !d1.Live() && f in d1.entries
    requires asks1 == [Ask(Some(f), Known(w.events), true, true)]
    ensures f in d.entries && a.head == [w] && a.reify == CLEAN && a.events == w.events && d.file == d1.file
    ensures InLine(a, d) <==> a1.reify.fdset
    ensures !a1.reify.fdset ==> Newer(asks, f) == 0
  {
    assert Union([w]) == w.events by {
      assert [w][..0] == [];
    }
    assert asks1 + [] == asks1 == [] + asks1;
    AskMore([], asks1[0], f);
  }

  // An event of a file the number meant earlier, when that is the only one anything was asked for or
  // when the number is in line.
  lemma EarlierEvent(anfds: seq<Anfd>, kernel: map<nat, Descriptor>, standing: map<nat, Standing>, eperms: seq<nat>,
                     w: Io, file: File, e: Event)
    requires AllOk(anfds, kernel, standing, eperms) && Reported(e, Under(kernel, e.fd)) && e.fd == w.fd
    requires var a := At(anfds, w.fd); a.head == [w] && a.reify == CLEAN && a.events == w.events == e.got != NONE
    requires Under(kernel, w.fd).file == Some(file) && e.file != file
    requires InLine(At(anfds, w.fd), Under(kernel, w.fd)) || Newer(Stand(standing, w.fd).asks, e.file) == 0
    ensures Delivered(anfds, kernel, e)
         == if InLine(At(anfds, w.fd), Under(kernel, w.fd)) then [] else [Ready(w, w.events, Some(e.file))]
  {
    var a, d, s := At(anfds, w.fd), Under(kernel, w.fd), Stand(standing, w.fd);
    assert NumberOk(anfds, kernel, standing, eperms, w.fd) && EntryOk(e.file, d.entries[e.file], s.asks);
    HasSource(anfds, kernel, standing, eperms, e);
    OneWakes(w, Some(e.file));
    if InLine(a, d) {
      PassedOn(a, d, e);
    }
  }

  lemma TwoDiffer(changes: seq<nat>, fd: nat)
    requires Once(changes) && |changes| > 1
    ensures exists g :: g in changes && g != fd
  {
    assert changes[0] != changes[1] && changes[0] in changes && changes[1] in changes;
  }

  lemma JustOne(changes: seq<nat>, fd: nat)
    requires Once(changes) && forall g: nat :: g in changes <==> g == fd
    ensures changes == [fd]
  {
    assert fd in changes;
    if |changes| > 1 {
      TwoDiffer(changes, fd);
      assert false;
    }
  }

  // A number the kernel cannot poll is listed a second time after a fork, which forgets its mask and
  // keeps the list.
  method ListedTwice(w: Io, f: File) returns (l: EpollLoop)
    requires !f.pollable && w.events != NONE
    ensures fresh(l) && l.Valid() && l.eperms == [w.fd, w.fd] && InLine(At(l.anfds, w.fd), Under(l.kernel, w.fd))
  {
    var fd := w.fd;
    l := new EpollLoop();
    l.Open(fd, f);
    l.Start(w, true);
    assert Union([w]) == w.events by {
      assert [w][..0] == [];
    }
    ListOnce(l, w);
    l.Fork();
    ListOnce(l, w);
  }

  method ListOnce(l: EpollLoop, w: Io)
    requires l.Valid() && At(l.anfds, w.fd).head == [w] && w.events == Union([w]) != NONE
    requires At(l.anfds, w.fd).reify.fdset && At(l.anfds, w.fd).emask != Eperm
    requires Under(l.kernel, w.fd).file.Some? && !Under(l.kernel, w.fd).file.value.pollable
    requires forall g: nat | g != w.fd :: At(l.anfds, g) == ZERO
    modifies l
    ensures l.Valid() && l.eperms == old(l.eperms) + [w.fd]
    ensures forall g: nat | g != w.fd :: At(l.anfds, g) == ZERO
    ensures At(l.anfds, w.fd).head == [w] && At(l.anfds, w.fd).events == w.events
    ensures InLine(At(l.anfds, w.fd), Under(l.kernel, w.fd))
    ensures Under(l.kernel, w.fd).file == old(Under(l.kernel, w.fd)).file
  {
    var fd := w.fd;
    JustOne(l.fdchanges, fd);
    ghost var anfds1, kernel1, standing1 := l.anfds, l.kernel, l.standing;
    assert NumberOk(anfds1, kernel1, standing1, l.eperms, fd);
    ExplainedBelow(At(anfds1, fd).emask, At(anfds1, fd).egen, Under(kernel1, fd), Stand(standing1, fd).asks);
    assert PassAppends(anfds1, kernel1, [fd]) == [fd] by {
      assert [fd][..0] == [];
    }
    l.Reify({});
    forall g: nat
      ensures g != fd ==> At(l.anfds, g) == ZERO
      ensures g == fd ==> g !in l.fdchanges && At(l.anfds, g).head == [w] && At(l.anfds, g).events == w.events
                          && Under(l.kernel, g).file == Under(kernel1, g).file
    {
      assert PassedAt(At(anfds1, g), At(l.anfds, g), Under(kernel1, g), Under(l.kernel, g), Stand(standing1, g),
                      Stand(l.standing, g), g in [fd], g in l.fdchanges, g in {}, l.notes);
    }
  }
}
