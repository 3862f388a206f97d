# Event loop and service modules: a verification model

This project models the parts of the portal whose correctness is hardest to see by reading, and
proves what they promise. All of it is Dafny 4.11, one module per component, and
`dafny verify dfyconfig.toml` checks it.

**The event loop.**

- `Wakeup`: the lock-free wake-up pipe. Senders (`ev_async_send`, `ev_feed_signal`) and the loop are
  actors whose atomic steps interleave in any way; there may be any number of senders, each at any
  point. Safety is an invariant over all runs, liveness is over all infinite fair behaviours.
- `Pending`: the per-priority pending stacks with back pointers, including re-entrant callbacks.
- `TimerHeap`, `Timers`, `Expiry`: the 4-ary heap in an array, the timer operations on it, one
  `timers_reify` pass, and the order in which expired timers are finally invoked.
- `Epoll`: the descriptor table, its change list, `fd_reify`, and the epoll backend with lazy
  deregistration, cached masks and generation counters, against a model of the kernel in which a
  duplicated descriptor keeps registrations of earlier files alive. `EpollRuns`: runs in which the
  backend goes wrong.
- `Backends`: the poll and select backends as two encodings of one interest map.
- `BlockTime`: how long one turn of the loop blocks. `Periodic`: `ev_floor` and the next time of a
  periodic. `ArraySize`: how arrays grow, with C's bit operations in `Bits`.

**Libraries and modules.**

- `Sha256`: the streaming hash against FIPS 180-4. `Sha256Facts`: what its words, sums and bytes are as
  bits and numbers. `Sha256Roots`: where its constants come from. `Base64`: against section 4 of RFC 4648.
- `Editor`: the line editor against a line cut at the cursor and the list of accepted lines.
- `Cache`: the cache with expiry against a plain map. `Firewall`: the rate limiter.
- `Cron`: the tick that re-enters itself.

How the source's notions appear here:

- Watchers are values. The fields the source keeps in them (`active`, `pending`, `at`, `repeat`) are
  maps of the loop object that its methods update. Event masks are sets of bit numbers, or pairs of
  booleans where only read and write matter, so that `|` is union.
- Time stamps are reals. Integers are unbounded except where wrap-around or truncation matters: the
  bit count of SHA-256 is taken modulo 2^64, words are 32-bit vectors, and heap parents use C's
  truncating division.
- Callbacks are finite scripts of feeds, clears and nested invocations. Clocks, kernel answers,
  epoll events and what a completion types are parameters.
- `Timers` passes the pending queues in and out as values of the model that `Pending` proves its
  methods against.
- An `Epoll` note records which file an event came from, which the kernel does not tell; nothing
  in the loop depends on it. Programs may do what the kernel lets them do. Epoll bookkeeping is wrong
  in two ways the source does not rule out, and the model says exactly when, by what was asked under
  a number. A call is *misled* if the file under the number still has a registration, the mask asked
  for is the one asked for last, and that registration is not what was asked for last (another file
  was registered since, or was refused for this mask while the registration is for another one).
  Without `ev_io_set` there is no call at all for the same events; the number is then in line just if
  what was asked *stands*: it was for the file open now and this mask, and nothing else that still
  exists is as recent. Both disturb delivery and safety: events are lost, and events
  of another file get through. A program that keeps to the rule `Proper` never meets either.
- A source *escapes* the rate limiter if its name has 128 characters or more, or if it has no tracker
  while the table is full; the bound of twice the limit per window holds for the others only. Names of
  127 characters are limited but may be refused for what longer names did. A source is
  *free* if it has no tracker while the table is full, or if the limit is at least 1 and the name has
  128 characters or more or the window has no length.
- How deep ticks nest is a ghost parameter of the scheduler's methods; they end for every depth that
  `NestedEnds` allows.
- Where the last child of a heap node is examined by the bounded comparison, the source looks at
  a fourth child that cannot exist there; that dead comparison is not repeated.

## Model

| member | source | states |
|---|---|---|
| Wakeup.ActionKeeps | lib/libev/ev.c:2794-2907 | every atomic step of any number of senders and of the loop keeps the invariant that ties marks, flags, the skipped flag and the pipe together |
| Wakeup.RunKeeps | lib/libev/ev.c:2794-2907 | the invariant holds after every run of any interleaving |
| Wakeup.AsleepMeansInFlight | lib/libev/ev.c:4105-4184 | if the loop is blocked on an empty pipe with a mark set, some sender goes on to write the pipe |
| Wakeup.NoLostWakeup | lib/libev/ev.c:4105-4184 | from the initial state, whatever the interleaving: if a mark is set while the loop sleeps on an empty pipe, some sender is still before its write and will make it |
| Wakeup.SleepsOnlyWhenAllServed | lib/libev/ev.c:2794-2907 | once every send has returned, a sleeping loop owes no callback |
| Wakeup.SomebodyHelps | lib/libev/ev.c:2794-2842 | as long as a callback is owed, the loop or some sender has a next step that brings it nearer |
| Wakeup.StepTowards | lib/libev/ev.c:2844-2907 | every step feeds the watcher, brings it nearer by a well-founded measure, or leaves the helping actor as helpful as before |
| Wakeup.EverySendIsFed | lib/libev/ev.c:5454-5459 | in every infinite fair behaviour, with any number of senders, a send is followed by a feed of its watcher |
| Wakeup.CallKeeps | lib/libev/ev.c:2911-2925 | starting a new ev_async_send or ev_feed_signal keeps the invariant |
| Wakeup.CallbackKeeps | lib/libev/ev.c:2844-2907 | every step of pipecb keeps the invariant: a mark it has passed over is backed by a flag or a sender, and only a marked watcher is about to be fed |
| Wakeup.FedOnlyIfSent | lib/libev/ev.c:2844-2907 | in every run from the start a watcher is fed at most as often as it was sent to, so one nobody sent to is never fed |
| Wakeup.RunBalances | lib/libev/ev.c:2844-2907 | in every run the feeds of a watcher and the feed to come for its mark do not exceed the sends |
| Wakeup.ComesToRest | lib/libev/ev.c:2844-2907 | in every behaviour in which, from some point on, all calls have returned, nobody sends and the kernel reports just what is there, the loop gets to sleep on an empty pipe: it does not spin |
| Pending.FeedKeeps | lib/libev/ev.c:2328-2346 | feeding keeps the back pointers exact and what is owed equal to the union of what was fed |
| Pending.ClearKeeps | lib/libev/ev.c:4294-4319 | clearing leaves nothing owed to the watcher and keeps everything else |
| Pending.PopKeeps | lib/libev/ev.c:3771-3792 | taking the top of the highest non-empty queue delivers exactly what is owed, while nothing of higher priority is owed |
| Pending.OwedIsUnion | lib/libev/ev.c:2328-2346 | what is owed is the union of everything fed since the last invocation or clearing |
| Pending.EveryFeedIsSettled | lib/libev/ev.c:3771-3792 | in a history that ends with nothing owed, every feed is followed by an invocation or a clearing |
| Pending.InvocationDelivers | lib/libev/ev.c:3771-3792 | an invocation in a proper history delivers each event fed since the previous one, and nothing that was cleared |
| Pending.PopDelivers | lib/libev/ev.c:3771-3792 | popping takes the first of the remaining deliveries and leaves the others in order |
| Pending.Queues.constructor | lib/libev/ev.c:3771-3792 | starts with empty queues and nothing pending |
| Pending.Queues.FeedEvent | lib/libev/ev.c:2328-2346 | ev_feed_event is the feeding of the queue model |
| Pending.Queues.ClearPending | lib/libev/ev.c:4294-4319 | ev_clear_pending is the clearing of the queue model and returns what was owed |
| Pending.Queues.PopTop | lib/libev/ev.c:3771-3792 | the pop inside ev_invoke_pending |
| Pending.Queues.InvokeTop | lib/libev/ev.c:3771-3792 | one invocation delivers the top slot, then its callback runs its script, all of whose feeds, clears and nested invocations are in the log after the invocation and before anything else |
| Pending.Queues.InvokePending | lib/libev/ev.c:3771-3792 | under any finite re-entrant callbacks: terminates with all queues empty and nothing owed, having run the smaller of the scripts there were and the invocations logged, each after its invocation; with inert callbacks the deliveries are in priority order, the last fed first within a priority |
| Pending.Queues.RunScript | lib/libev/ev.c:3771-3792 | a callback does all its feeds, clears and nested invocations in order: the log grows by just what they are, where clearing an idle watcher leaves none |
| Pending.Queues.Do | lib/libev/ev.c:2328-2346 | one operation of a callback is a feed, a clearing or an invocation of all that is pending, and is logged as that |
| Pending.RanMore | lib/libev/ev.c:3771-3792 | one more operation of a script, nested invocations included, goes on with the account of what ran |
| Pending.SizeIsLogged | lib/libev/ev.c:3771-3792 | the invocations of an account are exactly those its log has more |
| TimerHeap.Parent | lib/libev/ev.c:2601-2606 | with C's truncating division the root is its own parent, and every other element is one of the four children of its parent |
| TimerHeap.RootIsMinimum | lib/libev/ev.c:2601-2606 | the root of a heap is the earliest of all elements |
| TimerHeap.Upheap | lib/libev/ev.c:2686-2706 | restores the heap from one element that may be too early, keeps the multiset of cells and stores every index moved |
| TimerHeap.Downheap | lib/libev/ev.c:2607-2648 | restores the heap from one element that may be too late, keeps the multiset of cells and stores every index moved |
| TimerHeap.Adjustheap | lib/libev/ev.c:2708-2716 | restores the heap from one arbitrary element |
| TimerHeap.Reheap | lib/libev/ev.c:2718-2728 | makes a heap with correct indices from arbitrary distinct contents |
| TimerHeap.FindNext | lib/libev/ev.c:2607-2648 | the four-way comparison finds the smallest child, in the fast and in the bounded case |
| TimerHeap.SwapUp | lib/libev/ev.c:2686-2706 | moving an element up one level keeps the heap except above it |
| TimerHeap.SwapDown | lib/libev/ev.c:2607-2648 | moving an element down one level keeps the heap except below it |
| ArraySize.NextSize | lib/libev/ev.c:2259-2304 | the new size has room for the count and for twice the old size, and exceeds the plain doubling by at most 1 + 4095 / elem |
| ArraySize.Double | lib/libev/ev.c:2263-2282 | the doubling loop ends with the least 2^j * (cur + 1), j at least 1, that is enough |
| ArraySize.RoundDownIsMask | lib/libev/ev.c:2276-2278 | and-ing with ~4095 rounds down to a multiple of 4096, in any width that holds the number |
| ArraySize.QuotientBounds | lib/libev/ev.c:2263-2282 | rounding the bytes to pages and dividing again loses nothing and adds at most 1 + 4095 / elem |
| Timers.TimerLoop.constructor | lib/libev/ev.c:3596-3610 | starts with no active timer |
| Timers.TimerLoop.Start | lib/libev/ev.c:4400-4423 | adds exactly the watcher, due after its interval; a no-op on an active one |
| Timers.TimerLoop.Stop | lib/libev/ev.c:4425-4454 | removes exactly the watcher and clears it; a no-op on an idle one but for the clearing |
| Timers.TimerLoop.Again | lib/libev/ev.c:4456-4482 | restarts a repeating timer from now, stops any other, and clears it |
| Timers.TimerLoop.Reschedule | lib/libev/ev.c:3952-3964 | shifts all active timers alike and keeps the heap |
| Timers.TimerLoop.ExpireRoot | lib/libev/ev.c:3820-3855 | the earliest timer gets the least deadline that is neither before now nor before its old one and its repeat, or is stopped if it does not repeat; no other deadline changes |
| Timers.TimerLoop.Expire | lib/libev/ev.c:3820-3855 | the inner loop terminates for any repeats and collects the due timers in order of deadline |
| Timers.TimerLoop.FeedReverse | lib/libev/ev.c:2348-2361 | feeds the collected timers, the last first |
| Timers.TimerLoop.Reify | lib/libev/ev.c:3820-3855 | after a pass nothing is due, every timer that was due has been rescheduled or stopped, and the queues are those after clearing and feeding just these |
| Timers.ExpireAll | lib/libev/ev.c:3820-3855 | the expired timers are exactly those with a deadline before now |
| Timers.ExpireOne | lib/libev/ev.c:3820-3855 | expiring the root extends the list of expired timers in order and exactly once each |
| Timers.RootIsEarliest | lib/libev/ev.c:3596-3610 | the root of the timer heap is an active watcher with the earliest deadline |
| Timers.NothingDue | lib/libev/ev.c:3820-3855 | if the root is not due, nothing is |
| Timers.Shifted | lib/libev/ev.c:3952-3964 | shifting every cell and every active watcher keeps the invariants ev_verify asserts |
| Timers.NoDrift | lib/libev/ev.c:3820-3855 | over any passes a repeating timer is never ahead of its first deadline plus k repeats after k expiries, and is exactly there if and only if no pass was more than a whole repeat late |
| Timers.GridIs | lib/libev/ev.c:3835-3838 | k repeats added one by one are k times the repeat |
| Timers.TimerLoop.RunPasses | lib/libev/ev.c:3820-3855 | passes at any times leave a trail of deadlines in which each pass moves just what was due, to the least time it may |
| Expiry.ExpiredInOrder | lib/libev/ev.c:3820-3855 | expired timers not already pending are invoked by priority, then by original deadline: the two reversals cancel |
| Expiry.ExpiredOnce | lib/libev/ev.c:3820-3855 | a pass feeds every timer that was due exactly once and no other |
| Expiry.FedInOrder | lib/libev/ev.c:2348-2361 | of two idle watchers fed, the one of higher priority is invoked first, at equal priority the one fed later |
| Expiry.FeedAllLog | lib/libev/ev.c:2348-2361 | feeding a list of watchers is recorded as just these feeds in this order |
| Expiry.PendingInOrder | lib/libev/ev.c:3771-3792 | invocation goes by priority and from the top of each stack |
| Epoll.TryTwice | lib/libev/ev_epoll.c:113-153 | the two attempts at epoll_ctl make the registration, find one for the remembered mask, meet a file the kernel cannot poll, or fail, and exactly when |
| Epoll.Register | lib/libev/ev_epoll.c:87-157 | a registration made or found is for the new mask, of the current generation and the only such one if and only if the call is not misled; it fails exactly if the number is not open or the kernel refuses; counter, mask and registrations stay what the asking made them |
| Epoll.ExplainedMore | lib/libev/ev_epoll.c:87-157 | whatever is asked, the generation counter, the remembered mask and every registration left are determined by the history of asking under the number |
| Epoll.InLineExactly | lib/libev/ev_epoll.c:183-232 | a wanted descriptor is in line if and only if the kernel watches its open file for just the union, or cannot, and of all events reported exactly those of the open file pass |
| Epoll.StandsSays | lib/libev/ev_epoll.c:60-83 | without a call, the kernel does the right thing if and only if the history of asking says so: the file open now is the one last asked for, for this mask, with nothing else as recent |
| Epoll.ProperSettles | lib/libev/ev_epoll.c:60-83 | the rule for programs suffices: set up again what was closed or opened, and let nothing else be registered or refused under a number before the file whose registration is still there comes back to it for the same events |
| Epoll.AloneIsNewer | lib/libev/ev_epoll.c:87-157 | if all asked since the last new generation was for one file, its registration is the latest and the remembered mask is its own |
| Epoll.EpollLoop.constructor | lib/libev/ev.c:2409-2514 | starts with an empty table and an empty change list |
| Epoll.EpollLoop.ProperIsInLine | lib/libev/ev.c:2409-2486 | in every state reached by a program that kept to the rule in all passes, a number not closed or opened since the last pass and without pending changes is in line |
| Epoll.EpollLoop.FdChange | lib/libev/ev.c:2488-2500 | records the change once |
| Epoll.EpollLoop.Start | lib/libev/ev.c:4347-4375 | adds the watcher at the front of its list and marks the change; an active one stays as it is; all invariants are kept, with or without ev_io_set |
| Epoll.EpollLoop.Stop | lib/libev/ev.c:4377-4398 | removes exactly the watcher; all invariants are kept |
| Epoll.EpollLoop.Kill | lib/libev/ev.c:2503-2514 | stops every watcher of the descriptor and reports an error to each |
| Epoll.Attempt | lib/libev/ev_epoll.c:87-157 | epoll_modify for one descriptor: what it asks, when it is given up and when it ends in line, exactly |
| Epoll.EpollLoop.Modify | lib/libev/ev_epoll.c:87-157 | the same within the table, with the list of always-ready numbers |
| Epoll.EpollLoop.Reify | lib/libev/ev.c:2409-2486 | afterwards read is on for a number if and only if one of its watchers wants to read, and the same for write; a pass gives up exactly the called descriptors the kernel refuses, with their watchers told and listed once for the next pass; every other one is in line if and only if the history of asking settles it, called or not, and always if the program is proper; list membership matches the flags throughout; the list of always-ready numbers stays without repeats if and only if none of its numbers is listed again |
| Epoll.EpollLoop.RunPass | lib/libev/ev.c:2449-2476 | the loop of the pass, with descriptors given up in the middle joining the end of the list |
| Epoll.CleanIsInLine | lib/libev/ev_epoll.c:87-157 | a descriptor without pending changes, not closed or opened since a turn that put it in line, is registered for what its watchers want, with every older registration outdated |
| Epoll.PassTracks | lib/libev/ev.c:2449-2476 | the backend calls of a pass lead from the events before to events after in which a bit is set if and only if some watcher wants it |
| Epoll.UnionIsWanted | lib/libev/ev.c:2463-2467 | a bit is in the union of a list of watchers if and only if some watcher of the list wants it |
| Epoll.PassWants | lib/libev/ev.c:2449-2476 | after a pass the events of every number listed before are just what its watchers want |
| Epoll.DeliveredIsCaused | lib/libev/ev_epoll.c:183-232 | whatever a series of events feeds, some event of the series on that number caused, bit by bit |
| Epoll.EpollLoop.PollEvents | lib/libev/ev_epoll.c:183-232 | the loop over the received events feeds only what they caused |
| Epoll.PassChained | lib/libev/ev.c:2449-2476 | each backend call of a pass starts from the events the calls before it left |
| Epoll.EpollLoop.FdEvent | lib/libev/ev.c:2374-2398 | feeds exactly the watchers that want some of the events, and none while changes are pending |
| Epoll.EpollLoop.PollOne | lib/libev/ev_epoll.c:183-232 | an event is passed on exactly if it passes the tests and no change is pending; one that does not pass, being stale or impossible to silence, requests a rebuild and nothing else does |
| Epoll.EpollLoop.Poll | lib/libev/ev_epoll.c:160-257 | under a number in line everything fed comes from the file the number means now, every event of that file reaches every watcher that wants it, and every watcher of a file that cannot be polled is fed; a dropped event requests a rebuild; what was in line stays so; what was asked under each number grows by just the silencings and lapses |
| Epoll.PassedOn | lib/libev/ev_epoll.c:183-232 | for a descriptor in line the generation comparison and the silencing let through exactly the events of the open file, as far as anyone wants them |
| Epoll.SilenceOk | lib/libev/ev_epoll.c:205-230 | silencing an unwanted event keeps a registration that was right right, and succeeds exactly if the open file is registered |
| Epoll.PollKeepsAlone | lib/libev/ev_epoll.c:205-256 | a poll spoils nothing for a proper program: what was asked for the open file alone stays so, or the mask is forgotten and will be asked for anew |
| Epoll.EpollLoop.EpermOne | lib/libev/ev_epoll.c:243-256 | one turn of the loop over always-ready descriptors, with its swap-remove |
| Epoll.EpollLoop.PollEperms | lib/libev/ev_epoll.c:243-256 | every listed always-ready descriptor is fed in turn |
| Epoll.EpollLoop.RearmAll | lib/libev/ev.c:2556-2569 | fd_rearm_all: every descriptor with events is set to be registered anew and listed once |
| Epoll.EpollLoop.Fork | lib/libev/ev_epoll.c:304-314 | a new kernel instance holds nothing, every descriptor with events is set to be registered again, and exactly their masks are forgotten |
| Epoll.RearmedOk | lib/libev/ev.c:2556-2569 | rearming all descriptors keeps the invariants against an empty kernel instance |
| Epoll.EpollLoop.Recover | lib/libev/ev.c:4087-4092 | after a requested rebuild and the pass that follows it, every number is in line whatever the program did before, unless it is not open or the kernel refuses it |
| Epoll.EpollLoop.Open | lib/libev/ev_epoll.c:60-83 | a number may come to mean any file, with registrations of this and of earlier files still alive |
| Epoll.EpollLoop.Close | lib/libev/ev_epoll.c:60-83 | closing keeps the invariants whether or not the registration survives and whether or not watchers were stopped |
| Epoll.EpollLoop.Vanish | lib/libev/ev_epoll.c:60-83 | a surviving registration may disappear at any time |
| EpollRuns.Superseded | lib/libev/ev_epoll.c:125-157 | a run: a file comes back to its number after another was registered there for the same events; its own events are dropped and those of the other file reach its watcher |
| EpollRuns.RefusedMeanwhile | lib/libev/ev_epoll.c:125-157 | a run: a file comes back after another was refused there for other events, which are asked for then; the kernel goes on watching for the earlier ones |
| EpollRuns.WithoutIoSet | lib/libev/ev.c:2449-2476 | a run: a watcher started again with the same events on a number that means another file is in line if and only if it was set up by ev_io_set; otherwise an event of the earlier file is fed |
| Epoll.ListedOnce | lib/libev/ev_epoll.c:135-149 | a pass leaves the list of always-ready numbers without repeats if and only if it had none and none of its numbers is called for and appended again |
| EpollRuns.ListedTwice | lib/libev/ev_epoll.c:135-149 | a run: after a fork a number the kernel cannot poll is in the list of always-ready numbers twice |
| Backends.PollSet.constructor | lib/libev/ev_poll.c:153-163 | starts with no descriptor wanted |
| Backends.PollSet.Modify | lib/libev/ev_poll.c:71-108 | changes what is wanted of one descriptor and nothing else, and keeps the two arrays inverse through allocation and swap-remove |
| Backends.Removed | lib/libev/ev_poll.c:98-107 | swap-remove keeps the arrays inverse and every other entry |
| Backends.PollSet.Scan | lib/libev/ev_poll.c:126-150 | the scan stays in bounds, stops after the last report and handles every report in order |
| Backends.FoundOnce | lib/libev/ev_poll.c:126-150 | no descriptor is reported twice |
| Backends.ReportsSays | lib/libev/ev_poll.c:126-150 | exactly the descriptors with a bit set are reported: as invalid if POLLNVAL is set, otherwise readable if and only if POLLIN, POLLERR or POLLHUP is set and writable if and only if POLLOUT, POLLERR or POLLHUP is |
| Backends.SelectSet.constructor | lib/libev/ev_select.c:292-316 | starts with no descriptor wanted |
| Backends.SelectSet.Modify | lib/libev/ev_select.c:123-154 | changes what is wanted of one descriptor and nothing else, growing the vectors if needed |
| Backends.SelectSet.Scan | lib/libev/ev_select.c:261-286 | reports exactly the ready descriptors, each once, highest first |
| Backends.Follow | lib/libev/ev.c:2449-2476 | through any pass both backends keep encoding the events of every descriptor |
| Backends.Run | lib/libev/ev.c:2409-2486 | after any series of openings, closings, starts, stops and passes both backends encode the events of every descriptor, which after a pass are what its watchers want |
| Backends.RunPass | lib/libev/ev.c:2449-2476 | one pass of the loop, followed call by call, keeps both backends in step |
| Sha256.LeastPadding | lib/sha256/sha256.c:96-110 | the zeros of the padding fill the last block, and no fewer do |
| Sha256.DigestsAgree | lib/sha256/sha256.c:83-131 | hashing block by block with the padding of the code is the digest of the standard |
| Sha256.Context.constructor | lib/sha256/sha256.c:73-81 | starts as the hash of nothing |
| Sha256.Context.Schedule | lib/sha256/sha256.c:53-57 | the array filled in place is the message schedule |
| Sha256.Context.RunRounds | lib/sha256/sha256.c:59-67 | the register shuffle is the 64 rounds, which Sha256Facts.CompressIsStandard states as equations |
| Sha256.Context.Transform | lib/sha256/sha256.c:49-71 | the state becomes the compression of state and block |
| Sha256.Context.Feed | lib/sha256/sha256.c:83-94 | one byte more; a full buffer is hashed and counted |
| Sha256.Context.Update | lib/sha256/sha256.c:83-94 | the message grows by the bytes given |
| Sha256.Context.PutLength | lib/sha256/sha256.c:112-120 | the eight stores write the low 64 bits of the length, most significant byte first |
| Sha256.Context.Pad | lib/sha256/sha256.c:96-121 | both padding branches hash exactly the padded message |
| Sha256.Context.Final | lib/sha256/sha256.c:96-131 | the output is the FIPS 180-4 hash of everything taken |
| Sha256.HashChunks | lib/sha256/sha256.c:83-131 | for every way of cutting a message into updates the output is the hash of the whole message |
| Sha256.ShortPadding | lib/sha256/sha256.c:100-102 | a rest of less than 56 bytes shares its block with the length |
| Sha256.LongPadding | lib/sha256/sha256.c:103-108 | a longer rest fills its block and the length takes another |
| Sha256.LengthIsExact | lib/sha256/sha256.c:111-119 | below 2^61 bytes the last eight bytes are the exact length in bits |
| Sha256.BigEndianValue | lib/sha256/sha256.c:112-119 | the bytes written denote the number |
| Sha256.BlocksAreHashed | lib/sha256/sha256.c:83-94 | hashing block by block is the hash of all blocks |
| Sha256Facts.CompressIsStandard | lib/sha256/sha256.c:49-71 | section 6.2.2 of FIPS 180-4 as equations modulo 2^32 between numbers: every word of the schedule, both new registers of each of the 64 rounds and the eight sums at the end, for every state and block |
| Sha256Facts.PlusNumber | lib/sha256/sha256.c:62-66 | for every numbering of the words that counts up, the addition of words adds modulo 2^32 |
| Sha256Facts.PlusValue | lib/sha256/sha256.c:62-66 | the same of the values the words convert to |
| Sha256Facts.NumberIsValue | lib/sha256/sha256.c:49-71 | the number with the bits of a word as binary digits is what the word converts to |
| Sha256Facts.ChBits | lib/sha256/sha256.c:28-28 | bit by bit the choice takes the second where the first is 1 and the third where it is 0 |
| Sha256Facts.MajBits | lib/sha256/sha256.c:29-29 | bit by bit two equal ones of three win |
| Sha256Facts.XorBits | lib/sha256/sha256.c:30-33 | bit by bit the exclusive or of three |
| Sha256Facts.BigSigmas | lib/sha256/sha256.c:30-31 | are the exclusive or of the word turned right by 2, 13 and 22 places, and by 6, 11 and 25 |
| Sha256Facts.SmallSigmas | lib/sha256/sha256.c:32-33 | are the exclusive or of the word turned right by 7 and 18 places and shifted by 3, and turned by 17 and 19 and shifted by 10 |
| Sha256Facts.RotateIsRotated | lib/sha256/sha256.c:27-27 | the two shifts of a rotation by n are n turns by one place |
| Sha256Facts.RotateOnceValue | lib/sha256/sha256.c:27-27 | a turn by one place halves the number and adds 2^31 if it was odd |
| Sha256Facts.ShiftOnceValue | lib/sha256/sha256.c:32-33 | a shift by one place halves the number |
| Sha256Facts.JoinIsBigEndian | lib/sha256/sha256.c:53-55 | four bytes joined are the number with the first byte the most significant |
| Sha256Facts.ByteOfJoin | lib/sha256/sha256.c:121-130 | the bytes of a word are the four it was joined from |
| Sha256Facts.JoinBytesOf | lib/sha256/sha256.c:121-130 | a word is joined from its bytes |
| Sha256Facts.OutputWord | lib/sha256/sha256.c:121-130 | the words of the state read back from the output |
| Sha256Facts.PaddedIs | lib/sha256/sha256.c:96-119 | section 5.1.1: the message, one bit 1, zeros that end within the block, and the exact length in 64 bits |
| Sha256Roots.ConstantIsRoot | lib/sha256/sha256.c:35-47 | each of the 64 constants holds the first 32 bits of the fractional part of the cube root of its prime |
| Sha256Roots.StartIsRoot | lib/sha256/sha256.c:77-80 | each word of the initial state holds the first 32 bits of the fractional part of the square root of its prime |
| Sha256Roots.PrimesInOrder | lib/sha256/sha256.c:35-47 | the primes start with 2, and each is the next prime after the one before it |
| Sha256Roots.SievedIsPrime | lib/sha256/sha256.c:35-47 | below 361 a number that none of the primes below 19 divides properly is prime |
| Editor.LineEditor.constructor | modules/mod_cli/mod_cli.c:50-60 | a zeroed editor is an empty line with an empty history |
| Editor.LineEditor.HistoryAdd | modules/mod_cli/mod_cli.c:1653-1665 | accepts a line unless it is empty, a login or the last one again |
| Editor.LineEditor.HistoryUp | modules/mod_cli/mod_cli.c:1667-1684 | is Up of the cursor model |
| Editor.LineEditor.HistoryDown | modules/mod_cli/mod_cli.c:1686-1705 | is Down of the cursor model |
| Editor.LineEditor.InsertChar | modules/mod_cli/mod_cli.c:1707-1729 | inserts at the cursor if there is room |
| Editor.LineEditor.DeleteBack | modules/mod_cli/mod_cli.c:1731-1742 | deletes left of the cursor |
| Editor.LineEditor.CursorLeft | modules/mod_cli/mod_cli.c:1744-1750 | moves one character from left to right of the cursor |
| Editor.LineEditor.CursorRight | modules/mod_cli/mod_cli.c:1752-1758 | moves one character from right to left of the cursor |
| Editor.LineEditor.KillWord | modules/mod_cli/mod_cli.c:2376-2391 | deletes the spaces and the word left of the cursor, terminator included in the move |
| Editor.LineEditor.Enter | modules/mod_cli/mod_cli.c:2345-2357 | submits the line, extends the history and starts afresh |
| Editor.LineEditor.Feed | modules/mod_cli/mod_cli.c:2318-2408 | every byte does what the cursor model says, in every escape state; the position, length and terminator invariants hold |
| Editor.LineEditor.FeedAll | modules/mod_cli/mod_cli.c:2318-2408 | the same for every stream of keys |
| Editor.NewestFirst | modules/mod_cli/mod_cli.c:2325-2328 | from a fresh line the first 64 times ESC [ A show the accepted lines newest first |
| Editor.UpsWalk | modules/mod_cli/mod_cli.c:2325-2328 | time k of ESC [ A shows what the ring holds for the k-th to last line |
| Editor.ShownExactly | modules/mod_cli/mod_cli.c:1678-1680 | the ring is exact for the last 64 lines and shows a later line beyond them |
| Editor.SixtyFifthUpIsTheFirst | modules/mod_cli/mod_cli.c:1678-1680 | time 65 of ESC [ A shows the newest line again |
| Editor.RingAdds | modules/mod_cli/mod_cli.c:1662-1664 | writing slot count modulo 64 keeps the latest line of every residue |
| Editor.RingShows | modules/mod_cli/mod_cli.c:1678-1680 | the slot of a position holds the latest line of its residue |
| Editor.SpacesDropped | modules/mod_cli/mod_cli.c:2379-2381 | exactly the trailing spaces are skipped |
| Editor.WordDropped | modules/mod_cli/mod_cli.c:2382-2385 | exactly the characters back to a space, a slash or the start are deleted |
| Editor.InsertBackspace | modules/mod_cli/mod_cli.c:1707-1742 | a printable key and backspace cancel while there is room |
| Editor.LeftRight | modules/mod_cli/mod_cli.c:1744-1758 | the arrows cancel while the cursor can move |
| Editor.UpsAndDowns | modules/mod_cli/mod_cli.c:2325-2329 | as many times ESC [ B as ESC [ A lead back to the empty line |
| Editor.Typing | modules/mod_cli/mod_cli.c:2405-2407 | printable bytes typed go in at the cursor, up to 1023 in the line |
| Editor.EnteredIsShown | modules/mod_cli/mod_cli.c:2345-2357 | a line typed and entered is what ESC [ A shows next, unless it is a login |
| Editor.CursorKeys | modules/mod_cli/mod_cli.c:2330-2333 | ESC [ C, D, F and H leave the text alone and put the cursor one place right, one left, at the end and at the start |
| Editor.ControlKeys | modules/mod_cli/mod_cli.c:2362-2398 | Ctrl-A and Ctrl-E move like Home and End, Ctrl-U empties the line, Ctrl-K cuts what is right of the cursor |
| Editor.SameKeys | modules/mod_cli/mod_cli.c:2345-2361 | delete and backspace do the same, as do return and newline |
| Editor.CutWord | modules/mod_cli/mod_cli.c:2376-2391 | Ctrl-W cuts spaces left of the cursor, and left of them what reaches back to a space, a slash or the start |
| Editor.TabKey | modules/mod_cli/mod_cli.c:2341-2344 | what a tab completes goes in at the cursor as far as there is room |
| Editor.HistoryIsClean | modules/mod_cli/mod_cli.c:1653-1665 | whatever keys come, no line in the history is empty, a login or the line before it again |
| Cron.Scheduler.Tick | modules/mod_cron/mod_cron.c:69-97 | a tick that re-enters itself any number of times ends unless a job loops; with positive intervals every due job runs exactly once and no other |
| Cron.Scheduler.Send | modules/mod_cron/mod_cron.c:273-280 | a message that comes back to the scheduler ticks again, as often as it calls it |
| Cron.Scheduler.Run | modules/mod_cron/mod_cron.c:69-97 | after ticks at any times every job is what its own runs make it |
| Cron.EndsExactly | modules/mod_cron/mod_cron.c:69-97 | a tick ends within some depth of nesting if and only if no due job with an interval that is not positive calls it again |
| Cron.Endless | modules/mod_cron/mod_cron.c:76-80 | if there is such a job, no depth of nesting is enough |
| Cron.NestedEnds | modules/mod_cron/mod_cron.c:69-97 | otherwise as many levels as jobs re-enter, and one more, are enough, and every due job runs |
| Cron.EachOnce | modules/mod_cron/mod_cron.c:69-97 | with positive intervals the nested tick is the plain one: each due job once |
| Cron.FewerReentering | modules/mod_cron/mod_cron.c:69-97 | running a job leaves fewer that re-enter, the measure of the re-entry |
| Cron.AtMost | modules/mod_cron/mod_cron.c:76-80 | whenever the scheduler ticks, in any span of d seconds a job runs at most floor(d / interval) + 1 times |
| Cron.RunsRecorded | modules/mod_cron/mod_cron.c:76-80 | the run count grows by one with each run, the last run is remembered, and runs are at least an interval apart |
| Cron.NeverEarly | modules/mod_cron/mod_cron.c:75-76 | a job does not run while it is disabled, nor before its interval is over |
| Cron.NeverLate | modules/mod_cron/mod_cron.c:75-76 | after every tick an enabled job has just run or its interval is not over |
| Cache.Store.constructor | modules/mod_cache/mod_cache.c:42-60 | starts empty |
| Cache.Store.Find | modules/mod_cache/mod_cache.c:68-85 | finds the slot of a live key, frees the slot of an expired one, agrees with the map |
| Cache.Store.Set | modules/mod_cache/mod_cache.c:87-121 | is the update of the map; it is refused if and only if every slot is in use and none holds the key; the last failure exit is never reached |
| Cache.Store.Get | modules/mod_cache/mod_cache.c:123-131 | answers like the map and counts hits and misses |
| Cache.Store.SetThenGet | modules/mod_cache/mod_cache.c:74-131 | an item set with a positive ttl is found up to its deadline, that second included, and not after it; with any other ttl it is found at all times; one refused is not found |
| Cache.Store.Del | modules/mod_cache/mod_cache.c:133-147 | removes like the map and reports whether the key was live |
| Cache.Store.Flush | modules/mod_cache/mod_cache.c:149-160 | empties the map |
| Cache.Store.Cleanup | modules/mod_cache/mod_cache.c:162-178 | changes no answer, leaves no expired item in use and counts what it frees |
| Cache.AllUsed | modules/mod_cache/mod_cache.c:103-120 | fewer used slots than slots leave one free |
| Cache.Freed | modules/mod_cache/mod_cache.c:74-81 | freeing a slot matches removing its key, and matches doing nothing if it has expired |
| Cache.Written | modules/mod_cache/mod_cache.c:92-116 | writing a slot matches updating the map and keeps keys unique |
| Cache.Later | modules/mod_cache/mod_cache.c:68-85 | under a nondecreasing clock cache and map keep agreeing |
| Firewall.Limiter.constructor | modules/mod_firewall/mod_firewall.c:66-73 | starts with no tracker |
| Firewall.Limiter.FindTracker | modules/mod_firewall/mod_firewall.c:90-96 | finds the first tracker of the name |
| Firewall.Limiter.FindRule | modules/mod_firewall/mod_firewall.c:98-104 | finds the first active rule for the name |
| Firewall.Limiter.Check | modules/mod_firewall/mod_firewall.c:107-165 | rules first, then the tracker, whose new state is exact; totals count checks and refusals; a full table lets through; what is let through is recorded for its source and no other; a name below 127 characters is refused only if it got at least the limit through in the last window |
| Firewall.Limiter.RateBound | modules/mod_firewall/mod_firewall.c:129-157 | any half-open interval of one window contains at most twice the limit of checks a tracker lets through, for names below 128 characters |
| Firewall.Limiter.Serve | modules/mod_firewall/mod_firewall.c:107-165 | in any series of checks, a source without a rule that does not escape gets at most twice the limit through in any half-open interval of one window; one that is free from the start gets everything through; no name below 127 characters is refused before it got the limit through within one window up to then |
| Firewall.Flood | modules/mod_firewall/mod_firewall.c:129-157 | for every limit and window: more than twice the limit of checks at one time, and at least one, all get through if and only if the source is free |
| Firewall.HeldBackFairly | modules/mod_firewall/mod_firewall.c:144-160 | a refusal means that the limit was got through within one window up to now |
| Firewall.EarnedOn | modules/mod_firewall/mod_firewall.c:144-160 | what a tracker has counted up to the limit was let through in its window, check after check |
| Firewall.CutNamesShare | modules/mod_firewall/mod_firewall.c:129-142 | a name of 127 characters can be refused without any pass of its own: longer names that begin with it are counted by its tracker |
| Firewall.FreeOn | modules/mod_firewall/mod_firewall.c:129-157 | a free source stays free and is let through |
| Firewall.NothingPasses | modules/mod_firewall/mod_firewall.c:152-160 | if the limit is not positive, a source that is not free is held back |
| Firewall.EscapesOn | modules/mod_firewall/mod_firewall.c:129-142 | a source that escapes goes on escaping |
| Firewall.LimitedOn | modules/mod_firewall/mod_firewall.c:129-142 | a source that is limited when checked stays so |
| Firewall.Consecutive | modules/mod_firewall/mod_firewall.c:144-157 | the passes in an interval are consecutive ones |
| Firewall.AtMostTwice | modules/mod_firewall/mod_firewall.c:144-157 | 2 * limit + 1 passes span at least a window |
| Firewall.LetThrough | modules/mod_firewall/mod_firewall.c:144-157 | counting one more keeps the windows apart and no window over the limit |
| Firewall.Limiter.OneTracker | modules/mod_firewall/mod_firewall.c:129-136 | two trackers of one name only if the name has 127 characters |
| Firewall.LongNameNotFound | modules/mod_firewall/mod_firewall.c:90-96 | a name too long to be stored is never found |
| BlockTime.Decide | lib/libev/ev.c:4095-4168 | sleep and poll together never exceed, for any active timer or periodic, the larger of its remaining time, the timeout and the backend minimum; 0 if one is due and timeouts are not collected; never shorter than the earliest deadline needs; with a collect interval for I/O the sleep is the larger of 0 and the smaller of what is left of that interval and what leaves the backend its minimum |
| BlockTime.Lower | lib/libev/ev.c:4127-4141 | the wait is lowered to the earliest deadline of a heap |
| Base64.EncodeBytes | modules/mod_crypto/mod_crypto.c:80-103 | is the encoding by groups of 24 bits |
| Base64.DecodeString | modules/mod_crypto/mod_crypto.c:115-132 | is the decoding by groups of four characters, with the same refusals |
| Base64.RoundTrip | modules/mod_crypto/mod_crypto.c:80-132 | decoding undoes encoding for every byte string |
| Base64.EncodeLength | modules/mod_crypto/mod_crypto.c:80-103 | the output has 4 * ceil(n / 3) characters |
| Base64.ExactlyCanonical | modules/mod_crypto/mod_crypto.c:115-132 | encoding undoes decoding if and only if the string is canonical: padding only in the last group, unused bits zero |
| Base64.EncodeCanonical | modules/mod_crypto/mod_crypto.c:80-103 | every encoding is canonical |
| Base64.CanonicalBack | modules/mod_crypto/mod_crypto.c:115-132 | every canonical string decodes, and encodes back to itself |
| Base64.DecoderIsLenient | modules/mod_crypto/mod_crypto.c:115-132 | padding in the middle and nonzero unused bits are accepted |
| Base64.FullDigits | modules/mod_crypto/mod_crypto.c:84-89 | the shifts and masks of a full group give the four digits of its 24-bit number |
| Base64.LastDigits | modules/mod_crypto/mod_crypto.c:90-101 | the shifts and masks of a rest give the digits of its number, and padding |
| Base64.DecodeGroup | modules/mod_crypto/mod_crypto.c:120-128 | the shifts of the decoder, cut to eight bits, give the bytes of the 24-bit number of the digits |
| Base64.DigitsOfNumber | modules/mod_crypto/mod_crypto.c:84-89 | the four digits of a 24-bit number, byte by byte |
| Bits.AndLow | modules/mod_crypto/mod_crypto.c:85-88 | and-ing with 2^k - 1 keeps the low k bits |
| Bits.OrLow | modules/mod_crypto/mod_crypto.c:86-87 | or-ing a number shifted by k with one of k bits adds |
| Base64.ValDigit | modules/mod_crypto/mod_crypto.c:105-113 | the value of a digit's character is the digit |
| Base64.DigitIsTabled | modules/mod_crypto/mod_crypto.c:76-78 | the 64 digits are those of the table, in its order |
| Periodic.EvFloor | lib/libev/ev.c:1918-1951 | terminates and equals the mathematical floor for all reals, negative and huge ones included |
| Periodic.Recalc | lib/libev/ev.c:3859-3882 | terminates with a time in (now, now + interval], on the grid offset + k * interval unless the interval is below the minimum; with interval 0 it is now |
| Periodic.OnlyOne | lib/libev/ev.c:3859-3882 | there is only one such time on the grid |
| Periodic.LastBefore | lib/libev/ev.c:3863-3864 | the starting point is the last grid time not after now |

## Left out

- Wakeup.EverySendIsFed: assumes fair scheduling and a poll that reports a readable pipe; an interrupted poll only delays, and memory ordering weaker than the fences give is not modelled.
- Pending.Queues.InvokePending: callbacks are finite scripts, so a program whose callbacks feed each other without end is outside the model.
- Timers.TimerLoop.Reify: floating-point rounding of time stamps is not modelled, and the assertion that a repeat is not negative is a precondition.
- Epoll.EpollLoop.Modify: the 32-bit generation counter is unbounded here, so events of a registration exactly 2^32 generations old are not considered, and MOD on a present registration is taken to succeed.
- Epoll.EpollLoop.Poll: a number the list of always-ready descriptors holds twice after a fork is fed twice, which the pending queues merge. The growth of the receive array and a failing epoll_wait are left out.
- Backends.PollSet.Scan: the handling of a failing poll is left out, as is the one of select.
- Sha256.Context.Final: the context is not used again afterwards, as in the source.
- Editor.LineEditor.Feed: tab completion is whatever it types, and what a submitted command does is left open; the `top` and shell modes, terminal output and the reuse of an editor by a later connection are not modelled.
- Cron.Scheduler.Tick: the clock stands still during a tick, and messages do not add, remove or trigger jobs.
- Cache.Store.Set: locks are not modelled; every operation is one step.
- Firewall.Limiter.Check: rules do not change between checks, and the reason text is left out.
- Periodic.Recalc: over reals the comparison for lost resolution only matters for interval 0.
- Periodics beyond `periodic_recalc` (their reify and reschedule callbacks): the same heap and feeding code as timers.
- Idle, prepare, check, fork, cleanup, embed, child, signal and stat watchers, `time_update`, and the kqueue, io_uring, linuxaio, port and Windows backends: plumbing of the operating system.
- `fd_ebadf` and `fd_enomem`: they only call `fd_kill`, which is modelled.
- MD5 and hex coding: the same kind of proof as SHA-256, and `sscanf` leniency.
- The other modules, the core's routing and access control, the tools and the command-line dispatch.
