/**
 The 4-ary heap with back pointers that holds timers and periodics: `downheap`, `upheap`,
 `adjustheap` and `reheap` on an array whose first three cells stay unused.
 */
module TimerHeap {
  import opened Pending

  const HEAP0: nat := 3  // DHEAP - 1, the index of the first element; DHEAP is 4

  // A cell of the heap array: a watcher and the copy of its `at` that the heap compares.
  datatype Cell = Unused | Cell(at: real, w: Watcher)

  // Division as C does it.
  function TruncDiv(a: int, b: int): int
    requires b > 0
  {
    if a >= 0 then a / b else -((-a) / b)
  }

  function Parent(k: nat): (p: nat)
    requires k >= HEAP0
    ensures if k == HEAP0 then p == k else HEAP0 <= p < k && FirstChild(p) <= k < FirstChild(p) + 4
  {
    TruncDiv(k - HEAP0 - 1, 4) + HEAP0
  }

  function FirstChild(k: nat): nat
    requires k >= HEAP0
  {
    4 * (k - HEAP0) + HEAP0 + 1
  }

  lemma ParentOfChild(k: nat, c: nat)
    requires k >= HEAP0 && FirstChild(k) <= c < FirstChild(k) + 4
    ensures Parent(c) == k
  {
  }

  // ---------- heaps as values ----------

  predicate InUse(h: seq<Cell>, n: nat) {
    n + HEAP0 <= |h| && forall i | HEAP0 <= i < n + HEAP0 :: h[i].Cell?
  }

  predicate Below(h: seq<Cell>, n: nat, i: nat)
    requires InUse(h, n) && HEAP0 <= i < n + HEAP0
  {
    h[Parent(i)].at <= h[i].at
  }

  predicate IsHeap(h: seq<Cell>, n: nat) {
    InUse(h, n) && forall i | HEAP0 <= i < n + HEAP0 :: Below(h, n, i)
  }

  // A heap except that cell `k` may be smaller than its parent.
  predicate HeapUpTo(h: seq<Cell>, n: nat, k: nat)
    requires HEAP0 <= k < n + HEAP0
  {
    && InUse(h, n)
    && (forall i | HEAP0 <= i < n + HEAP0 && i != k :: Below(h, n, i))
    && (forall i | HEAP0 <= i < n + HEAP0 && i != k && Parent(i) == k :: h[Parent(k)].at <= h[i].at)
  }

  // A heap except that cell `k` may be larger than its children.
  predicate HeapDownTo(h: seq<Cell>, n: nat, k: nat)
    requires HEAP0 <= k < n + HEAP0
  {
    && InUse(h, n)
    && (forall i | HEAP0 <= i < n + HEAP0 && (i == k || Parent(i) != k) :: Below(h, n, i))
    && (forall i | HEAP0 <= i < n + HEAP0 && i != k && Parent(i) == k && k > HEAP0 :: h[Parent(k)].at <= h[i].at)
  }

  // The watcher in cell `k` is in no other cell.
  predicate Alone(h: seq<Cell>, n: nat, k: nat)
    requires InUse(h, n) && HEAP0 <= k < n + HEAP0
  {
    forall i | HEAP0 <= i < n + HEAP0 && i != k :: h[i].w != h[k].w
  }

  predicate InCell(h: seq<Cell>, n: nat, w: Watcher, i: nat)
    requires InUse(h, n)
  {
    HEAP0 <= i < n + HEAP0 && h[i].w == w
  }

  ghost function Contents(h: seq<Cell>, n: nat): multiset<Cell>
    requires n + HEAP0 <= |h|
  {
    multiset(h[HEAP0..n + HEAP0])
  }

  function Swap(h: seq<Cell>, i: nat, j: nat): seq<Cell>
    requires i < |h| && j < |h|
  {
    h[i := h[j]][j := h[i]]
  }

  // The root of a heap is a minimum.
  lemma {:induction false} RootIsMinimum(h: seq<Cell>, n: nat, i: nat)
    requires IsHeap(h, n) && HEAP0 <= i < n + HEAP0
    ensures h[HEAP0].at <= h[i].at
  {
    if i > HEAP0 {
      assert Below(h, n, i);
      RootIsMinimum(h, n, Parent(i));
    }
  }

  lemma SwapMultiset(s: seq<Cell>, a: nat, b: nat)
    requires a < |s| && b < |s|
    ensures multiset(Swap(s, a, b)) == multiset(s)
  {
  }

  lemma SwapContents(h: seq<Cell>, n: nat, i: nat, j: nat)
    requires InUse(h, n) && HEAP0 <= i < n + HEAP0 && HEAP0 <= j < n + HEAP0 && i != j
    ensures Rearranged(Swap(h, i, j), h, n) && InUse(Swap(h, i, j), n)
  {
    SwapBag(h, Swap(h, i, j), n, i, j);
  }

  lemma SwapBag(h: seq<Cell>, h': seq<Cell>, n: nat, i: nat, j: nat)
    requires HEAP0 <= i < n + HEAP0 <= |h| && HEAP0 <= j < n + HEAP0 && h' == Swap(h, i, j)
    ensures |h'| == |h| && Contents(h', n) == Contents(h, n)
  {
    var s := SwapSlice(h, h', HEAP0, n + HEAP0, i, j);
  }

  // The part of a sequence in which two elements were swapped.
  lemma SwapSlice(h: seq<Cell>, h': seq<Cell>, lo: nat, hi: nat, i: nat, j: nat) returns (s: seq<Cell>)
    requires lo <= i < hi <= |h| && lo <= j < hi && h' == Swap(h, i, j)
    ensures s == h'[lo..hi] && multiset(s) == multiset(h[lo..hi])
  {
    s := Swap(h[lo..hi], i - lo, j - lo);
    SwapMultiset(h[lo..hi], i - lo, j - lo);
    assert forall k | 0 <= k < hi - lo :: s[k] == h'[lo + k];
  }

  // `h` is a rearrangement of `g` inside the heap, and `g` outside.
  ghost predicate Rearranged(h: seq<Cell>, g: seq<Cell>, n: nat) {
    && |h| == |g| && n + HEAP0 <= |g|
    && Contents(h, n) == Contents(g, n)
    && forall i | 0 <= i < |g| && !(HEAP0 <= i < n + HEAP0) :: h[i] == g[i]
  }

  // A rearrangement has the same cells.
  lemma FromCell(h: seq<Cell>, g: seq<Cell>, n: nat, i: nat) returns (j: nat)
    requires Rearranged(h, g, n) && HEAP0 <= i < n + HEAP0
    ensures HEAP0 <= j < n + HEAP0 && g[j] == h[i]
  {
    assert h[i] == h[HEAP0..n + HEAP0][i - HEAP0];
    assert h[i] in Contents(h, n);
    assert h[i] in g[HEAP0..n + HEAP0];
    var m :| 0 <= m < n && g[HEAP0..n + HEAP0][m] == h[i];
    j := m + HEAP0;
  }

  lemma SwapUp(h: seq<Cell>, n: nat, k: nat)
    requires HEAP0 < k < n + HEAP0 && HeapUpTo(h, n, k) && h[k].at < h[Parent(k)].at
    ensures HeapUpTo(Swap(h, k, Parent(k)), n, Parent(k))
  {
    var p := Parent(k);
    var h' := Swap(h, k, p);
    assert p != k;
    forall i | HEAP0 <= i < n + HEAP0 && i != p ensures Below(h', n, i) {
      assert i != k ==> Below(h, n, i);
      assert Below(h, n, p);
    }
    forall i | HEAP0 <= i < n + HEAP0 && i != p && Parent(i) == p ensures h'[Parent(p)].at <= h'[i].at {
      assert Below(h, n, p);
      assert i != k ==> Below(h, n, i);
    }
  }

  lemma UpDone(h: seq<Cell>, n: nat, k: nat)
    requires HEAP0 <= k < n + HEAP0 && HeapUpTo(h, n, k) && Below(h, n, k)
    ensures IsHeap(h, n)
  {
  }

  lemma SwapDown(h: seq<Cell>, n: nat, k: nat, c: nat)
    requires HEAP0 <= k < n + HEAP0 && HeapDownTo(h, n, k) && IsSmallestChild(h, n, k, c) && h[c].at < h[k].at
    ensures HeapDownTo(Swap(h, k, c), n, c)
  {
    ParentOfChild(k, c);
    var h' := Swap(h, k, c);
    assert Parent(c) == k && InUse(h', n);
    forall i | HEAP0 <= i < n + HEAP0 && (i == c || Parent(i) != c) ensures Below(h', n, i) {
      if i == k || Parent(i) != k { assert Below(h, n, i); }
    }
    forall i | HEAP0 <= i < n + HEAP0 && i != c && Parent(i) == c ensures h'[Parent(c)].at <= h'[i].at {
      assert Below(h, n, i);
    }
  }

  // ---------- the heap in place ----------

  // Every watcher in the heap but the one at `skip` has its index stored.
  predicate Indexed(h: seq<Cell>, n: nat, skip: nat, active: map<Watcher, nat>) {
    && InUse(h, n)
    && forall i | HEAP0 <= i < n + HEAP0 && i != skip :: h[i].w in active && active[h[i].w] == i
  }

  // `a` differs from `b` only in watchers whose new index is that of their cell.
  predicate Renewed(a: map<Watcher, nat>, b: map<Watcher, nat>, h: seq<Cell>, n: nat)
    requires InUse(h, n)
  {
    a.Keys == b.Keys && forall w | w in a :: a[w] == b[w] || InCell(h, n, w, a[w])
  }

  // The array is `h` except for cell `k`, whose element is held outside until its place is found.
  ghost predicate HoleAt(heap: array<Cell>, h: seq<Cell>, n: nat, k: nat, active: map<Watcher, nat>)
    reads heap
  {
    && HEAP0 <= k < n + HEAP0 && |h| == heap.Length && Indexed(h, n, k, active)
    && heap[..] == h[k := heap[k]]
    && Alone(h, n, k)
    && h[k].w in active
  }

  // Move the element of cell `src` into the hole, which then is at `src`.
  method MoveHole(heap: array<Cell>, ghost n: nat, k: nat, src: nat, ghost h: seq<Cell>, a: map<Watcher, nat>)
    returns (active: map<Watcher, nat>)
    requires HoleAt(heap, h, n, k, a) && HEAP0 <= src < n + HEAP0 && src != k
    modifies heap
    ensures active == a[h[src].w := k]
    ensures HoleAt(heap, Swap(h, k, src), n, src, active)
  {
    heap[k] := heap[src];
    active := a[heap[k].w := k];
    SwapContents(h, n, k, src);
  }

  method FillHole(heap: array<Cell>, ghost n: nat, k: nat, he: Cell, ghost h: seq<Cell>, a: map<Watcher, nat>)
    returns (active: map<Watcher, nat>)
    requires HoleAt(heap, h, n, k, a) && h[k] == he
    modifies heap
    ensures active == a[he.w := k]
    ensures heap[..] == h && Indexed(h, n, 0, active)
  {
    heap[k] := he;
    active := a[he.w := k];
  }

  // Only the indices of other watchers than that of `he` have changed, to those of their cells.
  predicate Moved(active: map<Watcher, nat>, a: map<Watcher, nat>, h: seq<Cell>, n: nat, he: Cell)
    requires InUse(h, n) && he.Cell?
  {
    && active.Keys == a.Keys
    && forall w | w in a :: active[w] == a[w] || (w != he.w && InCell(h, n, w, active[w]))
  }

  lemma MovedOn(active: map<Watcher, nat>, a: map<Watcher, nat>, h: seq<Cell>, n: nat, he: Cell, k: nat, c: nat)
    requires InUse(h, n) && HEAP0 <= k < n + HEAP0 && HEAP0 <= c < n + HEAP0 && k != c && h[k] == he
    requires Moved(active, a, h, n, he) && Alone(h, n, k) && h[c].w in a
    ensures InUse(Swap(h, k, c), n) && Moved(active[h[c].w := k], a, Swap(h, k, c), n, he)
  {
    var h', active' := Swap(h, k, c), active[h[c].w := k];
    forall w | w in a ensures active'[w] == a[w] || (w != he.w && InCell(h', n, w, active'[w])) {
      if w != h[c].w && active[w] != a[w] {
        assert InCell(h, n, w, active[w]);
      }
    }
  }

  // Towards the root. `active` is returned with the indices of all watchers that moved.
  method Upheap(heap: array<Cell>, ghost n: nat, k0: nat, a: map<Watcher, nat>) returns (active: map<Watcher, nat>)
    requires HEAP0 <= k0 < n + HEAP0 <= heap.Length && HeapUpTo(heap[..], n, k0)
    requires Alone(heap[..], n, k0) && Indexed(heap[..], n, k0, a) && heap[k0].w in a
    modifies heap
    ensures IsHeap(heap[..], n) && Indexed(heap[..], n, 0, active)
    ensures Rearranged(heap[..], old(heap[..]), n) && Renewed(active, a, heap[..], n)
  {
    var he := heap[k0];
    var k := k0;
    active := a;
    ghost var h := heap[..];
    while Parent(k) != k && he.at < heap[Parent(k)].at
      invariant HEAP0 <= k <= k0 && HeapUpTo(h, n, k) && HoleAt(heap, h, n, k, active) && h[k] == he
      invariant Rearranged(h, old(heap[..]), n) && Moved(active, a, h, n, he)
      decreases k
    {
      var p := Parent(k);
      MovedOn(active, a, h, n, he, k, p);
      SwapUp(h, n, k);
      SwapContents(h, n, k, p);
      active := MoveHole(heap, n, k, p, h, active);
      h := Swap(h, k, p);
      k := p;
    }
    UpDone(h, n, k);
    active := FillHole(heap, n, k, he, h, active);
  }

  predicate IsSmallestChild(h: seq<Cell>, n: nat, k: nat, c: nat)
    requires InUse(h, n) && HEAP0 <= k
  {
    && FirstChild(k) <= c < FirstChild(k) + 4 && c < n + HEAP0
    && forall i | HEAP0 < i < n + HEAP0 && Parent(i) == k :: h[c].at <= h[i].at
  }

  // Where the element that belongs into cell `k` has to go next: to `k` itself if no child is smaller.
  predicate IsNext(h: seq<Cell>, n: nat, k: nat, c: nat)
    requires InUse(h, n) && HEAP0 <= k < n + HEAP0
  {
    if c == k then forall i | HEAP0 < i < n + HEAP0 && Parent(i) == k :: h[k].at <= h[i].at
    else IsSmallestChild(h, n, k, c) && h[c].at < h[k].at
  }

  lemma SmallestOfFour(h: seq<Cell>, n: nat, k: nat, c: nat)
    requires InUse(h, n) && HEAP0 <= k && FirstChild(k) <= c < FirstChild(k) + 4 && c < n + HEAP0
    requires forall j | FirstChild(k) <= j < FirstChild(k) + 4 && j < n + HEAP0 :: h[c].at <= h[j].at
    ensures IsSmallestChild(h, n, k, c)
  {
    forall i | HEAP0 < i < n + HEAP0 && Parent(i) == k ensures h[c].at <= h[i].at {
    }
  }

  // One round of downheap's search for the smallest child, with and without bounds tests.
  method FindNext(heap: array<Cell>, n: nat, k: nat, he: Cell, ghost h: seq<Cell>, ghost a: map<Watcher, nat>)
    returns (c: nat)
    requires HoleAt(heap, h, n, k, a) && h[k] == he
    ensures IsNext(h, n, k, c)
  {
    var pos, end := FirstChild(k), n + HEAP0;
    assert forall i | 0 <= i < |h| && i != k :: heap[i] == heap[..][i] == h[i];
    if pos >= end {
      return k;
    }
    c := pos;
    if pos + 4 - 1 < end {
      if heap[c].at > heap[pos + 1].at { c := pos + 1; }
      if heap[c].at > heap[pos + 2].at { c := pos + 2; }
      if heap[c].at > heap[pos + 3].at { c := pos + 3; }
    } else {
      if pos + 1 < end && heap[c].at > heap[pos + 1].at { c := pos + 1; }
      if pos + 2 < end && heap[c].at > heap[pos + 2].at { c := pos + 2; }
      // the fourth child does not exist here, so its test fails
    }
    SmallestOfFour(h, n, k, c);
    if he.at <= heap[c].at {
      return k;
    }
  }

  lemma DownDone(h: seq<Cell>, n: nat, k: nat)
    requires HEAP0 <= k < n + HEAP0 && HeapDownTo(h, n, k) && IsNext(h, n, k, k)
    ensures IsHeap(h, n)
  {
    forall i | HEAP0 <= i < n + HEAP0 ensures Below(h, n, i) {
    }
  }

  // One round of downheap: raise the smallest child into the hole, or stay if none is smaller.
  method SinkStep(heap: array<Cell>, n: nat, k: nat, he: Cell, ghost h: seq<Cell>, a: map<Watcher, nat>)
    returns (c: nat, ghost h': seq<Cell>, active: map<Watcher, nat>)
    requires HEAP0 <= k < n + HEAP0 && HeapDownTo(h, n, k) && HoleAt(heap, h, n, k, a) && h[k] == he
    modifies heap
    ensures k <= c < n + HEAP0 && HoleAt(heap, h', n, c, active) && h'[c] == he
    ensures Rearranged(h', h, n)
    ensures if c == k then h' == h && active == a && IsHeap(h', n)
            else h' == Swap(h, k, c) && active == a[h[c].w := k] && HeapDownTo(h', n, c)
  {
    c := FindNext(heap, n, k, he, h, a);
    if c == k {
      h', active := h, a;
      DownDone(h, n, k);
    } else {
      h' := Swap(h, k, c);
      SwapDown(h, n, k, c);
      SwapContents(h, n, k, c);
      active := MoveHole(heap, n, k, c, h, a);
    }
  }

  // Away from the root.
  method Downheap(heap: array<Cell>, n: nat, k0: nat, a: map<Watcher, nat>) returns (active: map<Watcher, nat>)
    requires HEAP0 <= k0 < n + HEAP0 <= heap.Length && HeapDownTo(heap[..], n, k0)
    requires Alone(heap[..], n, k0) && Indexed(heap[..], n, k0, a) && heap[k0].w in a
    modifies heap
    ensures IsHeap(heap[..], n) && Indexed(heap[..], n, 0, active)
    ensures Rearranged(heap[..], old(heap[..]), n) && Renewed(active, a, heap[..], n)
  {
    var he := heap[k0];
    var k := k0;
    active := a;
    ghost var h := heap[..];
    var done := false;
    while !done
      invariant HEAP0 <= k < n + HEAP0 && HoleAt(heap, h, n, k, active) && h[k] == he
      invariant if done then IsHeap(h, n) else HeapDownTo(h, n, k)
      invariant Rearranged(h, old(heap[..]), n) && Moved(active, a, h, n, he)
      decreases !done, n + HEAP0 - k
    {
      var c;
      ghost var was, before := h, active;
      c, h, active := SinkStep(heap, n, k, he, h, active);
      if c != k {
        MovedOn(before, a, was, n, he, k, c);
      }
      done := c == k;
      k := c;
    }
    active := FillHole(heap, n, k, he, h, active);
  }

  // A heap except for cell `k`, which may be anything.
  predicate HeapExcept(h: seq<Cell>, n: nat, k: nat)
    requires HEAP0 <= k < n + HEAP0
  {
    && InUse(h, n)
    && (forall i | HEAP0 <= i < n + HEAP0 && i != k && Parent(i) != k :: Below(h, n, i))
    && (forall i | HEAP0 <= i < n + HEAP0 && i != k && Parent(i) == k && k > HEAP0 :: h[Parent(k)].at <= h[i].at)
  }

  lemma ExceptSplits(h: seq<Cell>, n: nat, k: nat)
    requires HEAP0 <= k < n + HEAP0 && HeapExcept(h, n, k)
    ensures k > HEAP0 && h[k].at <= h[Parent(k)].at ==> HeapUpTo(h, n, k)
    ensures k == HEAP0 || h[k].at > h[Parent(k)].at ==> HeapDownTo(h, n, k)
  {
  }

  // One cell may be anything: it goes up or down, whichever its parent asks for.
  method Adjustheap(heap: array<Cell>, n: nat, k: nat, a: map<Watcher, nat>) returns (active: map<Watcher, nat>)
    requires HEAP0 <= k < n + HEAP0 <= heap.Length && HeapExcept(heap[..], n, k)
    requires Alone(heap[..], n, k) && Indexed(heap[..], n, k, a) && heap[k].w in a
    modifies heap
    ensures IsHeap(heap[..], n) && Indexed(heap[..], n, 0, active)
    ensures Rearranged(heap[..], old(heap[..]), n) && Renewed(active, a, heap[..], n)
  {
    ExceptSplits(heap[..], n, k);
    if k > HEAP0 && heap[k].at <= heap[Parent(k)].at {
      active := Upheap(heap, n, k, a);
    } else {
      active := Downheap(heap, n, k, a);
    }
  }

  lemma HeapGrows(h: seq<Cell>, n: nat)
    requires IsHeap(h, n) && InUse(h, n + 1)
    ensures HeapUpTo(h, n + 1, n + HEAP0)
  {
    assert forall i | HEAP0 <= i < n + HEAP0 :: Below(h, n, i) ==> h[Parent(i)].at <= h[i].at;
  }

  // No watcher is in two cells.
  predicate Distinct(h: seq<Cell>, n: nat)
    requires InUse(h, n)
  {
    forall i | HEAP0 <= i < n + HEAP0 :: Alone(h, n, i)
  }

  // The cell behind a rearranged part of distinct cells is alone.
  lemma NextIsAlone(h: seq<Cell>, g: seq<Cell>, m: nat, n: nat)
    requires m < n && Rearranged(h, g, m) && InUse(g, n) && Distinct(g, n) && InUse(h, m)
    ensures InUse(h, m + 1) && Alone(h, m + 1, m + HEAP0)
  {
    assert Alone(g, n, m + HEAP0);
    forall i | HEAP0 <= i < m + HEAP0 ensures h[i].w != h[m + HEAP0].w {
      var j := FromCell(h, g, m, i);
    }
  }

  // Rearranging the first `m` elements rearranges all `n`.
  lemma RearrangedMore(h: seq<Cell>, g: seq<Cell>, m: nat, n: nat)
    requires m <= n && Rearranged(h, g, m) && n + HEAP0 <= |g|
    ensures Rearranged(h, g, n)
  {
    assert h[HEAP0..n + HEAP0] == h[HEAP0..m + HEAP0] + h[m + HEAP0..n + HEAP0];
    assert g[HEAP0..n + HEAP0] == g[HEAP0..m + HEAP0] + g[m + HEAP0..n + HEAP0];
    assert h[m + HEAP0..n + HEAP0] == g[m + HEAP0..n + HEAP0];
  }

  // One more cell of the array `g`, whose first `m` elements are those of `f` rearranged, can join the heap.
  lemma BeforeJoining(g: seq<Cell>, f: seq<Cell>, m: nat, n: nat)
    requires m < n && Rearranged(g, f, m) && InUse(f, n) && Distinct(f, n) && IsHeap(g, m)
    ensures HeapUpTo(g, m + 1, m + HEAP0) && Alone(g, m + 1, m + HEAP0)
    ensures Rearranged(g, f, m + 1)
  {
    NextIsAlone(g, f, m, n);
    HeapGrows(g, m);
    RearrangedMore(g, f, m, m + 1);
  }

  // One turn of the loop of reheap.
  method Join(heap: array<Cell>, ghost f: seq<Cell>, ghost n: nat, i: nat, a: map<Watcher, nat>)
    returns (active: map<Watcher, nat>)
    requires i < n && n + HEAP0 <= heap.Length && InUse(f, n) && Distinct(f, n)
    requires forall k | HEAP0 <= k < n + HEAP0 :: f[k].w in a
    requires IsHeap(heap[..], i) && Indexed(heap[..], i, 0, a) && Rearranged(heap[..], f, i)
    modifies heap
    ensures IsHeap(heap[..], i + 1) && Indexed(heap[..], i + 1, 0, active) && active.Keys == a.Keys
      && Rearranged(heap[..], f, i + 1)
  {
    BeforeJoining(heap[..], f, i, n);
    assert heap[i + HEAP0] == f[i + HEAP0];
    active := Upheap(heap, i + 1, i + HEAP0, a);
  }

  // Build a heap from arbitrary contents.
  method Reheap(heap: array<Cell>, n: nat, a: map<Watcher, nat>) returns (active: map<Watcher, nat>)
    requires n + HEAP0 <= heap.Length && InUse(heap[..], n) && Distinct(heap[..], n)
    requires forall i | HEAP0 <= i < n + HEAP0 :: heap[i].w in a
    modifies heap
    ensures IsHeap(heap[..], n) && Indexed(heap[..], n, 0, active) && active.Keys == a.Keys
    ensures Rearranged(heap[..], old(heap[..]), n)
  {
    ghost var f := heap[..];
    active := a;
    for i := 0 to n
      invariant IsHeap(heap[..], i) && Indexed(heap[..], i, 0, active) && active.Keys == a.Keys
      invariant Rearranged(heap[..], f, i)
    {
      active := Join(heap, f, n, i, active);
    }
  }
}
