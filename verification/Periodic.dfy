/**
 The replacement for floor, over reals, and the next time of a periodic watcher.
 */
module Periodic {
  // ---------- ev_floor ----------

  function Scaled(v: real): real {
    v * (1.0 / 18446744073709551616.0)
  }

  lemma FloorPlus(x: real, n: int)
    ensures (x + n as real).Floor == x.Floor + n
  {
  }

  lemma FloorIs(x: real, n: int)
    requires n as real <= x < n as real + 1.0
    ensures x.Floor == n
  {
  }

  // The part of `v` below the shift factor, and the rest, a multiple of it.
  lemma Reduced(v: real, f: real)
    requires v >= 18446744073709551616.0 && f == 18446744073709551616.0 * (Scaled(v).Floor as real)
    ensures 0.0 <= Scaled(v) && Scaled(v).Floor < v.Floor && 0.0 <= v - f && (v - f).Floor < v.Floor
    ensures f + ((v - f).Floor as real) == v.Floor as real
  {
    var q := Scaled(v).Floor;
    assert 18446744073709551616.0 * Scaled(v) == v;
    assert q as real <= Scaled(v) < q as real + 1.0;
    assert f == (18446744073709551616 * q) as real;
    FloorPlus(v - f, 18446744073709551616 * q);
    assert Scaled(v) <= v - 1.0;
    FloorPlus(v, -1);
  }

  lemma Negated(v: real, f: real)
    requires f == -((-v).Floor as real)
    ensures v.Floor as real == f - if f == v then 0.0 else 1.0
  {
    var n := (-v).Floor;
    FloorIs(v, if f == v then -n else -n - 1);
  }

  // ev_floor equals the mathematical floor. Its test for numbers too large to have fractions never
  // succeeds on reals and is left out.
  function EvFloor(v: real): (r: real)
    ensures r == v.Floor as real
    decreases (if v < 0.0 then -v else v).Floor, v < 0.0
  {
    if v < 0.0 then
      var f := -EvFloor(-v);
      Negated(v, f);
      f - if f == v then 0.0 else 1.0
    else if v >= 18446744073709551616.0 then
      Reduced(v, 18446744073709551616.0 * (Scaled(v).Floor as real));
      var f := 18446744073709551616.0 * EvFloor(Scaled(v));
      f + EvFloor(v - f)
    else
      v.Floor as real
  }

  // ---------- periodic_recalc ----------

  const MIN_INTERVAL := 0.0001220703125

  lemma Cancel(x: real, y: real, i: real)
    requires i > 0.0 && x * i == y * i
    ensures x == y
  {
    assert (x - y) * i == 0.0;
  }

  lemma DivMul(x: real, y: real)
    requires y > 0.0
    ensures (x / y) * y == x
  {
  }

  // Products with a positive factor are ordered as what is multiplied.
  lemma Ordered(a: real, b: real, i: real, p: real, r: real)
    requires i > 0.0 && p == a * i && r == b * i
    ensures (a <= b <==> p <= r) && (a < b <==> p < r)
  {
    assert r - p == (b - a) * i;
  }

  lemma Between(x: real, y: real, q: real, i: real, m: real)
    requires i > 0.0 && y * i == x && q <= y < q + 1.0 && m == q * i
    ensures m <= x < m + i
  {
    Ordered(q, y, i, m, x);
    Ordered(y, q + 1.0, i, x, (q + 1.0) * i);
    assert (q + 1.0) * i == m + i;
  }

  // The multiple of `interval` below `x`.
  lemma Multiple(x: real, interval: real)
    requires interval > 0.0
    ensures var m := interval * ((x / interval).Floor as real); m <= x < m + interval
  {
    DivMul(x, interval);
    Between(x, x / interval, (x / interval).Floor as real, interval, ((x / interval).Floor as real) * interval);
  }

  // How many more steps of `interval` from `at` reach beyond `now`.
  ghost function StepsLeft(at: real, now: real, interval: real): nat
    requires interval > 0.0
  {
    if at > now then 0 else Nonnegative(now - at, interval); ((now - at) / interval).Floor + 1
  }

  lemma Nonnegative(x: real, i: real)
    requires x >= 0.0 && i > 0.0
    ensures x / i >= 0.0
  {
  }

  lemma OneStep(at: real, now: real, interval: real)
    requires interval > 0.0 && at <= now
    ensures StepsLeft(at + interval, now, interval) < StepsLeft(at, now, interval)
  {
    var y, z := (now - at) / interval, (now - (at + interval)) / interval;
    DivMul(now - at, interval);
    DivMul(now - (at + interval), interval);
    assert (y - 1.0) * interval == y * interval - interval;
    Cancel(z, y - 1.0, interval);
    FloorPlus(y, -1);
  }

  // `at` is on the grid of multiples of `interval` from `offset`.
  predicate OnGrid(at: real, offset: real, interval: real, k: int) {
    at == offset + interval * (k as real)
  }

  lemma NextOnGrid(at: real, offset: real, interval: real, k: int)
    requires OnGrid(at, offset, interval, k)
    ensures OnGrid(at + interval, offset, interval, k + 1)
  {
    assert (k + 1) as real == k as real + 1.0;
    assert interval * (k as real + 1.0) == interval * (k as real) + interval;
  }

  method LastBefore(interval: real, offset: real, now: real) returns (at: real, ghost k: int)
    requires interval > 0.0
    ensures OnGrid(at, offset, interval, k) && at <= now < at + interval
  {
    at := offset + interval * EvFloor((now - offset) / interval);
    k := ((now - offset) / interval).Floor;
    Multiple(now - offset, interval);
  }

  // periodic_recalc. The next time is the first after `now`, at most an interval away; unless the
  // interval is too small for the rounding it is on the grid.
  method Recalc(interval: real, offset: real, now: real) returns (at: real)
    requires interval >= 0.0
    ensures interval > 0.0 ==> now < at <= now + interval
    ensures interval == 0.0 ==> at == now
    ensures interval >= MIN_INTERVAL ==> exists k: int :: OnGrid(at, offset, interval, k)
  {
    var interval' := if interval > MIN_INTERVAL then interval else MIN_INTERVAL;
    ghost var k;
    at, k := LastBefore(interval', offset, now);
    while at <= now
      invariant interval > 0.0 ==> at <= now + interval
      invariant interval == 0.0 ==> at <= now
      invariant interval >= MIN_INTERVAL ==> OnGrid(at, offset, interval, k)
      decreases if interval > 0.0 then StepsLeft(at, now, interval) else 0
    {
      var next := at + interval;
      if next == at {
        at := now;
        break;
      }
      OneStep(at, now, interval);
      if interval >= MIN_INTERVAL {
        NextOnGrid(at, offset, interval, k);
      }
      at, k := next, k + 1;
    }
  }

  // There is only one such time on the grid.
  lemma OnlyOne(interval: real, offset: real, now: real, a: real, b: real, k: int, m: int)
    requires interval > 0.0 && OnGrid(a, offset, interval, k) && OnGrid(b, offset, interval, m)
    requires now < a <= now + interval && now < b <= now + interval
    ensures k == m && a == b
  {
    var x, y := k as real, m as real;
    var p, r := x * interval, y * interval;
    assert a == offset + p && b == offset + r;
    Ordered(x, y + 1.0, interval, p, (y + 1.0) * interval);
    Ordered(y, x + 1.0, interval, r, (x + 1.0) * interval);
    assert (y + 1.0) * interval == r + interval && (x + 1.0) * interval == p + interval;
    assert x < y + 1.0 && y < x + 1.0;
    assert (k - m) as real == x - y;
  }
}
