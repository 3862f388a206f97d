/**
 How the loop's growable arrays choose their next size: `array_nextsize`.
 */
module ArraySize {
  import opened Bits

  const MALLOC_ROUND: int := 4096
  const OVERHEAD: int := 32  // sizeof (void *) * 4

  // The size that doubling alone arrives at: the first 2^j * (cur + 1), j >= 1, that is at least `cnt`.
  ghost predicate IsDoubling(cur: nat, cnt: int, n: nat) {
    && n >= 2 * (cur + 1) && n >= cnt
    && (n == 2 * (cur + 1) || n < 2 * cnt)
    && exists j: nat :: n == Pow2(j) * (cur + 1)
  }

  // Rounding down to a multiple of 4096.
  function RoundDown(x: nat): (r: nat)
    ensures r % 4096 == 0 && r <= x < r + 4096
  {
    x - x % 4096
  }

  // That is what and-ing with ~4095 does, in whatever width holds the number.
  lemma RoundDownIsMask(x: nat, w: nat)
    requires w >= 12 && x < Pow2(w)
    ensures Pow2(w) >= 4096 && And(x, Pow2(w) - 4096) == RoundDown(x)
  {
    var twelve := 12;
    assert Pow2(twelve) == 4096 by {
      assert Pow2(4) == 16 && Pow2(8) == 256;
    }
    AndHigh(x, twelve, w);
  }

  lemma QuotientBounds(n: nat, elem: nat, y: nat)
    requires elem > 0 && n * elem + elem <= y <= n * elem + elem + 4095
    ensures n + 1 <= y / elem <= n + 1 + 4095 / elem
  {
    var q, d := y / elem, 4095 / elem;
    assert y == q * elem + y % elem;
    assert 4095 < (d + 1) * elem;
    assert (n + 2 + d) * elem == n * elem + elem + (d + 1) * elem;
  }

  method Double(cur: nat, cnt: int) returns (ncur: nat)
    ensures IsDoubling(cur, cnt, ncur)
  {
    ncur := 2 * (cur + 1);
    ghost var j := 1;
    assert Pow2(1) == 2 * Pow2(0);
    while cnt > ncur
      invariant ncur >= 2 * (cur + 1) && (ncur == 2 * (cur + 1) || ncur < 2 * cnt)
      invariant ncur == Pow2(j) * (cur + 1)
      decreases cnt - ncur
    {
      assert Pow2(j + 1) * (cur + 1) == 2 * (Pow2(j) * (cur + 1));
      ncur, j := 2 * ncur, j + 1;
    }
  }

  // There is always room for `cnt` elements and at least for twice the old size; page rounding
  // costs at most 1 + 4095 / elem elements. Sizes are unbounded here, as absent overflow.
  method NextSize(elem: nat, cur: nat, cnt: int) returns (r: nat)
    requires elem > 0
    ensures r >= cnt && r >= 2 * (cur + 1)
    ensures exists n: nat :: IsDoubling(cur, cnt, n) && n <= r <= n + 1 + 4095 / elem
  {
    var ncur := Double(cur, cnt);
    r := ncur;
    var bytes := ncur * elem;
    if bytes > MALLOC_ROUND - OVERHEAD {
      bytes := RoundDown(bytes + elem + (MALLOC_ROUND - 1) + OVERHEAD) - OVERHEAD;
      QuotientBounds(ncur, elem, bytes);
      r := bytes / elem;
    }
  }
}
