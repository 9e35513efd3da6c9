/** Division with remainder, and positions on a ring of slots. */
module Arithmetic {

  lemma Cancel(a: int, b: int, d: int)
    requires d > 0 && a * d < b * d
    ensures a < b
  {
  }

  lemma CancelAtMost(a: int, b: int, d: int)
    requires d > 0 && a * d <= b * d
    ensures a <= b
  {
  }

  lemma SmallMultiple(m: int, d: int)
    requires d > 0 && -d < m * d < d
    ensures m == 0
  {
    Cancel(m, 1, d);
    Cancel(-1, m, d);
  }

  lemma RemainderUnique(x: int, d: int, q: int, r: int)
    requires d > 0 && 0 <= r < d && x == q * d + r
    ensures x % d == r && x / d == q
  {
    var q', r' := x / d, x % d;
    assert (q - q') * d == r' - r;
    SmallMultiple(q - q', d);
  }

  lemma SmallRemainder(n: nat, d: nat)
    requires n < d
    ensures n % d == n
  {
    RemainderUnique(n, d, 0, n);
  }

  lemma WrapAround(n: nat, d: nat)
    requires 0 < d <= n
    ensures n % d == (n - d) % d < d
  {
    var q, r := (n - d) / d, (n - d) % d;
    assert n - d == q * d + r;
    assert n == (q + 1) * d + r;
    RemainderUnique(n, d, q + 1, r);
  }

  lemma NearbyRemainders(a: nat, b: nat, d: nat)
    requires a < b < a + d
    ensures a % d != b % d
  {
    if a % d == b % d {
      assert a == (a / d) * d + a % d && b == (b / d) * d + b % d;
      assert (b / d - a / d) * d == b - a;
      SmallMultiple(b / d - a / d, d);
    }
  }

  /** Counting on by one steps the slot index on by one, round the ring. */
  lemma NextRemainder(k: nat, d: nat)
    requires d > 0
    ensures (k + 1) % d == (k % d + 1) % d
    ensures (k + 1) % d == if k % d + 1 == d then 0 else k % d + 1
  {
    var q, r := k / d, k % d;
    assert k == q * d + r;
    if r + 1 == d {
      assert k + 1 == (q + 1) * d;
      RemainderUnique(k + 1, d, q + 1, 0);
      RemainderUnique(r + 1, d, 1, 0);
    } else {
      RemainderUnique(k + 1, d, q, r + 1);
      RemainderUnique(r + 1, d, 0, r + 1);
    }
  }

  /** The quotient counts how often the ring has wrapped. */
  lemma NextQuotient(k: nat, d: nat)
    requires d > 0
    ensures (k + 1) / d == if k % d + 1 == d then k / d + 1 else k / d
    ensures k / d == 0 <==> k < d
  {
    var q, r := k / d, k % d;
    assert k == q * d + r;
    if r + 1 == d {
      assert k + 1 == (q + 1) * d;
      RemainderUnique(k + 1, d, q + 1, 0);
    } else {
      RemainderUnique(k + 1, d, q, r + 1);
    }
    if k < d {
      RemainderUnique(k, d, 0, k);
    }
  }

  /** The last of the first `n` writes to a ring of `d` slots that went to slot `i`. */
  function Latest(n: nat, d: nat, i: nat): (k: nat)
    requires d > 0 && i < n
    ensures i <= k < n && n <= k + d
  {
    var r := (n - 1 - i) % d;
    LatestBounds(n, d, i);
    n - 1 - r
  }

  lemma LatestBounds(n: nat, d: nat, i: nat)
    requires d > 0 && i < n
    ensures 0 <= (n - 1 - i) % d <= n - 1 - i
  {
    var x := n - 1 - i;
    assert x == (x / d) * d + x % d;
    assert (x / d) * d >= 0;
  }

  lemma LatestSlot(n: nat, d: nat, i: nat)
    requires i < d && i < n
    ensures Latest(n, d, i) % d == i
  {
    var x := n - 1 - i;
    assert x == (x / d) * d + x % d;
    RemainderUnique(Latest(n, d, i), d, x / d, i);
  }

  /** Within the last `d` writes, a write is the latest in its slot. */
  lemma LatestInverse(n: nat, d: nat, k: nat)
    requires d > 0 && k < n <= k + d
    ensures k % d < n && Latest(n, d, k % d) == k
  {
    var q, i := k / d, k % d;
    assert k == q * d + i;
    assert q * d >= 0;
    LatestSlot(n, d, i);
    var l := Latest(n, d, i);
    if l < k {
      NearbyRemainders(l, k, d);
    } else if k < l {
      NearbyRemainders(k, l, d);
    }
  }

  /** One more write moves one slot on to it and no other. */
  lemma LatestStep(n: nat, d: nat, i: nat)
    requires i < d && i < n + 1
    ensures i == n % d ==> Latest(n + 1, d, i) == n
    ensures i != n % d ==> i < n && Latest(n + 1, d, i) == Latest(n, d, i)
  {
    if i == n % d {
      LatestInverse(n + 1, d, n);
    } else {
      if i == n {
        RemainderUnique(n, d, 0, n);
      }
      LatestSlot(n + 1, d, i);
      var l := Latest(n + 1, d, i);
      LatestInverse(n, d, l);
    }
  }
}
