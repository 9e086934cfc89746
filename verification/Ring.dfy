/** Index arithmetic of a ring of `n` slots addressed by ever-growing counters. */
module Ring {

  /** The source's own reduction, written with one division and no remainder. */
  function Index(num: nat, n: nat): (r: nat)
    requires n > 0
    ensures r == num % n
    ensures r < n
  {
    num - (num / n) * n
  }

  /** A non-zero multiple of `n` is at least `n` away from zero. */
  lemma SmallMultiple(k: int, n: nat)
    requires n > 0
    ensures k != 0 ==> k * n >= n || k * n + n <= 0
  {
  }

  /** Two counters that share a slot differ by a multiple of `n`. */
  lemma SameSlot(a: nat, b: nat, n: nat) returns (k: int)
    requires n > 0
    requires Index(a, n) == Index(b, n)
    ensures b - a == k * n
  {
    k := b / n - a / n;
    assert b == (b / n) * n + b % n;
    assert a == (a / n) * n + a % n;
  }

  /** Counters closer than `n` share a slot only if they are equal. */
  lemma CloseCounters(a: nat, b: nat, n: nat)
    requires n > 0
    requires a < b + n && b < a + n
    ensures Index(a, n) == Index(b, n) <==> a == b
  {
    if Index(a, n) == Index(b, n) {
      var k := SameSlot(a, b, n);
      SmallMultiple(k, n);
    }
  }

  /** Going round the whole ring comes back to the same slot. */
  lemma FullTurn(a: nat, n: nat)
    requires n > 0
    ensures Index(a + n, n) == Index(a, n)
  {
    var q, r := (a + n) / n, (a + n) % n;
    assert a + n == q * n + r;
    assert a == (a / n) * n + a % n;
    var k := q - a / n - 1;
    assert k * n == a % n - r;
    SmallMultiple(k, n);
  }

  /** The values of the counters `lo`, ..., `hi - 1`, in order. */
  function Window<V>(pool: seq<V>, lo: nat, hi: nat): (w: seq<V>)
    requires |pool| > 0
    requires lo <= hi
  {
    seq(hi - lo, i requires 0 <= i < hi - lo => pool[Index(lo + i, |pool|)])
  }
}
