/**
 Which blocks the tickets of AcquireBlockToWrite stand for.  The counter is 32 bits wide and
 wraps round; a ticket stands for the block with its number modulo the number of blocks.
 */
module Tickets {
  const TICKETS: nat := 0x1_0000_0000

  /** The block that the ticket drawn as number `k`, counted from 0, stands for. */
  function BlockOfTicket(k: nat, blockNum: nat): nat
    requires blockNum > 0
  {
    k % TICKETS % blockNum
  }

  /** Some of the `n` tickets from number `k` on stands for block `b`. */
  ghost predicate TriedWithin(k: nat, n: nat, b: nat, blockNum: nat)
    requires blockNum > 0
  {
    exists i: nat :: k <= i < k + n && BlockOfTicket(i, blockNum) == b
  }

  ghost predicate EveryRoundTriesAll(blockNum: nat)
    requires blockNum > 0
  {
    forall k: nat, b: nat | b < blockNum :: TriedWithin(k, blockNum, b, blockNum)
  }

  // ---------------------------------------------------------------- remainders

  lemma FarFromZero(d: int, n: nat)
    requires d != 0
    ensures d * n >= n || d * n + n <= 0
  {
    if d > 0 {
      assert (d - 1) * n >= 0;
    } else {
      assert (-d - 1) * n >= 0;
    }
  }

  lemma Remainder(x: nat, n: nat, q: nat, r: nat)
    requires r < n && x == q * n + r
    ensures x % n == r
  {
    var q' := x / n;
    assert x == q' * n + x % n;
    assert (q' - q) * n == q' * n - q * n;
    if q' != q {
      FarFromZero(q' - q, n);
    }
  }

  /** Counting on from `x` meets every remainder within `n`. */
  lemma Meets(x: nat, n: nat, b: nat) returns (j: nat)
    requires b < n
    ensures j < n && (x + j) % n == b
  {
    var q, r := x / n, x % n;
    assert x == q * n + r;
    if r <= b {
      j := b - r;
      Remainder(x + j, n, q, b);
    } else {
      j := b + n - r;
      assert (q + 1) * n == q * n + n;
      Remainder(x + j, n, q + 1, b);
    }
  }

  // ---------------------------------------------------------------- which blocks are tried

  /** As long as the counter does not wrap round, `blockNum` tickets stand for all the blocks. */
  lemma AllTriedBeforeWrap(k: nat, blockNum: nat, b: nat)
    requires b < blockNum && k % TICKETS + blockNum <= TICKETS
    ensures TriedWithin(k, blockNum, b, blockNum)
  {
    var x := k % TICKETS;
    var j := Meets(x, blockNum, b);
    assert (k + j) % TICKETS == x + j;
    assert BlockOfTicket(k + j, blockNum) == b;
  }

  /** At most twice as many tickets stand for all the blocks, wherever the counter is. */
  lemma AllTriedInTwoRounds(k: nat, blockNum: nat, b: nat)
    requires b < blockNum <= TICKETS
    ensures TriedWithin(k, 2 * blockNum, b, blockNum)
  {
    var x := k % TICKETS;
    if x + blockNum <= TICKETS {
      AllTriedBeforeWrap(k, blockNum, b);
    } else {
      var i := k + (TICKETS - x) + b;
      assert i % TICKETS == b;
      Remainder(b, blockNum, 0, b);
      assert BlockOfTicket(i, blockNum) == b;
    }
  }

  lemma WrapKeepsBlock(k: nat, blockNum: nat)
    requires blockNum > 0 && TICKETS % blockNum == 0
    ensures BlockOfTicket(k, blockNum) == k % blockNum
  {
    var q, x, c := k / TICKETS, k % TICKETS, TICKETS / blockNum;
    var d := x / blockNum;
    assert TICKETS == c * blockNum && x == d * blockNum + x % blockNum && k == q * TICKETS + x;
    assert q * (c * blockNum) == q * c * blockNum;
    assert (q * c + d) * blockNum == q * c * blockNum + d * blockNum;
    Remainder(k, blockNum, q * c + d, x % blockNum);
  }

  /** Where the counter wraps round in the middle of a round, the last block is left out. */
  lemma WrapLeavesOneOut(blockNum: nat)
    requires 0 < blockNum <= TICKETS && TICKETS % blockNum != 0
    ensures !TriedWithin(TICKETS - TICKETS % blockNum, blockNum, blockNum - 1, blockNum)
  {
    var k := TICKETS - TICKETS % blockNum;
    forall i: nat | k <= i < k + blockNum ensures BlockOfTicket(i, blockNum) != blockNum - 1 {
      AroundTheWrap(i, blockNum);
    }
  }

  lemma AroundTheWrap(i: nat, blockNum: nat)
    requires 0 < blockNum <= TICKETS && TICKETS % blockNum != 0
    requires TICKETS - TICKETS % blockNum <= i < TICKETS - TICKETS % blockNum + blockNum
    ensures BlockOfTicket(i, blockNum) < blockNum - 1
  {
    var q, r := TICKETS / blockNum, TICKETS % blockNum;
    assert TICKETS == q * blockNum + r;
    if i < TICKETS {
      Remainder(i, blockNum, q, i - (TICKETS - r));
    } else {
      Remainder(i - TICKETS, blockNum, 0, i - TICKETS);
    }
  }

  /** Every `blockNum` tickets in a row stand for all the blocks if and only if `blockNum` divides
      2^32: otherwise a block is left out where the counter wraps round. */
  lemma EveryRoundTriesAllExactly(blockNum: nat)
    requires 0 < blockNum <= TICKETS
    ensures EveryRoundTriesAll(blockNum) <==> TICKETS % blockNum == 0
  {
    if TICKETS % blockNum == 0 {
      forall k: nat, b: nat | b < blockNum ensures TriedWithin(k, blockNum, b, blockNum) {
        var j := Meets(k, blockNum, b);
        WrapKeepsBlock(k + j, blockNum);
      }
    } else {
      WrapLeavesOneOut(blockNum);
    }
  }
}
