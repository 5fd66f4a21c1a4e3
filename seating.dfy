/** Going round a table: seat positions wrap, and the turn passes to the
    first flagged seat after a given one.  Both engines search the table
    this way for the next player to act. */
module Seating {

  /** How many steps round a table of n seats lead from seat `from` to seat
      j, counting a full turn when j is `from` itself. */
  function SeatsBetween(from: int, j: int, n: int): (k: int)
    requires 0 <= from < n && 0 <= j < n
    ensures 1 <= k <= n && (from + k) % n == j
  {
    if j > from then j - from else j - from + n
  }

  /** Walking k seats from `from` and counting the seats back gives k. */
  lemma SeatsBetweenStep(from: int, k: int, n: int)
    requires 0 <= from < n && 1 <= k <= n
    ensures SeatsBetween(from, (from + k) % n, n) == k
  {
    if from + k < n {
      assert (from + k) % n == from + k;
    } else {
      assert (from + k) % n == from + k - n;
    }
  }

  /** Whether the seat j places after seat `from` (wrapping round the table)
      is flagged.  Python's `%` by a positive length is Dafny's. */
  function Around(flags: seq<bool>, from: int, j: int): bool
    requires |flags| > 0
  {
    flags[(from + j) % |flags|]
  }

  /** Seat k places after `from` is the first flagged seat going round. */
  ghost predicate NextInHand(flags: seq<bool>, from: int, k: int)
  {
    && 1 <= k <= |flags|
    && Around(flags, from, k)
    && forall j :: 1 <= j < k ==> !Around(flags, from, j)
  }

  /** The search of `_next_player` from k places after `from` on: the first
      flagged seat, or |flags| + 1 when a full turn finds none. */
  function NextSeat(flags: seq<bool>, from: int, k: nat): (k': nat)
    requires |flags| > 0 && 1 <= k <= |flags| + 1
    ensures k <= k' <= |flags| + 1
    ensures k' <= |flags| ==> Around(flags, from, k')
    ensures forall j :: k <= j < k' ==> !Around(flags, from, j)
    decreases |flags| + 1 - k
  {
    if k > |flags| then k
    else if Around(flags, from, k) then k
    else NextSeat(flags, from, k + 1)
  }

  /** With no flagged seat the search runs the full turn. */
  lemma {:induction false} NextSeatNone(flags: seq<bool>, from: int, k: nat)
    requires |flags| > 0 && 1 <= k <= |flags| + 1
    requires forall i :: 0 <= i < |flags| ==> !flags[i]
    ensures NextSeat(flags, from, k) == |flags| + 1
    decreases |flags| + 1 - k
  {
    if k <= |flags| {
      assert !Around(flags, from, k);
      NextSeatNone(flags, from, k + 1);
    }
  }

  lemma MulAtLeast(n: int, d: int)
    requires n > 0 && d >= 1
    ensures n * d >= n
  {
  }

  /** The remainder is the one r in [0, n) with x = n * q + r. */
  lemma ModUnique(x: int, n: int, q: int, r: int)
    requires n > 0 && 0 <= r < n && x == n * q + r
    ensures x % n == r
  {
    var q', r' := x / n, x % n;
    assert x == n * q' + r';
    assert n * (q - q') == r' - r;
    if q > q' {
      MulAtLeast(n, q - q');
    } else if q < q' {
      MulAtLeast(n, q' - q);
    }
  }

  /** Wrapping a position and then walking b seats is walking b seats and
      wrapping. */
  lemma WrapAdd(a: int, b: int, n: int)
    requires n > 0
    ensures (a % n + b) % n == (a + b) % n
  {
    var q, r := a / n, a % n;
    assert a == n * q + r;
    var q2, r2 := (r + b) / n, (r + b) % n;
    assert r + b == n * q2 + r2;
    assert a + b == n * (q + q2) + r2;
    ModUnique(a + b, n, q + q2, r2);
  }

  /** Fewer than n steps round a table of n seats never come back to the
      seat they started from. */
  lemma WrapNoReturn(a: int, k: int, n: int)
    requires 0 <= a && n > 0 && 1 <= k < n
    ensures (a + k) % n != a
  {
    if a < n {
      if a + k < n {
        assert (a + k) % n == a + k;
      } else {
        assert (a + k) % n == a + k - n;
      }
    }
  }

  /** A full turn round a table of n seats comes back to the same seat. */
  lemma WrapTurn(a: int, n: int)
    requires n > 0
    ensures (a + n) % n == a % n
  {
    WrapAdd(a, n, n);
    ModUnique(a % n + n, n, 1, a % n);
  }
}
