/** Slide-index arithmetic of the carousel: the wrap-around steps taken by
    the "next" and "previous" controls, and what repeating them amounts to. */
module Slides {

  /** The index after `k` among `n` slides. The source computes
      `(k + 1) % n`; both operands are non-negative, so JavaScript's
      truncating `%` and Dafny's Euclidean `%` agree. */
  function Next(k: int, n: int): (r: int)
    requires 0 <= k < n
    ensures 0 <= r < n
    ensures r == if k == n - 1 then 0 else k + 1
  {
    (k + 1) % n
  }

  /** The index before `k` among `n` slides, computed as `(k - 1 + n) % n`;
      the dividend is never negative, so the two `%` conventions agree. */
  function Prev(k: int, n: int): (r: int)
    requires 0 <= k < n
    ensures 0 <= r < n
    ensures r == if k == 0 then n - 1 else k - 1
  {
    (k - 1 + n) % n
  }

  /** Going back undoes going forward, and the other way round. */
  lemma PrevUndoesNext(k: int, n: int)
    requires 0 <= k < n
    ensures Prev(Next(k, n), n) == k
    ensures Next(Prev(k, n), n) == k
  {
  }

  /** From the last slide "next" wraps to the first; from the first slide
      "previous" wraps to the last. */
  lemma WrapAround(n: int)
    requires 0 < n
    ensures Next(n - 1, n) == 0
    ensures Prev(0, n) == n - 1
  {
  }

  /** `steps` presses of "next", starting at `k`. */
  function Advance(k: int, n: int, steps: nat): (r: int)
    requires 0 <= k < n
    ensures 0 <= r < n
    decreases steps
  {
    if steps == 0 then k else Next(Advance(k, n, steps - 1), n)
  }

  /** `steps` presses of "previous", starting at `k`. */
  function Retreat(k: int, n: int, steps: nat): (r: int)
    requires 0 <= k < n
    ensures 0 <= r < n
    decreases steps
  {
    if steps == 0 then k else Prev(Retreat(k, n, steps - 1), n)
  }

  /** If `m` is the remainder of `a` by `n`, then one step forward from `m`
      is the remainder of `a + 1`, and one step back is that of `a - 1`. */
  lemma StepOfRemainder(a: int, n: int)
    requires 0 < n
    ensures Next(a % n, n) == (a + 1) % n
    ensures Prev(a % n, n) == (a - 1) % n
  {
    var q, m := a / n, a % n;
    assert a == q * n + m;
    if m == n - 1 {
      assert a + 1 == (q + 1) * n;
      RemainderOf(a + 1, n, q + 1, 0);
    } else {
      RemainderOf(a + 1, n, q, m + 1);
    }
    if m == 0 {
      assert a - 1 == (q - 1) * n + (n - 1);
      RemainderOf(a - 1, n, q - 1, n - 1);
    } else {
      RemainderOf(a - 1, n, q, m - 1);
    }
  }

  /** Euclidean division is unique: a quotient and remainder in range are
      the ones `/` and `%` give. */
  lemma RemainderOf(a: int, n: int, q: int, m: int)
    requires 0 < n && 0 <= m < n && a == q * n + m
    ensures a % n == m
  {
    var q', m' := a / n, a % n;
    assert (q' - q) * n == m - m' by {
      assert q' * n + m' == q * n + m;
      assert (q' - q) * n == q' * n - q * n;
    }
    if q' > q {
      MultipleAtLeast(q' - q, n);
      assert false;
    } else if q' < q {
      assert (q - q') * n == m' - m;
      MultipleAtLeast(q - q', n);
      assert false;
    }
  }

  /** A non-zero multiple of a positive `n` is at least `n` in size. */
  lemma MultipleAtLeast(d: int, n: int)
    requires 0 < d && 0 < n
    ensures d * n >= n
  {
  }

  /** Pressing "next" `steps` times from `k` lands on `(k + steps) mod n`. */
  lemma {:induction false} AdvanceIsShift(k: int, n: int, steps: nat)
    requires 0 <= k < n
    ensures Advance(k, n, steps) == (k + steps) % n
    decreases steps
  {
    if steps == 0 {
      RemainderOf(k, n, 0, k);
    } else {
      AdvanceIsShift(k, n, steps - 1);
      StepOfRemainder(k + steps - 1, n);
    }
  }

  /** Pressing "previous" `steps` times from `k` lands on `(k - steps) mod n`,
      the non-negative remainder. */
  lemma {:induction false} RetreatIsShift(k: int, n: int, steps: nat)
    requires 0 <= k < n
    ensures Retreat(k, n, steps) == (k - steps) % n
    decreases steps
  {
    if steps == 0 {
      RemainderOf(k, n, 0, k);
    } else {
      RetreatIsShift(k, n, steps - 1);
      StepOfRemainder(k - steps + 1, n);
    }
  }

  /** A full lap of `n` presses in either direction returns to the start. */
  lemma {:induction false} FullLap(k: int, n: int)
    requires 0 <= k < n
    ensures Advance(k, n, n) == k
    ensures Retreat(k, n, n) == k
  {
    AdvanceIsShift(k, n, n);
    RemainderOf(k + n, n, 1, k);
    RetreatIsShift(k, n, n);
    RemainderOf(k - n, n, -1, k);
  }
}
