/**
 * The now-playing index of the client's playlist: the next and previous
 * buttons move it by one, wrapping around at either end.
 */
module Playback {

  /** The next button: the last song is followed by the first. */
  function NextIndex(i: int, n: int): (j: int)
    requires 0 <= i < n
    ensures 0 <= j < n
    ensures j == (i + 1) % n
  {
    if i == n - 1 then 0 else i + 1
  }

  /** The previous button: the first song is preceded by the last. */
  function PrevIndex(i: int, n: int): (j: int)
    requires 0 <= i < n
    ensures 0 <= j < n
    ensures j == (i - 1) % n
  {
    if i == 0 then n - 1 else i - 1
  }

  /** Previous undoes next. */
  lemma PrevAfterNext(i: int, n: int)
    requires 0 <= i < n
    ensures PrevIndex(NextIndex(i, n), n) == i
  {
  }

  /** Next undoes previous. */
  lemma NextAfterPrev(i: int, n: int)
    requires 0 <= i < n
    ensures NextIndex(PrevIndex(i, n), n) == i
  {
  }

  /** The index after `k` presses of the next button. */
  function Advance(i: int, n: int, k: nat): (j: int)
    requires 0 <= i < n
    ensures 0 <= j < n
  {
    if k == 0 then i else NextIndex(Advance(i, n, k - 1), n)
  }

  /** `k` presses of next move the index by `k` modulo the playlist length. */
  lemma {:induction false} AdvanceIsModular(i: int, n: int, k: nat)
    requires 0 <= i < n
    ensures Advance(i, n, k) == (i + k) % n
  {
    if k > 0 {
      AdvanceIsModular(i, n, k - 1);
      ModSucc(i + k - 1, n);
    }
  }

  /** Pressing next once per song comes back to the song playing, and not sooner. */
  lemma FullCycle(i: int, n: int)
    requires 0 <= i < n
    ensures Advance(i, n, n) == i
    ensures forall k :: 0 < k < n ==> Advance(i, n, k) != i
  {
    AdvanceIsModular(i, n, n);
    ModOfRemainder(1, n, i);
    forall k | 0 < k < n ensures Advance(i, n, k) != i {
      AdvanceIsModular(i, n, k);
      if i + k < n {
        ModOfRemainder(0, n, i + k);
      } else {
        ModOfRemainder(1, n, i + k - n);
      }
    }
  }

  /** Stepping the remainder by one steps the dividend by one. */
  lemma ModSucc(x: int, n: int)
    requires 0 < n
    ensures NextIndex(x % n, n) == (x + 1) % n
  {
    var q, j := x / n, x % n;
    assert x == q * n + j;
    if j == n - 1 {
      assert x + 1 == (q + 1) * n + 0;
      ModOfRemainder(q + 1, n, 0);
    } else {
      assert x + 1 == q * n + (j + 1);
      ModOfRemainder(q, n, j + 1);
    }
  }

  /** Euclidean division has a unique remainder. */
  lemma ModOfRemainder(q: int, n: int, r: int)
    requires 0 <= r < n
    ensures (q * n + r) % n == r
  {
    var x := q * n + r;
    var d := x / n - q;
    assert x == (x / n) * n + x % n;
    assert d * n == (x / n) * n - q * n;
    assert d * n == r - x % n;
    if d > 0 {
      MulAtLeast(d, n);
    } else if d < 0 {
      MulAtLeast(-d, n);
    }
  }

  lemma MulAtLeast(d: int, n: int)
    requires 0 < d && 0 < n
    ensures d * n >= n
  {
  }
}
