/** Round-robin over a list of n items, as both the course cards
    (`(prevIndex + 1) % courses.length`) and the gift popups
    (`(prev + 1) % visibleGifts.length`) advance their index. */
module Cycling {

  lemma MulNonNegative(x: int, y: int)
    requires x >= 0 && y >= 0
    ensures x * y >= 0
  {
  }

  /** Euclidean remainder is unique: any decomposition x == q*n + r with r in
      [0, n) gives x % n == r. */
  lemma ModUnique(x: int, n: int, q: int, r: int)
    requires 0 < n && 0 <= r < n && x == q * n + r
    ensures x % n == r
  {
    var q', r' := x / n, x % n;
    assert x == q' * n + r';
    var d := q - q';
    assert d * n == r' - r by {
      assert q * n - q' * n == (q - q') * n;
    }
    if d >= 1 {
      MulNonNegative(d - 1, n);
    } else if d <= -1 {
      MulNonNegative(-d - 1, n);
    }
  }

  /** Advancing a reduced index is advancing the count and reducing. */
  lemma ModSucc(a: nat, n: nat)
    requires n > 0
    ensures (a % n + 1) % n == (a + 1) % n
  {
    var q, r := a / n, a % n;
    assert a == q * n + r;
    if r + 1 < n {
      ModUnique(a + 1, n, q, r + 1);
      ModUnique(r + 1, n, 0, r + 1);
    } else {
      ModUnique(a + 1, n, q + 1, 0);
      ModUnique(r + 1, n, 1, 0);
    }
  }

  lemma SuccessorCases(prev: nat, count: nat)
    requires count > 0
    ensures prev + 1 < count ==> (prev + 1) % count == prev + 1
    ensures prev + 1 == count ==> (prev + 1) % count == 0
  {
    if prev + 1 < count {
      ModUnique(prev + 1, count, 0, prev + 1);
    } else if prev + 1 == count {
      ModUnique(prev + 1, count, 1, 0);
    }
  }

  /** One step of the rotation: the next item, wrapping from the last back to the first. */
  function NextIndex(prev: nat, count: nat): (next: nat)
    requires count > 0
    ensures next < count
    ensures prev + 1 < count ==> next == prev + 1
    ensures prev + 1 == count ==> next == 0
  {
    SuccessorCases(prev, count);
    (prev + 1) % count
  }

  /** The index after `k` steps from `i`. */
  function Rotated(i: nat, count: nat, k: nat): nat
    requires count > 0
  {
    if k == 0 then i else NextIndex(Rotated(i, count, k - 1), count)
  }

  /** After k steps from index i the index is (i + k) mod count; in particular
      from 0 the k-th step lands on k mod count. */
  lemma {:induction false} RotatedIsModular(i: nat, count: nat, k: nat)
    requires count > 0 && i < count
    ensures Rotated(i, count, k) == (i + k) % count
  {
    if k == 0 {
      ModUnique(i, count, 0, i);
    } else {
      RotatedIsModular(i, count, k - 1);
      ModSucc(i + k - 1, count);
    }
  }

  /** After `count` steps the index is back where it started, and it never
      leaves [0, count). */
  lemma FullTurn(i: nat, count: nat)
    requires count > 0 && i < count
    ensures Rotated(i, count, count) == i
    ensures forall k: nat :: Rotated(i, count, k) < count
  {
    RotatedIsModular(i, count, count);
    ModUnique(i + count, count, 1, i);
    forall k: nat ensures Rotated(i, count, k) < count {
      RotatedIsModular(i, count, k);
    }
  }
}
