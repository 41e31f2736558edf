/** Facts about Euclidean division used by the round-robin scan. */
module Arithmetic {
  lemma MulSign(k: int, n: int)
    requires n > 0
    ensures k >= 1 ==> k * n >= n
    ensures k <= -1 ==> k * n <= -n
  {
    if k >= 1 {
      assert k * n == (k - 1) * n + n;
    } else if k <= -1 {
      assert k * n == (k + 1) * n - n;
    }
  }

  lemma ModUnique(x: int, n: int, q: int, r: int)
    requires n > 0 && 0 <= r < n && x == q * n + r
    ensures x % n == r
  {
    var q', r' := x / n, x % n;
    assert (q - q') * n == r' - r;
    MulSign(q - q', n);
  }

  lemma ModDistinct(a: nat, j1: nat, j2: nat, n: nat)
    requires j1 < j2 < n
    ensures (a + j1) % n != (a + j2) % n
  {
    var q, r := a / n, a % n;
    if r + j1 < n {
      ModUnique(a + j1, n, q, r + j1);
    } else {
      ModUnique(a + j1, n, q + 1, r + j1 - n);
    }
    if r + j2 < n {
      ModUnique(a + j2, n, q, r + j2);
    } else {
      ModUnique(a + j2, n, q + 1, r + j2 - n);
    }
  }

  /** Every residue is reached within `n` steps from any start. */
  lemma ModReaches(a: nat, k: nat, n: nat) returns (j: nat)
    requires k < n
    ensures j < n && (a + j) % n == k
  {
    var q, r := a / n, a % n;
    if k >= r {
      j := k - r;
      ModUnique(a + j, n, q, k);
    } else {
      j := k + n - r;
      ModUnique(a + j, n, q + 1, k);
    }
  }
}
