/** Facts about Euclidean `%` and `/` that the cursor arithmetic of the
    round-robin dispatcher relies on. The solver does not find these on its
    own once the modulus is a variable. */
module ModArith {

  lemma MulAtLeast(a: int, n: int)
    requires a >= 1 && n > 0
    ensures a * n >= n
  {
  }

  /** Euclidean division is unique: any decomposition `x == q * n + r` with
      `0 <= r < n` is the one `/` and `%` compute. */
  lemma ModUnique(x: int, n: int, q: int, r: int)
    requires n > 0 && 0 <= r < n && x == q * n + r
    ensures x % n == r && x / n == q
  {
    var q', r' := x / n, x % n;
    assert x == q' * n + r';
    assert (q - q') * n == r' - r;
    if q > q' {
      MulAtLeast(q - q', n);
    } else if q' > q {
      MulAtLeast(q' - q, n);
    }
  }

  /** Stepping a cursor by one moves its slot to the successor slot, wrapping
      from the last slot to slot 0. */
  lemma ModSuccessor(x: int, n: int)
    requires n > 0
    ensures (x + 1) % n == (x % n + 1) % n
    ensures (x + 1) % n == if x % n + 1 == n then 0 else x % n + 1
  {
    if x % n + 1 == n {
      ModUnique(x + 1, n, x / n + 1, 0);
      ModUnique(n, n, 1, 0);
    } else {
      ModUnique(x + 1, n, x / n, x % n + 1);
      ModUnique(x % n + 1, n, 0, x % n + 1);
    }
  }

  /** Within any window of `n` consecutive cursor values starting at `c`,
      every slot `t` of an `n`-slot ring is hit exactly at the returned value. */
  lemma CursorForSlot(c: nat, n: nat, t: nat) returns (j: nat)
    requires 0 <= t < n
    ensures c <= j < c + n
    ensures j % n == t
  {
    var base := c - c % n;
    ModUnique(c, n, c / n, c % n);
    if t >= c % n {
      j := base + t;
      ModUnique(j, n, c / n, t);
    } else {
      j := base + n + t;
      ModUnique(j, n, c / n + 1, t);
    }
  }
}
