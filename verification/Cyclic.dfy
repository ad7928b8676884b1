/** Arithmetic of positions in a circular buffer.

    The models keep two views of every index: the wrapped offset the program stores, and the
    unbounded position it stands for.  The lemmas here move between the two. */
module Cyclic {

  /** The `distance` macro: how far `second` is ahead of `first`, going round the buffer. */
  function Distance(first: nat, second: nat, size: nat): (d: nat)
    requires first <= size
  {
    if first <= second then second - first else (size - first) + second
  }

  lemma MultipleIsFar(k: int, n: int)
    requires n >= 0
    ensures k >= 1 ==> k * n >= n
    ensures k <= -1 ==> k * n <= -n
  {
    if k >= 1 {
      assert (k - 1) * n >= 0;
    } else if k <= -1 {
      assert (-1 - k) * n >= 0;
    }
  }

  lemma DivModUnique(x: int, q: int, r: int, n: nat)
    requires 0 <= r < n
    requires x == q * n + r
    ensures x / n == q && x % n == r
  {
    var d := x / n - q;
    assert x == (x / n) * n + x % n;
    assert d * n == r - x % n by {
      assert d * n == (x / n) * n - q * n;
    }
    MultipleIsFar(d, n);
  }

  lemma AddMultiple(x: int, k: int, n: nat)
    requires n > 0
    ensures (x + k * n) % n == x % n
    ensures (x + k * n) / n == x / n + k
  {
    assert x + k * n == (x / n + k) * n + x % n;
    DivModUnique(x + k * n, x / n + k, x % n, n);
  }

  lemma AddPeriod(x: int, n: nat)
    requires n > 0
    ensures (x + n) % n == x % n
  {
    AddMultiple(x, 1, n);
  }

  /** Wrapping early or late gives the same offset. */
  lemma AddWrapped(a: int, b: int, n: nat)
    requires n > 0
    ensures (a % n + b) % n == (a + b) % n
  {
    AddMultiple(a % n + b, a / n, n);
    assert a + b == (a % n + b) + (a / n) * n;
  }

  /** Two positions less than a lap apart that share an offset are the same position. */
  lemma SameOffset(a: int, b: int, n: nat)
    requires n > 0 && a <= b < a + n
    requires a % n == b % n
    ensures a == b
  {
    var k := b / n - a / n;
    assert b - a == k * n by {
      assert b == (b / n) * n + b % n;
      assert a == (a / n) * n + a % n;
      assert k * n == (b / n) * n - (a / n) * n;
    }
    MultipleIsFar(k, n);
  }

  /** The macro measures the gap between two positions less than a lap apart. */
  lemma {:induction false} DistanceOfPositions(a: nat, b: nat, n: nat)
    requires n > 0 && a <= b < a + n
    ensures Distance(a % n, b % n, n) == b - a
  {
    var gap := b - a;
    var start := a % n;
    AddWrapped(a, gap, n);
    assert (start + gap) % n == b % n;
    if start + gap < n {
      DivModUnique(start + gap, 0, start + gap, n);
    } else {
      DivModUnique(start + gap, 1, start + gap - n, n);
    }
  }

  /** Reducing modulo a multiple of n does not change the residue modulo n. */
  lemma ModOfMultiple(x: int, m: nat, n: nat)
    requires n > 0 && m > 0 && m % n == 0
    ensures (x % m) % n == x % n
  {
    var k := m / n;
    assert m == k * n;
    var q := x / m;
    assert x == q * m + x % m;
    assert q * m == (q * k) * n;
    AddMultiple(x % m, q * k, n);
  }

  lemma ModAtMost(x: nat, n: nat)
    requires n > 0
    ensures x % n <= x
  {
    if x < n {
      DivModUnique(x, 0, x, n);
    }
  }

  lemma MulOrder(a: int, b: int, n: nat)
    ensures a <= b ==> a * n <= b * n
    ensures a < b ==> a * n + n <= b * n
  {
    if a < b {
      var d := b - a - 1;
      assert d * n >= 0;
      assert b == a + (1 + d);
      assert (a + (1 + d)) * n == a * n + (1 + d) * n;
      assert (1 + d) * n == n + d * n;
    }
  }

  lemma Distribute(a: int, b: int, n: int)
    ensures (a + b) * n == a * n + b * n
  {
  }

  lemma Regroup(k: int, a: int, c: int, b: int)
    ensures (k * a + c) * b == k * (a * b) + c * b
  {
    assert (k * a) * b == k * (a * b);
  }

  lemma DigitBound(c: nat, r: nat, a: nat, b: nat)
    requires c < a && r < b
    ensures c * b + b <= a * b
    ensures 0 <= c * b + r < a * b
  {
    MulOrder(c, a, b);
    MulOrder(0, c, b);
  }

  lemma LowDigits(k: nat, c: nat, r: nat, a: nat, b: nat)
    requires c < a && r < b
    ensures ((k * a + c) * b + r) % (a * b) == c * b + r
    ensures (c * b + r) / b == c
  {
    DigitBound(c, r, a, b);
    Regroup(k, a, c, b);
    DivModUnique((k * a + c) * b + r, k, c * b + r, a * b);
    DivModUnique(c * b + r, c, r, b);
  }

  lemma DivModExpand(x: nat, n: nat)
    requires n > 0
    ensures x == (x / n) * n + x % n
  {
  }

  /** The residue modulo a product, digit by digit. */
  lemma MixedRadix(j: nat, a: nat, b: nat)
    requires a > 0 && b > 0
    ensures a * b >= b
    ensures j % (a * b) == ((j / b) % a) * b + j % b
    ensures (j % (a * b)) / b == (j / b) % a
    ensures (j / b) % a * b + b <= a * b
  {
    DivModExpand(j, b);
    DivModExpand(j / b, a);
    Digits(j, j / b, (j / b) / a, (j / b) % a, j % b, a, b);
  }

  lemma Digits(j: nat, q: nat, k: nat, c: nat, r: nat, a: nat, b: nat)
    requires c < a && r < b && j == q * b + r && q == k * a + c
    ensures a * b >= b
    ensures j % (a * b) == c * b + r && (c * b + r) / b == c && c * b + b <= a * b
  {
    DigitBound(c, r, a, b);
    MulOrder(1, a, b);
    LowDigits(k, c, r, a, b);
  }
}
