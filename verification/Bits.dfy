/** Powers of two, and the bitwise `and` that the ring buffer uses to wrap its pointers. */
module Bits {

  function Pow2(k: nat): (p: nat)
    ensures p >= 1
    ensures k >= 1 ==> p >= 2
  {
    if k == 0 then 1 else 2 * Pow2(k - 1)
  }

  /** Bitwise `and` of two unsigned machine words. */
  function BitAnd(x: nat, y: nat): nat {
    if x == 0 || y == 0 then 0
    else (if x % 2 == 1 && y % 2 == 1 then 1 else 0) + 2 * BitAnd(x / 2, y / 2)
  }

  lemma MulAtLeast(d: int, m: int)
    requires m >= 0
    ensures d >= 1 ==> d * m >= m
    ensures d <= -1 ==> d * m <= -m
  {
  }

  lemma DivModUnique(x: int, m: int, q: int, r: int)
    requires m > 0 && 0 <= r < m && x == q * m + r
    ensures x / m == q && x % m == r
  {
    var q', r' := x / m, x % m;
    assert x == m * q' + r';
    var d := q - q';
    assert d * m == r' - r;
    MulAtLeast(d, m);
  }

  lemma HalveMod(x: nat, p: nat)
    requires p > 0
    ensures x % (2 * p) == x % 2 + 2 * (x / 2 % p)
  {
    var h := x / 2;
    var q, r := h / p, h % p;
    assert h == q * p + r;
    assert x == 2 * h + x % 2;
    assert 2 * (q * p) == q * (2 * p);
    DivModUnique(x, 2 * p, q, 2 * r + x % 2);
  }

  /** Masking with 2^k - 1 is the remainder modulo 2^k. */
  lemma {:induction false} MaskIsMod(x: nat, k: nat)
    ensures BitAnd(x, Pow2(k) - 1) == x % Pow2(k)
  {
    if x == 0 {
      DivModUnique(0, Pow2(k), 0, 0);
    } else if k > 0 {
      var p := Pow2(k - 1);
      MaskIsMod(x / 2, k - 1);
      HalveMod(x, p);
      var y := 2 * p - 1;
      assert y / 2 == p - 1 && y % 2 == 1;
    }
  }

  /** For a pointer that has run at most one lap ahead, masking subtracts the size. */
  lemma MaskWraps(x: nat, k: nat)
    requires x < 2 * Pow2(k)
    ensures BitAnd(x, Pow2(k) - 1) == if x < Pow2(k) then x else x - Pow2(k)
  {
    MaskIsMod(x, k);
    var p := Pow2(k);
    if x < p {
      DivModUnique(x, p, 0, x);
    } else {
      DivModUnique(x, p, 1, x - p);
    }
  }

  /** Positions less than one lap apart are distinct modulo the lap. */
  lemma ModDistinct(i: nat, j: nat, m: nat)
    requires m > 0 && i < j < i + m
    ensures i % m != j % m
  {
    var d := j / m - i / m;
    assert j - i == d * m + (j % m - i % m);
    MulAtLeast(d, m);
  }

  lemma ModAdd(i: nat, d: nat, m: nat)
    requires m > 0 && i % m + d <= m
    ensures i % m + d < m ==> (i + d) % m == i % m + d
    ensures i % m + d == m ==> (i + d) % m == 0
  {
    var q := i / m;
    if i % m + d < m {
      DivModUnique(i + d, m, q, i % m + d);
    } else {
      assert i + d == (q + 1) * m;
      DivModUnique(i + d, m, q + 1, 0);
    }
  }
}
