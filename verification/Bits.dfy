/** Bit tricks on unsigned 32-bit words, as arithmetic. */
module Bits {

  import opened Words

  function Pow2(k: nat): (p: nat)
    ensures p > 0
  {
    if k == 0 then 1 else 2 * Pow2(k - 1)
  }

  /** Bitwise conjunction. */
  function And(n: nat, m: nat): (r: nat)
    ensures r <= n && r <= m
    decreases n
  {
    if n == 0 then 0 else (n % 2) * (m % 2) + 2 * And(n / 2, m / 2)
  }

  /** n & (d - 1), the subtraction wrapping at zero. */
  function FastModulo(n: nat, d: nat): (r: nat)
    ensures d > 0 ==> r < d
  {
    And(n, if d == 0 then WORD32 - 1 else d - 1)
  }

  predicate IsPowerOf2(value: nat) {
    value != 0 && And(value, value - 1) == 0
  }

  lemma {:induction false} ModTwice(n: nat, d: nat)
    requires d > 0
    ensures n % (2 * d) == n % 2 + 2 * (n / 2 % d)
  {
    var q, r := n / 2 / d, n / 2 % d;
    assert n / 2 == q * d + r;
    assert n == 2 * (q * d + r) + n % 2;
    assert n == q * (2 * d) + (n % 2 + 2 * r) by { assert 2 * (q * d) == q * (2 * d); }
    UniqueRemainder(n, 2 * d, q, n % 2 + 2 * r);
  }

  lemma {:induction false} UniqueRemainder(n: nat, d: nat, q: nat, r: nat)
    requires n == q * d + r && r < d
    ensures n % d == r
  {
    var e := n / d - q;
    assert n / d * d + n % d == n;
    assert e * d == r - n % d by { assert e * d == n / d * d - q * d; }
    AtLeast(e, d);
  }

  lemma {:induction false} AtLeast(e: int, d: nat)
    ensures e >= 1 ==> e * d >= d
    ensures e <= -1 ==> e * d <= -(d as int)
  {
    assert e >= 1 ==> (e - 1) * d >= 0;
    assert e <= -1 ==> (-1 - e) * d >= 0;
  }

  lemma {:induction false} ModNext(n: nat, d: nat)
    requires d > 0
    ensures (n % d + 1) % d == (n + 1) % d
  {
    var q, r := n / d, n % d;
    if r + 1 < d {
      UniqueRemainder(n + 1, d, q, r + 1);
      UniqueRemainder(r + 1, d, 0, r + 1);
    } else {
      assert (q + 1) * d == q * d + d;
      UniqueRemainder(n + 1, d, q + 1, 0);
      UniqueRemainder(r + 1, d, 1, 0);
    }
  }

  /** Masking with d - 1 is the remainder for every power of two d. */
  lemma {:induction false} FastModuloIsMod(n: nat, k: nat)
    ensures FastModulo(n, Pow2(k)) == n % Pow2(k)
    decreases k, n
  {
    if k == 0 {
      AndZero(n);
    } else if n != 0 {
      var d := Pow2(k - 1);
      FastModuloIsMod(n / 2, k - 1);
      ModTwice(n, d);
      assert (2 * d - 1) % 2 == 1 && (2 * d - 1) / 2 == d - 1;
    }
  }

  lemma {:induction false} AndZero(n: nat)
    ensures And(n, 0) == 0
  {
  }

  /** The test for a single set bit accepts every power of two ... */
  lemma {:induction false} PowerHasOneBit(k: nat)
    ensures IsPowerOf2(Pow2(k))
  {
    if k > 0 {
      var half := Pow2(k - 1);
      PowerHasOneBit(k - 1);
      assert (2 * half - 1) / 2 == half - 1;
    }
  }

  /** ... and nothing else. */
  lemma {:induction false} OneBitIsPower(value: nat) returns (k: nat)
    requires IsPowerOf2(value)
    ensures value == Pow2(k)
  {
    var half := value / 2;
    if value == 1 {
      k := 0;
    } else if value % 2 == 0 {
      assert (value - 1) / 2 == half - 1;
      k := OneBitIsPower(half);
      k := k + 1;
    } else {
      assert (value - 1) / 2 == half;
      AndSelf(half);
      assert false;
    }
  }

  lemma {:induction false} AndSelf(n: nat)
    ensures And(n, n) == n
  {
    if n != 0 {
      AndSelf(n / 2);
    }
  }
}
