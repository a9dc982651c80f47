/** Arithmetic that several parts share: minima, powers of two, and the bitwise operations of C on numbers. */
module Numbers {
  function Least(a: nat, b: nat): nat {
    if a < b then a else b
  }

  function Pow2(n: nat): (p: nat)
    ensures p >= 1
  {
    if n == 0 then 1 else 2 * Pow2(n - 1)
  }

  /** `a & b`. */
  function And(a: nat, b: nat): (r: nat)
    ensures r <= a && r <= b
  {
    if a == 0 || b == 0 then 0 else 2 * And(a / 2, b / 2) + if a % 2 == 1 && b % 2 == 1 then 1 else 0
  }

  /** `a | b`. */
  function Or(a: nat, b: nat): (r: nat)
    ensures a <= r && b <= r
  {
    a + b - And(a, b)
  }

  lemma {:induction false} OrBelow(a: nat, b: nat, k: nat)
    requires a < Pow2(k) && b < Pow2(k)
    ensures 0 <= Or(a, b) < Pow2(k)
    decreases k
  {
    if a != 0 && b != 0 {
      OrBelow(a / 2, b / 2, k - 1);
    }
  }

  /** Bit `k` of a number. */
  predicate BitSet(n: nat, k: nat) {
    n / Pow2(k) % 2 == 1
  }

  lemma BitZero(n: nat)
    ensures BitSet(n, 0) <==> n % 2 == 1
  {
  }

  lemma BitNext(n: nat, k: nat)
    requires k > 0
    ensures BitSet(n, k) <==> BitSet(n / 2, k - 1)
  {
    var p := Pow2(k - 1);
    var q, r := n / 2 / p, n / 2 % p;
    assert n / 2 == q * p + r;
    assert n == q * (2 * p) + (2 * r + n % 2);
    DivUnique(n, 2 * p, q, 2 * r + n % 2);
  }

  lemma OrHalf(a: nat, b: nat)
    ensures Or(a, b) / 2 == Or(a / 2, b / 2) && (Or(a, b) % 2 == 1 <==> a % 2 == 1 || b % 2 == 1)
  {
  }

  /** A bit is set in the one or the other exactly when it is set in both joined. */
  lemma {:induction false} OrBits(a: nat, b: nat, k: nat)
    ensures BitSet(Or(a, b), k) <==> BitSet(a, k) || BitSet(b, k)
    decreases k
  {
    hide Or, BitSet;
    OrHalf(a, b);
    if k == 0 {
      BitZero(a);
      BitZero(b);
      BitZero(Or(a, b));
    } else {
      BitNext(a, k);
      BitNext(b, k);
      BitNext(Or(a, b), k);
      OrBits(a / 2, b / 2, k - 1);
    }
  }

  /** A multiple of a power of two has no bit in common with what lies below that power. */
  lemma {:induction false} AndApart(x: nat, k: nat, y: nat)
    requires y < Pow2(k)
    ensures x * Pow2(k) >= 0 && And(x * Pow2(k), y) == 0
    decreases k
  {
    if k > 0 {
      AndApart(x, k - 1, y / 2);
      assert x * Pow2(k) == 2 * (x * Pow2(k - 1));
    }
  }

  predicate IsPow2(n: nat) {
    n == 1 || (n > 1 && n % 2 == 0 && IsPow2(n / 2))
  }

  lemma {:induction false} Pow2Is(n: nat) returns (k: nat)
    requires IsPow2(n)
    ensures n == Pow2(k)
    decreases n
  {
    k := 0;
    if n > 1 {
      k := Pow2Is(n / 2);
      k := k + 1;
    }
  }

  lemma DoublePow2(n: nat)
    ensures IsPow2(2 * n) <==> IsPow2(n)
  {
  }

  lemma {:induction false} Pow2Below(n: nat, k: nat)
    requires IsPow2(n) && n < Pow2(k + 1)
    ensures n <= Pow2(k)
    decreases k
  {
    if k > 0 && n > 1 {
      Pow2Below(n / 2, k - 1);
    }
  }

  lemma AtLeastOne(a: nat, n: nat)
    requires a >= 1
    ensures a * n >= n
  {
    assert a * n == (a - 1) * n + n;
  }

  lemma DivUnique(x: nat, n: nat, q: nat, r: nat)
    requires r < n && x == q * n + r
    ensures x / n == q && x % n == r
  {
    var p := x / n;
    assert x == p * n + x % n;
    if q > p {
      assert (q - p) * n == q * n - p * n;
      AtLeastOne(q - p, n);
    } else if p > q {
      assert (p - q) * n == p * n - q * n;
      AtLeastOne(p - q, n);
    }
  }

  lemma ModDouble(p: nat, n: nat)
    requires n >= 1
    ensures p % (2 * n) == 2 * (p / 2 % n) + p % 2
  {
    var q, r := p / 2 / n, p / 2 % n;
    assert p / 2 == q * n + r;
    assert p == q * (2 * n) + (2 * r + p % 2);
    DivUnique(p, 2 * n, q, 2 * r + p % 2);
  }

  lemma {:induction false} AndMask(p: nat, k: nat)
    ensures And(p, Pow2(k) - 1) == p % Pow2(k)
    decreases k
  {
    if k > 0 {
      AndMask(p / 2, k - 1);
      ModDouble(p, Pow2(k - 1));
    }
  }

  lemma {:induction false} AndSelf(n: nat)
    ensures And(n, n) == n
  {
    if n > 0 {
      AndSelf(n / 2);
    }
  }

  lemma {:induction false} AndBefore(n: nat)
    requires n >= 1
    ensures And(n, n - 1) == 0 <==> IsPow2(n)
    decreases n
  {
    if n > 1 {
      if n % 2 == 0 {
        assert (n - 1) / 2 == n / 2 - 1;
        AndBefore(n / 2);
      } else {
        AndSelf(n / 2);
      }
    }
  }

  /** Masking with one less than a number takes the remainder exactly when the number is a power of two. */
  lemma MaskIsModIff(n: nat)
    requires n >= 1
    ensures (forall p: nat :: And(p, n - 1) == p % n) <==> IsPow2(n)
  {
    if IsPow2(n) {
      var k := Pow2Is(n);
      forall p: nat
        ensures And(p, n - 1) == p % n
      {
        AndMask(p, k);
      }
    } else {
      AndBefore(n);
      assert n % n == 0;
      assert And(n, n - 1) != n % n;
    }
  }
}
