/** Powers of two and least multiples, as alignments use them. */
module Alignments {
  function Pow2From(p: nat, n: nat): nat
    requires p > 0
    decreases n - p
  {
    if p >= n then p else Pow2From(2 * p, n)
  }

  function NextPow2(n: nat): nat {
    Pow2From(1, n)
  }

  ghost predicate IsPow2(a: nat)
    decreases a
  {
    a == 1 || (a > 1 && a % 2 == 0 && IsPow2(a / 2))
  }

  lemma {:induction false} Pow2FromLeast(p: nat, n: nat, q: nat)
    requires IsPow2(p) && IsPow2(q) && p <= q && n <= q
    ensures IsPow2(Pow2From(p, n)) && n <= Pow2From(p, n) <= q && p <= Pow2From(p, n)
    decreases n - p
  {
    if p < n {
      Pow2Gap(p, q);
      assert 2 * p / 2 == p;
      Pow2FromLeast(2 * p, n, q);
    }
  }

  lemma {:induction false} Pow2Gap(p: nat, q: nat)
    requires IsPow2(p) && IsPow2(q) && p < q
    ensures 2 * p <= q
  {
    if p > 1 {
      Pow2Gap(p / 2, q / 2);
    }
  }

  /** A power of two from `n` on exists: doubling stops. */
  lemma {:induction false} Pow2FromReaches(p: nat, n: nat)
    requires IsPow2(p)
    ensures IsPow2(Pow2From(p, n)) && n <= Pow2From(p, n)
    decreases n - p
  {
    if p < n {
      assert 2 * p / 2 == p;
      Pow2FromReaches(2 * p, n);
    }
  }

  /** The alignment computed for a padding is the least power of two not below it. */
  lemma {:induction false} NextPow2IsLeast(n: nat)
    ensures IsPow2(NextPow2(n)) && n <= NextPow2(n)
    ensures forall q :: IsPow2(q) && n <= q ==> NextPow2(n) <= q
  {
    Pow2FromReaches(1, n);
    forall q | IsPow2(q) && n <= q
      ensures NextPow2(n) <= q
    {
      Pow2FromLeast(1, n, q);
    }
  }

  function NextMultiple(p: int, a: nat): int
    requires a > 0
  {
    if p % a == 0 then p else p + (a - p % a)
  }

  lemma {:induction false} NextMultipleIsLeast(p: int, a: nat)
    requires a > 0
    ensures NextMultiple(p, a) % a == 0 && p <= NextMultiple(p, a) < p + a
    ensures forall m {:trigger m % a} :: m % a == 0 && p <= m ==> NextMultiple(p, a) <= m
  {
    var q, r := p / a, p % a;
    assert p == q * a + r;
    if r != 0 {
      assert NextMultiple(p, a) == (q + 1) * a;
      MultipleMod(q + 1, a);
      forall m {:trigger m % a} | m % a == 0 && p <= m
        ensures NextMultiple(p, a) <= m
      {
        var k := m / a;
        assert m == k * a;
        assert k <= q ==> m <= q * a by {
          if k <= q {
            MulMonotone(k, q, a);
          }
        }
        assert k >= q + 1 ==> m >= (q + 1) * a by {
          if k >= q + 1 {
            MulMonotone(q + 1, k, a);
          }
        }
      }
    }
  }

  lemma {:induction false} MulMonotone(k: int, q: int, a: nat)
    requires k <= q
    ensures k * a <= q * a
  {
    assert (q - k) * a >= 0;
  }

  lemma {:induction false} MultipleMod(k: int, a: nat)
    requires a > 0
    ensures (k * a) % a == 0
  {
    var m := k * a;
    var q, r := m / a, m % a;
    assert m == q * a + r && 0 <= r < a;
    var e := k - q;
    assert e * a == r;
    assert e >= 1 ==> r >= a by {
      if e >= 1 {
        MulMonotone(1, e, a);
      }
    }
    assert e <= -1 ==> r + a <= 0 by {
      if e <= -1 {
        MulMonotone(e, -1, a);
      }
    }
  }

  /** `offset` moved up so that it leaves the same remainder as `ref`. */
  function AlignModulo(a: nat, ref: nat, offset: nat): int
    requires a > 0
  {
    var up := NextMultiple(offset, a);
    if up % a == ref % a then up
    else
      var adjustment := ref % a + a - up % a;
      up + if adjustment > a then adjustment - a else adjustment
  }

  lemma {:induction false} RemainderUnique(x: int, q: int, r: int, a: nat)
    requires a > 0 && 0 <= r < a && x == q * a + r
    ensures x % a == r
  {
    var d, e := x / a - q, r - x % a;
    assert d * a == e;
    assert d >= 1 ==> e >= a by {
      if d >= 1 {
        MulMonotone(1, d, a);
      }
    }
    assert d <= -1 ==> e + a <= 0 by {
      if d <= -1 {
        MulMonotone(d, -1, a);
      }
    }
  }

  /** It is the first place from the next multiple on with that remainder. */
  lemma {:induction false} AlignModuloIsLeast(a: nat, ref: nat, offset: nat)
    requires a > 0
    ensures AlignModulo(a, ref, offset) == NextMultiple(offset, a) + ref % a
    ensures AlignModulo(a, ref, offset) % a == ref % a
    ensures forall m {:trigger m % a} :: m % a == ref % a && NextMultiple(offset, a) <= m ==>
      AlignModulo(a, ref, offset) <= m
  {
    NextMultipleIsLeast(offset, a);
    var up, r := NextMultiple(offset, a), ref % a;
    assert up == (up / a) * a;
    RemainderUnique(up + r, up / a, r, a);
    forall m {:trigger m % a} | m % a == r && up <= m
      ensures up + r <= m
    {
      var k, u := m / a, up / a;
      assert m == k * a + r;
      assert k + 1 <= u ==> (k + 1) * a <= u * a by {
        if k + 1 <= u {
          MulMonotone(k + 1, u, a);
        }
      }
      assert k >= u ==> k * a >= u * a by {
        if k >= u {
          MulMonotone(u, k, a);
        }
      }
      assert (k + 1) * a == k * a + a;
    }
  }

  lemma {:induction false} DifferenceOfMultiples(a: int, d: int, n: nat)
    requires n > 0 && a % n == 0 && d % n == 0
    ensures (a - d) % n == 0
  {
    var p, q := a / n, d / n;
    assert a == p * n && d == q * n;
    assert a - d == (p - q) * n;
    MultipleMod(p - q, n);
  }

  lemma {:induction false} MultiplesApart(a: int, d: int, n: nat)
    requires n > 0 && a % n == 0
    ensures (a - d) % n == 0 <==> d % n == 0
  {
    if d % n == 0 {
      DifferenceOfMultiples(a, d, n);
    } else if (a - d) % n == 0 {
      DifferenceOfMultiples(a, a - d, n);
    }
  }
}
