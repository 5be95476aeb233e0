/** Sums over sequences, elements that occur twice, and regrouping. */
module Sequences {
  function Sum(ns: seq<nat>): nat {
    if ns == [] then 0 else Sum(ns[..|ns| - 1]) + ns[|ns| - 1]
  }

  lemma {:induction false} SumSnoc(ns: seq<nat>, n: nat)
    ensures Sum(ns + [n]) == Sum(ns) + n
  {
    assert (ns + [n])[..|ns|] == ns;
  }

  lemma {:induction false} SumCons(n: nat, ns: seq<nat>)
    ensures Sum([n] + ns) == n + Sum(ns)
  {
    if ns == [] {
      assert [n] + ns == [n] && [n][..0] == [];
    } else {
      SumCons(n, ns[..|ns| - 1]);
      assert ([n] + ns)[..|ns|] == [n] + ns[..|ns| - 1];
    }
  }

  lemma {:induction false} SumMonotone(ns: seq<nat>, j: nat, k: nat)
    requires j <= k <= |ns|
    ensures Sum(ns[..j]) <= Sum(ns[..k])
  {
    if j < k {
      SumMonotone(ns, j, k - 1);
      assert ns[..k][..k - 1] == ns[..k - 1];
    }
  }

  lemma {:induction false} SumZeros(ns: seq<nat>)
    requires forall k :: 0 <= k < |ns| ==> ns[k] == 0
    ensures Sum(ns) == 0
  {
    if ns != [] {
      SumZeros(ns[..|ns| - 1]);
    }
  }

  lemma {:induction false} RepeatedInMultiset<T>(s: seq<T>, i: nat, j: nat)
    requires i < j < |s| && s[i] == s[j]
    ensures multiset(s)[s[i]] >= 2
  {
    assert s == s[..i] + [s[i]] + s[i + 1..j] + [s[j]] + s[j + 1..];
  }

  lemma {:induction false} Assoc<T>(a: seq<T>, b: seq<T>, c: seq<T>)
    ensures a + b + c == a + (b + c)
  {
  }
}
