/** `.gnu.hash`: writing the table, and the lookup that the dynamic loader makes in it. */
module GnuHash {
  import opened Alignments
  import opened Wrappers

  type Name = seq<nat>

  /** The GNU symbol hash: 32 bits, starting from 5381, times 33 plus each byte. */
  function Hash(name: Name): (h: nat)
    ensures h < 0x1_0000_0000
  {
    if name == [] then 5381
    else (33 * Hash(name[..|name| - 1]) + name[|name| - 1]) % 0x1_0000_0000
  }

  /** Two hashes that every loader computes. */
  lemma {:induction false} HashOfPrintf(name: Name)
    requires name == [0x70, 0x72, 0x69, 0x6e, 0x74, 0x66]
    ensures Hash([]) == 5381 && Hash(name) == 0x156b_2bb8
  {
    assert name[..5][..4] == name[..4] && name[..4][..3] == name[..3] && name[..3][..2] == name[..2];
    assert name[..2][..1] == name[..1] && name[..1][..0] == [];
    assert Hash(name[..1]) == 177685 && Hash(name[..2]) == 5863719 && Hash(name[..3]) == 193502832;
    assert Hash(name[..4]) == 2090626270 && Hash(name[..5]) == 271190290;
  }

  datatype Layout = Layout(bucketCount: nat, bloomShift: nat, bloomCount: nat, symbolBase: nat) {
    predicate Valid() {
      bucketCount > 0 && bloomCount > 0
    }

    function Bucket(hash: nat): (b: nat)
      requires Valid()
      ensures b < bucketCount
    {
      hash % bucketCount
    }
  }

  /** The least power of two that leaves at most about two definitions for each bucket; one bloom word. */
  function CreateLayout(numDefs: nat, symbolBase: nat): (l: Layout)
    ensures l.Valid() && l.symbolBase == symbolBase && l.bloomShift == 6 && l.bloomCount == 1
    ensures IsPow2(l.bucketCount) && numDefs / 2 <= l.bucketCount
    ensures forall q :: IsPow2(q) && numDefs / 2 <= q ==> l.bucketCount <= q
  {
    NextPow2IsLeast(numDefs / 2);
    Layout(NextPow2(numDefs / 2), 6, 1, symbolBase)
  }

  /** The bucket of each definition. */
  function BucketsOf(l: Layout, defs: seq<Name>): (bs: seq<nat>)
    requires l.Valid()
    ensures |bs| == |defs| && forall i :: 0 <= i < |bs| ==> bs[i] < l.bucketCount
    ensures forall i :: 0 <= i < |bs| ==> bs[i] == Hash(defs[i]) % l.bucketCount
  {
    seq(|defs|, i requires 0 <= i < |defs| => l.Bucket(Hash(defs[i])))
  }

  ghost predicate Sorted(bs: seq<nat>) {
    forall i, j :: 0 <= i < j < |bs| ==> bs[i] <= bs[j]
  }

  // ----- Bloom filter -----

  /** A 64-bit word, as the set of its one bits. */
  type Word = set<nat>

  function Bits(l: Layout, hash: nat): Word {
    {hash % 64, (hash / Pow2(l.bloomShift)) % 64}
  }

  function Pow2(k: nat): (p: nat)
    ensures p > 0
  {
    if k == 0 then 1 else 2 * Pow2(k - 1)
  }

  function BloomIndex(l: Layout, hash: nat): (i: nat)
    requires l.Valid()
    ensures i < l.bloomCount
  {
    (hash / 64) % l.bloomCount
  }

  predicate BloomHas(l: Layout, bloom: seq<Word>, hash: nat)
    requires l.Valid() && |bloom| == l.bloomCount
  {
    Bits(l, hash) <= bloom[BloomIndex(l, hash)]
  }

  // ----- The written table -----

  predicate LastInBucket(bs: seq<nat>, i: nat)
    requires i < |bs|
  {
    i + 1 == |bs| || bs[i + 1] != bs[i]
  }

  predicate FirstInBucket(bs: seq<nat>, i: nat)
    requires i < |bs|
  {
    i == 0 || bs[i - 1] != bs[i]
  }

  /** A hash with its bit 0 replaced by the end-of-chain mark. */
  function ChainWord(hash: nat, last: bool): nat {
    hash / 2 * 2 + if last then 1 else 0
  }

  /** Each bucket word is the dynsym index of the bucket's first definition, or 0 for an empty bucket. */
  ghost predicate BucketsFor(base: nat, bs: seq<nat>, n: nat, buckets: seq<nat>)
    requires n <= |bs|
  {
    && (forall i :: 0 <= i < |bs| ==> bs[i] < |buckets|)
    && (forall i {:trigger FirstInBucket(bs, i)} :: 0 <= i < n && FirstInBucket(bs, i) ==> buckets[bs[i]] == i + base)
    && (forall b :: 0 <= b < |buckets| && b !in bs[..n] ==> buckets[b] == 0)
  }

  ghost predicate ChainsFor(defs: seq<Name>, bs: seq<nat>, n: nat, chains: seq<nat>)
    requires |bs| == |defs| && n <= |defs|
  {
    |chains| == |defs| && forall i {:trigger chains[i]} :: 0 <= i < n ==>
      chains[i] == ChainWord(Hash(defs[i]), LastInBucket(bs, i))
  }

  /** A definition with this hash sets this bit: bits `hash % 64` and `(hash >> bloomShift) % 64` of its word. */
  predicate SetsBit(l: Layout, hash: nat, word: int, bit: nat)
    requires l.Valid()
  {
    word == hash / 64 % l.bloomCount && (bit == hash % 64 || bit == hash / Pow2(l.bloomShift) % 64)
  }

  /** The bits of the filter are exactly those that the first `n` definitions set. */
  ghost predicate BloomFor(l: Layout, defs: seq<Name>, n: nat, bloom: seq<Word>)
    requires l.Valid() && n <= |defs|
  {
    && |bloom| == l.bloomCount
    && forall word, bit :: 0 <= word < |bloom| ==> (bit in bloom[word] <==> SetByOne(l, defs, n, word, bit))
  }

  ghost predicate SetByOne(l: Layout, defs: seq<Name>, n: nat, word: int, bit: nat)
    requires l.Valid() && n <= |defs|
  {
    exists i :: 0 <= i < n && SetsBit(l, Hash(defs[i]), word, bit)
  }

  /** So every definition passes the filter. */
  lemma {:induction false} DefinitionsPass(l: Layout, defs: seq<Name>, bloom: seq<Word>, i: nat)
    requires l.Valid() && BloomFor(l, defs, |defs|, bloom) && i < |defs|
    ensures BloomHas(l, bloom, Hash(defs[i]))
  {
    var h := Hash(defs[i]);
    var word := BloomIndex(l, h);
    forall bit | bit in Bits(l, h)
      ensures bit in bloom[word]
    {
      assert SetsBit(l, Hash(defs[i]), word, bit);
      assert SetByOne(l, defs, |defs|, word, bit);
    }
  }

  /** Entering the first definition of a bucket; the definitions are sorted, so no earlier one shares it. */
  lemma {:induction false} BucketsNext(base: nat, bs: seq<nat>, n: nat, buckets: seq<nat>)
    requires Sorted(bs) && n < |bs| && BucketsFor(base, bs, n, buckets)
    ensures BucketsFor(base, bs, n + 1, if FirstInBucket(bs, n) then buckets[bs[n] := n + base] else buckets)
  {
    assert bs[..n + 1] == bs[..n] + [bs[n]];
    if FirstInBucket(bs, n) {
      forall i | 0 <= i < n
        ensures bs[i] != bs[n]
      {
        assert i < n - 1 ==> bs[i] <= bs[n - 1];
        assert bs[n - 1] <= bs[n];
      }
    }
  }

  lemma {:induction false} SetByNext(l: Layout, defs: seq<Name>, n: nat, word: int, bit: nat)
    requires l.Valid() && n < |defs|
    ensures SetByOne(l, defs, n + 1, word, bit) <==>
      SetByOne(l, defs, n, word, bit) || SetsBit(l, Hash(defs[n]), word, bit)
  {
    if SetsBit(l, Hash(defs[n]), word, bit) {
      assert n < n + 1;
    }
  }

  lemma {:induction false} BloomNext(l: Layout, defs: seq<Name>, n: nat, bloom: seq<Word>)
    requires l.Valid() && n < |defs| && BloomFor(l, defs, n, bloom)
    ensures
      var k := BloomIndex(l, Hash(defs[n]));
      BloomFor(l, defs, n + 1, bloom[k := bloom[k] + Bits(l, Hash(defs[n]))])
  {
    var k, bits := BloomIndex(l, Hash(defs[n])), Bits(l, Hash(defs[n]));
    var bloom', m := bloom[k := bloom[k] + bits], n + 1;
    forall word, bit: nat | 0 <= word < |bloom|
      ensures bit in bloom'[word] <==> SetByOne(l, defs, m, word, bit)
    {
      SetByNext(l, defs, n, word, bit);
      assert bit in bloom'[word] <==> bit in bloom[word] || (word == k && bit in bits);
    }
  }

  lemma {:induction false} ChainBoundary(l: Layout, defs: seq<Name>, i: nat)
    requires l.Valid() && i < |defs|
    ensures
      var last := i + 1 == |defs| || l.Bucket(Hash(defs[i + 1])) != l.Bucket(Hash(defs[i]));
      && last == LastInBucket(BucketsOf(l, defs), i)
      && last == (i + 1 == |defs| || FirstInBucket(BucketsOf(l, defs), i + 1))
  {
  }

  /** Fills buffers that may hold anything before. */
  method WriteTable(l: Layout, defs: seq<Name>, bloom: array<Word>, buckets: array<nat>, chains: array<nat>)
    requires l.Valid() && Sorted(BucketsOf(l, defs))
    requires bloom.Length == l.bloomCount && buckets.Length == l.bucketCount && chains.Length == |defs|
    requires buckets != chains
    modifies bloom, buckets, chains
    ensures BloomFor(l, defs, |defs|, bloom[..])
    ensures BucketsFor(l.symbolBase, BucketsOf(l, defs), |defs|, buckets[..])
    ensures ChainsFor(defs, BucketsOf(l, defs), |defs|, chains[..])
  {
    ghost var bs := BucketsOf(l, defs);
    Clear(bloom, {});
    Clear(buckets, 0);
    var startOfChain := true;
    for i := 0 to |defs|
      invariant startOfChain <==> i == |defs| || FirstInBucket(bs, i)
      invariant BloomFor(l, defs, i, bloom[..])
      invariant BucketsFor(l.symbolBase, bs, i, buckets[..])
      invariant ChainsFor(defs, bs, i, chains[..])
    {
      var hash := Hash(defs[i]);
      AddToBloom(l, defs, i, hash, bloom);
      var bucket := l.Bucket(hash);
      WriteBucket(l.symbolBase, bs, i, bucket, startOfChain, buckets);
      var last := i + 1 == |defs| || l.Bucket(Hash(defs[i + 1])) != bucket;
      ChainBoundary(l, defs, i);
      WriteChain(defs, bs, i, hash, last, chains);
      startOfChain := last;
    }
  }

  method Clear<T>(a: array<T>, zero: T)
    modifies a
    ensures forall k :: 0 <= k < a.Length ==> a[k] == zero
  {
    for i := 0 to a.Length
      invariant forall k :: 0 <= k < i ==> a[k] == zero
    {
      a[i] := zero;
    }
  }

  method AddToBloom(l: Layout, ghost defs: seq<Name>, ghost n: nat, hash: nat, bloom: array<Word>)
    requires l.Valid() && n < |defs| && Hash(defs[n]) == hash && BloomFor(l, defs, n, bloom[..])
    modifies bloom
    ensures BloomFor(l, defs, n + 1, bloom[..])
  {
    var k := BloomIndex(l, hash);
    BloomNext(l, defs, n, bloom[..]);
    bloom[k] := bloom[k] + Bits(l, hash);
  }

  method WriteBucket(base: nat, ghost bs: seq<nat>, n: nat, bucket: nat, start: bool, buckets: array<nat>)
    requires Sorted(bs) && n < |bs| && bucket == bs[n] && start == FirstInBucket(bs, n)
    requires BucketsFor(base, bs, n, buckets[..])
    modifies buckets
    ensures BucketsFor(base, bs, n + 1, buckets[..])
  {
    BucketsNext(base, bs, n, buckets[..]);
    if start {
      buckets[bucket] := n + base;
    }
  }

  method WriteChain(ghost defs: seq<Name>, ghost bs: seq<nat>, n: nat, hash: nat, last: bool, chains: array<nat>)
    requires |bs| == |defs| && n < |defs| && hash == Hash(defs[n]) && last == LastInBucket(bs, n)
    requires ChainsFor(defs, bs, n, chains[..])
    modifies chains
    ensures ChainsFor(defs, bs, n + 1, chains[..])
  {
    chains[n] := hash / 2 * 2;
    if last {
      chains[n] := chains[n] + 1;
    }
  }

  // ----- Lookup -----

  /** The start of the run of equal buckets that `i` belongs to. */
  ghost function RunStart(bs: seq<nat>, i: nat): (f: nat)
    requires i < |bs|
    ensures f <= i && bs[f] == bs[i] && FirstInBucket(bs, f)
  {
    if FirstInBucket(bs, i) then i else RunStart(bs, i - 1)
  }

  /** A bucket word that is not 0 points at a definition of that bucket, with none of them before it. */
  lemma {:induction false} BucketWord(base: nat, bs: seq<nat>, buckets: seq<nat>, b: nat)
    requires Sorted(bs) && BucketsFor(base, bs, |bs|, buckets) && b < |buckets| && base >= 1
    ensures buckets[b] == 0 <==> b !in bs
    ensures buckets[b] != 0 ==>
      && base <= buckets[b] < base + |bs| && bs[buckets[b] - base] == b
      && forall i :: 0 <= i < buckets[b] - base ==> bs[i] != b
  {
    assert bs[..|bs|] == bs;
    if b in bs {
      var i :| 0 <= i < |bs| && bs[i] == b;
      var f := RunStart(bs, i);
      assert buckets[b] == f + base;
      forall j | 0 <= j < f
        ensures bs[j] != b
      {
        assert bs[f - 1] <= bs[f] && (j < f - 1 ==> bs[j] <= bs[f - 1]);
      }
    }
  }

  /** Everything the written table says about `defs`. */
  ghost predicate Written(l: Layout, defs: seq<Name>, bloom: seq<Word>, buckets: seq<nat>, chains: seq<nat>) {
    && l.Valid() && Sorted(BucketsOf(l, defs))
    && |buckets| == l.bucketCount
    && BloomFor(l, defs, |defs|, bloom)
    && BucketsFor(l.symbolBase, BucketsOf(l, defs), |defs|, buckets)
    && ChainsFor(defs, BucketsOf(l, defs), |defs|, chains)
  }

  /** No definition before `n`, or none of bucket `b` at all before it, has the name. */
  ghost predicate NotBefore(bs: seq<nat>, defs: seq<Name>, name: Name, b: nat, n: nat)
    requires |bs| == |defs| && n <= |bs|
  {
    forall i :: 0 <= i < n && bs[i] == b ==> defs[i] != name
  }

  lemma {:induction false} EndOfChain(bs: seq<nat>, defs: seq<Name>, name: Name, b: nat, k: nat)
    requires |bs| == |defs| && k < |bs| && Sorted(bs) && bs[k] == b && LastInBucket(bs, k)
    requires NotBefore(bs, defs, name, b, k + 1)
    ensures NotBefore(bs, defs, name, b, |bs|)
  {
    forall i | k + 1 <= i < |bs|
      ensures bs[i] != b
    {
      assert bs[k] <= bs[k + 1] && (i > k + 1 ==> bs[k + 1] <= bs[i]);
    }
  }

  lemma {:induction false} ChainWordParts(hash: nat, last: bool)
    ensures ChainWord(hash, last) / 2 == hash / 2
    ensures ChainWord(hash, last) % 2 == 1 <==> last
  {
  }

  /** Follows the chain from the first symbol of its bucket to the name or to the end mark. */
  method WalkChain(
      ghost bs: seq<nat>, defs: seq<Name>, chains: seq<nat>, base: nat, name: Name, start: nat, ghost b: nat)
    returns (r: Option<nat>)
    requires |bs| == |defs| && Sorted(bs) && ChainsFor(defs, bs, |defs|, chains)
    requires base <= start < base + |defs| && bs[start - base] == b
    requires forall i :: 0 <= i < start - base ==> bs[i] != b
    ensures r.Some? ==> base <= r.value < base + |defs| && defs[r.value - base] == name
    ensures r.None? ==> NotBefore(bs, defs, name, b, |defs|)
  {
    var symbol := start;
    while true
      invariant base <= symbol < base + |defs| && bs[symbol - base] == b
      invariant NotBefore(bs, defs, name, b, symbol - base)
      decreases base + |defs| - symbol
    {
      var k := symbol - base;
      ChainWordParts(Hash(defs[k]), LastInBucket(bs, k));
      var word := chains[k];
      if word / 2 == Hash(name) / 2 && defs[k] == name {
        return Some(symbol);
      }
      if word % 2 == 1 {
        EndOfChain(bs, defs, name, b, k);
        return None;
      }
      symbol := symbol + 1;
    }
  }

  lemma {:induction false} NameInItsBucket(l: Layout, defs: seq<Name>, name: Name)
    requires l.Valid()
    ensures
      var bs, b := BucketsOf(l, defs), l.Bucket(Hash(name));
      && (b !in bs ==> name !in defs)
      && (NotBefore(bs, defs, name, b, |defs|) ==> name !in defs)
  {
    var bs := BucketsOf(l, defs);
    if name in defs {
      var i :| 0 <= i < |defs| && defs[i] == name;
      assert bs[i] == l.Bucket(Hash(name)) && bs[i] in bs;
    }
  }

  lemma {:induction false} NotInFilter(l: Layout, defs: seq<Name>, bloom: seq<Word>, name: Name)
    requires l.Valid() && BloomFor(l, defs, |defs|, bloom) && !BloomHas(l, bloom, Hash(name))
    ensures name !in defs
  {
    if name in defs {
      var i :| 0 <= i < |defs| && defs[i] == name;
      DefinitionsPass(l, defs, bloom, i);
    }
  }

  /** The loader's lookup: bloom filter, bucket, then the chain up to its end mark. */
  method Lookup(l: Layout, defs: seq<Name>, bloom: seq<Word>, buckets: seq<nat>, chains: seq<nat>, name: Name)
    returns (r: Option<nat>)
    requires Written(l, defs, bloom, buckets, chains) && l.symbolBase >= 1
    ensures r.Some? <==> name in defs
    ensures r.Some? ==> l.symbolBase <= r.value < l.symbolBase + |defs| && defs[r.value - l.symbolBase] == name
  {
    var h := Hash(name);
    if !BloomHas(l, bloom, h) {
      NotInFilter(l, defs, bloom, name);
      return None;
    }
    ghost var bs := BucketsOf(l, defs);
    var b := l.Bucket(h);
    NameInItsBucket(l, defs, name);
    BucketWord(l.symbolBase, bs, buckets, b);
    if buckets[b] == 0 {
      return None;
    }
    r := WalkChain(bs, defs, chains, l.symbolBase, name, buckets[b], b);
  }

  // ----- Layout, sort, write and lookup together -----

  /** Names in lexicographic order. */
  predicate NameAtMost(a: Name, b: Name) {
    a == [] || (b != [] && (a[0] < b[0] || (a[0] == b[0] && NameAtMost(a[1..], b[1..]))))
  }

  /** By bucket, and by name within a bucket. */
  predicate SortsBefore(l: Layout, a: Name, b: Name)
    requires l.Valid()
  {
    var x, y := l.Bucket(Hash(a)), l.Bucket(Hash(b));
    x < y || (x == y && NameAtMost(a, b))
  }

  function Insert(l: Layout, defs: seq<Name>, d: Name): seq<Name>
    requires l.Valid()
  {
    if defs == [] || SortsBefore(l, defs[|defs| - 1], d) then defs + [d]
    else Insert(l, defs[..|defs| - 1], d) + [defs[|defs| - 1]]
  }

  function SortByBucket(l: Layout, defs: seq<Name>): seq<Name>
    requires l.Valid()
  {
    if defs == [] then [] else Insert(l, SortByBucket(l, defs[..|defs| - 1]), defs[|defs| - 1])
  }

  lemma {:induction false} InsertMultiset(l: Layout, defs: seq<Name>, d: Name)
    requires l.Valid()
    ensures multiset(Insert(l, defs, d)) == multiset(defs) + multiset{d}
  {
    if defs != [] && !SortsBefore(l, defs[|defs| - 1], d) {
      InsertMultiset(l, defs[..|defs| - 1], d);
      assert defs == defs[..|defs| - 1] + [defs[|defs| - 1]];
    }
  }

  /** Every definition sorts before every later one. */
  ghost predicate SortedByKey(l: Layout, defs: seq<Name>)
    requires l.Valid()
  {
    forall i, j :: 0 <= i < j < |defs| ==> SortsBefore(l, defs[i], defs[j])
  }

  /** That is: one is a prefix of the other, or is smaller at the first byte that differs. */
  lemma {:induction false} NameAtMostIff(a: Name, b: Name)
    ensures NameAtMost(a, b) <==> a <= b || exists k :: SmallerAt(a, b, k)
  {
    if a != [] && b != [] {
      if a[0] == b[0] {
        NameAtMostIff(a[1..], b[1..]);
        assert a == [a[0]] + a[1..] && b == [b[0]] + b[1..];
        if k :| SmallerAt(a[1..], b[1..], k) {
          assert a[..k + 1] == [a[0]] + a[1..][..k] && b[..k + 1] == [b[0]] + b[1..][..k];
          assert SmallerAt(a, b, k + 1);
        }
        if k :| SmallerAt(a, b, k) {
          assert a[1..][..k - 1] == a[..k][1..] && b[1..][..k - 1] == b[..k][1..];
          assert SmallerAt(a[1..], b[1..], k - 1);
        }
      } else if a[0] < b[0] {
        assert SmallerAt(a, b, 0);
      } else {
        forall k | 0 < k < |a| && k < |b|
          ensures a[..k] != b[..k]
        {
          assert a[..k][0] == a[0] && b[..k][0] == b[0];
        }
      }
    }
  }

  /** The names agree up to `k`, where `a` has the smaller byte. */
  ghost predicate SmallerAt(a: Name, b: Name, k: int) {
    0 <= k < |a| && k < |b| && a[..k] == b[..k] && a[k] < b[k]
  }

  lemma {:induction false} NamesTotal(a: Name, b: Name)
    ensures NameAtMost(a, b) || NameAtMost(b, a)
  {
    if a != [] && b != [] && a[0] == b[0] {
      NamesTotal(a[1..], b[1..]);
    }
  }

  lemma {:induction false} NamesTransitive(a: Name, b: Name, c: Name)
    requires NameAtMost(a, b) && NameAtMost(b, c)
    ensures NameAtMost(a, c)
  {
    if a != [] && a[0] == b[0] == c[0] {
      NamesTransitive(a[1..], b[1..], c[1..]);
    }
  }

  lemma {:induction false} NamesAntisymmetric(a: Name, b: Name)
    requires NameAtMost(a, b) && NameAtMost(b, a)
    ensures a == b
  {
    if a != [] {
      NamesAntisymmetric(a[1..], b[1..]);
      assert a == [a[0]] + a[1..] && b == [b[0]] + b[1..];
    }
  }

  lemma {:induction false} InsertSorted(l: Layout, defs: seq<Name>, d: Name)
    requires l.Valid() && SortedByKey(l, defs)
    ensures SortedByKey(l, Insert(l, defs, d))
  {
    if defs != [] {
      var init, last := defs[..|defs| - 1], defs[|defs| - 1];
      if SortsBefore(l, last, d) {
        InsertLast(l, defs, d);
      } else {
        InsertSorted(l, init, d);
        InsertBefore(l, init, last, d, Insert(l, init, d));
      }
    }
  }

  lemma {:induction false} InsertLast(l: Layout, defs: seq<Name>, d: Name)
    requires l.Valid() && SortedByKey(l, defs) && defs != [] && SortsBefore(l, defs[|defs| - 1], d)
    ensures SortedByKey(l, defs + [d])
  {
    var last := defs[|defs| - 1];
    forall i | 0 <= i < |defs|
      ensures SortsBefore(l, defs[i], d)
    {
      if i < |defs| - 1 && NameAtMost(defs[i], last) && NameAtMost(last, d) {
        NamesTransitive(defs[i], last, d);
      }
    }
  }

  lemma {:induction false} InsertBefore(l: Layout, init: seq<Name>, last: Name, d: Name, r: seq<Name>)
    requires l.Valid() && r == Insert(l, init, d) && SortedByKey(l, r) && SortedByKey(l, init + [last])
    requires !SortsBefore(l, last, d)
    ensures SortedByKey(l, r + [last])
  {
    InsertMultiset(l, init, d);
    forall i | 0 <= i < |r|
      ensures SortsBefore(l, r[i], last)
    {
      assert r[i] in multiset(r);
      if r[i] == d {
        NamesTotal(d, last);
      } else {
        var k :| 0 <= k < |init| && init[k] == r[i];
        assert (init + [last])[k] == r[i] && (init + [last])[|init|] == last;
      }
    }
  }

  /** Sorting is a permutation, puts each bucket together, and orders it by name. */
  lemma {:induction false} SortByBucketOk(l: Layout, defs: seq<Name>)
    requires l.Valid()
    ensures multiset(SortByBucket(l, defs)) == multiset(defs)
    ensures SortedByKey(l, SortByBucket(l, defs))
  {
    if defs != [] {
      var init, last := defs[..|defs| - 1], defs[|defs| - 1];
      var r := SortByBucket(l, init);
      SortByBucketOk(l, init);
      InsertSorted(l, r, last);
      InsertMultiset(l, r, last);
      assert defs == init + [last];
    }
  }

  lemma {:induction false} BucketsTogether(l: Layout, defs: seq<Name>)
    requires l.Valid() && SortedByKey(l, defs)
    ensures Sorted(BucketsOf(l, defs))
  {
    var bs := BucketsOf(l, defs);
    forall i, j | 0 <= i < j < |bs|
      ensures bs[i] <= bs[j]
    {
      assert SortsBefore(l, defs[i], defs[j]);
    }
  }

  /** The last of one sorted list is not before that of another with the same elements. */
  lemma {:induction false} LastIsGreatest(l: Layout, a: seq<Name>, b: seq<Name>)
    requires l.Valid() && SortedByKey(l, b) && multiset(a) == multiset(b) && a != [] && b != []
    ensures a[|a| - 1] == b[|b| - 1] || SortsBefore(l, a[|a| - 1], b[|b| - 1])
  {
    assert a[|a| - 1] in multiset(b);
    var k :| 0 <= k < |b| && b[k] == a[|a| - 1];
  }

  lemma {:induction false} SameLast(l: Layout, a: seq<Name>, b: seq<Name>)
    requires l.Valid() && SortedByKey(l, a) && SortedByKey(l, b) && multiset(a) == multiset(b) && a != [] && b != []
    ensures a[|a| - 1] == b[|b| - 1]
  {
    LastIsGreatest(l, a, b);
    LastIsGreatest(l, b, a);
    if a[|a| - 1] != b[|b| - 1] {
      NamesAntisymmetric(a[|a| - 1], b[|b| - 1]);
    }
  }

  lemma {:induction false} WithoutLast(a: seq<Name>, x: Name)
    requires a != [] && a[|a| - 1] == x
    ensures multiset(a[..|a| - 1]) == multiset(a) - multiset{x} && a == a[..|a| - 1] + [x]
  {
    assert a == a[..|a| - 1] + [x];
  }

  lemma {:induction false} SortedUnique(l: Layout, a: seq<Name>, b: seq<Name>)
    requires l.Valid() && SortedByKey(l, a) && SortedByKey(l, b) && multiset(a) == multiset(b)
    ensures a == b
  {
    assert |a| == |multiset(a)| == |multiset(b)| == |b|;
    if a != [] {
      SameLast(l, a, b);
      WithoutLast(a, a[|a| - 1]);
      WithoutLast(b, a[|a| - 1]);
      SortedUnique(l, a[..|a| - 1], b[..|b| - 1]);
    }
  }

  /** So the order of the dynamic symbols does not depend on the order in which they were found. */
  lemma {:induction false} SortIgnoresOrder(l: Layout, a: seq<Name>, b: seq<Name>)
    requires l.Valid() && multiset(a) == multiset(b)
    ensures SortByBucket(l, a) == SortByBucket(l, b)
  {
    SortByBucketOk(l, a);
    SortByBucketOk(l, b);
    SortedUnique(l, SortByBucket(l, a), SortByBucket(l, b));
  }

  method WriteNewTable(l: Layout, defs: seq<Name>) returns (bloom: seq<Word>, buckets: seq<nat>, chains: seq<nat>)
    requires l.Valid() && Sorted(BucketsOf(l, defs))
    ensures Written(l, defs, bloom, buckets, chains)
  {
    var b, k, c := new Word[l.bloomCount], new nat[l.bucketCount], new nat[|defs|];
    WriteTable(l, defs, b, k, c);
    bloom, buckets, chains := b[..], k[..], c[..];
  }

  /** For every list of definitions in any order, the table laid out, sorted and written for it finds what is in it. */
  method LinkGnuHash(defs: seq<Name>, symbolBase: nat, name: Name) returns (dynsym: seq<Name>, r: Option<nat>)
    requires symbolBase >= 1
    ensures multiset(dynsym) == multiset(defs) && SortedByKey(CreateLayout(|defs|, symbolBase), dynsym)
    ensures r.Some? <==> name in defs
    ensures r.Some? ==> symbolBase <= r.value < symbolBase + |dynsym| && dynsym[r.value - symbolBase] == name
  {
    var l := CreateLayout(|defs|, symbolBase);
    dynsym := SortDefinitions(l, defs);
    SameMembers(dynsym, defs, name);
    var bloom, buckets, chains := WriteNewTable(l, dynsym);
    r := Lookup(l, dynsym, bloom, buckets, chains, name);
  }

  method SortDefinitions(l: Layout, defs: seq<Name>) returns (sorted: seq<Name>)
    requires l.Valid()
    ensures multiset(sorted) == multiset(defs) && SortedByKey(l, sorted) && Sorted(BucketsOf(l, sorted))
  {
    SortByBucketOk(l, defs);
    sorted := SortByBucket(l, defs);
    BucketsTogether(l, sorted);
  }

  lemma {:induction false} SameMembers(a: seq<Name>, b: seq<Name>, name: Name)
    requires multiset(a) == multiset(b)
    ensures name in a <==> name in b
  {
    assert name in a <==> name in multiset(a);
    assert name in b <==> name in multiset(b);
  }
}
