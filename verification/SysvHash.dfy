/** `.hash`: building the chained table, walking it, and looking names up in it. */
module SysvHash {
  import opened Wrappers
  import opened Alignments

  type Name = seq<nat>

  /** The bucket of each definition, under the hash that writer and loader share. */
  function BucketsOf(hash: Name -> nat, bucketCount: nat, defs: seq<Name>): (bs: seq<nat>)
    requires bucketCount > 0
    ensures |bs| == |defs| && forall i :: 0 <= i < |bs| ==> bs[i] < bucketCount
    ensures forall i :: 0 <= i < |bs| ==> bs[i] == hash(defs[i]) % bucketCount
  {
    seq(|defs|, i requires 0 <= i < |defs| => hash(defs[i]) % bucketCount)
  }

  /** `w` names the first of the definitions `from..n` in bucket `b`, or is 0 if there is none. */
  ghost predicate Link(base: nat, bs: seq<nat>, b: nat, from: nat, n: nat, w: nat)
    requires n <= |bs|
  {
    if w == 0 then forall j :: from <= j < n ==> bs[j] != b
    else
      && base + from <= w < base + n
      && bs[w - base] == b
      && forall j :: from <= j < w - base ==> bs[j] != b
  }

  ghost predicate BucketsOk(base: nat, bs: seq<nat>, n: nat, buckets: seq<nat>)
    requires n <= |bs|
  {
    forall b :: 0 <= b < |buckets| ==> Link(base, bs, b, 0, n, buckets[b])
  }

  /** The chain word of definition `i` names the next definition of its bucket. */
  ghost predicate LinkAt(base: nat, bs: seq<nat>, n: nat, chains: seq<nat>, i: nat)
    requires i < n <= |bs| && |chains| == base + |bs|
  {
    Link(base, bs, bs[i], i + 1, n, chains[base + i])
  }

  /** Each chain word names the next definition of the same bucket; the words of undefined symbols are 0. */
  ghost predicate ChainsOk(base: nat, bs: seq<nat>, n: nat, chains: seq<nat>)
    requires n <= |bs|
  {
    && |chains| == base + |bs|
    && (forall i {:trigger LinkAt(base, bs, n, chains, i)} :: 0 <= i < n ==> LinkAt(base, bs, n, chains, i))
    && (forall k :: 0 <= k < |chains| && !(base <= k < base + n) ==> chains[k] == 0)
  }

  /** `last[b]` is the last definition of bucket `b` so far. */
  ghost predicate LastOk(base: nat, bs: seq<nat>, n: nat, last: seq<Option<nat>>)
    requires n <= |bs|
  {
    forall b :: 0 <= b < |last| ==>
      match last[b]
      case None => forall j :: 0 <= j < n ==> bs[j] != b
      case Some(k) => base <= k < base + n && bs[k - base] == b && forall j :: k - base < j < n ==> bs[j] != b
  }

  lemma {:induction false} LinkNext(base: nat, bs: seq<nat>, b: nat, from: nat, n: nat, w: nat)
    requires base >= 1 && from <= n < |bs| && Link(base, bs, b, from, n, w)
    ensures Link(base, bs, b, from, n + 1, if w == 0 && bs[n] == b then base + n else w)
  {
  }

  /** The bucket words after entering definition `n`. */
  function EnterBucket(base: nat, bs: seq<nat>, n: nat, buckets: seq<nat>): seq<nat>
    requires n < |bs| && bs[n] < |buckets|
  {
    if buckets[bs[n]] == 0 then buckets[bs[n] := base + n] else buckets
  }

  lemma {:induction false} EnterBucketOk(base: nat, bs: seq<nat>, n: nat, buckets: seq<nat>)
    requires base >= 1 && n < |bs| && bs[n] < |buckets| && BucketsOk(base, bs, n, buckets)
    ensures BucketsOk(base, bs, n + 1, EnterBucket(base, bs, n, buckets))
  {
    forall b | 0 <= b < |buckets|
      ensures Link(base, bs, b, 0, n + 1, EnterBucket(base, bs, n, buckets)[b])
    {
      LinkNext(base, bs, b, 0, n, buckets[b]);
    }
  }

  lemma {:induction false} EnterLastOk(base: nat, bs: seq<nat>, n: nat, last: seq<Option<nat>>)
    requires n < |bs| && bs[n] < |last| && LastOk(base, bs, n, last)
    ensures LastOk(base, bs, n + 1, last[bs[n] := Some(base + n)])
  {
  }

  /** A bucket that is not empty has a last definition. */
  lemma {:induction false} HasLast(base: nat, bs: seq<nat>, n: nat, b: nat, buckets: seq<nat>, last: seq<Option<nat>>)
    requires n <= |bs| && b < |buckets| == |last| && BucketsOk(base, bs, n, buckets) && LastOk(base, bs, n, last)
    requires buckets[b] != 0
    ensures last[b].Some? && base <= last[b].value < base + n
  {
    assert Link(base, bs, b, 0, n, buckets[b]);
  }

  /** Linking definition `n` after the last of its bucket. */
  lemma {:induction false} LinkAfterLast(base: nat, bs: seq<nat>, n: nat, chains: seq<nat>, k: nat)
    requires base >= 1 && n < |bs| && ChainsOk(base, bs, n, chains)
    requires base <= k < base + n && bs[k - base] == bs[n] && forall j :: k - base < j < n ==> bs[j] != bs[n]
    ensures ChainsOk(base, bs, n + 1, chains[k := base + n])
  {
    var chains', m := chains[k := base + n], n + 1;
    forall i | 0 <= i < m
      ensures LinkAt(base, bs, m, chains', i)
    {
      if i < n && i != k - base {
        assert LinkAt(base, bs, n, chains, i);
        assert i < k - base || bs[i] != bs[n];
        assert bs[i] == bs[n] ==> chains[base + i] != 0;
        LinkNext(base, bs, bs[i], i + 1, n, chains[base + i]);
      }
    }
  }

  /** A definition that opens its bucket is linked from no other. */
  lemma {:induction false} NoLinkNeeded(base: nat, bs: seq<nat>, n: nat, chains: seq<nat>)
    requires base >= 1 && n < |bs| && ChainsOk(base, bs, n, chains) && forall j :: 0 <= j < n ==> bs[j] != bs[n]
    ensures ChainsOk(base, bs, n + 1, chains)
  {
    var m := n + 1;
    forall i | 0 <= i < m
      ensures LinkAt(base, bs, m, chains, i)
    {
      if i < n {
        assert LinkAt(base, bs, n, chains, i);
        LinkNext(base, bs, bs[i], i + 1, n, chains[base + i]);
      }
    }
  }

  method EnterDefinition(base: nat, ghost bs: seq<nat>, n: nat, bucket: nat, buckets: array<nat>, chains: array<nat>,
      last: seq<Option<nat>>)
    returns (ok: bool)
    requires base >= 1 && n < |bs| && bucket == bs[n] < buckets.Length == |last| && buckets != chains
    requires BucketsOk(base, bs, n, buckets[..]) && ChainsOk(base, bs, n, chains[..]) && LastOk(base, bs, n, last)
    modifies buckets, chains
    ensures ok
    ensures BucketsOk(base, bs, n + 1, buckets[..]) && ChainsOk(base, bs, n + 1, chains[..])
  {
    EnterBucketOk(base, bs, n, buckets[..]);
    var symbol := base + n;
    if buckets[bucket] == 0 {
      assert Link(base, bs, bucket, 0, n, buckets[..][bucket]);
      NoLinkNeeded(base, bs, n, chains[..]);
      buckets[bucket] := symbol;
    } else {
      HasLast(base, bs, n, bucket, buckets[..], last);
      if last[bucket].None? {
        return false;
      }
      LinkAfterLast(base, bs, n, chains[..], last[bucket].value);
      chains[last[bucket].value] := symbol;
    }
    return true;
  }

  method Clear(a: array<nat>)
    modifies a
    ensures forall k :: 0 <= k < a.Length ==> a[k] == 0
  {
    for i := 0 to a.Length
      invariant forall k :: 0 <= k < i ==> a[k] == 0
    {
      a[i] := 0;
    }
  }

  /** Builds the table in definition order; a bucket chain without a last element would be an error. */
  method WriteTable(
      hash: Name -> nat, bucketCount: nat, base: nat, defs: seq<Name>, buckets: array<nat>, chains: array<nat>)
    returns (ok: bool)
    requires bucketCount > 0 && base >= 1
    requires buckets.Length == bucketCount && chains.Length == base + |defs| && buckets != chains
    modifies buckets, chains
    ensures ok
    ensures BucketsOk(base, BucketsOf(hash, bucketCount, defs), |defs|, buckets[..])
    ensures ChainsOk(base, BucketsOf(hash, bucketCount, defs), |defs|, chains[..])
  {
    ghost var bs := BucketsOf(hash, bucketCount, defs);
    Clear(buckets);
    Clear(chains);
    var last: seq<Option<nat>> := seq(bucketCount, _ => None);
    for i := 0 to |defs|
      invariant |last| == bucketCount
      invariant BucketsOk(base, bs, i, buckets[..])
      invariant ChainsOk(base, bs, i, chains[..])
      invariant LastOk(base, bs, i, last)
    {
      var bucket := hash(defs[i]) % bucketCount;
      assert bucket == bs[i];
      EnterLastOk(base, bs, i, last);
      ok := EnterDefinition(base, bs, i, bucket, buckets, chains, last);
      if !ok {
        return;
      }
      last := last[bucket := Some(base + i)];
    }
    return true;
  }

  // ----- Walking the table -----

  /** Chain words lead strictly upward, so a walk ends, and inside the array. */
  ghost predicate Ascending(chains: seq<nat>) {
    forall k :: 0 <= k < |chains| && chains[k] != 0 ==> k < chains[k] < |chains|
  }

  lemma {:induction false} ChainsAscend(base: nat, bs: seq<nat>, chains: seq<nat>)
    requires ChainsOk(base, bs, |bs|, chains)
    ensures Ascending(chains)
  {
    forall k | 0 <= k < |chains| && chains[k] != 0
      ensures k < chains[k] < |chains|
    {
      assert LinkAt(base, bs, |bs|, chains, k - base);
    }
  }

  /** The symbols on the chain that starts at `w`. */
  ghost function Walk(chains: seq<nat>, w: nat): seq<nat>
    requires Ascending(chains) && w < |chains|
    decreases if w == 0 then 0 else |chains| - w
  {
    if w == 0 then [] else [w] + Walk(chains, chains[w])
  }

  /** The definitions of bucket `b` from `from` on, in definition order. */
  function InBucket(base: nat, bs: seq<nat>, b: nat, from: nat): seq<nat>
    requires from <= |bs|
    decreases |bs| - from
  {
    if from == |bs| then []
    else (if bs[from] == b then [base + from] else []) + InBucket(base, bs, b, from + 1)
  }

  lemma {:induction false} SkipOthers(base: nat, bs: seq<nat>, b: nat, from: nat, end: nat)
    requires from <= end <= |bs| && forall j :: from <= j < end ==> bs[j] != b
    ensures InBucket(base, bs, b, from) == InBucket(base, bs, b, end)
    decreases end - from
  {
    if from < end {
      SkipOthers(base, bs, b, from + 1, end);
    }
  }

  /** Walking a bucket visits exactly the definitions that hash there, in definition order. */
  lemma {:induction false} WalkVisitsBucket(base: nat, bs: seq<nat>, chains: seq<nat>, b: nat, from: nat, w: nat)
    requires base >= 1 && from <= |bs| && w < |chains|
    requires ChainsOk(base, bs, |bs|, chains) && Ascending(chains) && Link(base, bs, b, from, |bs|, w)
    ensures Walk(chains, w) == InBucket(base, bs, b, from)
    decreases |bs| - from
  {
    if w == 0 {
      SkipOthers(base, bs, b, from, |bs|);
    } else {
      var i := w - base;
      SkipOthers(base, bs, b, from, i);
      var next := chains[w];
      assert LinkAt(base, bs, |bs|, chains, i);
      WalkVisitsBucket(base, bs, chains, b, i + 1, next);
      assert Walk(chains, w) == [w] + Walk(chains, next);
      assert InBucket(base, bs, b, i) == [w] + InBucket(base, bs, b, i + 1);
    }
  }

  /** The loader's lookup. */
  method Lookup(
      hash: Name -> nat, bucketCount: nat, base: nat, defs: seq<Name>, buckets: seq<nat>, chains: seq<nat>,
      name: Name)
    returns (r: Option<nat>)
    requires bucketCount > 0 && base >= 1 && |buckets| == bucketCount
    requires BucketsOk(base, BucketsOf(hash, bucketCount, defs), |defs|, buckets)
    requires ChainsOk(base, BucketsOf(hash, bucketCount, defs), |defs|, chains)
    ensures r.Some? <==> name in defs
    ensures r.Some? ==>
      && base <= r.value < base + |defs| && defs[r.value - base] == name
      && name !in defs[..r.value - base]
  {
    ghost var bs := BucketsOf(hash, bucketCount, defs);
    var b := hash(name) % bucketCount;
    assert forall i :: 0 <= i < |defs| && defs[i] == name ==> bs[i] == b;
    var w: nat := buckets[b];
    ghost var from: nat := 0;
    while w != 0
      invariant from <= |defs| && Link(base, bs, b, from, |defs|, w)
      invariant name !in defs[..from]
      decreases |defs| - from
    {
      assert name !in defs[..w - base];
      if defs[w - base] == name {
        return Some(w);
      }
      assert LinkAt(base, bs, |defs|, chains, w - base);
      from := w - base + 1;
      assert defs[..from] == defs[..w - base] + [defs[w - base]];
      w := chains[w];
    }
    return None;
  }

  // ----- Sizing, writing and lookup together -----

  /** Both numbers are 32-bit words of the table's header. */
  datatype Layout = Layout(bucketCount: nat, chainCount: nat) {
    function ByteSize(): nat {
      4 * (2 + bucketCount + chainCount)
    }
  }

  const WORD_LIMIT: nat := 0x1_0000_0000

  /** Sizing, with a chain for every dynamic symbol known by then; none without definitions. */
  method AllocateSysvHash(numDefs: nat, numDynsym: nat) returns (ok: bool, layout: Option<Layout>)
    ensures ok <==> numDefs == 0 || numDynsym < WORD_LIMIT
    ensures ok ==> (layout.Some? <==> numDefs > 0)
    ensures layout.Some? ==> layout.value.bucketCount > 0 && layout.value.chainCount == numDynsym
    ensures layout.Some? ==> IsPow2(layout.value.bucketCount) && numDefs / 2 <= layout.value.bucketCount
    ensures layout.Some? ==> forall q :: IsPow2(q) && numDefs / 2 <= q ==> layout.value.bucketCount <= q
  {
    if numDefs == 0 {
      return true, None;
    }
    if numDynsym >= WORD_LIMIT {
      return false, None;
    }
    var half := if numDefs / 2 > 1 then numDefs / 2 else 1;
    NextPow2IsLeast(half);
    return true, Some(Layout(NextPow2(half), numDynsym));
  }

  /**
    * Sizes the table, counts its chains again once symbols have indexes, writes it and looks a name up.
    * `space` are the allocated bytes and `table` the words written to them. Linking fails exactly if an
    * index does not fit or more symbols turn up than were sized for; the table is filled exactly if both
    * counts agree; and the lookup agrees with linear search.
    */
  method LinkSysvHash(hash: Name -> nat, numDynsym: nat, base: nat, defs: seq<Name>, name: Name)
    returns (ok: bool, space: nat, table: seq<nat>, r: Option<nat>)
    requires base >= 1
    ensures ok <==> defs == [] || (numDynsym < WORD_LIMIT && base + |defs| <= numDynsym)
    ensures ok && defs == [] ==> space == 0 && table == []
    ensures ok && defs != [] ==> |table| > 2 && table[1] == base + |defs| && |table| == 2 + table[0] + table[1]
    ensures ok && defs != [] ==> 4 * |table| + 4 * (numDynsym - (base + |defs|)) == space
    ensures ok ==> (r.Some? <==> name in defs)
    ensures r.Some? ==> base <= r.value < base + |defs| && defs[r.value - base] == name
  {
    var layout;
    space, table, r := 0, [], None;
    ok, layout := AllocateSysvHash(|defs|, numDynsym);
    if !ok || layout.None? {
      return;
    }
    space := layout.value.ByteSize();
    var chainCount := base + |defs|;
    if chainCount >= WORD_LIMIT {
      return false, 0, [], None;
    }
    var final := layout.value.(chainCount := chainCount);
    if space < final.ByteSize() {
      return false, 0, [], None;
    }
    table, r := WriteAndLookup(hash, final, base, defs, name);
  }

  /** The words of the table: two counts, the buckets, then a chain word for each dynamic symbol. */
  method WriteAndLookup(hash: Name -> nat, layout: Layout, base: nat, defs: seq<Name>, name: Name)
    returns (table: seq<nat>, r: Option<nat>)
    requires layout.bucketCount > 0 && base >= 1 && layout.chainCount == base + |defs|
    ensures |table| == 2 + layout.bucketCount + layout.chainCount
    ensures table[0] == layout.bucketCount && table[1] == layout.chainCount
    ensures
      var bs, start := BucketsOf(hash, layout.bucketCount, defs), 2 + layout.bucketCount;
      BucketsOk(base, bs, |defs|, table[2..start]) && ChainsOk(base, bs, |defs|, table[start..])
    ensures r.Some? <==> name in defs
    ensures r.Some? ==> base <= r.value < base + |defs| && defs[r.value - base] == name
  {
    var buckets, chains := new nat[layout.bucketCount], new nat[layout.chainCount];
    var written := WriteTable(hash, layout.bucketCount, base, defs, buckets, chains);
    table := [layout.bucketCount, layout.chainCount] + buckets[..] + chains[..];
    var start := 2 + layout.bucketCount;
    assert table[2..start] == buckets[..] && table[start..] == chains[..];
    r := Lookup(hash, layout.bucketCount, base, defs, table[2..start], table[start..], name);
  }
}
