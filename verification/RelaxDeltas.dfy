/** Deletions within a section: how offsets move, and the loop that closes the gaps. */
module RelaxDeltas {
  import opened Machine

  /** `deleted` input bytes from `offset` on are left out. */
  datatype Delta = Delta(offset: nat, deleted: nat) {
    function End(): nat {
      offset + deleted
    }
  }

  /** Strictly ascending, not empty and not overlapping. */
  ghost predicate Ordered(ds: seq<Delta>) {
    && (forall i :: 0 <= i < |ds| ==> ds[i].deleted > 0)
    && forall i, j :: 0 <= i < j < |ds| ==> ds[i].End() <= ds[j].offset
  }

  ghost predicate Within(ds: seq<Delta>, len: nat) {
    forall i :: 0 <= i < |ds| ==> ds[i].End() <= len
  }

  function Total(ds: seq<Delta>): nat {
    if ds == [] then 0 else Total(ds[..|ds| - 1]) + ds[|ds| - 1].deleted
  }

  /** Bytes deleted by the deltas that start strictly before `x`. */
  function Before(ds: seq<Delta>, x: nat): nat {
    if ds == [] then 0
    else Before(ds[..|ds| - 1], x) + if ds[|ds| - 1].offset < x then ds[|ds| - 1].deleted else 0
  }

  ghost predicate Deletes(ds: seq<Delta>, x: nat) {
    exists i :: 0 <= i < |ds| && ds[i].offset <= x < ds[i].End()
  }

  // ----- Lookups, with the running totals that `SectionRelaxDeltas` keeps -----

  datatype RelaxDelta = RelaxDelta(inputOffset: nat, cumulativeDeleted: nat, bytesDeleted: nat)

  /** `rs` are the deltas `ds`, each with the total up to and including it. */
  ghost predicate Accumulated(rs: seq<RelaxDelta>, ds: seq<Delta>) {
    && |rs| == |ds|
    && forall i {:trigger AccumulatedAt(rs, ds, i)} :: 0 <= i < |rs| ==> AccumulatedAt(rs, ds, i)
  }

  ghost predicate AccumulatedAt(rs: seq<RelaxDelta>, ds: seq<Delta>, i: int)
    requires 0 <= i < |rs| && i < |ds|
  {
    rs[i] == RelaxDelta(ds[i].offset, Total(ds[..i + 1]), ds[i].deleted)
  }

  method Accumulate(raw: seq<Delta>) returns (rs: seq<RelaxDelta>)
    ensures Accumulated(rs, raw)
  {
    rs := [];
    var running := 0;
    for i := 0 to |raw|
      invariant |rs| == i && running == Total(raw[..i])
      invariant forall k {:trigger AccumulatedAt(rs, raw, k)} :: 0 <= k < i ==> AccumulatedAt(rs, raw, k)
    {
      assert raw[..i + 1][..i] == raw[..i];
      running := running + raw[i].deleted;
      ghost var was := rs;
      rs := rs + [RelaxDelta(raw[i].offset, running, raw[i].deleted)];
      forall k | 0 <= k <= i
        ensures AccumulatedAt(rs, raw, k)
      {
        assert k < i ==> AccumulatedAt(was, raw, k);
      }
    }
  }

  /** The first index at which `offset < x` fails: the partition point, as the deltas ascend. */
  function StartingBefore(rs: seq<RelaxDelta>, x: nat): (n: nat)
    ensures n <= |rs|
  {
    if rs == [] || rs[0].inputOffset >= x then 0 else 1 + StartingBefore(rs[1..], x)
  }

  function InputToOutputOffset(rs: seq<RelaxDelta>, x: nat): int {
    var k := StartingBefore(rs, x);
    if k == 0 then x else x - rs[k - 1].cumulativeDeleted
  }

  /** The first delta whose end, moved to the output, lies after `y`. */
  function EndingBy(rs: seq<RelaxDelta>, y: int): (n: nat)
    ensures n <= |rs|
  {
    if rs == [] || rs[0].inputOffset + rs[0].bytesDeleted - rs[0].cumulativeDeleted > y then 0
    else 1 + EndingBy(rs[1..], y)
  }

  function OutputToInputOffset(rs: seq<RelaxDelta>, y: int): int {
    var k := EndingBy(rs, y);
    if k == 0 then y else y + rs[k - 1].cumulativeDeleted
  }

  lemma {:induction false} StartingBeforeIs(rs: seq<RelaxDelta>, x: nat, k: nat)
    requires k <= |rs| && (forall i :: 0 <= i < k ==> rs[i].inputOffset < x)
    requires k < |rs| ==> rs[k].inputOffset >= x
    ensures StartingBefore(rs, x) == k
  {
    if k > 0 {
      StartingBeforeIs(rs[1..], x, k - 1);
    }
  }

  lemma {:induction false} EndingByIs(rs: seq<RelaxDelta>, y: int, k: nat)
    requires k <= |rs|
    requires forall i :: 0 <= i < k ==> rs[i].inputOffset + rs[i].bytesDeleted - rs[i].cumulativeDeleted <= y
    requires k < |rs| ==> rs[k].inputOffset + rs[k].bytesDeleted - rs[k].cumulativeDeleted > y
    ensures EndingBy(rs, y) == k
  {
    if k > 0 {
      EndingByIs(rs[1..], y, k - 1);
    }
  }

  /** How many deltas start before `x`, counted on the deltas themselves. */
  ghost function Rank(ds: seq<Delta>, x: nat): (k: nat)
    requires Ordered(ds)
    ensures k <= |ds|
    ensures forall i :: 0 <= i < k ==> ds[i].offset < x
    ensures forall i :: k <= i < |ds| ==> ds[i].offset >= x
  {
    if ds == [] then 0
    else if ds[|ds| - 1].offset < x then
      assert forall i :: 0 <= i < |ds| - 1 ==> ds[i].End() <= ds[|ds| - 1].offset;
      |ds|
    else Rank(ds[..|ds| - 1], x)
  }

  lemma {:induction false} BeforeIsTotal(ds: seq<Delta>, x: nat, k: nat)
    requires k <= |ds| && (forall i :: 0 <= i < k ==> ds[i].offset < x)
    requires forall i :: k <= i < |ds| ==> ds[i].offset >= x
    ensures Before(ds, x) == Total(ds[..k])
  {
    if ds != [] {
      var init := ds[..|ds| - 1];
      if k == |ds| {
        BeforeIsTotal(init, x, k - 1);
        assert ds[..k] == ds && init[..k - 1] == init;
      } else {
        BeforeIsTotal(init, x, k);
        assert init[..k] == ds[..k];
      }
    }
  }

  /** The lookup subtracts the bytes deleted strictly before the offset. */
  lemma {:induction false} InputToOutputIs(rs: seq<RelaxDelta>, ds: seq<Delta>, x: nat)
    requires Ordered(ds) && Accumulated(rs, ds)
    ensures InputToOutputOffset(rs, x) == x - Before(ds, x)
  {
    var k := Rank(ds, x);
    forall i | 0 <= i < |rs|
      ensures rs[i].inputOffset == ds[i].offset
    {
      assert AccumulatedAt(rs, ds, i);
    }
    StartingBeforeIs(rs, x, k);
    BeforeIsTotal(ds, x, k);
    assert k == 0 ==> ds[..k] == [];
    assert k > 0 ==> AccumulatedAt(rs, ds, k - 1);
  }

  /** Deltas that end by `x` delete at most `x` bytes. */
  lemma {:induction false} TotalFits(ds: seq<Delta>, k: nat, x: nat)
    requires Ordered(ds) && k <= |ds| && (k > 0 ==> ds[k - 1].End() <= x)
    ensures Total(ds[..k]) <= x
  {
    if k > 0 {
      assert ds[..k][..k - 1] == ds[..k - 1];
      TotalFits(ds, k - 1, ds[k - 1].offset);
    }
  }

  /** The moved ends ascend: the gap before a delta only adds to them. */
  lemma {:induction false} MovedEndsAscend(ds: seq<Delta>, i: nat, j: nat)
    requires Ordered(ds) && i <= j < |ds|
    ensures ds[i].End() - Total(ds[..i + 1]) <= ds[j].End() - Total(ds[..j + 1])
  {
    if i < j {
      MovedEndsAscend(ds, i, j - 1);
      assert ds[..j + 1][..j] == ds[..j];
    }
  }

  /** A byte that survives goes to the output and back to its own place. */
  lemma {:induction false} OffsetRoundTrip(rs: seq<RelaxDelta>, ds: seq<Delta>, x: nat)
    requires Ordered(ds) && Accumulated(rs, ds) && !Deletes(ds, x)
    ensures InputToOutputOffset(rs, x) >= 0
    ensures OutputToInputOffset(rs, InputToOutputOffset(rs, x)) == x
  {
    var k := Rank(ds, x);
    var y := x - Before(ds, x);
    InputToOutputIs(rs, ds, x);
    BeforeIsTotal(ds, x, k);
    if k > 0 {
      assert ds[k - 1].End() <= x;
    }
    TotalFits(ds, k, x);
    forall i | 0 <= i < k
      ensures rs[i].inputOffset + rs[i].bytesDeleted - rs[i].cumulativeDeleted <= y
    {
      assert AccumulatedAt(rs, ds, i);
      MovedEndsAscend(ds, i, k - 1);
    }
    if k < |rs| {
      assert ds[k].offset > x && AccumulatedAt(rs, ds, k);
      assert ds[..k + 1][..k] == ds[..k];
      assert rs[k].inputOffset + rs[k].bytesDeleted - rs[k].cumulativeDeleted > y;
    }
    EndingByIs(rs, y, k);
    assert k > 0 ==> AccumulatedAt(rs, ds, k - 1);
  }

  // ----- Compaction -----

  /** The first `n` input bytes without the deleted ones. */
  ghost function Surviving(input: seq<byte>, ds: seq<Delta>, n: nat): (r: seq<byte>)
    requires n <= |input|
    ensures |r| <= n
  {
    if n == 0 then [] else Surviving(input, ds, n - 1) + if Deletes(ds, n - 1) then [] else [input[n - 1]]
  }

  lemma {:induction false} SurvivingRun(input: seq<byte>, ds: seq<Delta>, a: nat, b: nat)
    requires a <= b <= |input| && forall x :: a <= x < b ==> !Deletes(ds, x)
    ensures Surviving(input, ds, b) == Surviving(input, ds, a) + input[a..b]
  {
    if a < b {
      SurvivingRun(input, ds, a, b - 1);
      assert input[a..b] == input[a..b - 1] + [input[b - 1]];
    }
  }

  lemma {:induction false} DeletedRun(input: seq<byte>, ds: seq<Delta>, a: nat, b: nat)
    requires a <= b <= |input| && forall x :: a <= x < b ==> Deletes(ds, x)
    ensures Surviving(input, ds, b) == Surviving(input, ds, a)
  {
    if a < b {
      DeletedRun(input, ds, a, b - 1);
    }
  }

  /** Between two deltas nothing is deleted. */
  lemma {:induction false} Gap(ds: seq<Delta>, i: nat, x: nat)
    requires Ordered(ds) && i <= |ds| && (i > 0 ==> ds[i - 1].End() <= x) && (i < |ds| ==> x < ds[i].offset)
    ensures !Deletes(ds, x)
  {
    forall j | 0 <= j < |ds|
      ensures !(ds[j].offset <= x < ds[j].End())
    {
      if j < i - 1 {
        assert ds[j].End() <= ds[i - 1].offset;
      } else if j > i {
        assert ds[i].End() <= ds[j].offset;
      }
    }
  }

  function EndBefore(ds: seq<Delta>, i: nat): nat
    requires i <= |ds|
  {
    if i == 0 then 0 else ds[i - 1].End()
  }

  /** After the first `i` deltas, the input up to the end of the last of them has shrunk by their total. */
  lemma {:induction false} SurvivingSize(input: seq<byte>, ds: seq<Delta>, i: nat)
    requires Ordered(ds) && Within(ds, |input|) && i <= |ds|
    ensures |Surviving(input, ds, EndBefore(ds, i))| == EndBefore(ds, i) - Total(ds[..i])
  {
    if i > 0 {
      SurvivingSize(input, ds, i - 1);
      assert ds[..i][..i - 1] == ds[..i - 1];
      var a, d := EndBefore(ds, i - 1), ds[i - 1];
      SurvivingUpTo(input, ds, i - 1);
      DeletedRun(input, ds, d.offset, d.End());
    }
  }

  lemma {:induction false} SurvivingUpTo(input: seq<byte>, ds: seq<Delta>, i: nat)
    requires Ordered(ds) && Within(ds, |input|) && i <= |ds|
    ensures
      var a, b := EndBefore(ds, i), if i < |ds| then ds[i].offset else |input|;
      a <= b <= |input| && Surviving(input, ds, b) == Surviving(input, ds, a) + input[a..b]
  {
    var a, b := EndBefore(ds, i), if i < |ds| then ds[i].offset else |input|;
    forall x | a <= x < b
      ensures !Deletes(ds, x)
    {
      Gap(ds, i, x);
    }
    SurvivingRun(input, ds, a, b);
  }

  /** The place of a surviving byte is its input offset minus the bytes deleted strictly before it. */
  lemma {:induction false} SurvivorPlace(input: seq<byte>, ds: seq<Delta>, x: nat)
    requires Ordered(ds) && Within(ds, |input|) && x < |input| && !Deletes(ds, x)
    ensures Before(ds, x) <= x && x - Before(ds, x) < |Surviving(input, ds, |input|)|
    ensures Surviving(input, ds, |input|)[x - Before(ds, x)] == input[x]
  {
    var k := Rank(ds, x);
    BeforeIsTotal(ds, x, k);
    assert k > 0 ==> ds[k - 1].End() <= x;
    TotalFits(ds, k, x);
    SurvivingAt(input, ds, k, x);
    SurvivingPrefix(input, ds, x + 1, |input|);
  }

  lemma {:induction false} SurvivingAt(input: seq<byte>, ds: seq<Delta>, k: nat, x: nat)
    requires Ordered(ds) && Within(ds, |input|) && x < |input| && k <= |ds|
    requires EndBefore(ds, k) <= x && (k < |ds| ==> x < ds[k].offset)
    ensures Surviving(input, ds, x + 1) == Surviving(input, ds, x) + [input[x]]
    ensures |Surviving(input, ds, x)| == x - Total(ds[..k])
  {
    var a := EndBefore(ds, k);
    SurvivingSize(input, ds, k);
    forall y | a <= y <= x
      ensures !Deletes(ds, y)
    {
      Gap(ds, k, y);
    }
    SurvivingRun(input, ds, a, x);
  }

  lemma {:induction false} SurvivingPrefix(input: seq<byte>, ds: seq<Delta>, a: nat, b: nat)
    requires a <= b <= |input|
    ensures Surviving(input, ds, a) <= Surviving(input, ds, b)
  {
    if a < b {
      SurvivingPrefix(input, ds, a, b - 1);
    }
  }

  /** The moved end of every prefix stays inside an output of the reduced size. */
  lemma {:induction false} FitsOutput(ds: seq<Delta>, i: nat, len: nat)
    requires Ordered(ds) && Within(ds, len) && i <= |ds|
    ensures EndBefore(ds, i) - Total(ds[..i]) <= len - Total(ds)
    decreases |ds| - i
  {
    if i == |ds| {
      assert ds[..i] == ds;
    } else {
      FitsOutput(ds, i + 1, len);
      assert ds[..i + 1][..i] == ds[..i];
    }
  }

  method CopyRun(input: seq<byte>, from: nat, end: nat, out: array<byte>, pos: nat)
    requires from <= end <= |input| && pos + (end - from) <= out.Length
    modifies out
    ensures out[..pos + (end - from)] == old(out[..pos]) + input[from..end]
  {
    for k := 0 to end - from
      invariant out[..pos + k] == old(out[..pos]) + input[from..from + k]
    {
      ghost var was := out[..pos + k];
      out[pos + k] := input[from + k];
      assert out[..pos + k + 1] == was + [input[from + k]];
      assert input[from..from + k + 1] == input[from..from + k] + [input[from + k]];
    }
  }

  method FillZero(out: array<byte>, pos: nat)
    requires pos <= out.Length
    modifies out
    ensures out[..pos] == old(out[..pos])
    ensures forall k :: pos <= k < out.Length ==> out[k] == 0
  {
    for k := pos to out.Length
      invariant out[..pos] == old(out[..pos])
      invariant forall j :: pos <= j < k ==> out[j] == 0
    {
      out[k] := 0;
    }
  }

  /** Everything up to the end of the first `i` deltas has been copied. */
  ghost predicate CopiedTo(input: seq<byte>, ds: seq<Delta>, i: nat, copied: seq<byte>)
    requires Within(ds, |input|) && i <= |ds|
  {
    EndBefore(ds, i) <= |input| && copied == Surviving(input, ds, EndBefore(ds, i))
  }

  lemma {:induction false} CopiedRun(input: seq<byte>, ds: seq<Delta>, i: nat, copied: seq<byte>)
    requires Ordered(ds) && Within(ds, |input|) && i < |ds| && CopiedTo(input, ds, i, copied)
    ensures EndBefore(ds, i) <= ds[i].offset <= |input|
    ensures CopiedTo(input, ds, i + 1, copied + input[EndBefore(ds, i)..ds[i].offset])
    ensures |copied| + (ds[i].offset - EndBefore(ds, i)) <= |input| - Total(ds)
  {
    SurvivingUpTo(input, ds, i);
    DeletedRun(input, ds, ds[i].offset, ds[i].End());
    SurvivingSize(input, ds, i + 1);
    FitsOutput(ds, i + 1, |input|);
  }

  lemma {:induction false} CopiedLast(input: seq<byte>, ds: seq<Delta>, copied: seq<byte>)
    requires Ordered(ds) && Within(ds, |input|) && CopiedTo(input, ds, |ds|, copied)
    ensures EndBefore(ds, |ds|) <= |input|
    ensures copied + input[EndBefore(ds, |ds|)..] == Surviving(input, ds, |input|)
    ensures |copied| + (|input| - EndBefore(ds, |ds|)) == |input| - Total(ds)
  {
    SurvivingUpTo(input, ds, |ds|);
    SurvivingSize(input, ds, |ds|);
    assert ds[..|ds|] == ds;
  }

  /**
    * Copies the runs between deletions and zeroes the rest of the output, which needs room for the
    * reduced size only.
    */
  method CompactSection(input: seq<byte>, ds: seq<Delta>, out: array<byte>)
    requires Ordered(ds) && Within(ds, |input|) && out.Length >= |input| - Total(ds)
    modifies out
    ensures |input| - Total(ds) >= 0
    ensures out[..|input| - Total(ds)] == Surviving(input, ds, |input|)
    ensures forall k :: |input| - Total(ds) <= k < out.Length ==> out[k] == 0
  {
    var inputPos: nat, outputPos: nat := 0, 0;
    for i := 0 to |ds|
      invariant inputPos == EndBefore(ds, i) && outputPos <= out.Length
      invariant CopiedTo(input, ds, i, out[..outputPos])
    {
      ghost var copied := out[..outputPos];
      CopiedRun(input, ds, i, copied);
      var skipStart := ds[i].offset;
      CopyRun(input, inputPos, skipStart, out, outputPos);
      outputPos := outputPos + (skipStart - inputPos);
      inputPos := skipStart + ds[i].deleted;
    }
    ghost var copied := out[..outputPos];
    CopiedLast(input, ds, copied);
    CopyRun(input, inputPos, |input|, out, outputPos);
    assert input[inputPos..|input|] == input[inputPos..];
    outputPos := outputPos + (|input| - inputPos);
    FillZero(out, outputPos);
  }
}
