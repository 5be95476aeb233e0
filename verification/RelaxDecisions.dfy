/**
 What a relaxation scan may delete: the exact condition on every candidate, in numbers, and that
 nothing is ever deleted without it, whatever the passes see.
 */
module RelaxDecisions {
  import opened Machine
  import opened Wrappers
  import opened RelaxDeltas
  import opened Relaxation

  /** No pass so far has deleted anything at `x`. */
  ghost predicate Untouched(existing: seq<Delta>, x: nat) {
    forall k :: 0 <= k < |existing| ==> existing[k].offset != x
  }

  /** The symbol is known and cannot be replaced at run time. */
  predicate Known(pass: Pass, symbol: Option<nat>) {
    symbol.Some? && symbol.value in pass.symbols && !pass.symbols[symbol.value].interposable
  }

  /** The marker at `i` stands directly behind a relocation of the same place. */
  predicate MarksPrevious(sec: Section, i: nat) {
    0 < i < |sec.rels| && sec.rels[i].kind.Relax? && sec.rels[i - 1].offset == sec.rels[i].offset
  }

  /** The call is known and within a mebibyte, and was not shortened before. */
  ghost predicate CallInReach(pass: Pass, existing: seq<Delta>, call: Rel) {
    && Untouched(existing, call.offset + 4) && Known(pass, call.symbol)
    && var distance := pass.symbols[call.symbol.value].address - (pass.address + call.offset);
       -0x10_0000 <= distance < 0x10_0000
  }

  /** The second instruction of a marked call goes exactly if the call is in reach, and nothing else does. */
  lemma {:induction false} CallGoesIff(sec: Section, pass: Pass, existing: seq<Delta>, i: nat)
    requires MarksPrevious(sec, i) && sec.rels[i - 1].kind.Call?
    ensures
      var call := sec.rels[i - 1];
      Decide(sec, pass, existing, i) ==
        if CallInReach(pass, existing, call) then Some(Delta(call.offset + 4, 4)) else None
  {
  }

  /** The destination register is bits 7 to 11: the top bit of the first byte and four of the second. */
  function RegisterOf(bytes: seq<byte>, at: nat): nat
    requires at + 2 <= |bytes|
  {
    bytes[at] as int / 128 + 2 * (bytes[at + 1] as int % 16)
  }

  lemma {:induction false} RegisterBits(bytes: seq<byte>, at: nat)
    requires at + 4 <= |bytes|
    ensures Destination(bytes, at) == RegisterOf(bytes, at)
  {
    var a, b, c, d := bytes[at] as int, bytes[at + 1] as int, bytes[at + 2] as int, bytes[at + 3] as int;
    var word := U32(bytes, at);
    assert word / 128 == a / 128 + 2 * b + 512 * c + 0x2_0000 * d;
  }

  /** What a load needs to be a candidate: a known symbol, its four bytes, and no deletion before. */
  ghost predicate LuiCandidate(bytes: seq<byte>, pass: Pass, existing: seq<Delta>, lui: Rel) {
    && Untouched(existing, lui.offset) && Untouched(existing, lui.offset + 2) && Known(pass, lui.symbol)
    && lui.offset + 4 <= |bytes|
  }

  /** The 64-bit value that is loaded. */
  function LoadedValue(pass: Pass, lui: Rel): nat
    requires Known(pass, lui.symbol)
  {
    (pass.symbols[lui.symbol.value].address + lui.addend) % 0x1_0000_0000_0000_0000
  }

  /** The upper part is zero: the value is within 2 KiB below or above a multiple of 4 GiB. */
  predicate UpperIsZero(value: nat) {
    (value + 0x800) % 0x1_0000_0000 < 0x1000
  }

  /** Bits 12 to 31 of a word are those of its lower half. */
  lemma {:induction false} UpperBits(w: nat)
    ensures w / 0x1000 % 0x10_0000 == w % 0x1_0000_0000 / 0x1000
  {
    var q, r := w / 0x1_0000_0000, w % 0x1_0000_0000;
    var h := r / 0x1000;
    assert w == 0x1000 * (0x10_0000 * q + h) + r % 0x1000;
    assert w / 0x1000 == 0x10_0000 * q + h;
  }

  lemma {:induction false} UpperZeroIs(value: nat)
    requires value < 0x1_0000_0000_0000_0000
    ensures Hi20IsZero(value) <==> UpperIsZero(value)
  {
    var v := value + 0x800;
    UpperBits(Wrap64(v));
    if v >= 0x1_0000_0000_0000_0000 {
      assert Wrap64(v) == v - 0x1_0000_0000_0000_0000;
    }
  }

  lemma {:induction false} ShortFormIs(value: nat)
    requires value < 0x1_0000_0000_0000_0000
    ensures Hi20FitsCLui(value) <==> 0x800 <= value < 0x1_f800
  {
    CLuiRange(value);
  }

  /**
   A marked load goes exactly if the upper part of its value is zero, and is shortened by two bytes
   exactly if it is not, the register has a short form, and the value lies in the short form's range.
   */
  lemma {:induction false} LuiGoesIff(sec: Section, pass: Pass, existing: seq<Delta>, i: nat)
    requires MarksPrevious(sec, i) && sec.rels[i - 1].kind.Hi20?
    ensures
      var lui := sec.rels[i - 1];
      Decide(sec, pass, existing, i) ==
        if !LuiCandidate(sec.bytes, pass, existing, lui) then None
        else
          var value, rd := LoadedValue(pass, lui), RegisterOf(sec.bytes, lui.offset);
          if UpperIsZero(value) then Some(Delta(lui.offset, 4))
          else if rd != 0 && rd != 2 && 0x800 <= value < 0x1_f800 then Some(Delta(lui.offset + 2, 2))
          else None
  {
    var lui := sec.rels[i - 1];
    if LuiCandidate(sec.bytes, pass, existing, lui) {
      var value := LoadedValue(pass, lui);
      UpperZeroIs(value);
      ShortFormIs(value);
      RegisterBits(sec.bytes, lui.offset);
    }
  }

  /** Nothing but a padding, a marked call and a marked load makes the scan delete anything. */
  lemma {:induction false} OthersDeleteNothing(sec: Section, pass: Pass, existing: seq<Delta>, i: nat)
    requires i < |sec.rels| && !sec.rels[i].kind.Align?
    requires MarksPrevious(sec, i) ==> !sec.rels[i - 1].kind.Call? && !sec.rels[i - 1].kind.Hi20?
    ensures Decide(sec, pass, existing, i) == None
  {
  }

  // ----- Whole runs -----

  lemma {:induction false} CollectedIsDecided(sec: Section, pass: Pass, existing: seq<Delta>, n: nat, d: Delta)
    returns (i: nat)
    requires n <= |sec.rels| && d in Collected(sec, pass, existing, n)
    ensures i < n && Decide(sec, pass, existing, i) == Some(d)
  {
    if d in Collected(sec, pass, existing, n - 1) {
      i := CollectedIsDecided(sec, pass, existing, n - 1, d);
    } else {
      i := n - 1;
    }
  }

  /** A pass adds nothing but what it decided. */
  lemma {:induction false} PassAdds(sec: Section, passes: seq<Pass>, pass: Pass, d: Delta) returns (i: Option<nat>)
    requires WellFormed(sec) && d in Merge(AfterPasses(sec, passes),
      Collected(sec, pass, AfterPasses(sec, passes), |sec.rels|))
    ensures i.None? ==> d in AfterPasses(sec, passes)
    ensures i.Some? ==> i.value < |sec.rels| && Decide(sec, pass, AfterPasses(sec, passes), i.value) == Some(d)
  {
    var existing := AfterPasses(sec, passes);
    var ds := Collected(sec, pass, existing, |sec.rels|);
    PassesStayDisjoint(sec, passes);
    CollectedOk(sec, pass, existing, |sec.rels|);
    MergeOk(sec, existing, ds);
    assert d in multiset(Merge(existing, ds));
    if d in existing {
      i := None;
    } else {
      var j := CollectedIsDecided(sec, pass, existing, |sec.rels|, d);
      i := Some(j);
    }
  }

  /** Whatever is deleted in the end was decided by a relocation in one of the passes. */
  lemma {:induction false} DeletedIsDecided(sec: Section, passes: seq<Pass>, d: Delta) returns (n: nat, i: nat)
    requires WellFormed(sec) && d in AfterPasses(sec, passes)
    ensures n < |passes| && i < |sec.rels|
    ensures Decide(sec, passes[n], AfterPasses(sec, passes[..n]), i) == Some(d)
  {
    var last := |passes| - 1;
    var init := passes[..last];
    var found := PassAdds(sec, init, passes[last], d);
    if found.None? {
      n, i := DeletedIsDecided(sec, init, d);
      assert init[..n] == passes[..n];
    } else {
      n, i := last, found.value;
    }
  }

  lemma {:induction false} CallDecision(sec: Section, pass: Pass, existing: seq<Delta>, i: nat, k: nat, d: Delta)
    requires WellFormed(sec) && i < |sec.rels| && Decide(sec, pass, existing, i) == Some(d)
    requires k < |sec.rels| && sec.rels[k].kind.Call? && d == Delta(sec.rels[k].offset + 4, 4)
    ensures i == k + 1 && CallInReach(pass, existing, sec.rels[k])
  {
    DecisionOwned(sec, pass, existing, i, d);
    var o := OwnerOf(sec, i);
    assert OwnedAt(sec, k, d);
    if o < k {
      OwnersAscend(sec, o, k, d, d);
    } else if o > k {
      OwnersAscend(sec, k, o, d, d);
    }
  }

  /**
   After any number of passes, a call whose second instruction is gone was in reach, at the addresses
   of the pass that deleted it.
   */
  lemma {:induction false} ShortenedCallsWereInReach(sec: Section, passes: seq<Pass>, k: nat) returns (n: nat)
    requires WellFormed(sec) && k < |sec.rels| && sec.rels[k].kind.Call?
    requires Delta(sec.rels[k].offset + 4, 4) in AfterPasses(sec, passes)
    ensures n < |passes| && CallInReach(passes[n], AfterPasses(sec, passes[..n]), sec.rels[k])
  {
    var d, i := Delta(sec.rels[k].offset + 4, 4), 0;
    n, i := DeletedIsDecided(sec, passes, d);
    CallDecision(sec, passes[n], AfterPasses(sec, passes[..n]), i, k, d);
  }
}
