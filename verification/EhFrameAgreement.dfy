/**
 The two `.eh_frame` passes agree: the bytes counted at layout are the bytes
 written, frames counted are search-table entries written, and after compaction
 every FDE still points at its own CIE.
 */
module EhFrameAgreement {
  import opened Machine
  import opened Wrappers
  import opened EhFrame
  import opened EhFrameWriters

  // ----- Sizes -----

  /** Relocation `k` of the FDE gives its pc-begin a symbol. */
  predicate GivesPcBegin(e: Entry, k: int)
    requires 0 <= k < |e.rels|
  {
    IsPcBegin(e, e.rels[k]) && e.rels[k].symbol.Some?
  }

  /** Relocation `k` is the last of the first `n` to do so. */
  predicate LastPcBegin(e: Entry, k: int, n: nat)
    requires 0 <= k < n <= |e.rels|
  {
    GivesPcBegin(e, k) && forall j :: k < j < n ==> !GivesPcBegin(e, j)
  }

  /** Layout goes through all relocations and keeps the last pc-begin symbol. */
  lemma {:induction false} FindPcBegin(e: Entry, n: nat) returns (found: Option<nat>)
    requires n <= |e.rels|
    ensures found.Some? ==>
      && found.value < n && LastPcBegin(e, found.value, n)
      && LayoutTarget(e, n) == e.rels[found.value].symbol.value.section
    ensures found.None? ==> LayoutTarget(e, n) == None && forall k :: 0 <= k < n ==> !GivesPcBegin(e, k)
  {
    if n == 0 {
      found := None;
    } else if GivesPcBegin(e, n - 1) {
      found := Some(n - 1);
    } else {
      found := FindPcBegin(e, n - 1);
    }
  }

  /** What decides: if a later relocation is the last to give the pc-begin a symbol, it names the writer's section. */
  predicate TargetsMatch(e: Entry) {
    forall k :: 0 < k < |e.rels| && LastPcBegin(e, k, |e.rels|) ==> e.rels[k].symbol.value.section == WriterTarget(e)
  }

  /**
   Layout looks at every relocation of an FDE and the writer only at the first. They find the same
   section exactly if the last pc-begin symbol, where it is not the first relocation's, names the
   section that the writer finds.
   */
  lemma {:induction false} TargetsAgreeIff(e: Entry)
    ensures Target(e) == WriterTarget(e) <==> TargetsMatch(e)
  {
    var n := |e.rels|;
    var found := FindPcBegin(e, n);
    if found.None? {
      assert e.rels != [] ==> !GivesPcBegin(e, 0);
    } else {
      var k := found.value;
      assert LastPcBegin(e, k, n);
      forall j | 0 <= j < n && LastPcBegin(e, j, n)
        ensures j == k
      {
        assert GivesPcBegin(e, j) && GivesPcBegin(e, k);
      }
    }
  }

  /** The pc-begin relocation, if the FDE has one, is its first. */
  predicate PcBeginFirst(e: Entry) {
    forall k :: 0 < k < |e.rels| ==> !IsPcBegin(e, e.rels[k])
  }

  /** What assemblers write is covered. */
  lemma {:induction false} TargetsAgree(e: Entry)
    requires PcBeginFirst(e)
    ensures TargetsMatch(e) && Target(e) == WriterTarget(e)
  {
    TargetsAgreeIff(e);
  }

  /** With another relocation before the pc-begin one, layout counts an FDE that the writer drops. */
  lemma {:induction false} LatePcBeginIsLost()
    ensures
      var e := Entry(0, 16, 4, [Rel(4, None), Rel(8, Some(Symbol(Some(0))))]);
      && !TargetsMatch(e)
      && FdeOf(e, {0}) == [Fde(0, 16)]
      && !Kept(e, {0})
  {
    var e := Entry(0, 16, 4, [Rel(4, None), Rel(8, Some(Symbol(Some(0))))]);
    assert IsPcBegin(e, e.rels[1]);
    assert LastPcBegin(e, 1, 2);
    assert LayoutTarget(e, 2) == Some(0);
  }

  /** With two pc-begin relocations against different sections, the writer keeps an FDE that was never counted. */
  lemma {:induction false} SecondPcBeginIsUncounted()
    ensures
      var e := Entry(8, 16, 12, [Rel(16, Some(Symbol(Some(0)))), Rel(16, Some(Symbol(Some(1))))]);
      && !TargetsMatch(e)
      && FdeOf(e, {0}) == []
      && Kept(e, {0})
  {
    var e := Entry(8, 16, 12, [Rel(16, Some(Symbol(Some(0)))), Rel(16, Some(Symbol(Some(1))))]);
    assert LastPcBegin(e, 1, 2);
    assert LayoutTarget(e, 2) == Some(1);
  }

  /** A target section has an address and is not empty exactly when its frames were counted. */
  predicate ResolvedAsCounted(e: Entry, tracked: set<nat>, loaded: set<nat>, resolved: set<nat>) {
    Target(e).Some? ==> (Target(e).value in resolved <==> Target(e).value in tracked && Target(e).value in loaded)
  }

  /** Of every FDE, both passes find the same section and take the same view of it. */
  ghost predicate AllAgree(es: seq<Entry>, tracked: set<nat>, loaded: set<nat>, resolved: set<nat>) {
    forall i :: 0 <= i < |es| && !es[i].IsCie() ==>
      TargetsMatch(es[i]) && ResolvedAsCounted(es[i], tracked, loaded, resolved)
  }

  lemma {:induction false} SumsOfConcat(a: seq<Fde>, b: seq<Fde>, loaded: set<nat>, n: nat)
    requires n <= |b|
    ensures BytesOf(a + b, loaded, |a| + n) == BytesOf(a, loaded, |a|) + BytesOf(b, loaded, n)
    ensures CountOf(a + b, loaded, |a| + n) == CountOf(a, loaded, |a|) + CountOf(b, loaded, n)
  {
    if n > 0 {
      SumsOfConcat(a, b, loaded, n - 1);
    } else {
      SumsOfPrefix(a, b, loaded, |a|);
    }
  }

  lemma {:induction false} SumsOfPrefix(a: seq<Fde>, b: seq<Fde>, loaded: set<nat>, n: nat)
    requires n <= |a|
    ensures BytesOf(a + b, loaded, n) == BytesOf(a, loaded, n)
    ensures CountOf(a + b, loaded, n) == CountOf(a, loaded, n)
  {
    if n > 0 {
      SumsOfPrefix(a, b, loaded, n - 1);
    }
  }

  /** Bytes and frames counted at layout are bytes and FDEs kept by the writer. */
  lemma {:induction false} CountedIsKept(es: seq<Entry>, tracked: set<nat>, loaded: set<nat>, resolved: set<nat>)
    requires AllAgree(es, tracked, loaded, resolved)
    ensures
      var fdes := Fdes(es, tracked);
      && KeptBytes(es, resolved) == CieBytes(es) + BytesOf(fdes, loaded, |fdes|)
      && KeptFdes(es, resolved) == CountOf(fdes, loaded, |fdes|)
  {
    if es != [] {
      var init, e := es[..|es| - 1], es[|es| - 1];
      CountedIsKept(init, tracked, loaded, resolved);
      EntryCountedIsKept(e, tracked, loaded, resolved);
      SumsOfConcat(Fdes(init, tracked), FdeOf(e, tracked), loaded, |FdeOf(e, tracked)|);
    }
  }

  lemma {:induction false} EntryCountedIsKept(e: Entry, tracked: set<nat>, loaded: set<nat>, resolved: set<nat>)
    requires e.IsCie() || (TargetsMatch(e) && ResolvedAsCounted(e, tracked, loaded, resolved))
    ensures
      var fdes := FdeOf(e, tracked);
      && (if Kept(e, resolved) then e.size else 0) == (if e.IsCie() then e.size else 0) + BytesOf(fdes, loaded, |fdes|)
      && KeptFde(e, resolved) == CountOf(fdes, loaded, |fdes|)
  {
    TargetsAgreeIff(e);
  }

  // ----- A whole object -----

  /** An `.eh_frame` section of the object: its data and relocations. */
  type Section = (seq<byte>, seq<Rel>)

  ghost predicate AllParsed(inputs: seq<Section>) {
    forall i :: 0 <= i < |inputs| ==> Parse(inputs[i].0, inputs[i].1, 0).Parsed?
  }

  ghost predicate AllWritten(inputs: seq<Section>, resolved: set<nat>) {
    forall i :: 0 <= i < |inputs| ==> SectionOutput(inputs[i].0, inputs[i].1, resolved).Some?
  }

  /** The entries of all sections, one section after the other. */
  ghost function Entries(inputs: seq<Section>): seq<Entry>
    requires AllParsed(inputs)
  {
    if inputs == [] then []
    else
      var n := |inputs| - 1;
      Entries(inputs[..n]) + Parse(inputs[n].0, inputs[n].1, 0).entries
  }

  ghost function Trailing(inputs: seq<Section>): int
    requires AllParsed(inputs)
  {
    if inputs == [] then 0
    else
      var n := |inputs| - 1;
      Trailing(inputs[..n]) + |inputs[n].0| - Parse(inputs[n].0, inputs[n].1, 0).tail
  }

  /** All output bytes, and the number of FDEs among them. */
  ghost function Output(inputs: seq<Section>, resolved: set<nat>): (seq<byte>, nat)
    requires AllWritten(inputs, resolved)
  {
    if inputs == [] then ([], 0)
    else
      var n := |inputs| - 1;
      var (init, s) := (Output(inputs[..n], resolved), SectionOutput(inputs[n].0, inputs[n].1, resolved).value);
      (init.0 + s.0, init.1 + s.1)
  }

  lemma {:induction false} KeptOfConcat(a: seq<Entry>, b: seq<Entry>, resolved: set<nat>)
    ensures KeptBytes(a + b, resolved) == KeptBytes(a, resolved) + KeptBytes(b, resolved)
    ensures KeptFdes(a + b, resolved) == KeptFdes(a, resolved) + KeptFdes(b, resolved)
  {
    if b == [] {
      assert a + b == a;
    } else {
      var init := b[..|b| - 1];
      KeptOfConcat(a, init, resolved);
      assert (a + b)[..|a + b| - 1] == a + init;
    }
  }

  lemma {:induction false} SectionSize(s: Section, resolved: set<nat>)
    requires SectionOutput(s.0, s.1, resolved).Some?
    ensures
      var p, out := Parse(s.0, s.1, 0), SectionOutput(s.0, s.1, resolved).value;
      && p.Parsed? && p.tail <= |s.0|
      && |out.0| == KeptBytes(p.entries, resolved) + |s.0| - p.tail
      && out.1 == KeptFdes(p.entries, resolved)
  {
    ParsedInData(s.0, s.1);
  }

  /** The output of an object is as long as its kept entries and trailing bytes together. */
  lemma {:induction false} OutputSize(inputs: seq<Section>, resolved: set<nat>)
    requires AllWritten(inputs, resolved)
    ensures AllParsed(inputs)
    ensures |Output(inputs, resolved).0| == KeptBytes(Entries(inputs), resolved) + Trailing(inputs)
    ensures Output(inputs, resolved).1 == KeptFdes(Entries(inputs), resolved)
  {
    if inputs != [] {
      var n := |inputs| - 1;
      OutputSize(inputs[..n], resolved);
      SectionSize(inputs[n], resolved);
      assert AllParsed(inputs) by {
        forall i | 0 <= i < |inputs|
          ensures Parse(inputs[i].0, inputs[i].1, 0).Parsed?
        {
          if i < n {
            assert inputs[i] == inputs[..n][i];
          }
        }
      }
      KeptOfConcat(Entries(inputs[..n]), Parse(inputs[n].0, inputs[n].1, 0).entries, resolved);
    }
  }

  function Loadable(loadable: seq<bool>): set<nat> {
    set s | 0 <= s < |loadable| && loadable[s]
  }

  function SetOf(xs: seq<nat>): set<nat> {
    set x | x in xs
  }

  lemma {:induction false} EntriesNext(inputs: seq<Section>, i: nat)
    requires i < |inputs| && AllParsed(inputs[..i]) && Parse(inputs[i].0, inputs[i].1, 0).Parsed?
    ensures AllParsed(inputs[..i + 1])
    ensures Entries(inputs[..i + 1]) == Entries(inputs[..i]) + Parse(inputs[i].0, inputs[i].1, 0).entries
    ensures Trailing(inputs[..i + 1]) == Trailing(inputs[..i]) + |inputs[i].0| - Parse(inputs[i].0, inputs[i].1, 0).tail
  {
    var next := inputs[..i + 1];
    assert next[..i] == inputs[..i] && next[i] == inputs[i];
    forall j | 0 <= j < |next|
      ensures Parse(next[j].0, next[j].1, 0).Parsed?
    {
      assert j < i ==> next[j] == inputs[..i][j];
    }
  }

  /** Layout of an object's `.eh_frame` sections, before anything is loaded. */
  method LoadFrames(inputs: seq<Section>, loadable: seq<bool>) returns (state: ObjectLayoutState, ok: bool)
    requires forall i :: 0 <= i < |inputs| ==> SectionsBelow(inputs[i].1, |loadable|)
    ensures fresh(state)
    ensures ok <==> AllParsed(inputs)
    ensures ok ==>
      && state.Valid() && state.loaded == {} && state.tracked == Loadable(loadable)
      && state.entries == Entries(inputs) && state.trailing == Trailing(inputs)
  {
    state := new ObjectLayoutState(loadable);
    for i := 0 to |inputs|
      invariant fresh(state) && state.Valid() && state.loaded == {} && |state.sections| == |loadable|
      invariant state.tracked == Loadable(loadable) && AllParsed(inputs[..i])
      invariant state.entries == Entries(inputs[..i]) && state.trailing == Trailing(inputs[..i])
    {
      ok := state.LoadExceptionFrameData(inputs[i].0, inputs[i].1);
      if !ok {
        return;
      }
      EntriesNext(inputs, i);
    }
    assert inputs[..|inputs|] == inputs;
    ok := true;
  }

  /** The loads that garbage collection asks for, in any order. */
  method LoadSections(state: ObjectLayoutState, loads: seq<nat>)
    requires state.Valid() && state.loaded == {}
    requires forall i :: 0 <= i < |loads| ==> loads[i] in state.tracked
    requires forall i, j :: 0 <= i < j < |loads| ==> loads[i] != loads[j]
    modifies state
    ensures state.Valid() && state.loaded == SetOf(loads)
    ensures state.entries == old(state.entries) && state.trailing == old(state.trailing) &&
      state.tracked == old(state.tracked)
  {
    for i := 0 to |loads|
      invariant state.Valid() && state.loaded == SetOf(loads[..i])
      invariant state.entries == old(state.entries) && state.trailing == old(state.trailing)
      invariant state.tracked == old(state.tracked)
    {
      assert loads[..i + 1] == loads[..i] + [loads[i]];
      state.LoadSection(loads[i]);
    }
    assert loads[..|loads|] == loads;
  }

  /** Layout of an object: its `.eh_frame` sections first, then the sections that get loaded. */
  method LayoutEhFrames(
      inputs: seq<Section>, loadable: seq<bool>, loads: seq<nat>)
    returns (state: ObjectLayoutState, ok: bool)
    requires forall i :: 0 <= i < |inputs| ==> SectionsBelow(inputs[i].1, |loadable|)
    requires forall i :: 0 <= i < |loads| ==> loads[i] in Loadable(loadable)
    requires forall i, j :: 0 <= i < j < |loads| ==> loads[i] != loads[j]
    ensures fresh(state)
    ensures ok <==> AllParsed(inputs)
    ensures ok ==>
      && state.fdes == Fdes(Entries(inputs), Loadable(loadable))
      && state.ehFrameSize ==
        CieBytes(Entries(inputs)) + BytesOf(state.fdes, SetOf(loads), |state.fdes|) + Trailing(inputs)
      && state.frameCount == CountOf(state.fdes, SetOf(loads), |state.fdes|)
  {
    state, ok := LoadFrames(inputs, loadable);
    if ok {
      LoadSections(state, loads);
      state.FinaliseObjectSizes();
    }
  }

  method WriteEhFrames(inputs: seq<Section>, resolved: set<nat>, capacity: nat, hdrCapacity: nat)
    returns (w: EhFrameWriter, ok: bool)
    requires AllWritten(inputs, resolved)
    requires |Output(inputs, resolved).0| <= capacity && Output(inputs, resolved).1 <= hdrCapacity
    ensures ok && w.ehFrame == Output(inputs, resolved).0 && w.hdrEntries == Output(inputs, resolved).1
    ensures w.capacity == capacity && w.hdrCapacity == hdrCapacity
  {
    w := new EhFrameWriter(capacity, hdrCapacity);
    ok := true;
    for i := 0 to |inputs|
      invariant fresh(w) && w.Valid() && w.capacity == capacity && w.hdrCapacity == hdrCapacity
      invariant ok && WrittenTo(w, inputs, resolved, i)
    {
      ok := WriteNextSection(w, inputs, resolved, i);
    }
    assert inputs[..|inputs|] == inputs;
  }

  ghost predicate WrittenTo(w: EhFrameWriter, inputs: seq<Section>, resolved: set<nat>, i: nat)
    requires AllWritten(inputs, resolved) && i <= |inputs|
    reads w
  {
    w.ehFrame == Output(inputs[..i], resolved).0 && w.hdrEntries == Output(inputs[..i], resolved).1
  }

  method WriteNextSection(w: EhFrameWriter, inputs: seq<Section>, resolved: set<nat>, i: nat) returns (ok: bool)
    requires AllWritten(inputs, resolved) && i < |inputs| && w.Valid() && WrittenTo(w, inputs, resolved, i)
    requires |Output(inputs, resolved).0| <= w.capacity && Output(inputs, resolved).1 <= w.hdrCapacity
    modifies w
    ensures ok && w.Valid() && WrittenTo(w, inputs, resolved, i + 1)
  {
    OutputPrefix(inputs, resolved, i + 1);
    OutputNext(inputs, resolved, i);
    ok := w.WriteEhFrameRelocations(inputs[i].0, inputs[i].1, resolved);
  }

  lemma {:induction false} OutputNext(inputs: seq<Section>, resolved: set<nat>, i: nat)
    requires AllWritten(inputs, resolved) && i < |inputs|
    ensures AllWritten(inputs[..i], resolved) && AllWritten(inputs[..i + 1], resolved)
    ensures
      var before, s := Output(inputs[..i], resolved), SectionOutput(inputs[i].0, inputs[i].1, resolved).value;
      Output(inputs[..i + 1], resolved) == (before.0 + s.0, before.1 + s.1)
  {
    assert inputs[..i + 1][..i] == inputs[..i];
  }

  lemma {:induction false} OutputPrefix(inputs: seq<Section>, resolved: set<nat>, n: nat)
    requires AllWritten(inputs, resolved) && n <= |inputs|
    ensures AllWritten(inputs[..n], resolved)
    ensures |Output(inputs[..n], resolved).0| <= |Output(inputs, resolved).0|
    ensures Output(inputs[..n], resolved).1 <= Output(inputs, resolved).1
  {
    if n == |inputs| {
      assert inputs[..n] == inputs;
    } else {
      var init := inputs[..|inputs| - 1];
      assert init[..n] == inputs[..n];
      OutputPrefix(init, resolved, n);
    }
  }

  /**
   Layout and writing of an object's `.eh_frame` sections, with the buffers sized by layout: writing
   succeeds, fills the buffer to the last byte, and writes one search-table entry for each frame counted.
   */
  method LinkEhFrames(inputs: seq<Section>, loadable: seq<bool>, loads: seq<nat>, resolved: set<nat>)
    returns (w: EhFrameWriter, ok: bool)
    requires forall i :: 0 <= i < |inputs| ==> SectionsBelow(inputs[i].1, |loadable|)
    requires forall i :: 0 <= i < |loads| ==> loads[i] in Loadable(loadable)
    requires forall i, j :: 0 <= i < j < |loads| ==> loads[i] != loads[j]
    requires AllWritten(inputs, resolved) && AllParsed(inputs)
    requires AllAgree(Entries(inputs), Loadable(loadable), SetOf(loads), resolved)
    ensures ok
    ensures w.ehFrame == Output(inputs, resolved).0 && |w.ehFrame| == w.capacity
    ensures w.hdrEntries == w.hdrCapacity == Output(inputs, resolved).1
  {
    var state;
    state, ok := LayoutEhFrames(inputs, loadable, loads);
    OutputSize(inputs, resolved);
    CountedIsKept(Entries(inputs), Loadable(loadable), SetOf(loads), resolved);
    w, ok := WriteEhFrames(inputs, resolved, state.ehFrameSize, state.frameCount);
  }

  // ----- CIE pointers -----

  /** The output position of entry `i`. */
  function OutputPos(es: seq<Entry>, resolved: set<nat>, i: nat): nat
    requires i <= |es|
  {
    KeptBytes(es[..i], resolved)
  }

  /** Entry `j` is the CIE that the input pointer of FDE `i` names. */
  predicate NamesCie(es: seq<Entry>, i: nat, j: nat)
    requires i < |es| && j < |es|
  {
    es[j].IsCie() && es[j].pos + es[i].cieId == es[i].pos + 4
  }

  /** In `bytes`, the pointer of FDE `i`, subtracted from its own place, gives the copy of CIE `j`. */
  ghost predicate PointsAt(data: seq<byte>, es: seq<Entry>, resolved: set<nat>, bytes: seq<byte>, i: nat, j: nat)
    requires i < |es| && j < |es|
  {
    var fde, cie := OutputPos(es, resolved, i), OutputPos(es, resolved, j);
    && fde + 8 <= |bytes| && cie + es[j].size <= |bytes| && InData(data, es[j])
    && U32(bytes, fde + 4) <= fde + 4
    && fde + 4 - U32(bytes, fde + 4) == cie
    && bytes[cie..cie + es[j].size] == Copied(data, es[j])
  }

  /** Each CIE in the map is a CIE of the input, copied to where the map says. */
  ghost predicate CiesCopied(data: seq<byte>, es: seq<Entry>, resolved: set<nat>, out: Out) {
    forall p :: p in out.cies ==> exists j: nat :: CopiedAt(data, es, resolved, out, p, j)
  }

  ghost predicate CopiedAt(data: seq<byte>, es: seq<Entry>, resolved: set<nat>, out: Out, p: nat, j: nat) {
    && j < |es| && es[j].IsCie() && es[j].pos == p && InData(data, es[j])
    && p in out.cies && out.cies[p] == OutputPos(es, resolved, j)
    && out.cies[p] + es[j].size <= |out.bytes|
    && out.bytes[out.cies[p]..out.cies[p] + es[j].size] == Copied(data, es[j])
  }

  /** A CIE already copied stays where it is when another entry is written. */
  lemma {:induction false} CopiedStays(
      data: seq<byte>, es: seq<Entry>, resolved: set<nat>, before: Out, out: Out, p: nat, j: nat)
    requires es != [] && CopiedAt(data, es[..|es| - 1], resolved, before, p, j)
    requires before.bytes <= out.bytes && p in out.cies && out.cies[p] == before.cies[p]
    ensures CopiedAt(data, es, resolved, out, p, j)
  {
    assert es[..|es| - 1][..j] == es[..j];
    var c := out.cies[p];
    assert out.bytes[c..c + es[j].size] == before.bytes[c..c + es[j].size];
  }

  lemma {:induction false} CopiedNow(data: seq<byte>, es: seq<Entry>, resolved: set<nat>, before: Out, out: Out)
    requires es != [] && InData(data, es[|es| - 1]) && es[|es| - 1].IsCie()
    requires |before.bytes| == KeptBytes(es[..|es| - 1], resolved)
    requires out.bytes == before.bytes + Copied(data, es[|es| - 1])
    requires out.cies == before.cies[es[|es| - 1].pos := |before.bytes|]
    ensures CopiedAt(data, es, resolved, out, es[|es| - 1].pos, |es| - 1)
  {
    var c := |before.bytes|;
    assert out.bytes[c..c + es[|es| - 1].size] == Copied(data, es[|es| - 1]);
  }

  lemma {:induction false} CiesAreCopied(data: seq<byte>, es: seq<Entry>, resolved: set<nat>)
    requires |data| + 4 < 0x1_0000_0000 && AllInData(data, es) && WriteEntries(data, es, resolved).Some?
    ensures CiesCopied(data, es, resolved, WriteEntries(data, es, resolved).value)
  {
    if es != [] {
      var n := |es| - 1;
      var init, e := es[..n], es[n];
      KeptFits(init, resolved);
      CiesAreCopied(data, init, resolved);
      var before, out := WriteEntries(data, init, resolved).value, WriteEntries(data, es, resolved).value;
      assert Some(out) == WriteEntry(data, e, resolved, before);
      forall p | p in out.cies
        ensures exists j: nat :: CopiedAt(data, es, resolved, out, p, j)
      {
        if e.IsCie() && p == e.pos {
          CopiedNow(data, es, resolved, before, out);
        } else {
          var j: nat :| CopiedAt(data, init, resolved, before, p, j);
          CopiedStays(data, es, resolved, before, out, p, j);
        }
      }
    }
  }

  lemma {:induction false} PointsAtExtends(
      data: seq<byte>, es: seq<Entry>, resolved: set<nat>, bytes: seq<byte>, bytes': seq<byte>, i: nat, j: nat)
    requires es != [] && i < |es| - 1 && j < |es| - 1 && bytes <= bytes'
    requires PointsAt(data, es[..|es| - 1], resolved, bytes, i, j)
    ensures PointsAt(data, es, resolved, bytes', i, j)
  {
    var init := es[..|es| - 1];
    assert init[..i] == es[..i] && init[..j] == es[..j];
    var cie := OutputPos(es, resolved, j);
    assert bytes'[cie..cie + es[j].size] == bytes[cie..cie + es[j].size];
  }

  /** FDE `i` points at the copy of an earlier CIE, the one that its input pointer named. */
  ghost predicate PointsAtItsCie(data: seq<byte>, es: seq<Entry>, resolved: set<nat>, bytes: seq<byte>, i: nat)
    requires i < |es|
  {
    exists j :: 0 <= j < i && NamesCie(es, i, j) && PointsAt(data, es, resolved, bytes, i, j)
  }

  lemma {:induction false} EarlierFde(
      data: seq<byte>, es: seq<Entry>, resolved: set<nat>, bytes: seq<byte>, bytes': seq<byte>, i: nat)
    requires i < |es| - 1 && bytes <= bytes' && PointsAtItsCie(data, es[..|es| - 1], resolved, bytes, i)
    ensures PointsAtItsCie(data, es, resolved, bytes', i)
  {
    var init := es[..|es| - 1];
    var j :| 0 <= j < i && NamesCie(init, i, j) && PointsAt(data, init, resolved, bytes, i, j);
    PointsAtExtends(data, es, resolved, bytes, bytes', i, j);
    assert NamesCie(es, i, j);
  }

  /** A kept FDE is written with the distance to its CIE's copy. */
  lemma {:induction false} FdeWritten(
      data: seq<byte>, e: Entry, resolved: set<nat>, before: Out, out: Out)
    returns (p: nat)
    requires InData(data, e) && OutOk(before) && |before.bytes| + 4 < 0x1_0000_0000 && |data| + 4 < 0x1_0000_0000
    requires !e.IsCie() && Kept(e, resolved) && WriteEntry(data, e, resolved, before) == Some(out)
    ensures p + e.cieId == e.pos + 4 && p in before.cies && e.size >= 8
    ensures before.cies[p] <= |before.bytes|
    ensures out.bytes == before.bytes + Rewritten(data, e, |before.bytes| + 4 - before.cies[p])
  {
    p := e.pos + 4 - e.cieId;
  }

  lemma {:induction false} LastFde(
      data: seq<byte>, es: seq<Entry>, resolved: set<nat>, before: Out, bytes: seq<byte>, p: nat)
    requires es != [] && InData(data, es[|es| - 1]) && es[|es| - 1].size >= 8 && |before.bytes| + 4 < 0x1_0000_0000
    requires |before.bytes| == KeptBytes(es[..|es| - 1], resolved)
    requires CiesCopied(data, es[..|es| - 1], resolved, before)
    requires p + es[|es| - 1].cieId == es[|es| - 1].pos + 4 && p in before.cies && before.cies[p] <= |before.bytes|
    requires bytes == before.bytes + Rewritten(data, es[|es| - 1], |before.bytes| + 4 - before.cies[p])
    ensures PointsAtItsCie(data, es, resolved, bytes, |es| - 1)
  {
    var i := |es| - 1;
    var init, e := es[..i], es[i];
    var j: nat :| CopiedAt(data, init, resolved, before, p, j);
    assert init[..j] == es[..j];
    NewFdePointsAt(data, e, before, p, es[j]);
    assert PointsAt(data, es, resolved, bytes, i, j);
    assert NamesCie(es, i, j);
  }

  /** After filtering and compaction every kept FDE points at the copy of the CIE that its input pointer named. */
  lemma {:induction false} FdesPointAtTheirCies(data: seq<byte>, es: seq<Entry>, resolved: set<nat>, i: nat)
    requires |data| + 4 < 0x1_0000_0000 && AllInData(data, es) && WriteEntries(data, es, resolved).Some?
    requires i < |es| && !es[i].IsCie() && Kept(es[i], resolved)
    ensures PointsAtItsCie(data, es, resolved, WriteEntries(data, es, resolved).value.bytes, i)
  {
    var n := |es| - 1;
    var init := es[..n];
    KeptFits(init, resolved);
    var before, out := WriteEntries(data, init, resolved).value, WriteEntries(data, es, resolved).value;
    assert Some(out) == WriteEntry(data, es[n], resolved, before);
    if i < n {
      FdesPointAtTheirCies(data, init, resolved, i);
      EarlierFde(data, es, resolved, before.bytes, out.bytes, i);
    } else {
      CiesAreCopied(data, init, resolved);
      var p := FdeWritten(data, es[n], resolved, before, out);
      LastFde(data, es, resolved, before, out.bytes, p);
    }
  }

  lemma {:induction false} NewFdePointsAt(data: seq<byte>, e: Entry, before: Out, p: nat, cie: Entry)
    requires InData(data, e) && e.size >= 8 && |before.bytes| + 4 < 0x1_0000_0000 && InData(data, cie)
    requires p in before.cies && before.cies[p] + cie.size <= |before.bytes|
    requires before.bytes[before.cies[p]..before.cies[p] + cie.size] == Copied(data, cie)
    ensures
      var pointer, c := |before.bytes| + 4 - before.cies[p], before.cies[p];
      var bytes := before.bytes + Rewritten(data, e, pointer);
      && U32(bytes, |before.bytes| + 4) == pointer
      && bytes[c..c + cie.size] == Copied(data, cie)
  {
    var pointer, c := |before.bytes| + 4 - before.cies[p], before.cies[p];
    var bytes := before.bytes + Rewritten(data, e, pointer);
    var le := LeBytes(pointer);
    assert forall k :: 0 <= k < 4 ==> bytes[|before.bytes| + 4 + k] == le[k];
    assert bytes[c..c + cie.size] == before.bytes[c..c + cie.size];
  }
}
