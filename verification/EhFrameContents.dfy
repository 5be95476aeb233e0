/**
 What `.eh_frame` becomes, byte by byte: how a section is cut into entries, when it is rejected, and
 what stands at the place of every kept entry in the output of the whole object.
 */
module EhFrameContents {
  import opened Machine
  import opened Wrappers
  import opened EhFrame
  import opened EhFrameWriters
  import opened EhFrameAgreement

  lemma {:induction false} WordsAreLittleEndian()
    ensures U32([0x78, 0x56, 0x34, 0x12], 0) == 0x1234_5678
  {
  }

  // ----- Cutting a section into entries -----

  /** An entry is its length word and as many bytes as that says; the next word tells CIEs from FDEs. */
  predicate ReadsAs(data: seq<byte>, e: Entry) {
    e.pos + 8 <= |data| && e.size == 4 + U32(data, e.pos) && e.cieId == U32(data, e.pos + 4)
  }

  /** The entries cover the section from `pos` to `tail` without a gap, and too few bytes for another are left. */
  ghost predicate Tiles(data: seq<byte>, es: seq<Entry>, pos: nat, tail: nat) {
    && tail <= |data| < tail + 8
    && (if es == [] then pos == tail else es[0].pos == pos)
    && (forall i :: 0 <= i < |es| ==> ReadsAs(data, es[i]))
    && (forall i :: 0 <= i < |es| ==> es[i].pos + es[i].size == NextPos(es, tail, i))
  }

  /** Where the entry after entry `i` starts, or else the trailing bytes. */
  function NextPos(es: seq<Entry>, tail: nat, i: int): nat
    requires 0 <= i < |es|
  {
    if i + 1 < |es| then es[i + 1].pos else tail
  }

  lemma {:induction false} ParsedTiles(data: seq<byte>, rels: seq<Rel>, pos: nat)
    requires pos <= |data| && Parse(data, rels, pos).Parsed?
    ensures Tiles(data, Parse(data, rels, pos).entries, pos, Parse(data, rels, pos).tail)
    decreases |data| - pos
  {
    if pos + 8 <= |data| {
      var e := EntryAt(data, rels, pos);
      ParsedTiles(data, rels[|e.rels|..], pos + e.size);
    }
  }

  /** A section that is cut into entries at all is cut in this way. */
  lemma {:induction false} TilingIsParsed(data: seq<byte>, rels: seq<Rel>, pos: nat, es: seq<Entry>, tail: nat)
    requires pos <= |data| && Tiles(data, es, pos, tail)
    ensures Parse(data, rels, pos).Parsed? && Parse(data, rels, pos).tail == tail
    ensures |Parse(data, rels, pos).entries| == |es|
    decreases |es|
  {
    if es != [] {
      var e := EntryAt(data, rels, pos);
      assert ReadsAs(data, es[0]);
      TilingSteps(data, es, tail);
      TilingIsParsed(data, rels[|e.rels|..], pos + e.size, es[1..], tail);
    }
  }

  lemma {:induction false} TilingSteps(data: seq<byte>, es: seq<Entry>, tail: nat)
    requires es != [] && Tiles(data, es, es[0].pos, tail)
    ensures es[0].pos + es[0].size <= |data| && Tiles(data, es[1..], es[0].pos + es[0].size, tail)
  {
    var rest := es[1..];
    if |es| > 1 {
      assert ReadsAs(data, es[1]);
    }
    forall i | 0 <= i < |rest|
      ensures ReadsAs(data, rest[i]) && rest[i].pos + rest[i].size == NextPos(rest, tail, i)
    {
      var k := i + 1;
      assert rest[i] == es[k];
      assert NextPos(rest, tail, i) == NextPos(es, tail, k);
    }
  }

  ghost predicate CanBeTiled(data: seq<byte>) {
    exists es, tail :: Tiles(data, es, 0, tail)
  }

  /** The section is malformed exactly if its length words do not lead to its end. */
  lemma {:induction false} ParsedIff(data: seq<byte>, rels: seq<Rel>)
    ensures Parse(data, rels, 0).Parsed? <==> CanBeTiled(data)
  {
    if Parse(data, rels, 0).Parsed? {
      ParsedTiles(data, rels, 0);
    } else if CanBeTiled(data) {
      var es, tail :| Tiles(data, es, 0, tail);
      TilingIsParsed(data, rels, 0, es, tail);
    }
  }

  ghost predicate Sorted(rels: seq<Rel>) {
    forall i, j :: 0 <= i < j < |rels| ==> rels[i].offset <= rels[j].offset
  }

  ghost predicate AllFrom(rels: seq<Rel>, pos: nat) {
    forall k :: 0 <= k < |rels| ==> rels[k].offset >= pos
  }

  /** The entry has relocations `a` to `b`, which are those that lie in it. */
  ghost predicate HasItsOwn(rels: seq<Rel>, e: Entry, a: nat, b: nat) {
    && a <= b <= |rels| && e.rels == rels[a..b]
    && forall k :: 0 <= k < |rels| ==> (a <= k < b <==> e.pos <= rels[k].offset < e.pos + e.size)
  }

  /** The first `n` relocations are those before `limit`. */
  ghost predicate CutAt(rels: seq<Rel>, n: nat, limit: nat) {
    n <= |rels| && forall i :: 0 <= i < |rels| ==> (rels[i].offset < limit <==> i < n)
  }

  lemma {:induction false} CutRelocations(rels: seq<Rel>, limit: nat)
    requires Sorted(rels)
    ensures CutAt(rels, RelsBefore(rels, limit), limit)
  {
    if rels != [] && rels[0].offset < limit {
      CutRelocations(rels[1..], limit);
      forall i | 0 < i < |rels|
        ensures rels[i].offset < limit <==> i < RelsBefore(rels, limit)
      {
        assert rels[i] == rels[1..][i - 1];
      }
    }
  }

  lemma {:induction false} OwnAmongRest(rels: seq<Rel>, n: nat, end: nat, e: Entry, a: nat, b: nat)
    requires Sorted(rels) && n == RelsBefore(rels, end) && HasItsOwn(rels[n..], e, a, b) && e.pos >= end
    ensures HasItsOwn(rels, e, n + a, n + b)
  {
    CutRelocations(rels, end);
    assert rels[n..][a..b] == rels[n + a..n + b];
    forall k | n <= k < |rels|
      ensures n + a <= k < n + b <==> e.pos <= rels[k].offset < e.pos + e.size
    {
      assert rels[n..][k - n] == rels[k];
    }
  }

  lemma {:induction false} FirstHasItsOwn(rels: seq<Rel>, n: nat, e: Entry)
    requires Sorted(rels) && AllFrom(rels, e.pos) && n == RelsBefore(rels, e.pos + e.size) && e.rels == rels[..n]
    ensures HasItsOwn(rels, e, 0, n)
  {
    CutRelocations(rels, e.pos + e.size);
  }

  lemma {:induction false} RestIsSorted(rels: seq<Rel>, n: nat, end: nat)
    requires Sorted(rels) && n == RelsBefore(rels, end)
    ensures Sorted(rels[n..]) && AllFrom(rels[n..], end)
  {
    CutRelocations(rels, end);
  }

  /** Each entry takes its relocations from the front of those that are left. */
  ghost predicate TakesInTurn(es: seq<Entry>, rels: seq<Rel>, pos: nat) {
    es == [] ||
    var e := es[0];
    var n := RelsBefore(rels, pos + e.size);
    e.pos == pos && e.rels == rels[..n] && TakesInTurn(es[1..], rels[n..], pos + e.size)
  }

  lemma {:induction false} ParsedInTurn(data: seq<byte>, rels: seq<Rel>, pos: nat)
    requires pos <= |data| && Parse(data, rels, pos).Parsed?
    ensures TakesInTurn(Parse(data, rels, pos).entries, rels, pos)
    decreases |data| - pos
  {
    if pos + 8 <= |data| {
      var e := EntryAt(data, rels, pos);
      ParsedInTurn(data, rels[|e.rels|..], pos + e.size);
    }
  }

  lemma {:induction false} TakenByRange(es: seq<Entry>, rels: seq<Rel>, pos: nat, i: nat) returns (a: nat, b: nat)
    requires TakesInTurn(es, rels, pos) && Sorted(rels) && AllFrom(rels, pos) && i < |es|
    ensures HasItsOwn(rels, es[i], a, b) && es[i].pos >= pos
  {
    var e, end := es[0], pos + es[0].size;
    var n := RelsBefore(rels, end);
    if i == 0 {
      a, b := 0, n;
      FirstHasItsOwn(rels, n, e);
    } else {
      RestIsSorted(rels, n, end);
      a, b := TakenByRange(es[1..], rels[n..], end, i - 1);
      OwnAmongRest(rels, n, end, es[i], a, b);
      a, b := n + a, n + b;
    }
  }

  /** Each entry of a section with sorted relocations has those that lie in it and no others, in order. */
  lemma {:induction false} RelocationsByRange(data: seq<byte>, rels: seq<Rel>, i: nat) returns (a: nat, b: nat)
    requires Sorted(rels) && Parse(data, rels, 0).Parsed? && i < |Parse(data, rels, 0).entries|
    ensures HasItsOwn(rels, Parse(data, rels, 0).entries[i], a, b)
  {
    ParsedInTurn(data, rels, 0);
    a, b := TakenByRange(Parse(data, rels, 0).entries, rels, 0, i);
  }

  // ----- What is kept, and what is an error -----

  /** Every CIE is kept, and every FDE whose first relocation puts its pc-begin into a section with an address. */
  lemma {:induction false} KeptIff(e: Entry, resolved: set<nat>)
    ensures Kept(e, resolved) <==>
      || e.cieId == 0
      || exists s :: s in resolved && e.rels != [] && e.rels[0] == Rel(e.pos + 8, Some(Symbol(Some(s))))
  {
    if Kept(e, resolved) && e.cieId != 0 {
      var s := e.rels[0].symbol.value.section.value;
      assert s in resolved && e.rels[0] == Rel(e.pos + 8, Some(Symbol(Some(s))));
    }
  }

  /** An earlier CIE stands where the pointer of entry `i` says. */
  ghost predicate HasCie(es: seq<Entry>, i: nat)
    requires i < |es|
  {
    exists j :: 0 <= j < i && NamesCie(es, i, j)
  }

  /** The writer stops at entry `i`. */
  ghost predicate Rejected(es: seq<Entry>, resolved: set<nat>, i: nat)
    requires i < |es|
  {
    var e := es[i];
    && e.cieId != 0
    && ((e.rels != [] && e.rels[0].offset == e.pos + 8 &&
         (e.rels[0].symbol.None? || e.rels[0].symbol.value.section.None?))
        || (Kept(e, resolved) && (e.size < 8 || !HasCie(es, i))))
  }

  /** The positions in the map are those of the CIEs so far. */
  lemma {:induction false} MapHoldsCies(data: seq<byte>, es: seq<Entry>, resolved: set<nat>, p: nat)
    requires |data| + 4 < 0x1_0000_0000 && AllInData(data, es) && WriteEntries(data, es, resolved).Some?
    ensures p in WriteEntries(data, es, resolved).value.cies <==>
            exists j :: 0 <= j < |es| && es[j].IsCie() && es[j].pos == p
  {
    if es != [] {
      var n := |es| - 1;
      var init, e := es[..n], es[n];
      KeptFits(init, resolved);
      MapHoldsCies(data, init, resolved, p);
      var before, out := WriteEntries(data, init, resolved).value, WriteEntries(data, es, resolved).value;
      assert Some(out) == WriteEntry(data, e, resolved, before);
      assert p in out.cies <==> p in before.cies || (e.IsCie() && p == e.pos);
      assert forall j :: 0 <= j < n ==> init[j] == es[j];
    }
  }

  lemma {:induction false} EntryRejected(data: seq<byte>, es: seq<Entry>, resolved: set<nat>, before: Out)
    requires es != [] && |data| + 4 < 0x1_0000_0000 && AllInData(data, es)
    requires AllInData(data, es[..|es| - 1]) && WriteEntries(data, es[..|es| - 1], resolved) == Some(before)
    ensures WriteEntry(data, es[|es| - 1], resolved, before).None? <==> Rejected(es, resolved, |es| - 1)
  {
    var n := |es| - 1;
    var init, e := es[..n], es[n];
    if CiePos(e) >= 0 {
      MapHoldsCies(data, init, resolved, CiePos(e));
      forall j | 0 <= j < n
        ensures NamesCie(es, n, j) <==> init[j].IsCie() && init[j].pos == CiePos(e)
      {
      }
    }
  }

  /** Writing a section fails exactly if the writer stops at one of its entries. */
  lemma {:induction false} RejectedIff(data: seq<byte>, es: seq<Entry>, resolved: set<nat>)
    requires |data| + 4 < 0x1_0000_0000 && AllInData(data, es)
    ensures WriteEntries(data, es, resolved).None? <==> exists i :: 0 <= i < |es| && Rejected(es, resolved, i)
  {
    if es != [] {
      var n := |es| - 1;
      var init := es[..n];
      InitInData(data, es);
      RejectedIff(data, init, resolved);
      forall i | 0 <= i < n
        ensures Rejected(init, resolved, i) <==> Rejected(es, resolved, i)
      {
        RejectedInInit(es, resolved, i);
      }
      var before := WriteEntries(data, init, resolved);
      if before.Some? {
        EntryRejected(data, es, resolved, before.value);
      } else {
        var i :| 0 <= i < |init| && Rejected(init, resolved, i);
        assert Rejected(es, resolved, i);
      }
    }
  }

  lemma {:induction false} InitInData(data: seq<byte>, es: seq<Entry>)
    requires es != [] && AllInData(data, es)
    ensures AllInData(data, es[..|es| - 1])
  {
  }

  lemma {:induction false} RejectedInInit(es: seq<Entry>, resolved: set<nat>, i: nat)
    requires i < |es| - 1
    ensures Rejected(es[..|es| - 1], resolved, i) <==> Rejected(es, resolved, i)
  {
    var init := es[..|es| - 1];
    assert forall j :: 0 <= j < i ==> NamesCie(init, i, j) == NamesCie(es, i, j);
  }

  // ----- The bytes of every kept entry -----

  /** At `o` stands entry `e`: a CIE unchanged, an FDE with nothing but its pointer, bytes 4 to 8, changed. */
  ghost predicate StandsAt(data: seq<byte>, e: Entry, bytes: seq<byte>, o: nat) {
    && e.pos + e.size <= |data| && o + e.size <= |bytes|
    && (e.cieId == 0 ==> bytes[o..o + e.size] == data[e.pos..e.pos + e.size])
    && (e.cieId != 0 ==> e.size >= 8 && bytes[o..o + 4] == data[e.pos..e.pos + 4])
    && (e.cieId != 0 ==> bytes[o + 8..o + e.size] == data[e.pos + 8..e.pos + e.size])
  }

  /** `all` holds `part` at `start`. */
  ghost predicate Holds(all: seq<byte>, start: nat, part: seq<byte>) {
    start + |part| <= |all| && all[start..start + |part|] == part
  }

  lemma {:induction false} SliceWithin(all: seq<byte>, start: nat, part: seq<byte>, from: nat, end: nat)
    requires Holds(all, start, part) && from <= end <= |part|
    ensures all[start + from..start + end] == part[from..end]
  {
    forall k | from <= k < end
      ensures part[k] == all[start + k]
    {
      assert all[start..start + |part|][k] == part[k];
    }
  }

  lemma {:induction false} StandsWithin(
      data: seq<byte>, e: Entry, part: seq<byte>, o: nat, all: seq<byte>, start: nat)
    requires StandsAt(data, e, part, o) && Holds(all, start, part)
    ensures StandsAt(data, e, all, start + o)
  {
    SliceWithin(all, start, part, o, o + e.size);
    if e.cieId != 0 {
      SliceWithin(all, start, part, o, o + 4);
      SliceWithin(all, start, part, o + 8, o + e.size);
    }
  }

  lemma {:induction false} StandsWhenWritten(data: seq<byte>, e: Entry, resolved: set<nat>, before: Out, out: Out)
    requires InData(data, e) && OutOk(before) && Kept(e, resolved)
    requires WriteEntry(data, e, resolved, before) == Some(out)
    ensures StandsAt(data, e, out.bytes, |before.bytes|)
  {
    var o := |before.bytes|;
    var written := EntryBytes(data, e, resolved, before.cies, o).value;
    assert out.bytes == before.bytes + written;
    if e.cieId == 0 {
      assert written == data[e.pos..e.pos + e.size];
    } else {
      assert written[..4] == data[e.pos..e.pos + 4];
      assert written[8..] == data[e.pos + 8..e.pos + e.size];
      assert out.bytes[o..o + 4] == written[..4];
      assert out.bytes[o + 8..o + e.size] == written[8..];
    }
  }

  lemma {:induction false} KeptEntriesStand(data: seq<byte>, es: seq<Entry>, resolved: set<nat>, i: nat)
    requires AllInData(data, es) && WriteEntries(data, es, resolved).Some? && i < |es| && Kept(es[i], resolved)
    ensures StandsAt(data, es[i], WriteEntries(data, es, resolved).value.bytes, OutputPos(es, resolved, i))
  {
    var n := |es| - 1;
    var init := es[..n];
    InitInData(data, es);
    var before, out := WriteEntries(data, init, resolved).value, WriteEntries(data, es, resolved).value;
    assert Some(out) == WriteEntry(data, es[n], resolved, before);
    if i < n {
      KeptEntriesStand(data, init, resolved, i);
      assert init[..i] == es[..i];
      StandsWithin(data, es[i], before.bytes, OutputPos(es, resolved, i), out.bytes, 0);
    } else {
      StandsWhenWritten(data, es[n], resolved, before, out);
    }
  }

  // ----- The output of an object -----

  /** Where the output of section `n` starts. */
  ghost function SectionStart(inputs: seq<Section>, resolved: set<nat>, n: nat): nat
    requires AllWritten(inputs, resolved) && n <= |inputs|
  {
    if n == 0 then 0
    else SectionStart(inputs, resolved, n - 1) + |SectionOutput(inputs[n - 1].0, inputs[n - 1].1, resolved).value.0|
  }

  lemma {:induction false} OutputOfSection(inputs: seq<Section>, resolved: set<nat>, n: nat, out: seq<byte>)
    requires AllWritten(inputs, resolved) && n < |inputs|
    requires out == SectionOutput(inputs[n].0, inputs[n].1, resolved).value.0
    ensures Holds(Output(inputs, resolved).0, SectionStart(inputs, resolved, n), out)
  {
    var last := |inputs| - 1;
    var init := inputs[..last];
    if n == last {
      StartIsLength(inputs, resolved, n);
    } else {
      OutputOfSection(init, resolved, n, out);
      StartInInit(inputs, resolved, n);
      var start := SectionStart(inputs, resolved, n);
      assert Output(init, resolved).0 <= Output(inputs, resolved).0;
      assert Output(inputs, resolved).0[start..start + |out|] == Output(init, resolved).0[start..start + |out|];
    }
  }

  lemma {:induction false} StartIsLength(inputs: seq<Section>, resolved: set<nat>, n: nat)
    requires AllWritten(inputs, resolved) && n <= |inputs|
    ensures |Output(inputs[..n], resolved).0| == SectionStart(inputs, resolved, n)
  {
    if n > 0 {
      StartIsLength(inputs, resolved, n - 1);
      assert inputs[..n][..n - 1] == inputs[..n - 1];
    }
  }

  lemma {:induction false} StartInInit(inputs: seq<Section>, resolved: set<nat>, n: nat)
    requires AllWritten(inputs, resolved) && n < |inputs|
    ensures SectionStart(inputs[..|inputs| - 1], resolved, n) == SectionStart(inputs, resolved, n)
  {
    if n > 0 {
      StartInInit(inputs, resolved, n - 1);
    }
  }

  /** The pointer of the FDE at `fde`, subtracted from its own place, leads to `cie`. */
  predicate LeadsTo(bytes: seq<byte>, fde: nat, cie: nat) {
    fde + 8 <= |bytes| && fde + 4 - U32(bytes, fde + 4) == cie
  }

  lemma {:induction false} WordOf(bytes: seq<byte>, p: nat)
    requires p + 4 <= |bytes|
    ensures U32(bytes, p) == U32(bytes[p..p + 4], 0)
  {
  }

  lemma {:induction false} LeadsWithin(part: seq<byte>, fde: nat, cie: nat, all: seq<byte>, start: nat)
    requires LeadsTo(part, fde, cie) && Holds(all, start, part)
    ensures LeadsTo(all, start + fde, start + cie)
  {
    SliceWithin(all, start, part, fde + 4, fde + 8);
    WordOf(all, start + fde + 4);
    WordOf(part, fde + 4);
  }

  /** The bytes written for the entries of a section. */
  lemma {:induction false} SectionBytes(s: Section, resolved: set<nat>, es: seq<Entry>, tail: nat)
    returns (bytes: seq<byte>)
    requires SectionOutput(s.0, s.1, resolved).Some? && Parse(s.0, s.1, 0) == Parsed(es, tail)
    ensures tail <= |s.0| && AllInData(s.0, es) && WriteEntries(s.0, es, resolved).Some?
    ensures bytes == WriteEntries(s.0, es, resolved).value.bytes && |bytes| == KeptBytes(es, resolved)
    ensures SectionOutput(s.0, s.1, resolved).value.0 == bytes + s.0[tail..]
  {
    ParsedInData(s.0, s.1);
    bytes := WriteEntries(s.0, es, resolved).value.bytes;
  }

  lemma {:induction false} HoldsParts(all: seq<byte>, start: nat, a: seq<byte>, b: seq<byte>)
    requires Holds(all, start, a + b)
    ensures Holds(all, start, a) && Holds(all, start + |a|, b)
  {
    SliceWithin(all, start, a + b, 0, |a|);
    SliceWithin(all, start, a + b, |a|, |a + b|);
  }

  /** The output holds the bytes of a section's entries at the section's start, and its trailing bytes behind them. */
  lemma {:induction false} EntriesInOutput(
      inputs: seq<Section>, resolved: set<nat>, n: nat, es: seq<Entry>, tail: nat)
    returns (bytes: seq<byte>, all: seq<byte>, start: nat)
    requires AllWritten(inputs, resolved) && n < |inputs| && Parse(inputs[n].0, inputs[n].1, 0) == Parsed(es, tail)
    ensures AllInData(inputs[n].0, es) && WriteEntries(inputs[n].0, es, resolved).Some?
    ensures bytes == WriteEntries(inputs[n].0, es, resolved).value.bytes
    ensures all == Output(inputs, resolved).0 && start == SectionStart(inputs, resolved, n)
    ensures |bytes| == KeptBytes(es, resolved) && tail <= |inputs[n].0|
    ensures Holds(all, start, bytes) && Holds(all, start + |bytes|, inputs[n].0[tail..])
    ensures start + |bytes| + |inputs[n].0| - tail == SectionStart(inputs, resolved, n + 1)
  {
    bytes := SectionBytes(inputs[n], resolved, es, tail);
    var trailing := inputs[n].0[tail..];
    OutputOfSection(inputs, resolved, n, bytes + trailing);
    all, start := Output(inputs, resolved).0, SectionStart(inputs, resolved, n);
    HoldsParts(all, start, bytes, trailing);
  }

  /** In the output of the whole object, every kept entry of every section stands at its own place. */
  lemma {:induction false} EntriesStandInOutput(
      inputs: seq<Section>, resolved: set<nat>, n: nat, es: seq<Entry>, tail: nat, i: nat, all: seq<byte>, start: nat)
    requires AllWritten(inputs, resolved) && n < |inputs| && Parse(inputs[n].0, inputs[n].1, 0) == Parsed(es, tail)
    requires all == Output(inputs, resolved).0 && start == SectionStart(inputs, resolved, n)
    requires i < |es| && Kept(es[i], resolved)
    ensures StandsAt(inputs[n].0, es[i], all, start + OutputPos(es, resolved, i))
  {
    var bytes, _, _ := EntriesInOutput(inputs, resolved, n, es, tail);
    StandsInSection(inputs[n].0, es, resolved, i, bytes, all, start);
  }

  lemma {:induction false} StandsInSection(
      data: seq<byte>, es: seq<Entry>, resolved: set<nat>, i: nat, bytes: seq<byte>, all: seq<byte>, start: nat)
    requires AllInData(data, es) && WriteEntries(data, es, resolved).Some? && i < |es| && Kept(es[i], resolved)
    requires bytes == WriteEntries(data, es, resolved).value.bytes && Holds(all, start, bytes)
    ensures StandsAt(data, es[i], all, start + OutputPos(es, resolved, i))
  {
    KeptEntriesStand(data, es, resolved, i);
    StandsWithin(data, es[i], bytes, OutputPos(es, resolved, i), all, start);
  }

  /** The bytes behind the last entry of a section stand behind its kept entries, up to the next section. */
  lemma {:induction false} TrailingStandsInOutput(
      inputs: seq<Section>, resolved: set<nat>, n: nat, es: seq<Entry>, tail: nat, all: seq<byte>, start: nat)
    requires AllWritten(inputs, resolved) && n < |inputs| && Parse(inputs[n].0, inputs[n].1, 0) == Parsed(es, tail)
    requires all == Output(inputs, resolved).0 && start == SectionStart(inputs, resolved, n)
    ensures tail <= |inputs[n].0| && Holds(all, start + KeptBytes(es, resolved), inputs[n].0[tail..])
    ensures start + KeptBytes(es, resolved) + |inputs[n].0| - tail == SectionStart(inputs, resolved, n + 1)
  {
    var _, _, _ := EntriesInOutput(inputs, resolved, n, es, tail);
  }

  /** And every kept FDE there leads to the CIE that its input pointer named. */
  lemma {:induction false} FdesLeadToTheirCies(
      inputs: seq<Section>, resolved: set<nat>, n: nat, es: seq<Entry>, tail: nat, i: nat, all: seq<byte>, start: nat)
    returns (j: nat)
    requires AllWritten(inputs, resolved) && n < |inputs| && Parse(inputs[n].0, inputs[n].1, 0) == Parsed(es, tail)
    requires all == Output(inputs, resolved).0 && start == SectionStart(inputs, resolved, n)
    requires |inputs[n].0| + 4 < 0x1_0000_0000 && i < |es| && Kept(es[i], resolved) && !es[i].IsCie()
    ensures j < i && NamesCie(es, i, j)
    ensures LeadsTo(all, start + OutputPos(es, resolved, i), start + OutputPos(es, resolved, j))
    ensures StandsAt(inputs[n].0, es[j], all, start + OutputPos(es, resolved, j))
  {
    var bytes, _, _ := EntriesInOutput(inputs, resolved, n, es, tail);
    j := LeadsInSection(inputs[n].0, es, resolved, i, bytes, all, start);
  }

  lemma {:induction false} LeadsInSection(
      data: seq<byte>, es: seq<Entry>, resolved: set<nat>, i: nat, bytes: seq<byte>, all: seq<byte>, start: nat)
    returns (j: nat)
    requires |data| + 4 < 0x1_0000_0000 && AllInData(data, es) && WriteEntries(data, es, resolved).Some?
    requires bytes == WriteEntries(data, es, resolved).value.bytes && Holds(all, start, bytes)
    requires i < |es| && !es[i].IsCie() && Kept(es[i], resolved)
    ensures j < i && NamesCie(es, i, j)
    ensures LeadsTo(all, start + OutputPos(es, resolved, i), start + OutputPos(es, resolved, j))
    ensures StandsAt(data, es[j], all, start + OutputPos(es, resolved, j))
  {
    j := CieInSection(data, es, resolved, bytes, i);
    LeadsWithin(bytes, OutputPos(es, resolved, i), OutputPos(es, resolved, j), all, start);
    StandsInSection(data, es, resolved, j, bytes, all, start);
  }

  lemma {:induction false} CieInSection(data: seq<byte>, es: seq<Entry>, resolved: set<nat>, bytes: seq<byte>, i: nat)
    returns (j: nat)
    requires |data| + 4 < 0x1_0000_0000 && AllInData(data, es) && WriteEntries(data, es, resolved).Some?
    requires bytes == WriteEntries(data, es, resolved).value.bytes
    requires i < |es| && !es[i].IsCie() && Kept(es[i], resolved)
    ensures j < i && NamesCie(es, i, j) && LeadsTo(bytes, OutputPos(es, resolved, i), OutputPos(es, resolved, j))
  {
    FdesPointAtTheirCies(data, es, resolved, i);
    j :| 0 <= j < i && NamesCie(es, i, j) && PointsAt(data, es, resolved, bytes, i, j);
  }
}
