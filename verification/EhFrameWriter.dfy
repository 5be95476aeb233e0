/**
 `.eh_frame` at write time: dropping the FDEs of sections that were not loaded,
 closing the gaps, and pointing each FDE at the new place of its CIE.
 */
module EhFrameWriters {
  import opened Machine
  import opened Wrappers
  import opened EhFrame

  /** The section of an FDE as the writer finds it: it looks at the first relocation only. */
  function WriterTarget(e: Entry): Option<nat> {
    if e.rels != [] && IsPcBegin(e, e.rels[0]) && e.rels[0].symbol.Some? then e.rels[0].symbol.value.section else None
  }

  /** A pc-begin that is absolute, or against a symbol that this file does not define, is an error. */
  predicate BadPcBegin(e: Entry) {
    e.rels != [] && IsPcBegin(e, e.rels[0]) && WriterTarget(e).None?
  }

  /** `resolved` holds the sections that have an address and are not empty. */
  predicate Kept(e: Entry, resolved: set<nat>) {
    e.IsCie() || (WriterTarget(e).Some? && WriterTarget(e).value in resolved)
  }

  /** The bytes so far, the output position of each CIE by input position, and the number of FDEs kept. */
  datatype Out = Out(bytes: seq<byte>, cies: map<nat, nat>, fdes: nat)

  const NOTHING := Out([], map[], 0)

  predicate InData(data: seq<byte>, e: Entry) {
    e.pos + e.size <= |data|
  }

  function Copied(data: seq<byte>, e: Entry): seq<byte>
    requires InData(data, e)
  {
    data[e.pos..e.pos + e.size]
  }

  /** An FDE with its CIE pointer, bytes 4 to 8, replaced. */
  function Rewritten(data: seq<byte>, e: Entry, pointer: nat): (b: seq<byte>)
    requires InData(data, e) && e.size >= 8 && pointer < 0x1_0000_0000
    ensures |b| == e.size
  {
    data[e.pos..e.pos + 4] + LeBytes(pointer) + data[e.pos + 8..e.pos + e.size]
  }

  /** CIE positions lie in what has been written. */
  ghost predicate CiesOk(cies: map<nat, nat>, pos: nat) {
    forall p :: p in cies ==> cies[p] <= pos
  }

  /** The input position that an FDE's pointer names, in 32 bits; negative where the subtraction fails. */
  function CiePos(e: Entry): int {
    Wrap32(e.pos + 4) - e.cieId
  }

  /** The distance from the pointer of an FDE at `pos` back to its CIE, in 32 bits. */
  function CiePointer(pos: nat, cie: nat): (r: nat)
    ensures r < 0x1_0000_0000
  {
    Wrap32(pos + 4 - cie)
  }

  /** The bytes that one entry adds at output position `pos`; `None` where the writer reports an error. */
  ghost function EntryBytes(
      data: seq<byte>, e: Entry, resolved: set<nat>, cies: map<nat, nat>, pos: nat): (r: Option<seq<byte>>)
    requires InData(data, e)
    ensures r.Some? ==> |r.value| == if Kept(e, resolved) then e.size else 0
  {
    if e.IsCie() then Some(Copied(data, e))
    else if BadPcBegin(e) then None
    else if !Kept(e, resolved) then Some([])
    else if CiePos(e) < 0 || CiePos(e) !in cies || e.size < 8 then None
    else Some(Rewritten(data, e, CiePointer(pos, cies[CiePos(e)])))
  }

  function NextCies(e: Entry, cies: map<nat, nat>, pos: nat): map<nat, nat> {
    if e.IsCie() then cies[Wrap32(e.pos) := Wrap32(pos)] else cies
  }

  function KeptFde(e: Entry, resolved: set<nat>): nat {
    if Kept(e, resolved) && !e.IsCie() then 1 else 0
  }

  ghost predicate OutOk(out: Out) {
    CiesOk(out.cies, |out.bytes|)
  }

  ghost function WriteEntry(data: seq<byte>, e: Entry, resolved: set<nat>, out: Out): (r: Option<Out>)
    requires InData(data, e) && OutOk(out)
    ensures r.Some? ==> OutOk(r.value) && out.bytes <= r.value.bytes
    ensures r.Some? ==> |r.value.bytes| == |out.bytes| + if Kept(e, resolved) then e.size else 0
  {
    var r := EntryBytes(data, e, resolved, out.cies, |out.bytes|);
    if r.None? then None
    else Some(Out(out.bytes + r.value, NextCies(e, out.cies, |out.bytes|), out.fdes + KeptFde(e, resolved)))
  }

  /** The bytes of the kept entries: what the output needs. */
  function KeptBytes(es: seq<Entry>, resolved: set<nat>): nat {
    if es == [] then 0
    else KeptBytes(es[..|es| - 1], resolved) + if Kept(es[|es| - 1], resolved) then es[|es| - 1].size else 0
  }

  function KeptFdes(es: seq<Entry>, resolved: set<nat>): nat {
    if es == [] then 0
    else
      KeptFdes(es[..|es| - 1], resolved) + KeptFde(es[|es| - 1], resolved)
  }

  ghost predicate AllInData(data: seq<byte>, es: seq<Entry>) {
    && (forall i :: 0 <= i < |es| ==> InData(data, es[i]))
    && TotalSize(es) <= |data|
  }

  function TotalSize(es: seq<Entry>): nat {
    if es == [] then 0 else TotalSize(es[..|es| - 1]) + es[|es| - 1].size
  }

  lemma {:induction false} KeptFits(es: seq<Entry>, resolved: set<nat>)
    ensures KeptBytes(es, resolved) <= TotalSize(es)
  {
    if es != [] {
      KeptFits(es[..|es| - 1], resolved);
    }
  }

  ghost function WriteEntries(data: seq<byte>, es: seq<Entry>, resolved: set<nat>): (r: Option<Out>)
    requires AllInData(data, es)
    ensures r.Some? ==> OutOk(r.value)
    ensures r.Some? ==> |r.value.bytes| == KeptBytes(es, resolved) && r.value.fdes == KeptFdes(es, resolved)
  {
    if es == [] then Some(NOTHING)
    else
      var init := es[..|es| - 1];
      var r := WriteEntries(data, init, resolved);
      KeptFits(init, resolved);
      if r.None? then None else WriteEntry(data, es[|es| - 1], resolved, r.value)
  }

  lemma {:induction false} SplitInData(data: seq<byte>, rels: seq<Rel>, es: seq<Entry>, next: nat, pos: nat)
    requires Split(data, rels, es, next, pos) && pos <= |data|
    ensures TotalSize(es) == pos && AllInData(data, es)
    decreases |es|
  {
    if es != [] {
      var n, e := |es| - 1, es[|es| - 1];
      SplitInData(data, rels, es[..n], next - |e.rels|, e.pos);
      assert forall i :: 0 <= i < n ==> es[i] == es[..n][i];
    }
  }

  /** Bytes and kept FDEs that one `.eh_frame` section contributes; `None` if it is malformed. */
  ghost function SectionOutput(data: seq<byte>, rels: seq<Rel>, resolved: set<nat>): Option<(seq<byte>, nat)>
  {
    match Parse(data, rels, 0)
    case Malformed => None
    case Parsed(es, tail) =>
      ParsedInData(data, rels);
      var r := WriteEntries(data, es, resolved);
      if r.None? then None else Some((r.value.bytes + data[tail..], r.value.fdes))
  }

  lemma {:induction false} TotalSizeFront(e: Entry, es: seq<Entry>)
    ensures TotalSize([e] + es) == e.size + TotalSize(es)
  {
    if es == [] {
      assert [e] + es == [e];
    } else {
      var init := es[..|es| - 1];
      TotalSizeFront(e, init);
      assert ([e] + es)[..|es|] == [e] + init;
    }
  }

  lemma {:induction false} ParseInData(data: seq<byte>, rels: seq<Rel>, pos: nat)
    requires pos <= |data|
    ensures
      match Parse(data, rels, pos)
      case Malformed => true
      case Parsed(es, tail) =>
        (forall i :: 0 <= i < |es| ==> InData(data, es[i])) && pos + TotalSize(es) == tail <= |data|
    decreases |data| - pos
  {
    if pos + PREFIX_LEN <= |data| && pos + SizeAt(data, pos) <= |data| {
      var e := EntryAt(data, rels, pos);
      var rest := Parse(data, rels[|e.rels|..], pos + e.size);
      ParseInData(data, rels[|e.rels|..], pos + e.size);
      if rest.Parsed? {
        TotalSizeFront(e, rest.entries);
      }
    }
  }

  lemma {:induction false} ParsedInData(data: seq<byte>, rels: seq<Rel>)
    ensures
      match Parse(data, rels, 0)
      case Malformed => true
      case Parsed(es, tail) => AllInData(data, es) && TotalSize(es) == tail <= |data|
  {
    ParseInData(data, rels, 0);
  }

  lemma {:induction false} WritesPrefix(data: seq<byte>, es: seq<Entry>, resolved: set<nat>, n: nat)
    requires AllInData(data, es) && n <= |es|
    ensures AllInData(data, es[..n])
    ensures
      var a, b := WriteEntries(data, es[..n], resolved), WriteEntries(data, es, resolved);
      b.Some? ==> a.Some? && a.value.bytes <= b.value.bytes
  {
    if n == |es| {
      assert es[..n] == es;
    } else {
      var init := es[..|es| - 1];
      assert init[..n] == es[..n];
      WritesPrefix(data, init, resolved, n);
    }
  }

  /** What has been written for the entries read so far is a prefix of the section's output. */
  lemma {:induction false} OutputExtends(
      data: seq<byte>, rels: seq<Rel>, resolved: set<nat>, es: seq<Entry>, next: nat, pos: nat)
    requires Split(data, rels, es, next, pos) && next <= |rels| && pos <= |data|
    ensures AllInData(data, es)
    ensures
      var whole, part := SectionOutput(data, rels, resolved), WriteEntries(data, es, resolved);
      whole.Some? ==> part.Some? && part.value.bytes <= whole.value.0
  {
    SplitInData(data, rels, es, next, pos);
    SplitParses(data, rels, es, next, pos);
    ParsedInData(data, rels);
    var p := Parse(data, rels, 0);
    if p.Parsed? {
      assert p.entries[..|es|] == es;
      WritesPrefix(data, p.entries, resolved, |es|);
    }
  }

  // ----- The code -----

  class EhFrameWriter {
    const capacity: nat
    const hdrCapacity: nat
    var ehFrame: seq<byte>
    var hdrEntries: nat

    ghost predicate Valid()
      reads this
    {
      |ehFrame| <= capacity && hdrEntries <= hdrCapacity
    }

    constructor (capacity: nat, hdrCapacity: nat)
      ensures Valid() && this.capacity == capacity && this.hdrCapacity == hdrCapacity
      ensures ehFrame == [] && hdrEntries == 0
    {
      this.capacity, this.hdrCapacity, ehFrame, hdrEntries := capacity, hdrCapacity, [], 0;
    }

    method TakeEhFrameData(bytes: seq<byte>) returns (ok: bool)
      requires Valid()
      modifies this`ehFrame
      ensures Valid()
      ensures ok <==> |old(ehFrame)| + |bytes| <= capacity
      ensures ehFrame == if ok then old(ehFrame) + bytes else old(ehFrame)
    {
      ok := |ehFrame| + |bytes| <= capacity;
      if ok {
        ehFrame := ehFrame + bytes;
      }
    }

    /** Takes a search-table entry, or silently none when the table is full. */
    method TakeEhFrameHdrEntry()
      requires Valid()
      modifies this`hdrEntries
      ensures Valid()
      ensures hdrEntries == Min(old(hdrEntries) + 1, hdrCapacity)
    {
      if hdrEntries < hdrCapacity {
        hdrEntries := hdrEntries + 1;
      }
    }

    /** One `.eh_frame` section of the object. */
    method WriteEhFrameRelocations(data: seq<byte>, rels: seq<Rel>, resolved: set<nat>) returns (ok: bool)
      requires Valid()
      modifies this
      ensures Valid()
      ensures
        var out := SectionOutput(data, rels, resolved);
        && (ok <==> out.Some? && |old(ehFrame)| + |out.value.0| <= capacity)
        && (ok ==> ehFrame == old(ehFrame) + out.value.0)
        && (ok ==> hdrEntries == Min(old(hdrEntries) + out.value.1, hdrCapacity))
    {
      var inputPos;
      ghost var out, seen, next;
      ok, inputPos, out, seen, next := WriteKeptEntries(data, rels, resolved);
      if ok {
        ProgressEnds(data, rels, resolved, seen, next, inputPos, out);
        ok := TakeEhFrameData(data[inputPos..]);
      }
    }

    method WriteKeptEntries(data: seq<byte>, rels: seq<Rel>, resolved: set<nat>)
      returns (ok: bool, inputPos: nat, ghost out: Out, ghost seen: seq<Entry>, ghost relsUsed: nat)
      requires Valid()
      modifies this
      ensures Valid()
      ensures !ok ==> Doomed(data, rels, resolved, |old(ehFrame)|, capacity)
      ensures ok ==>
        && Progress(data, rels, resolved, seen, relsUsed, inputPos, out) && inputPos + PREFIX_LEN > |data|
        && ehFrame == old(ehFrame) + out.bytes && hdrEntries == Min(old(hdrEntries) + out.fdes, hdrCapacity)
    {
      var outputPos: nat, next: nat := 0, 0;
      var cies: map<nat, nat> := map[];
      ghost var start, hdrStart := ehFrame, hdrEntries;
      inputPos, out, seen, relsUsed := 0, NOTHING, [], 0;
      while inputPos + PREFIX_LEN <= |data|
        invariant Valid() && next == relsUsed && Progress(data, rels, resolved, seen, relsUsed, inputPos, out)
        invariant cies == out.cies && outputPos == |out.bytes|
        invariant ehFrame == start + out.bytes && hdrEntries == Min(hdrStart + out.fdes, hdrCapacity)
        decreases |data| - inputPos
      {
        var size := SizeAt(data, inputPos);
        if inputPos + size > |data| {
          DoomedByData(data, rels, resolved, seen, next, inputPos, |start|, capacity);
          ok := false;
          return;
        }
        ghost var e, out';
        ok, cies, outputPos, next, e, out' :=
          WriteNextEntry(data, rels, resolved, cies, outputPos, next, inputPos, size, start, hdrStart, seen, out);
        if !ok {
          return;
        }
        out, seen, relsUsed, inputPos := out', seen + [e], next, inputPos + size;
      }
      ok := true;
    }

    method WriteNextEntry(data: seq<byte>, rels: seq<Rel>, resolved: set<nat>, cies: map<nat, nat>, outputPos: nat,
        next: nat, inputPos: nat, size: nat,
        ghost start: seq<byte>, ghost hdrStart: nat, ghost seen: seq<Entry>, ghost out: Out)
      returns (ok: bool, cies': map<nat, nat>, outputPos': nat, end: nat, ghost e: Entry, ghost out': Out)
      requires Valid() && Progress(data, rels, resolved, seen, next, inputPos, out)
      requires inputPos + PREFIX_LEN <= |data| && size == SizeAt(data, inputPos) && inputPos + size <= |data|
      requires cies == out.cies && outputPos == |out.bytes|
      requires ehFrame == start + out.bytes && hdrEntries == Min(hdrStart + out.fdes, hdrCapacity)
      modifies this
      ensures Valid()
      ensures !ok ==> Doomed(data, rels, resolved, |start|, capacity)
      ensures ok ==> Progress(data, rels, resolved, seen + [e], end, inputPos + size, out')
      ensures ok ==> cies' == out'.cies && outputPos' == |out'.bytes|
      ensures ok ==> ehFrame == start + out'.bytes && hdrEntries == Min(hdrStart + out'.fdes, hdrCapacity)
    {
      var entry;
      entry, end := ReadEntry(data, rels, next, inputPos, size);
      e := entry;
      ghost var r := ProgressNext(data, rels, resolved, seen, next, inputPos, out, e, |start|, capacity);
      ok, cies', outputPos' := WriteStep(data, entry, resolved, cies, outputPos, start, hdrStart, out, r);
      out' := if r.Some? then r.value else out;
    }

    method WriteStep(data: seq<byte>, e: Entry, resolved: set<nat>, cies: map<nat, nat>, outputPos: nat,
        ghost start: seq<byte>, ghost hdrStart: nat, ghost out: Out, ghost out': Option<Out>)
      returns (ok: bool, cies': map<nat, nat>, outputPos': nat)
      requires Valid() && InData(data, e) && OutOk(out)
      requires cies == out.cies && outputPos == |out.bytes| && out' == WriteEntry(data, e, resolved, out)
      requires ehFrame == start + out.bytes && hdrEntries == Min(hdrStart + out.fdes, hdrCapacity)
      modifies this
      ensures Valid()
      ensures ok <==> out'.Some? && |start| + |out'.value.bytes| <= capacity
      ensures ok ==> ehFrame == start + out'.value.bytes && hdrEntries == Min(hdrStart + out'.value.fdes, hdrCapacity)
      ensures ok ==> cies' == out'.value.cies && outputPos' == |out'.value.bytes|
    {
      ok := WriteOne(data, e, resolved, cies, outputPos);
      cies' := NextCies(e, cies, outputPos);
      outputPos' := if Kept(e, resolved) then outputPos + e.size else outputPos;
    }

    /** Writes one entry at position `outputPos` of this section's output. */
    method WriteOne(data: seq<byte>, e: Entry, resolved: set<nat>, cies: map<nat, nat>, outputPos: nat)
      returns (ok: bool)
      requires Valid() && InData(data, e) && CiesOk(cies, outputPos)
      modifies this
      ensures Valid()
      ensures
        var r := EntryBytes(data, e, resolved, cies, outputPos);
        && (ok <==> r.Some? && |old(ehFrame)| + |r.value| <= capacity)
        && (ok ==> ehFrame == old(ehFrame) + r.value)
        && (ok ==> hdrEntries == Min(old(hdrEntries) + KeptFde(e, resolved), hdrCapacity))
    {
      if e.IsCie() {
        ok := TakeEhFrameData(Copied(data, e));
      } else if BadPcBegin(e) {
        ok := false;
      } else if !Kept(e, resolved) {
        ok := true;
      } else if CiePos(e) < 0 {
        ok := false;
      } else {
        var inputCiePos := CiePos(e);
        TakeEhFrameHdrEntry();
        if inputCiePos !in cies || e.size < 8 {
          return false;
        }
        ok := TakeEhFrameData(Rewritten(data, e, CiePointer(outputPos, cies[inputCiePos])));
      }
    }
  }

  method ReadEntry(data: seq<byte>, rels: seq<Rel>, next: nat, pos: nat, size: nat) returns (e: Entry, end: nat)
    requires next <= |rels| && pos + PREFIX_LEN <= |data| && size == SizeAt(data, pos)
    ensures e == EntryAt(data, rels[next..], pos) && end == next + |e.rels|
  {
    end := SkipRelocations(rels, next, pos + size);
    e := Entry(pos, size, U32(data, pos + 4), rels[next..end]);
    assert rels[next..end] == rels[next..][..end - next];
  }

  /** The entries up to `pos` have been read, and `out` is what was written for them. */
  ghost predicate Progress(
      data: seq<byte>, rels: seq<Rel>, resolved: set<nat>, es: seq<Entry>, next: nat, pos: nat, out: Out)
  {
    && pos <= |data| && next <= |rels|
    && Split(data, rels, es, next, pos) && AllInData(data, es)
    && WriteEntries(data, es, resolved) == Some(out)
    && OutOk(out) && |out.bytes| <= |data|
  }

  /** Writing the section after `before` other bytes cannot succeed. */
  ghost predicate Doomed(data: seq<byte>, rels: seq<Rel>, resolved: set<nat>, before: nat, capacity: nat)
  {
    var out := SectionOutput(data, rels, resolved);
    out.None? || before + |out.value.0| > capacity
  }

  lemma {:induction false} DoomedByData(
      data: seq<byte>, rels: seq<Rel>, resolved: set<nat>, es: seq<Entry>, next: nat, pos: nat, before: nat,
      capacity: nat)
    requires Split(data, rels, es, next, pos) && next <= |rels|
    requires pos + PREFIX_LEN <= |data| && pos + SizeAt(data, pos) > |data|
    ensures Doomed(data, rels, resolved, before, capacity)
  {
    SplitFails(data, rels, es, next, pos);
  }

  /** Reading one more entry; if it fails or does not fit, neither does the section. */
  lemma {:induction false} ProgressNext(data: seq<byte>, rels: seq<Rel>, resolved: set<nat>,
      es: seq<Entry>, next: nat, pos: nat, out: Out, e: Entry, before: nat, capacity: nat)
    returns (out': Option<Out>)
    requires Progress(data, rels, resolved, es, next, pos, out)
    requires pos + PREFIX_LEN <= |data| && pos + SizeAt(data, pos) <= |data| && e == EntryAt(data, rels[next..], pos)
    ensures InData(data, e) && e.size == SizeAt(data, pos)
    ensures out' == WriteEntry(data, e, resolved, out)
    ensures out'.Some? ==>
      Progress(data, rels, resolved, es + [e], next + |e.rels|, pos + SizeAt(data, pos), out'.value)
    ensures out'.None? || before + |out'.value.bytes| > capacity ==> Doomed(data, rels, resolved, before, capacity)
  {
    SplitNext(data, rels, es, next, pos, e);
    OutputExtends(data, rels, resolved, es + [e], next + |e.rels|, pos + e.size);
    WriteNext(data, es, e, resolved, out);
    out' := WriteEntry(data, e, resolved, out);
    KeptFits(es + [e], resolved);
  }

  lemma {:induction false} ProgressEnds(
      data: seq<byte>, rels: seq<Rel>, resolved: set<nat>, es: seq<Entry>, next: nat, pos: nat, out: Out)
    requires Progress(data, rels, resolved, es, next, pos, out) && pos + PREFIX_LEN > |data|
    ensures SectionOutput(data, rels, resolved) == Some((out.bytes + data[pos..], out.fdes))
  {
    SplitEnds(data, rels, es, next, pos);
  }

  lemma {:induction false} WriteNext(data: seq<byte>, es: seq<Entry>, e: Entry, resolved: set<nat>, out: Out)
    requires AllInData(data, es) && AllInData(data, es + [e])
    requires WriteEntries(data, es, resolved) == Some(out)
    ensures |out.bytes| <= |data| && WriteEntries(data, es + [e], resolved) == WriteEntry(data, e, resolved, out)
  {
    assert (es + [e])[..|es|] == es;
    KeptFits(es, resolved);
  }

  function Min(a: nat, b: nat): nat {
    if a < b then a else b
  }
}
