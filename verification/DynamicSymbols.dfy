/** Dynamic symbol definitions, written chunk by chunk into slices taken beforehand. */
module DynamicSymbols {
  import opened Machine
  import opened Alignments
  import opened Sequences
  import opened Wrappers

  /** `symbol` stands for every field but the name; `script` for a definition by a linker script. */
  datatype Definition = Definition(name: seq<byte>, symbol: nat, version: nat, script: bool)

  datatype Entry = Entry(stName: nat, symbol: nat)

  // ----- What one writer would write from start to end -----

  function Strings(defs: seq<Definition>): seq<byte> {
    if defs == [] then [] else Strings(defs[..|defs| - 1]) + Terminated(defs[|defs| - 1].name)
  }

  function Terminated(name: seq<byte>): seq<byte> {
    name + [0]
  }

  function Entries(defs: seq<Definition>, base: nat): (es: seq<Entry>)
    ensures |es| == |defs|
  {
    if defs == [] then []
    else
      var init := defs[..|defs| - 1];
      Entries(init, base) + [Entry(base + |Strings(init)|, defs[|defs| - 1].symbol)]
  }

  /** Linker-script definitions take no slot. */
  function TakenVersions(defs: seq<Definition>): (vs: seq<nat>)
    ensures |vs| <= |defs|
  {
    if defs == [] then []
    else TakenVersions(defs[..|defs| - 1]) + if defs[|defs| - 1].script then [] else [defs[|defs| - 1].version]
  }

  /** The version table of one chunk; slots that are never taken stay unset. */
  function VersionSlots(defs: seq<Definition>): (slots: seq<Option<nat>>)
    ensures |slots| == |defs|
  {
    var vs := TakenVersions(defs);
    seq(|defs|, i requires 0 <= i < |defs| => if i < |vs| then Some(vs[i]) else None)
  }

  function First(a: nat, b: nat): nat {
    if a < b then a else b
  }

  function ChunkedVersions(defs: seq<Definition>, size: nat): seq<Option<nat>>
    requires size > 0
  {
    if defs == [] then []
    else
      var n := First(size, |defs|);
      VersionSlots(defs[..n]) + ChunkedVersions(defs[n..], size)
  }

  lemma {:induction false} StringsConcat(a: seq<Definition>, b: seq<Definition>)
    ensures Strings(a + b) == Strings(a) + Strings(b)
  {
    if b == [] {
      assert a + b == a;
    } else {
      var init := b[..|b| - 1];
      StringsConcat(a, init);
      assert (a + b)[..|a + b| - 1] == a + init;
      Assoc(Strings(a), Strings(init), Terminated(b[|b| - 1].name));
    }
  }

  lemma {:induction false} EntriesConcat(a: seq<Definition>, b: seq<Definition>, base: nat)
    ensures Entries(a + b, base) == Entries(a, base) + Entries(b, base + |Strings(a)|)
  {
    if b == [] {
      assert a + b == a;
    } else {
      var init := b[..|b| - 1];
      EntriesConcat(a, init, base);
      StringsConcat(a, init);
      assert (a + b)[..|a + b| - 1] == a + init;
    }
  }

  lemma {:induction false} EntryAt(defs: seq<Definition>, base: nat, i: nat)
    requires i < |defs|
    ensures Entries(defs, base)[i] == Entry(base + |Strings(defs[..i])|, defs[i].symbol)
  {
    if i < |defs| - 1 {
      EntryAt(defs[..|defs| - 1], base, i);
      assert defs[..|defs| - 1][..i] == defs[..i];
    }
  }

  /** Every symbol's name offset leads to its own name and the zero byte after it. */
  lemma {:induction false} NameFound(defs: seq<Definition>, base: nat, i: nat)
    requires i < |defs|
    ensures
      var at := Entries(defs, base)[i].stName - base;
      && Entries(defs, base)[i].symbol == defs[i].symbol && 0 <= at <= at + |defs[i].name| < |Strings(defs)|
      && Strings(defs)[at..at + |defs[i].name| + 1] == defs[i].name + [0]
  {
    EntryAt(defs, base, i);
    assert defs == defs[..i + 1] + defs[i + 1..];
    StringsConcat(defs[..i + 1], defs[i + 1..]);
    assert defs[..i + 1][..i] == defs[..i];
    var s := Strings(defs[..i]);
    assert Strings(defs) == s + Terminated(defs[i].name) + Strings(defs[i + 1..]);
  }

  // ----- The writers -----

  class DynsymWriter {
    var nextOffset: nat
    var stringRoom: nat
    var strings: seq<byte>
    var entryRoom: nat
    var entries: seq<Entry>
    var versionRoom: nat
    var versions: seq<nat>

    constructor (nextOffset: nat, stringRoom: nat, entryRoom: nat)
      ensures this.nextOffset == nextOffset && this.stringRoom == stringRoom && strings == []
      ensures this.entryRoom == versionRoom == entryRoom && entries == [] && versions == []
    {
      this.nextOffset, this.stringRoom, this.entryRoom, versionRoom := nextOffset, stringRoom, entryRoom, entryRoom;
      strings, entries, versions := [], [], [];
    }

    /** A writer for the next `count` symbols and `size` string bytes; this one goes on behind them. */
    method TakePrefix(count: nat, size: nat) returns (w: DynsymWriter)
      requires count <= entryRoom && count <= versionRoom && size <= stringRoom
      modifies this
      ensures fresh(w) && w.nextOffset == old(nextOffset) && w.stringRoom == size && w.strings == []
      ensures w.entryRoom == w.versionRoom == count && w.entries == [] && w.versions == []
      ensures nextOffset == old(nextOffset) + size && stringRoom == old(stringRoom) - size
      ensures entryRoom == old(entryRoom) - count && versionRoom == old(versionRoom) - count
    {
      w := new DynsymWriter(nextOffset, size, count);
      nextOffset, stringRoom := nextOffset + size, stringRoom - size;
      entryRoom, versionRoom := entryRoom - count, versionRoom - count;
    }

    /** Returns the offset at which the string was written. */
    method WriteStr(s: seq<byte>) returns (offset: nat)
      requires |s| + 1 <= stringRoom
      modifies this`strings, this`stringRoom, this`nextOffset
      ensures offset == old(nextOffset) && nextOffset == offset + |s| + 1
      ensures stringRoom == old(stringRoom) - (|s| + 1) && strings == old(strings) + Terminated(s)
    {
      strings := strings + Terminated(s);
      stringRoom := stringRoom - (|s| + 1);
      offset := nextOffset;
      nextOffset := nextOffset + |s| + 1;
    }

    method WriteDefinition(d: Definition)
      requires entryRoom > 0 && versionRoom > 0 && |d.name| + 1 <= stringRoom
      modifies this
      ensures strings == old(strings) + Terminated(d.name) && stringRoom == old(stringRoom) - (|d.name| + 1)
      ensures nextOffset == old(nextOffset) + |d.name| + 1
      ensures entries == old(entries) + [Entry(old(nextOffset), d.symbol)] && entryRoom == old(entryRoom) - 1
      ensures versions == old(versions) + (if d.script then [] else [d.version])
      ensures versionRoom == old(versionRoom) - if d.script then 0 else 1
    {
      var offset := WriteStr(d.name);
      entryRoom := entryRoom - 1;
      entries := entries + [Entry(offset, d.symbol)];
      if !d.script {
        versionRoom := versionRoom - 1;
        versions := versions + [d.version];
      }
    }
  }

  /** Room for exactly these definitions. */
  ghost predicate MadeFor(w: DynsymWriter, defs: seq<Definition>)
    reads w
  {
    && w.entryRoom == w.versionRoom == |defs| && w.stringRoom == |Strings(defs)|
    && w.strings == [] && w.entries == [] && w.versions == []
  }

  lemma {:induction false} NextDefinition(defs: seq<Definition>, i: nat, base: nat)
    requires i < |defs|
    ensures Strings(defs[..i + 1]) == Strings(defs[..i]) + Terminated(defs[i].name)
    ensures |Strings(defs[..i + 1])| <= |Strings(defs)|
    ensures Entries(defs[..i + 1], base) ==
      Entries(defs[..i], base) + [Entry(base + |Strings(defs[..i])|, defs[i].symbol)]
    ensures TakenVersions(defs[..i + 1]) == TakenVersions(defs[..i]) + if defs[i].script then [] else [defs[i].version]
  {
    var done := defs[..i + 1];
    assert done[..i] == defs[..i];
    assert defs == done + defs[i + 1..];
    StringsConcat(done, defs[i + 1..]);
  }

  /** Fills the chunk's strings and entries exactly. */
  method WriteChunk(w: DynsymWriter, defs: seq<Definition>)
    requires MadeFor(w, defs)
    modifies w
    ensures w.strings == Strings(defs) && w.stringRoom == 0
    ensures w.entries == Entries(defs, old(w.nextOffset)) && w.entryRoom == 0
    ensures w.versions == TakenVersions(defs)
  {
    ghost var base := w.nextOffset;
    for i := 0 to |defs|
      invariant w.strings == Strings(defs[..i]) && w.nextOffset == base + |w.strings|
      invariant w.stringRoom == |Strings(defs)| - |w.strings|
      invariant w.entries == Entries(defs[..i], base) && w.entryRoom == |defs| - i
      invariant w.versions == TakenVersions(defs[..i]) && w.versionRoom == |defs| - |w.versions|
    {
      NextDefinition(defs, i, base);
      w.WriteDefinition(defs[i]);
    }
    assert defs[..|defs|] == defs;
  }

  function SlotsOf(versions: seq<nat>, count: nat): (slots: seq<Option<nat>>)
    ensures |slots| == count
  {
    seq(count, i requires 0 <= i < count => if i < |versions| then Some(versions[i]) else None)
  }

  method StringSize(defs: seq<Definition>) returns (n: nat)
    ensures n == |Strings(defs)|
  {
    n := 0;
    for i := 0 to |defs|
      invariant n == |Strings(defs[..i])|
    {
      NextDefinition(defs, i, 0);
      n := n + |defs[i].name| + 1;
    }
    assert defs[..|defs|] == defs;
  }

  /** What remains to be written fits what remains to write into. */
  ghost predicate RoomFor(w: DynsymWriter, defs: seq<Definition>)
    reads w
  {
    w.entryRoom == w.versionRoom == |defs| && w.stringRoom == |Strings(defs)|
  }

  /** What has been written for `done`. */
  ghost predicate Written(base: nat, done: seq<Definition>, dynsym: seq<Entry>, dynstr: seq<byte>) {
    dynsym == Entries(done, base) && dynstr == Strings(done)
  }

  lemma {:induction false} WrittenNext(
      base: nat, done: seq<Definition>, chunk: seq<Definition>, dynsym: seq<Entry>, dynstr: seq<byte>,
      start: nat, es: seq<Entry>, strings: seq<byte>)
    requires Written(base, done, dynsym, dynstr) && start == base + |dynstr|
    requires es == Entries(chunk, start) && strings == Strings(chunk)
    ensures Written(base, done + chunk, dynsym + es, dynstr + strings)
  {
    StringsConcat(done, chunk);
    EntriesConcat(done, chunk, base);
  }

  ghost predicate VersionsSoFar(defs: seq<Definition>, size: nat, rest: seq<Definition>, versym: seq<Option<nat>>)
    requires size > 0
  {
    ChunkedVersions(defs, size) == versym + ChunkedVersions(rest, size)
  }

  lemma {:induction false} VersionsNext(
      defs: seq<Definition>, size: nat, rest: seq<Definition>, versym: seq<Option<nat>>, n: nat)
    requires size > 0 && rest != [] && n == First(size, |rest|) && VersionsSoFar(defs, size, rest, versym)
    ensures VersionsSoFar(defs, size, rest[n..], versym + VersionSlots(rest[..n]))
  {
    Assoc(versym, VersionSlots(rest[..n]), ChunkedVersions(rest[n..], size));
  }

  /** Strings and entries come out as if written in one go, whatever the chunk size. */
  method WriteDynamicSymbolDefinitions(w: DynsymWriter, defs: seq<Definition>, chunkSize: nat)
    returns (dynsym: seq<Entry>, dynstr: seq<byte>, versym: seq<Option<nat>>)
    requires chunkSize > 0 && RoomFor(w, defs)
    modifies w
    ensures dynsym == Entries(defs, old(w.nextOffset)) && dynstr == Strings(defs)
    ensures versym == ChunkedVersions(defs, chunkSize) && RoomFor(w, [])
  {
    ghost var base := w.nextOffset;
    dynsym, dynstr, versym := [], [], [];
    var rest := defs;
    ghost var done: seq<Definition> := [];
    assert versym + ChunkedVersions(defs, chunkSize) == ChunkedVersions(defs, chunkSize);
    while rest != []
      invariant done + rest == defs && Written(base, done, dynsym, dynstr)
      invariant VersionsSoFar(defs, chunkSize, rest, versym)
      invariant RoomFor(w, rest) && w.nextOffset == base + |dynstr|
      decreases |rest|
    {
      var n := First(chunkSize, |rest|);
      var chunk, later := rest[..n], rest[n..];
      VersionsNext(defs, chunkSize, rest, versym, n);
      RestSplits(defs, done, rest, chunk, later, n);
      ghost var start := w.nextOffset;
      var es, strings, slots := WriteNext(w, chunk, later);
      WrittenNext(base, done, chunk, dynsym, dynstr, start, es, strings);
      dynsym, dynstr, versym := dynsym + es, dynstr + strings, versym + slots;
      done, rest := done + chunk, later;
    }
    assert done == defs;
  }

  lemma {:induction false} RestSplits(
      defs: seq<Definition>, done: seq<Definition>, rest: seq<Definition>, chunk: seq<Definition>,
      later: seq<Definition>, n: nat)
    requires done + rest == defs && n <= |rest| && chunk == rest[..n] && later == rest[n..]
    ensures rest == chunk + later && done + chunk + later == defs
  {
  }

  method WriteNext(w: DynsymWriter, chunk: seq<Definition>, ghost later: seq<Definition>)
    returns (es: seq<Entry>, strings: seq<byte>, slots: seq<Option<nat>>)
    requires RoomFor(w, chunk + later)
    modifies w
    ensures RoomFor(w, later) && w.nextOffset == old(w.nextOffset) + |strings|
    ensures es == Entries(chunk, old(w.nextOffset)) && strings == Strings(chunk)
    ensures slots == VersionSlots(chunk)
  {
    StringsConcat(chunk, later);
    var size := StringSize(chunk);
    var part := w.TakePrefix(|chunk|, size);
    WriteChunk(part, chunk);
    es, strings := part.entries, part.strings;
    slots := SlotsOf(part.versions, |chunk|);
  }

  // ----- Which slot a version gets -----

  ghost predicate NoScripts(defs: seq<Definition>) {
    forall i :: 0 <= i < |defs| ==> !defs[i].script
  }

  /** The slot that definition `i` of a chunk takes. */
  function SlotIndex(defs: seq<Definition>, i: nat): nat
    requires i <= |defs|
  {
    |TakenVersions(defs[..i])|
  }

  lemma {:induction false} SlotHolds(defs: seq<Definition>, i: nat)
    requires i < |defs| && !defs[i].script
    ensures SlotIndex(defs, i) < |TakenVersions(defs)| && TakenVersions(defs)[SlotIndex(defs, i)] == defs[i].version
  {
    var init := defs[..|defs| - 1];
    if i < |init| {
      SlotHolds(init, i);
      assert init[..i] == defs[..i];
    }
  }

  lemma {:induction false} SlotIsOwn(defs: seq<Definition>, i: nat)
    requires i <= |defs|
    ensures SlotIndex(defs, i) <= i
    ensures SlotIndex(defs, i) == i <==> NoScripts(defs[..i])
  {
    if i > 0 {
      var done := defs[..i];
      assert done[..i - 1] == defs[..i - 1];
      SlotIsOwn(defs, i - 1);
      if NoScripts(defs[..i - 1]) && !defs[i - 1].script {
        assert NoScripts(done);
      }
      if NoScripts(done) {
        assert forall j :: 0 <= j < i - 1 ==> defs[..i - 1][j] == done[j];
        assert !done[i - 1].script;
      }
    }
  }

  /**
    * A symbol's version goes to the slot with the symbol's own index exactly if no linker-script
    * definition comes before it in its chunk.
    */
  lemma {:induction false} VersionSlotIffNoScript(defs: seq<Definition>, i: nat)
    requires i < |defs| && !defs[i].script
    ensures SlotIndex(defs, i) < |defs| && VersionSlots(defs)[SlotIndex(defs, i)] == Some(defs[i].version)
    ensures SlotIndex(defs, i) == i <==> NoScripts(defs[..i])
  {
    SlotHolds(defs, i);
    SlotIsOwn(defs, i);
  }

  lemma {:induction false} AllTaken(defs: seq<Definition>)
    ensures |TakenVersions(defs)| == |defs| <==> NoScripts(defs)
  {
    SlotIsOwn(defs, |defs|);
    assert defs[..|defs|] == defs;
  }

  /** The chunk that starts at `start` is one of those of `size`, and holds definition `i`. */
  predicate InChunk(size: nat, start: nat, i: nat)
    requires size > 0
  {
    start % size == 0 && start <= i < start + size
  }

  lemma {:induction false} EarlierChunk(size: nat, start: nat, i: nat)
    requires size > 0 && InChunk(size, start, i) && start > 0
    ensures size <= start && InChunk(size, start - size, i - size)
  {
    var q := start / size;
    assert start == q * size;
    assert start - size == (q - 1) * size + 0;
    RemainderUnique(start - size, q - 1, 0, size);
    MulMonotone(1, q, size);
  }

  /** Where a definition's version goes in the whole table. */
  lemma {:induction false} TableSlotHolds(
      defs: seq<Definition>, size: nat, start: nat, i: nat, table: seq<Option<nat>>, before: seq<Definition>)
    requires size > 0 && i < |defs| && InChunk(size, start, i) && !defs[i].script
    requires table == ChunkedVersions(defs, size) && before == defs[start..i]
    ensures |table| == |defs| && table[start + |TakenVersions(before)|] == Some(defs[i].version)
    decreases start
  {
    var n := First(size, |defs|);
    var chunk, rest := defs[..n], defs[n..];
    ChunkedLength(rest, size);
    if start == 0 {
      VersionSlotIffNoScript(chunk, i);
      assert chunk[..i] == before;
    } else {
      EarlierChunk(size, start, i);
      assert rest[start - n..i - n] == before;
      TableSlotHolds(rest, size, start - n, i - n, ChunkedVersions(rest, size), before);
    }
  }

  /**
    * In the whole table, for every chunk size: a symbol's version goes to the slot with the symbol's
    * own index exactly if no linker-script definition comes before it in its chunk.
    */
  lemma {:induction false} TableSlotIffNoScript(defs: seq<Definition>, size: nat, start: nat, i: nat, slot: nat)
    requires size > 0 && i < |defs| && InChunk(size, start, i) && !defs[i].script
    requires slot == start + |TakenVersions(defs[start..i])|
    ensures slot < |ChunkedVersions(defs, size)| == |defs|
    ensures ChunkedVersions(defs, size)[slot] == Some(defs[i].version)
    ensures slot == i <==> NoScripts(defs[start..i])
  {
    TableSlotHolds(defs, size, start, i, ChunkedVersions(defs, size), defs[start..i]);
    AllTaken(defs[start..i]);
  }

  /** Without linker-script definitions the version table is the same for every chunk size. */
  lemma {:induction false} ChunkedVersionsOwn(defs: seq<Definition>, size: nat, i: nat)
    requires size > 0 && NoScripts(defs) && i < |defs|
    ensures |ChunkedVersions(defs, size)| == |defs| && ChunkedVersions(defs, size)[i] == Some(defs[i].version)
  {
    var start := ChunkStart(size, i);
    TableSlotIffNoScript(defs, size, start, i, start + |TakenVersions(defs[start..i])|);
  }

  lemma {:induction false} ChunkStart(size: nat, i: nat) returns (start: nat)
    requires size > 0
    ensures InChunk(size, start, i)
  {
    var q := i / size;
    assert i == q * size + i % size;
    assert q * size >= 0;
    start := q * size;
    MultipleMod(q, size);
  }

  lemma {:induction false} ChunkedLength(defs: seq<Definition>, size: nat)
    requires size > 0
    ensures |ChunkedVersions(defs, size)| == |defs|
  {
    if defs != [] {
      ChunkedLength(defs[First(size, |defs|)..], size);
    }
  }

  /** A definition by a linker script hands its slot to the symbol after it. */
  lemma {:induction false} ScriptShiftsVersions(script: Definition, plain: Definition, size: nat)
    requires script.script && !plain.script && size >= 10
    ensures ChunkedVersions([script, plain], size) == [Some(plain.version), None]
  {
    var defs := [script, plain];
    assert defs[..2] == defs && defs[..1] == [script] && [script][..0] == [] && defs[2..] == [];
    assert TakenVersions([script]) == [];
    assert TakenVersions(defs) == [plain.version];
  }
}
