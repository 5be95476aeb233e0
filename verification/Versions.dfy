/** Symbol-version indexes for shared objects: marking, counting, numbering and writing. */
module Versions {
  import opened Sequences
  import opened Wrappers

  /** `name` is missing when the definition has no auxiliary entry. */
  datatype Verdef = Verdef(index: nat, base: bool, name: Option<string>)

  /** `used` are the symbols that the link refers to, as indexes into `versym`. */
  datatype Library = Library(name: string, verdefNum: nat, verdefs: seq<Verdef>, versym: seq<nat>, used: seq<nat>)

  /** Names stand for their offsets in the string table. */
  datatype Vernaux = Vernaux(other: nat, name: string)

  /** `auxNext` and `next` are the byte distances to the following Vernaux and Verneed, 0 at the end. */
  datatype Verneed = Verneed(file: Option<string>, auxes: seq<Vernaux>, auxNext: seq<nat>, next: nat)

  /** What sizing a library adds: its number of versions, string bytes and record bytes. */
  datatype Counted = Counted(count: nat, strings: nat, records: nat)

  datatype Failure = InvalidVersion | MissingName | TooManyVersions | InsufficientSpace

  const GLOBAL: nat := 1

  function VersionOf(raw: nat): nat {
    raw % 0x8000
  }

  /** The top bit only says that the symbol is hidden. */
  lemma {:induction false} HiddenBitIsIgnored(v: nat)
    requires v < 0x8000
    ensures VersionOf(v) == v && VersionOf(0x8000 + v) == v
  {
  }

  // ----- Marking -----

  /** Symbol `u` of the library has version `v`, which is neither local nor global. */
  ghost predicate HasVersion(lib: Library, u: nat, v: int) {
    u < |lib.versym| && VersionOf(lib.versym[u]) == v && v > GLOBAL
  }

  ghost predicate Uses(lib: Library, v: int) {
    exists k :: 0 <= k < |lib.used| && HasVersion(lib, lib.used[k], v)
  }

  ghost function NeededOf(lib: Library): (needed: seq<bool>)
    ensures |needed| == lib.verdefNum
  {
    seq(lib.verdefNum, i => Uses(lib, i + 1))
  }

  ghost predicate VersionsKnown(lib: Library) {
    forall v :: Uses(lib, v) ==> v <= lib.verdefNum
  }

  method MarkVersions(lib: Library) returns (r: Result<seq<bool>, Failure>)
    ensures r.Ok? <==> VersionsKnown(lib)
    ensures r.Ok? ==> r.value == NeededOf(lib)
  {
    var needed := seq(lib.verdefNum, i => false);
    for k := 0 to |lib.used|
      invariant |needed| == lib.verdefNum
      invariant forall i :: 0 <= i < |needed| ==>
        (needed[i] <==> exists j :: 0 <= j < k && HasVersion(lib, lib.used[j], i + 1))
      invariant forall j, v :: 0 <= j < k && HasVersion(lib, lib.used[j], v) ==> v <= lib.verdefNum
    {
      var u := lib.used[k];
      if u < |lib.versym| {
        var v := VersionOf(lib.versym[u]);
        if v > GLOBAL {
          assert HasVersion(lib, lib.used[k], v);
          if v - 1 >= |needed| {
            assert Uses(lib, v);
            return Err(InvalidVersion);
          }
          ghost var was := needed;
          needed := needed[v - 1 := true];
          forall i | 0 <= i < |needed|
            ensures needed[i] <==> exists j :: 0 <= j < k + 1 && HasVersion(lib, lib.used[j], i + 1)
          {
            assert needed[i] <==> was[i] || i + 1 == v;
          }
        }
      }
    }
    r := Ok(needed);
    assert needed == NeededOf(lib);
  }

  // ----- Counting -----

  predicate Wants(needed: seq<bool>, d: Verdef) {
    !d.base && 0 < d.index <= |needed| && needed[d.index - 1]
  }

  function Wanted(defs: seq<Verdef>, needed: seq<bool>): seq<Verdef> {
    if defs == [] then []
    else Wanted(defs[..|defs| - 1], needed) + if Wants(needed, defs[|defs| - 1]) then [defs[|defs| - 1]] else []
  }

  ghost predicate DefinitionOk(needed: seq<bool>, d: Verdef) {
    && d.index != 0
    && (!d.base ==> d.index <= |needed|)
    && (Wants(needed, d) ==> d.name.Some?)
  }

  ghost predicate DefinitionsOk(defs: seq<Verdef>, needed: seq<bool>) {
    forall i :: 0 <= i < |defs| ==> DefinitionOk(needed, defs[i])
  }

  /** The bytes of a name and its terminator. */
  function NameBytes(d: Verdef): nat {
    if d.name.Some? then |d.name.value| + 1 else 0
  }

  function WantedBytes(defs: seq<Verdef>, needed: seq<bool>): nat {
    if defs == [] then 0
    else
      WantedBytes(defs[..|defs| - 1], needed) +
      if Wants(needed, defs[|defs| - 1]) then NameBytes(defs[|defs| - 1]) else 0
  }

  /** One Verneed and `count` Vernaux, of 16 bytes each; nothing without versions. */
  function RecordBytes(count: nat): nat {
    if count == 0 then 0 else 16 + 16 * count
  }

  /** The base's name is counted once, and only beside versions. */
  ghost function StringBytes(lib: Library, needed: seq<bool>): nat {
    WantedBytes(lib.verdefs, needed) +
    if Wanted(lib.verdefs, needed) != [] && HasBase(lib.verdefs) then |lib.name| + 1 else 0
  }

  method CountVersions(lib: Library, needed: seq<bool>) returns (r: Result<Counted, Failure>)
    ensures r.Ok? <==> DefinitionsOk(lib.verdefs, needed)
    ensures r.Ok? ==> r.value.count == |Wanted(lib.verdefs, needed)|
    ensures r.Ok? ==> r.value.strings == StringBytes(lib, needed) && r.value.records == RecordBytes(r.value.count)
  {
    var count: nat, strings: nat, baseSize: nat := 0, 0, 0;
    for i := 0 to |lib.verdefs|
      invariant DefinitionsOk(lib.verdefs[..i], needed) && count == |Wanted(lib.verdefs[..i], needed)|
      invariant strings == WantedBytes(lib.verdefs[..i], needed)
      invariant baseSize == if HasBase(lib.verdefs[..i]) then |lib.name| + 1 else 0
    {
      var d := lib.verdefs[i];
      NextBase(lib.verdefs, i);
      NextCounted(lib.verdefs, needed, i);
      if d.index == 0 {
        return Err(InvalidVersion);
      }
      if d.base {
        baseSize := |lib.name| + 1;
      } else {
        if d.index - 1 >= |needed| {
          return Err(InvalidVersion);
        }
        if needed[d.index - 1] {
          if d.name == None {
            return Err(MissingName);
          }
          strings, count := strings + |d.name.value| + 1, count + 1;
        }
      }
    }
    assert lib.verdefs[..|lib.verdefs|] == lib.verdefs;
    r := Ok(if count > 0 then Counted(count, strings + baseSize, 16 + 16 * count) else Counted(0, strings, 0));
  }

  lemma {:induction false} NextCounted(defs: seq<Verdef>, needed: seq<bool>, i: nat)
    requires i < |defs|
    ensures |Wanted(defs[..i + 1], needed)| == |Wanted(defs[..i], needed)| + if Wants(needed, defs[i]) then 1 else 0
    ensures WantedBytes(defs[..i + 1], needed) ==
      WantedBytes(defs[..i], needed) + if Wants(needed, defs[i]) then NameBytes(defs[i]) else 0
    ensures DefinitionsOk(defs[..i], needed) && DefinitionOk(needed, defs[i]) ==> DefinitionsOk(defs[..i + 1], needed)
    ensures !DefinitionOk(needed, defs[i]) ==> !DefinitionsOk(defs, needed)
  {
    var next := defs[..i + 1];
    assert next[..i] == defs[..i] && next[i] == defs[i];
    if DefinitionsOk(defs[..i], needed) && DefinitionOk(needed, defs[i]) {
      forall j | 0 <= j < |next|
        ensures DefinitionOk(needed, next[j])
      {
        assert j < i ==> next[j] == defs[..i][j];
      }
    }
  }

  lemma {:induction false} NextBase(defs: seq<Verdef>, i: nat)
    requires i < |defs|
    ensures HasBase(defs[..i + 1]) <==> HasBase(defs[..i]) || defs[i].base
  {
    var next := defs[..i + 1];
    assert next[i] == defs[i];
    if HasBase(defs[..i]) {
      var j :| 0 <= j < i && defs[..i][j].base;
      assert next[j].base;
    }
  }

  // ----- Numbering -----

  /** How many of the first `k` versions are needed. */
  function Trues(needed: seq<bool>, k: nat): nat
    requires k <= |needed|
  {
    if k == 0 then 0 else Trues(needed, k - 1) + if needed[k - 1] then 1 else 0
  }

  /** Needed versions are numbered from `start` in their input order, in 16 bits. */
  function Mapping(needed: seq<bool>, start: nat): (m: seq<nat>)
    ensures |m| == |needed|
  {
    seq(|needed|, i requires 0 <= i < |needed| =>
      if needed[i] then (start + Trues(needed, i)) % 0x1_0000 else GLOBAL)
  }

  method ComputeVersionMapping(needed: seq<bool>, start: nat) returns (out: seq<nat>)
    requires start < 0x1_0000
    ensures out == Mapping(needed, start)
  {
    out := seq(|needed|, i => GLOBAL);
    var next: nat := start;
    for k := 0 to |needed|
      invariant |out| == |needed| && next == (start + Trues(needed, k)) % 0x1_0000
      invariant forall i :: 0 <= i < k ==> out[i] == Mapping(needed, start)[i]
      invariant forall i :: k <= i < |needed| ==> out[i] == GLOBAL
    {
      if needed[k] {
        out := out[k := next];
        next := (next + 1) % 0x1_0000;
      }
    }
  }

  /** After the local and global indexes and the versions that the output itself defines. */
  function FirstIndex(scriptVersions: nat): (first: nat)
    ensures first > GLOBAL && first > scriptVersions
    ensures first - 1 == GLOBAL || first - 1 == scriptVersions
  {
    GLOBAL + if scriptVersions > 1 then scriptVersions else 1
  }

  /** Hands out one range for each library; the total must stay within 16 bits. */
  method AssignStarts(counts: seq<nat>, first: nat) returns (r: Result<seq<nat>, Failure>)
    requires first < 0x1_0000
    ensures r.Ok? <==> first + Sum(counts) < 0x1_0000
    ensures r.Ok? ==> |r.value| == |counts|
    ensures r.Ok? ==> forall k :: 0 <= k < |counts| ==> r.value[k] == first + Sum(counts[..k]) < 0x1_0000
  {
    var starts: seq<nat> := [];
    var next := first;
    for k := 0 to |counts|
      invariant |starts| == k && next == first + Sum(counts[..k]) < 0x1_0000
      invariant forall j :: 0 <= j < k ==> starts[j] == first + Sum(counts[..j]) < 0x1_0000
    {
      starts := starts + [next];
      assert counts[..k + 1][..k] == counts[..k];
      if counts[k] > 0 {
        if next + counts[k] >= 0x1_0000 {
          SumMonotone(counts, k + 1, |counts|);
          assert counts[..|counts|] == counts;
          return Err(TooManyVersions);
        }
        next := next + counts[k];
      }
    }
    assert counts[..|counts|] == counts;
    r := Ok(starts);
  }

  // ----- Writing -----

  function MappedTo(mapping: seq<nat>, d: Verdef): nat {
    if 0 < d.index <= |mapping| then mapping[d.index - 1] else 0
  }

  predicate Emits(mapping: seq<nat>, d: Verdef) {
    !d.base && MappedTo(mapping, d) != GLOBAL
  }

  function AuxFor(mapping: seq<nat>, d: Verdef): Vernaux {
    Vernaux(MappedTo(mapping, d), if d.name.Some? then d.name.value else "")
  }

  function Auxes(defs: seq<Verdef>, mapping: seq<nat>): seq<Vernaux> {
    if defs == [] then []
    else
      Auxes(defs[..|defs| - 1], mapping) +
      if Emits(mapping, defs[|defs| - 1]) then [AuxFor(mapping, defs[|defs| - 1])] else []
  }

  ghost predicate HasBase(defs: seq<Verdef>) {
    exists i :: 0 <= i < |defs| && defs[i].base
  }

  /** The bytes of all names that writing puts into the string table. */
  function WrittenBytes(defs: seq<Verdef>, mapping: seq<nat>, name: string): nat {
    if defs == [] then 0
    else
      var d := defs[|defs| - 1];
      WrittenBytes(defs[..|defs| - 1], mapping, name) +
      if d.base then |name| + 1 else if Emits(mapping, d) then NameBytes(d) else 0
  }

  /** No index 0 and no missing name, where they would be used. */
  predicate CanWrite(mapping: seq<nat>, d: Verdef) {
    (!d.base ==> d.index != 0) && (Emits(mapping, d) ==> d.name.Some?)
  }

  /** The names themselves, each with a zero byte behind it. */
  function WrittenNames(defs: seq<Verdef>, mapping: seq<nat>, name: string): string {
    if defs == [] then []
    else
      var d := defs[|defs| - 1];
      WrittenNames(defs[..|defs| - 1], mapping, name) +
      if d.base then name + ['\0']
      else if MappedTo(mapping, d) != 1 && d.name.Some? then d.name.value + ['\0']
      else []
  }

  lemma {:induction false} WrittenBytesAre(defs: seq<Verdef>, mapping: seq<nat>, name: string)
    requires forall i :: 0 <= i < |defs| ==> CanWrite(mapping, defs[i])
    ensures WrittenBytes(defs, mapping, name) == |WrittenNames(defs, mapping, name)|
  {
    if defs != [] {
      WrittenBytesAre(defs[..|defs| - 1], mapping, name);
      assert CanWrite(mapping, defs[|defs| - 1]);
    }
  }

  function AuxNext(i: nat, count: nat): nat {
    if i + 1 == count then 0 else 16
  }

  /** Following the distances from the first Vernaux leads to each and stops at the last, which ends the record. */
  lemma {:induction false} AuxChain(auxNext: seq<nat>, count: nat, i: nat)
    requires |auxNext| == count && i < count && forall k :: 0 <= k < count ==> auxNext[k] == AuxNext(k, count)
    ensures Sum(auxNext[..i]) == 16 * i && (auxNext[i] == 0 <==> i + 1 == count)
    ensures i + 1 == count ==> 16 + Sum(auxNext[..i]) + 16 == RecordBytes(count)
  {
    if i > 0 {
      AuxChain(auxNext, count, i - 1);
      assert auxNext[..i][..i - 1] == auxNext[..i - 1];
    }
  }

  /**
    * Writes one Verneed, with space for exactly `count` Vernaux; `file` stays unset without a base.
    * `strings` are the bytes added to the string table.
    */
  method WriteVerneed(lib: Library, mapping: seq<nat>, count: nat, isLast: bool)
    returns (r: Result<Verneed, Failure>, strings: nat)
    ensures r.Ok? <==>
      && (forall i :: 0 <= i < |lib.verdefs| ==> CanWrite(mapping, lib.verdefs[i]))
      && |Auxes(lib.verdefs, mapping)| <= count
    ensures r.Ok? ==> r.value.auxes == Auxes(lib.verdefs, mapping) && |r.value.auxNext| == |r.value.auxes|
    ensures r.Ok? ==> forall i :: 0 <= i < |r.value.auxNext| ==> r.value.auxNext[i] == AuxNext(i, count)
    ensures r.Ok? ==> r.value.next == if isLast then 0 else 16 + 16 * count
    ensures r.Ok? ==> r.value.file == if HasBase(lib.verdefs) then Some(lib.name) else None
    ensures r.Ok? ==> strings == WrittenBytes(lib.verdefs, mapping, lib.name)
  {
    var file: Option<string> := None;
    var auxes: seq<Vernaux>, auxNext: seq<nat> := [], [];
    strings := 0;
    for i := 0 to |lib.verdefs|
      invariant forall j :: 0 <= j < i ==> CanWrite(mapping, lib.verdefs[j])
      invariant auxes == Auxes(lib.verdefs[..i], mapping) && |auxes| == |auxNext| <= count
      invariant forall j :: 0 <= j < |auxNext| ==> auxNext[j] == AuxNext(j, count)
      invariant file == if HasBase(lib.verdefs[..i]) then Some(lib.name) else None
      invariant strings == WrittenBytes(lib.verdefs[..i], mapping, lib.name)
    {
      var d := lib.verdefs[i];
      NextDefinition(lib.verdefs, mapping, lib.name, i);
      NextBase(lib.verdefs, i);
      if d.base {
        file := Some(lib.name);
        strings := strings + |lib.name| + 1;
        continue;
      }
      if d.index == 0 {
        r := Err(InvalidVersion);
        return;
      }
      if MappedTo(mapping, d) != GLOBAL {
        if d.name == None {
          r := Err(MissingName);
          return;
        }
        if |auxes| >= count {
          AuxesGrow(lib.verdefs, mapping, i + 1, |lib.verdefs|);
          assert lib.verdefs[..|lib.verdefs|] == lib.verdefs;
          r := Err(InsufficientSpace);
          return;
        }
        strings := strings + |d.name.value| + 1;
        auxNext := auxNext + [if |auxes| + 1 == count then 0 else 16];
        auxes := auxes + [Vernaux(MappedTo(mapping, d), d.name.value)];
      }
    }
    assert lib.verdefs[..|lib.verdefs|] == lib.verdefs;
    r := Ok(Verneed(file, auxes, auxNext, if isLast then 0 else 16 + 16 * count));
  }

  lemma {:induction false} NextDefinition(defs: seq<Verdef>, mapping: seq<nat>, name: string, i: nat)
    requires i < |defs|
    ensures Auxes(defs[..i + 1], mapping) ==
      Auxes(defs[..i], mapping) + if Emits(mapping, defs[i]) then [AuxFor(mapping, defs[i])] else []
    ensures WrittenBytes(defs[..i + 1], mapping, name) ==
      WrittenBytes(defs[..i], mapping, name) +
      if defs[i].base then |name| + 1 else if Emits(mapping, defs[i]) then NameBytes(defs[i]) else 0
  {
    var next := defs[..i + 1];
    assert next[..i] == defs[..i] && next[i] == defs[i];
  }

  lemma {:induction false} AuxesGrow(defs: seq<Verdef>, mapping: seq<nat>, j: nat, k: nat)
    requires j <= k <= |defs|
    ensures |Auxes(defs[..j], mapping)| <= |Auxes(defs[..k], mapping)|
  {
    if j < k {
      AuxesGrow(defs, mapping, j, k - 1);
      assert defs[..k][..k - 1] == defs[..k - 1];
    }
  }

  /** The version written for a used symbol. */
  function CopiedVersion(lib: Library, mapping: seq<nat>, u: nat): nat
    requires u < |lib.versym| ==> VersionOf(lib.versym[u]) <= |mapping| || VersionOf(lib.versym[u]) <= GLOBAL
  {
    if u >= |lib.versym| then GLOBAL
    else
      var v := VersionOf(lib.versym[u]);
      if v <= GLOBAL then v else mapping[v - 1]
  }

  /** A symbol without a version entry is global; local and global symbols keep what they have. */
  lemma {:induction false} UnversionedKeep(lib: Library, mapping: seq<nat>, u: nat)
    ensures u >= |lib.versym| ==> CopiedVersion(lib, mapping, u) == 1
    ensures u < |lib.versym| && lib.versym[u] % 0x8000 <= 1 ==>
      CopiedVersion(lib, mapping, u) == lib.versym[u] % 0x8000
  {
  }

  /** Vernaux records come in the order of the definitions, each with the mapped index and the name of its own. */
  lemma {:induction false} AuxesInOrder(defs: seq<Verdef>, mapping: seq<nat>, i: nat)
    requires i < |defs| && !defs[i].base && 0 < defs[i].index <= |mapping| && mapping[defs[i].index - 1] != 1
    requires defs[i].name.Some?
    ensures
      var n, auxes := |Auxes(defs[..i], mapping)|, Auxes(defs, mapping);
      n < |auxes| && auxes[n] == Vernaux(mapping[defs[i].index - 1], defs[i].name.value)
  {
    var init := defs[..|defs| - 1];
    if i < |defs| - 1 {
      AuxesInOrder(init, mapping, i);
      assert init[..i] == defs[..i];
    }
  }

  // ----- Agreement within one library -----

  /** How many definitions, other than the base, have index `v`. */
  function Occurs(defs: seq<Verdef>, v: nat): nat {
    if defs == [] then 0
    else Occurs(defs[..|defs| - 1], v) + if !defs[|defs| - 1].base && defs[|defs| - 1].index == v then 1 else 0
  }

  function AuxOccurs(auxes: seq<Vernaux>, x: nat): nat {
    if auxes == [] then 0
    else AuxOccurs(auxes[..|auxes| - 1], x) + if auxes[|auxes| - 1].other == x then 1 else 0
  }

  lemma {:induction false} TruesStrict(needed: seq<bool>, i: nat, j: nat)
    requires i < j <= |needed|
    ensures Trues(needed, i) + (if needed[i] then 1 else 0) <= Trues(needed, j)
  {
    if i + 1 < j {
      TruesStrict(needed, i, j - 1);
    }
  }

  /** The range of output indexes fits in 16 bits and starts above the global one. */
  ghost predicate Fits(needed: seq<bool>, start: nat) {
    GLOBAL < start && start + Trues(needed, |needed|) <= 0x1_0000
  }

  /** Needed versions get distinct indexes from the library's own range, all others the global one. */
  lemma {:induction false} MappingIs(needed: seq<bool>, start: nat, i: nat)
    requires Fits(needed, start) && i < |needed|
    ensures needed[i] ==>
      start <= Mapping(needed, start)[i] == start + Trues(needed, i) < start + Trues(needed, |needed|)
    ensures !needed[i] ==> Mapping(needed, start)[i] == GLOBAL
  {
    TruesStrict(needed, i, |needed|);
  }

  lemma {:induction false} MappingInjective(needed: seq<bool>, start: nat, i: nat, j: nat)
    requires Fits(needed, start) && i < |needed| && j < |needed| && needed[i]
    requires Mapping(needed, start)[i] == Mapping(needed, start)[j]
    ensures i == j
  {
    MappingIs(needed, start, i);
    MappingIs(needed, start, j);
    if i < j {
      TruesStrict(needed, i, j);
    } else if j < i {
      TruesStrict(needed, j, i);
    }
  }

  lemma {:induction false} EmitsIsWants(needed: seq<bool>, start: nat, d: Verdef)
    requires Fits(needed, start) && DefinitionOk(needed, d)
    ensures Emits(Mapping(needed, start), d) <==> Wants(needed, d)
  {
    if d.index <= |needed| {
      MappingIs(needed, start, d.index - 1);
    }
  }

  /** The writer fills exactly the slots that were counted, and asks for no missing name. */
  lemma {:induction false} WrittenIsCounted(defs: seq<Verdef>, needed: seq<bool>, start: nat)
    requires Fits(needed, start) && DefinitionsOk(defs, needed)
    ensures |Auxes(defs, Mapping(needed, start))| == |Wanted(defs, needed)|
    ensures forall i :: 0 <= i < |defs| ==> (Emits(Mapping(needed, start), defs[i]) <==> Wants(needed, defs[i]))
  {
    forall i | 0 <= i < |defs|
      ensures Emits(Mapping(needed, start), defs[i]) <==> Wants(needed, defs[i])
    {
      assert DefinitionOk(needed, defs[i]);
      EmitsIsWants(needed, start, defs[i]);
    }
    if defs != [] {
      WrittenIsCounted(defs[..|defs| - 1], needed, start);
    }
  }

  function Bases(defs: seq<Verdef>): nat {
    if defs == [] then 0 else Bases(defs[..|defs| - 1]) + if defs[|defs| - 1].base then 1 else 0
  }

  lemma {:induction false} WrittenInParts(defs: seq<Verdef>, needed: seq<bool>, start: nat, name: string)
    requires Fits(needed, start) && DefinitionsOk(defs, needed)
    ensures WrittenBytes(defs, Mapping(needed, start), name) == WantedBytes(defs, needed) + Bases(defs) * (|name| + 1)
  {
    if defs != [] {
      var init, d := defs[..|defs| - 1], defs[|defs| - 1];
      WrittenInParts(init, needed, start, name);
      assert DefinitionOk(needed, d);
      EmitsIsWants(needed, start, d);
      var n, size := Bases(init), |name| + 1;
      assert (n + 1) * size == n * size + size;
    }
  }

  lemma {:induction false} BasesOf(defs: seq<Verdef>)
    ensures HasBase(defs) <==> Bases(defs) > 0
  {
    if defs != [] {
      BasesOf(defs[..|defs| - 1]);
      NextBase(defs, |defs| - 1);
      assert defs[..|defs|] == defs;
    }
  }

  /** The string bytes counted for a library with versions are those written exactly if it has at most one base. */
  lemma {:induction false} StringsAgreeIff(lib: Library, needed: seq<bool>, start: nat)
    requires Fits(needed, start) && DefinitionsOk(lib.verdefs, needed) && Wanted(lib.verdefs, needed) != []
    ensures WrittenBytes(lib.verdefs, Mapping(needed, start), lib.name) == StringBytes(lib, needed) <==>
      Bases(lib.verdefs) <= 1
  {
    WrittenInParts(lib.verdefs, needed, start, lib.name);
    BasesOf(lib.verdefs);
    OnceOrMore(Bases(lib.verdefs), |lib.name| + 1);
  }

  lemma {:induction false} OnceOrMore(n: nat, size: nat)
    requires size > 0
    ensures n * size == (if n > 0 then size else 0) <==> n <= 1
  {
    if n >= 2 {
      assert n * size == 2 * size + (n - 2) * size;
    }
  }

  /** With two bases the library's name is written twice and counted once. */
  lemma {:induction false} TwoBasesOverrun()
    ensures
      var lib := Library("l", 3, [Verdef(1, true, None), Verdef(3, true, None), Verdef(2, false, Some("V"))], [2], [0]);
      var needed := [false, true, false];
      DefinitionsOk(lib.verdefs, needed) &&
      WrittenBytes(lib.verdefs, Mapping(needed, 2), lib.name) != StringBytes(lib, needed)
  {
    var defs := [Verdef(1, true, None), Verdef(3, true, None), Verdef(2, false, Some("V"))];
    var lib, needed := Library("l", 3, defs, [2], [0]), [false, true, false];
    assert defs[..2] == [defs[0], defs[1]] && defs[..2][..1] == [defs[0]] && [defs[0]][..0] == [];
    assert Bases([defs[0]]) == 1;
    assert Bases(defs[..2]) == 2;
    assert Wants(needed, defs[2]) && Wanted(defs, needed) != [];
    assert Trues(needed, 1) == 0 && Trues(needed, 2) == 1 && Trues(needed, 3) == 1;
    StringsAgreeIff(lib, needed, 2);
  }

  lemma {:induction false} AuxOccursSnoc(auxes: seq<Vernaux>, a: Vernaux, x: nat)
    ensures AuxOccurs(auxes + [a], x) == AuxOccurs(auxes, x) + if a.other == x then 1 else 0
  {
    assert (auxes + [a])[..|auxes|] == auxes;
  }

  /** As many Vernaux carry a needed version's index as there are definitions of that version. */
  lemma {:induction false} OneAuxPerDefinition(defs: seq<Verdef>, needed: seq<bool>, start: nat, v: nat)
    requires Fits(needed, start) && DefinitionsOk(defs, needed) && 0 < v <= |needed| && needed[v - 1]
    ensures AuxOccurs(Auxes(defs, Mapping(needed, start)), Mapping(needed, start)[v - 1]) == Occurs(defs, v)
  {
    if defs != [] {
      var m, init, d := Mapping(needed, start), defs[..|defs| - 1], defs[|defs| - 1];
      OneAuxPerDefinition(init, needed, start, v);
      assert DefinitionOk(needed, d);
      EmitsIsWants(needed, start, d);
      MappingIs(needed, start, v - 1);
      if Wants(needed, d) {
        AuxOccursSnoc(Auxes(init, m), AuxFor(m, d), m[v - 1]);
        if m[d.index - 1] == m[v - 1] {
          MappingInjective(needed, start, v - 1, d.index - 1);
        }
      } else {
        assert Auxes(defs, m) == Auxes(init, m);
      }
    }
  }

  /** Exactly one Vernaux carries the index given to version `v`. */
  ghost predicate NamedOnce(defs: seq<Verdef>, needed: seq<bool>, start: nat, v: nat)
    requires 0 < v <= |needed|
  {
    AuxOccurs(Auxes(defs, Mapping(needed, start)), Mapping(needed, start)[v - 1]) == 1
  }

  /** Each needed version has one Vernaux exactly when it is defined once. */
  lemma {:induction false} NamedOnceIffDefinedOnce(defs: seq<Verdef>, needed: seq<bool>, start: nat)
    requires Fits(needed, start) && DefinitionsOk(defs, needed)
    ensures DefinedOnce(defs, needed) <==>
      forall v :: 0 < v <= |needed| && needed[v - 1] ==> NamedOnce(defs, needed, start, v)
  {
    forall v | 0 < v <= |needed| && needed[v - 1]
      ensures NamedOnce(defs, needed, start, v) <==> Occurs(defs, v) == 1
    {
      OneAuxPerDefinition(defs, needed, start, v);
    }
  }

  lemma {:induction false} AuxWritten(defs: seq<Verdef>, mapping: seq<nat>, i: nat)
    requires i < |defs| && Emits(mapping, defs[i])
    ensures AuxFor(mapping, defs[i]) in Auxes(defs, mapping)
  {
    if i < |defs| - 1 {
      AuxWritten(defs[..|defs| - 1], mapping, i);
    }
  }

  /** Nothing outside the library's range is written. */
  lemma {:induction false} AuxesInRange(defs: seq<Verdef>, needed: seq<bool>, start: nat, x: nat)
    requires Fits(needed, start) && DefinitionsOk(defs, needed)
    requires x < start || x >= start + Trues(needed, |needed|)
    ensures AuxOccurs(Auxes(defs, Mapping(needed, start)), x) == 0
  {
    if defs != [] {
      var m, init, d := Mapping(needed, start), defs[..|defs| - 1], defs[|defs| - 1];
      AuxesInRange(init, needed, start, x);
      assert DefinitionOk(needed, d);
      EmitsIsWants(needed, start, d);
      if Wants(needed, d) {
        MappingIs(needed, start, d.index - 1);
        AuxOccursSnoc(Auxes(init, m), AuxFor(m, d), x);
      } else {
        assert Auxes(defs, m) == Auxes(init, m);
      }
    }
  }

  // ----- When counting and numbering agree -----

  /** Definitions of the needed versions among the first `k`. */
  function NeededDefinitions(defs: seq<Verdef>, needed: seq<bool>, k: nat): nat
    requires k <= |needed|
  {
    if k == 0 then 0
    else NeededDefinitions(defs, needed, k - 1) + if needed[k - 1] then Occurs(defs, k) else 0
  }

  lemma {:induction false} DefinitionAdds(init: seq<Verdef>, d: Verdef, needed: seq<bool>, k: nat)
    requires k <= |needed|
    ensures NeededDefinitions(init + [d], needed, k) ==
      NeededDefinitions(init, needed, k) + if Wants(needed, d) && d.index <= k then 1 else 0
  {
    if k > 0 {
      DefinitionAdds(init, d, needed, k - 1);
      assert (init + [d])[..|init|] == init;
    }
  }

  lemma {:induction false} CountedByVersion(defs: seq<Verdef>, needed: seq<bool>)
    ensures |Wanted(defs, needed)| == NeededDefinitions(defs, needed, |needed|)
  {
    if defs == [] {
      NoDefinitions(needed, |needed|);
    } else {
      var init, d := defs[..|defs| - 1], defs[|defs| - 1];
      assert defs == init + [d];
      CountedByVersion(init, needed);
      DefinitionAdds(init, d, needed, |needed|);
    }
  }

  lemma {:induction false} NoDefinitions(needed: seq<bool>, k: nat)
    requires k <= |needed|
    ensures NeededDefinitions([], needed, k) == 0
  {
    if k > 0 {
      NoDefinitions(needed, k - 1);
    }
  }

  /** Each needed version is defined exactly once, other than as the base. */
  ghost predicate DefinedOnce(defs: seq<Verdef>, needed: seq<bool>) {
    forall v {:trigger Occurs(defs, v)} :: 0 < v <= |needed| && needed[v - 1] ==> Occurs(defs, v) == 1
  }

  /** Then the versions counted are the indexes handed out. */
  lemma {:induction false} CountIsRange(defs: seq<Verdef>, needed: seq<bool>, k: nat)
    requires DefinedOnce(defs, needed) && k <= |needed|
    ensures NeededDefinitions(defs, needed, k) == Trues(needed, k)
  {
    if k > 0 {
      CountIsRange(defs, needed, k - 1);
      assert needed[k - 1] ==> Occurs(defs, k) == 1;
    }
  }

  /** All definitions with index `v`, the base included. */
  function AllOccurs(defs: seq<Verdef>, v: nat): nat {
    if defs == [] then 0 else AllOccurs(defs[..|defs| - 1], v) + if defs[|defs| - 1].index == v then 1 else 0
  }

  function AllUpTo(defs: seq<Verdef>, k: nat): nat {
    if k == 0 then 0 else AllUpTo(defs, k - 1) + AllOccurs(defs, k)
  }

  /** What a linker writes: indexes 1 to the number of definitions, once each, the base being 1. */
  ghost predicate WellNumbered(defs: seq<Verdef>) {
    && (forall i :: 0 <= i < |defs| ==> 0 < defs[i].index <= |defs| && (defs[i].base ==> defs[i].index == GLOBAL))
    && forall i, j :: 0 <= i < j < |defs| ==> defs[i].index != defs[j].index
  }

  lemma {:induction false} AllUpToSnoc(init: seq<Verdef>, d: Verdef, k: nat)
    ensures AllUpTo(init + [d], k) == AllUpTo(init, k) + if 0 < d.index <= k then 1 else 0
  {
    if k > 0 {
      AllUpToSnoc(init, d, k - 1);
      assert (init + [d])[..|init|] == init;
    }
  }

  lemma {:induction false} AllCounted(defs: seq<Verdef>, k: nat)
    requires forall i :: 0 <= i < |defs| ==> 0 < defs[i].index <= k
    ensures AllUpTo(defs, k) == |defs|
  {
    if defs == [] {
      NoneUpTo(k);
    } else {
      var init, d := defs[..|defs| - 1], defs[|defs| - 1];
      assert defs == init + [d];
      AllCounted(init, k);
      AllUpToSnoc(init, d, k);
    }
  }

  lemma {:induction false} NoneUpTo(k: nat)
    ensures AllUpTo([], k) == 0
  {
    if k > 0 {
      NoneUpTo(k - 1);
    }
  }

  lemma {:induction false} AtMostOnce(defs: seq<Verdef>, v: nat)
    requires forall i, j :: 0 <= i < j < |defs| ==> defs[i].index != defs[j].index
    ensures AllOccurs(defs, v) <= 1
    ensures AllOccurs(defs, v) == 1 ==> exists i :: 0 <= i < |defs| && defs[i].index == v
  {
    if defs != [] {
      var init, d := defs[..|defs| - 1], defs[|defs| - 1];
      AtMostOnce(init, v);
      if AllOccurs(init, v) == 1 {
        var i :| 0 <= i < |init| && init[i].index == v;
        assert defs[i].index == v;
      }
    }
  }

  /** `k` counters of at most one that add up to `k` are all one. */
  lemma {:induction false} AllOnes(defs: seq<Verdef>, k: nat, v: nat)
    requires forall w {:trigger AllOccurs(defs, w)} :: 0 < w <= k ==> AllOccurs(defs, w) <= 1
    ensures AllUpTo(defs, k) <= k
    ensures AllUpTo(defs, k) == k && 0 < v <= k ==> AllOccurs(defs, v) == 1
  {
    if k > 0 {
      AllOnes(defs, k - 1, if v == k then 0 else v);
      assert AllOccurs(defs, k) <= 1;
    }
  }

  lemma {:induction false} NonBaseOccurs(defs: seq<Verdef>, v: nat)
    requires forall i :: 0 <= i < |defs| && defs[i].base ==> defs[i].index != v
    ensures Occurs(defs, v) == AllOccurs(defs, v)
  {
    if defs != [] {
      NonBaseOccurs(defs[..|defs| - 1], v);
    }
  }

  /** Well-numbered definitions define every needed version once, because version 1 is never needed. */
  lemma {:induction false} WellNumberedDefinesOnce(lib: Library)
    requires WellNumbered(lib.verdefs) && lib.verdefNum == |lib.verdefs|
    ensures DefinedOnce(lib.verdefs, NeededOf(lib))
  {
    var defs, needed := lib.verdefs, NeededOf(lib);
    forall v | 0 < v <= |needed| && needed[v - 1]
      ensures Occurs(defs, v) == 1
    {
      forall w | 0 < w <= |defs|
        ensures AllOccurs(defs, w) <= 1
      {
        AtMostOnce(defs, w);
      }
      AllCounted(defs, |defs|);
      AllOnes(defs, |defs|, v);
      assert Uses(lib, v);
      NonBaseOccurs(defs, v);
    }
  }

  // ----- All libraries of a link -----

  datatype Linked = Linked(mapping: seq<nat>, verneed: Option<Verneed>)

  ghost function CountOf(lib: Library): nat {
    |Wanted(lib.verdefs, NeededOf(lib))|
  }

  ghost function Counts(libs: seq<Library>): (counts: seq<nat>)
    ensures |counts| == |libs|
  {
    seq(|libs|, k requires 0 <= k < |libs| => CountOf(libs[k]))
  }

  ghost function StartOf(libs: seq<Library>, first: nat, k: nat): nat
    requires k <= |libs|
  {
    first + Sum(Counts(libs)[..k])
  }

  ghost predicate Accepted(lib: Library) {
    VersionsKnown(lib) && DefinitionsOk(lib.verdefs, NeededOf(lib))
  }

  ghost predicate AllAccepted(libs: seq<Library>) {
    forall k {:trigger Accepted(libs[k])} :: 0 <= k < |libs| ==> Accepted(libs[k])
  }

  ghost predicate Sound(lib: Library) {
    DefinedOnce(lib.verdefs, NeededOf(lib))
  }

  ghost predicate AllSound(libs: seq<Library>) {
    forall k {:trigger Sound(libs[k])} :: 0 <= k < |libs| ==> Sound(libs[k])
  }

  /** What the linker keeps for a library whose range begins at `start`. */
  ghost predicate LinkedAs(lib: Library, start: nat, out: Linked) {
    && out.mapping == Mapping(NeededOf(lib), start)
    && (CountOf(lib) == 0 ==> out.verneed == None)
    && (CountOf(lib) > 0 ==>
          && out.verneed.Some?
          && out.verneed.value.auxes == Auxes(lib.verdefs, out.mapping)
          && |out.verneed.value.auxes| == |out.verneed.value.auxNext| == CountOf(lib)
          && (forall i :: 0 <= i < CountOf(lib) ==> out.verneed.value.auxNext[i] == AuxNext(i, CountOf(lib)))
          && out.verneed.value.file == if HasBase(lib.verdefs) then Some(lib.name) else None)
  }

  ghost predicate AllLinked(libs: seq<Library>, first: nat, outs: seq<Linked>) {
    |outs| == |libs| && forall k {:trigger LinkedAt(libs, first, outs, k)} :: 0 <= k < |libs| ==>
      LinkedAt(libs, first, outs, k)
  }

  ghost predicate LinkedAt(libs: seq<Library>, first: nat, outs: seq<Linked>, k: int)
    requires 0 <= k < |libs| && k < |outs|
  {
    && LinkedAs(libs[k], StartOf(libs, first, k), outs[k])
    && (outs[k].verneed.Some? ==> outs[k].verneed.value.next == NextOf(libs, k))
  }

  /** Where the records of library `k` begin in `.gnu.version_r`. */
  ghost function RecordPos(libs: seq<Library>, k: nat): nat
    requires k <= |libs|
  {
    Sum(Records(libs)[..k])
  }

  ghost function Records(libs: seq<Library>): (rs: seq<nat>)
    ensures |rs| == |libs|
  {
    seq(|libs|, k requires 0 <= k < |libs| => RecordBytes(CountOf(libs[k])))
  }

  /** The distance to the next Verneed: 0 where the section ends. */
  ghost function NextOf(libs: seq<Library>, k: nat): nat
    requires k < |libs|
  {
    if RecordPos(libs, k + 1) == RecordPos(libs, |libs|) then 0 else 16 + 16 * CountOf(libs[k])
  }

  lemma {:induction false} RecordNext(libs: seq<Library>, k: nat)
    requires k < |libs|
    ensures RecordPos(libs, k + 1) == RecordPos(libs, k) + RecordBytes(CountOf(libs[k]))
  {
    assert Records(libs)[..k + 1][..k] == Records(libs)[..k];
  }

  /** Walking Verneed records by their distances visits every library that has one, in order, and then stops. */
  lemma {:induction false} VerneedChain(libs: seq<Library>, k: nat, j: nat)
    requires k < j <= |libs| && CountOf(libs[k]) > 0 && forall i :: k < i < j ==> CountOf(libs[i]) == 0
    ensures j == |libs| ==> NextOf(libs, k) == 0
    ensures j < |libs| && CountOf(libs[j]) > 0 ==>
      NextOf(libs, k) > 0 && RecordPos(libs, k) + NextOf(libs, k) == RecordPos(libs, j)
  {
    RecordNext(libs, k);
    RecordGap(libs, k + 1, j);
    if j < |libs| {
      RecordNext(libs, j);
      SumMonotone(Records(libs), j + 1, |libs|);
    }
  }

  lemma {:induction false} RecordGap(libs: seq<Library>, i: nat, j: nat)
    requires i <= j <= |libs| && forall k :: i <= k < j ==> CountOf(libs[k]) == 0
    ensures RecordPos(libs, i) == RecordPos(libs, j)
  {
    if i < j {
      RecordGap(libs, i, j - 1);
      RecordNext(libs, j - 1);
    }
  }

  method SizeVersions(libs: seq<Library>) returns (r: Result<(seq<seq<bool>>, seq<nat>), Failure>)
    ensures r.Ok? <==> AllAccepted(libs)
    ensures r.Ok? ==> r.value.1 == Counts(libs) && |r.value.0| == |libs|
    ensures r.Ok? ==> forall k :: 0 <= k < |libs| ==> r.value.0[k] == NeededOf(libs[k])
  {
    var needed: seq<seq<bool>>, counts: seq<nat> := [], [];
    for k := 0 to |libs|
      invariant |needed| == |counts| == k
      invariant forall j :: 0 <= j < k ==> needed[j] == NeededOf(libs[j]) && counts[j] == CountOf(libs[j])
      invariant forall j :: 0 <= j < k ==> Accepted(libs[j])
    {
      assert AllAccepted(libs) ==> Accepted(libs[k]);
      var marked := MarkVersions(libs[k]);
      if marked.Err? {
        return Err(marked.error);
      }
      var counted := CountVersions(libs[k], marked.value);
      if counted.Err? {
        return Err(counted.error);
      }
      needed, counts := needed + [marked.value], counts + [counted.value.count];
    }
    r := Ok((needed, counts));
  }

  lemma {:induction false} SoundFits(lib: Library, start: nat)
    requires Sound(lib) && GLOBAL < start && start + CountOf(lib) < 0x1_0000
    ensures Fits(NeededOf(lib), start) && Trues(NeededOf(lib), lib.verdefNum) == CountOf(lib)
  {
    CountedByVersion(lib.verdefs, NeededOf(lib));
    CountIsRange(lib.verdefs, NeededOf(lib), lib.verdefNum);
  }

  method LinkOne(
      lib: Library, needed: seq<bool>, start: nat, count: nat, isLast: bool)
    returns (r: Result<Linked, Failure>)
    requires Accepted(lib) && needed == NeededOf(lib) && count == CountOf(lib) && start < 0x1_0000
    ensures Sound(lib) && GLOBAL < start && start + count < 0x1_0000 ==> r.Ok? && LinkedAs(lib, start, r.value)
    ensures r.Ok? && r.value.verneed.Some? ==> r.value.verneed.value.next == if isLast then 0 else 16 + 16 * count
  {
    var mapping := ComputeVersionMapping(needed, start);
    if count == 0 {
      return Ok(Linked(mapping, None));
    }
    if Sound(lib) && GLOBAL < start && start + count < 0x1_0000 {
      SoundFits(lib, start);
      WrittenIsCounted(lib.verdefs, needed, start);
      forall i | 0 <= i < |lib.verdefs|
        ensures CanWrite(mapping, lib.verdefs[i])
      {
        assert DefinitionOk(needed, lib.verdefs[i]);
      }
    }
    var verneed, strings := WriteVerneed(lib, mapping, count, isLast);
    if verneed.Err? {
      return Err(verneed.error);
    }
    r := Ok(Linked(mapping, Some(verneed.value)));
  }

  method WriteAll(
      libs: seq<Library>, first: nat, needed: seq<seq<bool>>, starts: seq<nat>, counts: seq<nat>, sectionSize: nat)
    returns (r: Result<seq<Linked>, Failure>)
    requires sectionSize == RecordPos(libs, |libs|)
    requires AllAccepted(libs) && counts == Counts(libs) && |needed| == |starts| == |libs|
    requires GLOBAL < first && first + Sum(counts) < 0x1_0000
    requires forall k :: 0 <= k < |libs| ==> needed[k] == NeededOf(libs[k])
    requires forall k :: 0 <= k < |libs| ==> starts[k] == StartOf(libs, first, k)
    ensures AllSound(libs) ==> r.Ok? && AllLinked(libs, first, r.value)
  {
    var outs: seq<Linked> := [];
    var offset: nat := 0;
    for k := 0 to |libs|
      invariant |outs| == k && offset == RecordPos(libs, k)
      invariant AllSound(libs) ==> LinkedTo(libs, first, outs, k)
    {
      RangeFits(libs, first, k);
      RecordNext(libs, k);
      assert Accepted(libs[k]) && (AllSound(libs) ==> Sound(libs[k]));
      offset := offset + if counts[k] > 0 then 16 + 16 * counts[k] else 0;
      var out := LinkOne(libs[k], needed[k], starts[k], counts[k], offset == sectionSize);
      if out.Err? {
        return Err(out.error);
      }
      if AllSound(libs) {
        LinkedNext(libs, first, outs, k, out.value);
      }
      outs := outs + [out.value];
    }
    r := Ok(outs);
  }

  ghost predicate LinkedTo(libs: seq<Library>, first: nat, outs: seq<Linked>, k: nat)
    requires k <= |libs| && k <= |outs|
  {
    forall j {:trigger LinkedAt(libs, first, outs, j)} :: 0 <= j < k ==> LinkedAt(libs, first, outs, j)
  }

  lemma {:induction false} LinkedNext(libs: seq<Library>, first: nat, outs: seq<Linked>, k: nat, out: Linked)
    requires k == |outs| < |libs| && LinkedTo(libs, first, outs, k)
    requires LinkedAs(libs[k], StartOf(libs, first, k), out)
    requires out.verneed.Some? ==> out.verneed.value.next == NextOf(libs, k)
    ensures LinkedTo(libs, first, outs + [out], k + 1)
  {
    var all := outs + [out];
    forall j | 0 <= j < k + 1
      ensures LinkedAt(libs, first, all, j)
    {
      if j < k {
        assert LinkedAt(libs, first, outs, j) && all[j] == outs[j];
      } else {
        assert all[j] == out;
      }
    }
  }

  /** The size that `.gnu.version_r` was given. */
  method TotalRecords(ghost libs: seq<Library>, counts: seq<nat>) returns (size: nat)
    requires counts == Counts(libs)
    ensures size == RecordPos(libs, |libs|)
  {
    size := 0;
    for k := 0 to |counts|
      invariant size == RecordPos(libs, k)
    {
      RecordNext(libs, k);
      size := size + RecordBytes(counts[k]);
    }
  }

  /**
    * Every library in turn. If needed versions are defined once, then linking fails only for the
    * input's own errors or for want of indexes, and never for want of space.
    */
  method LinkVersions(libs: seq<Library>, scriptVersions: nat) returns (r: Result<seq<Linked>, Failure>)
    requires scriptVersions < 0xffff
    ensures r.Ok? ==> AllAccepted(libs) && FirstIndex(scriptVersions) + Sum(Counts(libs)) < 0x1_0000
    ensures AllSound(libs) && AllAccepted(libs) && FirstIndex(scriptVersions) + Sum(Counts(libs)) < 0x1_0000 ==>
      r.Ok? && Complete(libs, FirstIndex(scriptVersions), r.value)
  {
    var first := FirstIndex(scriptVersions);
    var sized := SizeVersions(libs);
    if sized.Err? {
      return Err(sized.error);
    }
    var (needed, counts) := sized.value;
    var starts := AssignStarts(counts, first);
    if starts.Err? {
      return Err(starts.error);
    }
    var sectionSize := TotalRecords(libs, counts);
    r := WriteAll(libs, first, needed, starts.value, counts, sectionSize);
  }

  lemma {:induction false} RangeFits(libs: seq<Library>, first: nat, k: nat)
    requires k < |libs|
    ensures StartOf(libs, first, k) + CountOf(libs[k]) == StartOf(libs, first, k + 1)
    ensures first <= StartOf(libs, first, k) && StartOf(libs, first, k + 1) <= first + Sum(Counts(libs))
  {
    var counts := Counts(libs);
    assert counts[..k + 1][..k] == counts[..k];
    SumMonotone(counts, k + 1, |counts|);
    assert counts[..|counts|] == counts;
  }

  /** Ranges of different libraries do not meet. */
  lemma {:induction false} RangesAscend(libs: seq<Library>, first: nat, j: nat, k: nat)
    requires j < k <= |libs|
    ensures StartOf(libs, first, j) + CountOf(libs[j]) <= StartOf(libs, first, k)
  {
    RangeFits(libs, first, j);
    SumMonotone(Counts(libs), j + 1, k);
  }

  function AuxIn(out: Linked, x: nat): nat {
    if out.verneed.Some? then AuxOccurs(out.verneed.value.auxes, x) else 0
  }

  /** How many Vernaux of the whole output carry index `x`. */
  function TotalOccurs(outs: seq<Linked>, x: nat): nat {
    if outs == [] then 0 else TotalOccurs(outs[..|outs| - 1], x) + AuxIn(outs[|outs| - 1], x)
  }

  lemma {:induction false} TotalOne(outs: seq<Linked>, x: nat, k: nat, n: nat)
    requires n <= |outs| && k < |outs| && forall j :: 0 <= j < |outs| && j != k ==> AuxIn(outs[j], x) == 0
    ensures TotalOccurs(outs[..n], x) == if k < n then AuxIn(outs[k], x) else 0
  {
    if n > 0 {
      TotalOne(outs, x, k, n - 1);
      assert outs[..n][..n - 1] == outs[..n - 1];
    }
  }

  lemma {:induction false} TotalNone(outs: seq<Linked>, x: nat, n: nat)
    requires n <= |outs| && forall j :: 0 <= j < |outs| ==> AuxIn(outs[j], x) == 0
    ensures TotalOccurs(outs[..n], x) == 0
  {
    if n > 0 {
      TotalNone(outs, x, n - 1);
      assert outs[..n][..n - 1] == outs[..n - 1];
    }
  }

  /** A completed link of libraries whose needed versions are defined once. */
  ghost predicate Complete(libs: seq<Library>, first: nat, outs: seq<Linked>) {
    && AllSound(libs) && AllAccepted(libs) && AllLinked(libs, first, outs)
    && GLOBAL < first && first + Sum(Counts(libs)) < 0x1_0000
  }

  /** What a completed link says of one library. */
  ghost predicate Placed(lib: Library, start: nat, out: Linked) {
    && Sound(lib) && Accepted(lib) && LinkedAs(lib, start, out)
    && GLOBAL < start && start + CountOf(lib) < 0x1_0000
  }

  lemma {:induction false} LibraryPlaced(libs: seq<Library>, first: nat, outs: seq<Linked>, k: nat)
    requires Complete(libs, first, outs) && k < |libs|
    ensures Placed(libs[k], StartOf(libs, first, k), outs[k]) && first <= StartOf(libs, first, k)
  {
    RangeFits(libs, first, k);
    assert Sound(libs[k]) && Accepted(libs[k]) && LinkedAt(libs, first, outs, k);
  }

  lemma {:induction false} PlacedElsewhere(lib: Library, start: nat, out: Linked, x: nat)
    requires Placed(lib, start, out) && (x < start || x >= start + CountOf(lib))
    ensures AuxIn(out, x) == 0
  {
    SoundFits(lib, start);
    AuxesInRange(lib.verdefs, NeededOf(lib), start, x);
  }

  lemma {:induction false} PlacedOnce(lib: Library, start: nat, out: Linked, v: nat)
    requires Placed(lib, start, out) && 0 < v <= lib.verdefNum && NeededOf(lib)[v - 1]
    ensures start <= out.mapping[v - 1] < start + CountOf(lib) && AuxIn(out, out.mapping[v - 1]) == 1
  {
    var needed := NeededOf(lib);
    SoundFits(lib, start);
    MappingIs(needed, start, v - 1);
    OneAuxPerDefinition(lib.verdefs, needed, start, v);
    assert Occurs(lib.verdefs, v) == 1;
  }

  lemma {:induction false} PlacedTaken(lib: Library, start: nat, out: Linked, x: nat)
    requires Placed(lib, start, out) && start <= x < start + CountOf(lib)
    ensures AuxIn(out, x) == 1
  {
    var needed := NeededOf(lib);
    SoundFits(lib, start);
    var i := RankTaken(needed, |needed|, x - start);
    MappingIs(needed, start, i);
    PlacedOnce(lib, start, out, i + 1);
  }

  /** An index from library `k`'s range is carried by no other library's Vernaux. */
  lemma {:induction false} OnlyIn(libs: seq<Library>, first: nat, outs: seq<Linked>, k: nat, x: nat)
    requires Complete(libs, first, outs) && k < |libs|
    requires StartOf(libs, first, k) <= x < StartOf(libs, first, k) + CountOf(libs[k])
    ensures TotalOccurs(outs, x) == AuxIn(outs[k], x)
  {
    forall j | 0 <= j < |outs| && j != k
      ensures AuxIn(outs[j], x) == 0
    {
      if j < k {
        RangesAscend(libs, first, j, k);
      } else {
        RangesAscend(libs, first, k, j);
      }
      LibraryPlaced(libs, first, outs, j);
      PlacedElsewhere(libs[j], StartOf(libs, first, j), outs[j], x);
    }
    TotalOne(outs, x, k, |outs|);
    assert outs[..|outs|] == outs;
  }

  lemma {:induction false} OccursAt(defs: seq<Verdef>, v: nat)
    requires Occurs(defs, v) > 0
    ensures exists i :: 0 <= i < |defs| && !defs[i].base && defs[i].index == v
  {
    if !(!defs[|defs| - 1].base && defs[|defs| - 1].index == v) {
      OccursAt(defs[..|defs| - 1], v);
      var i :| 0 <= i < |defs| - 1 && !defs[..|defs| - 1][i].base && defs[..|defs| - 1][i].index == v;
      assert !defs[i].base && defs[i].index == v;
    }
  }

  /** Definition `i` of the library gave the Vernaux with index `x` its name. */
  ghost predicate NamedBy(lib: Library, out: Linked, v: nat, x: nat, i: int) {
    && 0 <= i < |lib.verdefs| && !lib.verdefs[i].base && lib.verdefs[i].index == v && lib.verdefs[i].name.Some?
    && out.verneed.Some? && Vernaux(x, lib.verdefs[i].name.value) in out.verneed.value.auxes
  }

  /**
    * The version written for a used symbol is carried by exactly one Vernaux of the output, which is
    * in the symbol's own library, under the name of the symbol's own version, and above every
    * version that the output itself defines.
    */
  lemma {:induction false} VersymNamesOneVernaux(
      libs: seq<Library>, first: nat, outs: seq<Linked>, k: nat, p: nat, v: nat)
    requires Complete(libs, first, outs) && k < |libs| && p < |libs[k].used| && HasVersion(libs[k], libs[k].used[p], v)
    ensures v <= |outs[k].mapping|
    ensures
      var x := CopiedVersion(libs[k], outs[k].mapping, libs[k].used[p]);
      && x >= first && AuxIn(outs[k], x) == TotalOccurs(outs, x) == 1
      && exists i :: NamedBy(libs[k], outs[k], v, x, i)
  {
    var lib, out, start := libs[k], outs[k], StartOf(libs, first, k);
    LibraryPlaced(libs, first, outs, k);
    assert Uses(lib, v);
    assert NeededOf(lib)[v - 1];
    PlacedOnce(lib, start, out, v);
    OnlyIn(libs, first, outs, k, out.mapping[v - 1]);
    var i := NameWritten(lib, out, start, v);
  }

  lemma {:induction false} NameWritten(lib: Library, out: Linked, start: nat, v: nat) returns (i: nat)
    requires Placed(lib, start, out) && out.verneed.Some? && 0 < v <= lib.verdefNum && NeededOf(lib)[v - 1]
    ensures NamedBy(lib, out, v, out.mapping[v - 1], i)
  {
    assert Occurs(lib.verdefs, v) == 1;
    OccursAt(lib.verdefs, v);
    i :| 0 <= i < |lib.verdefs| && !lib.verdefs[i].base && lib.verdefs[i].index == v;
    SoundFits(lib, start);
    DefinitionWritten(lib.verdefs, NeededOf(lib), start, i);
  }

  lemma {:induction false} DefinitionWritten(defs: seq<Verdef>, needed: seq<bool>, start: nat, i: nat)
    requires Fits(needed, start) && DefinitionsOk(defs, needed) && i < |defs| && Wants(needed, defs[i])
    ensures defs[i].name.Some?
    ensures
      var m := Mapping(needed, start);
      Vernaux(m[defs[i].index - 1], defs[i].name.value) in Auxes(defs, m)
  {
    assert DefinitionOk(needed, defs[i]);
    EmitsIsWants(needed, start, defs[i]);
    AuxWritten(defs, Mapping(needed, start), i);
  }

  /** The place of the needed version with rank `rank`. */
  lemma {:induction false} RankTaken(needed: seq<bool>, k: nat, rank: nat) returns (i: nat)
    requires k <= |needed| && rank < Trues(needed, k)
    ensures i < k && needed[i] && Trues(needed, i) == rank
  {
    if rank < Trues(needed, k - 1) {
      i := RankTaken(needed, k - 1, rank);
    } else {
      i := k - 1;
    }
  }

  lemma {:induction false} RangeOf(libs: seq<Library>, first: nat, x: nat, n: nat) returns (k: nat)
    requires n <= |libs| && first <= x < StartOf(libs, first, n)
    ensures k < n && StartOf(libs, first, k) <= x < StartOf(libs, first, k) + CountOf(libs[k])
  {
    if x < StartOf(libs, first, n - 1) {
      k := RangeOf(libs, first, x, n - 1);
    } else {
      k := n - 1;
      RangeFits(libs, first, k);
    }
  }

  /** The indexes in use are contiguous: one Vernaux for each from the first on, and none beyond. */
  lemma {:induction false} IndexesAreContiguous(libs: seq<Library>, first: nat, outs: seq<Linked>, x: nat)
    requires Complete(libs, first, outs)
    ensures TotalOccurs(outs, x) == if first <= x < first + Sum(Counts(libs)) then 1 else 0
  {
    var counts := Counts(libs);
    assert counts[..|counts|] == counts;
    if first <= x < first + Sum(counts) {
      var k := RangeOf(libs, first, x, |libs|);
      LibraryPlaced(libs, first, outs, k);
      PlacedTaken(libs[k], StartOf(libs, first, k), outs[k], x);
      OnlyIn(libs, first, outs, k, x);
    } else {
      forall j | 0 <= j < |outs|
        ensures AuxIn(outs[j], x) == 0
      {
        RangeFits(libs, first, j);
        LibraryPlaced(libs, first, outs, j);
        PlacedElsewhere(libs[j], StartOf(libs, first, j), outs[j], x);
      }
      TotalNone(outs, x, |outs|);
      assert outs[..|outs|] == outs;
    }
  }

  // ----- When libraries share an index -----

  /** The library starting at `start` hands out index `x`. */
  ghost predicate HandedOut(lib: Library, start: nat, x: int) {
    exists i :: HandedOutFor(lib, start, x, i)
  }

  ghost predicate HandedOutFor(lib: Library, start: nat, x: int, i: int) {
    0 <= i < lib.verdefNum && NeededOf(lib)[i] && Mapping(NeededOf(lib), start)[i] == x
  }

  ghost function TruesOf(lib: Library): nat {
    Trues(NeededOf(lib), lib.verdefNum)
  }

  /** What a library hands out is the range of as many indexes as it has needed versions. */
  lemma {:induction false} HandedOutRange(lib: Library, start: nat, x: int)
    requires Fits(NeededOf(lib), start)
    ensures HandedOut(lib, start, x) <==> start <= x < start + TruesOf(lib)
  {
    var needed := NeededOf(lib);
    if HandedOut(lib, start, x) {
      var i :| HandedOutFor(lib, start, x, i);
      MappingIs(needed, start, i);
    }
    if start <= x < start + TruesOf(lib) {
      var i := RankTaken(needed, |needed|, x - start);
      MappingIs(needed, start, i);
      assert HandedOutFor(lib, start, x, i);
    }
  }

  /**
    * A library stays inside the range that was set aside for it exactly if it has no more needed
    * versions than definitions of needed versions, both counted version by version.
    */
  lemma {:induction false} StaysInRangeIff(lib: Library, start: nat)
    requires Fits(NeededOf(lib), start)
    ensures (forall x :: HandedOut(lib, start, x) ==> x < start + CountOf(lib)) <==>
      TruesOf(lib) <= NeededDefinitions(lib.verdefs, NeededOf(lib), lib.verdefNum)
  {
    CountedByVersion(lib.verdefs, NeededOf(lib));
    forall x
      ensures HandedOut(lib, start, x) <==> start <= x < start + TruesOf(lib)
    {
      HandedOutRange(lib, start, x);
    }
    if CountOf(lib) < TruesOf(lib) {
      assert HandedOut(lib, start, start + CountOf(lib));
    }
  }

  /**
    * Two libraries share an index exactly if the later one needs a version and the earlier one needs
    * more versions than were counted from it up to the later one.
    */
  lemma {:induction false} ShareIndexIff(libs: seq<Library>, first: nat, j: nat, k: nat)
    requires j < k < |libs|
    requires Fits(NeededOf(libs[j]), StartOf(libs, first, j)) && Fits(NeededOf(libs[k]), StartOf(libs, first, k))
    ensures
      var a, b := StartOf(libs, first, j), StartOf(libs, first, k);
      (exists x :: HandedOut(libs[j], a, x) && HandedOut(libs[k], b, x)) <==>
      TruesOf(libs[k]) > 0 && TruesOf(libs[j]) > b - a
  {
    var a, b := StartOf(libs, first, j), StartOf(libs, first, k);
    SumMonotone(Counts(libs), j, k);
    forall x
      ensures HandedOut(libs[j], a, x) <==> a <= x < a + TruesOf(libs[j])
      ensures HandedOut(libs[k], b, x) <==> b <= x < b + TruesOf(libs[k])
    {
      HandedOutRange(libs[j], a, x);
      HandedOutRange(libs[k], b, x);
    }
    if TruesOf(libs[k]) > 0 && TruesOf(libs[j]) > b - a {
      assert HandedOut(libs[j], a, b) && HandedOut(libs[k], b, b);
    }
  }

  /** One used symbol, of version 2. */
  function UsesSecond(name: string, defs: seq<Verdef>): Library {
    Library(name, 2, defs, [2], [0])
  }

  lemma {:induction false} SecondNeeded(lib: Library)
    requires lib == UsesSecond(lib.name, lib.verdefs)
    ensures VersionsKnown(lib) && NeededOf(lib) == [false, true] && Mapping(NeededOf(lib), 2) == [GLOBAL, 2]
    ensures CopiedVersion(lib, [GLOBAL, 2], 0) == 2
  {
    assert VersionOf(2) == 2;
    assert HasVersion(lib, lib.used[0], 2) && Uses(lib, 2);
    assert forall v :: Uses(lib, v) ==> v == 2;
    assert NeededOf(lib) == [false, true];
    assert Trues([false, true], 1) == 0;
  }

  /**
    * A base that is not version 1 can be needed like any other version, and is then not counted: the
    * next library gets the same index for a version of its own.
    */
  lemma {:induction false} MisnumberedBaseCollides(a: Library, b: Library)
    requires a == UsesSecond("a", [Verdef(2, true, None), Verdef(1, false, Some("V"))])
    requires b == UsesSecond("b", [Verdef(1, true, None), Verdef(2, false, Some("W"))])
    ensures AllAccepted([a, b]) && StartOf([a, b], FirstIndex(0), 0) == StartOf([a, b], FirstIndex(0), 1) == 2
    ensures Mapping(NeededOf(a), 2) == Mapping(NeededOf(b), 2) == [GLOBAL, 2]
    ensures CopiedVersion(a, [GLOBAL, 2], 0) == CopiedVersion(b, [GLOBAL, 2], 0) == 2
  {
    SecondNeeded(a);
    SecondNeeded(b);
    NoneWanted(a);
    var counts := Counts([a, b]);
    assert counts[..1] == [0] && counts[..1][..0] == [];
    assert Accepted(a) && Accepted(b);
  }

  lemma {:induction false} NoneWanted(a: Library)
    requires a == UsesSecond("a", [Verdef(2, true, None), Verdef(1, false, Some("V"))])
    requires NeededOf(a) == [false, true]
    ensures CountOf(a) == 0
  {
    var needed, one := NeededOf(a), a.verdefs[..1];
    assert one[..0] == [] && one == [a.verdefs[0]];
    assert Wanted(one, needed) == [];
  }
}
