/**
 The first two passes over a symbol's resolution: how much space it is given in
 each table, and which addresses it is assigned.
 */
module Resolutions {
  import opened Wrappers

  datatype RelocationModel = Relocatable | NonRelocatable

  datatype OutputKind =
    | StaticExecutable(model: RelocationModel)
    | DynamicExecutable(model: RelocationModel)
    | SharedObject
    | PartialObject
  {
    predicate IsExecutable() {
      StaticExecutable? || DynamicExecutable?
    }

    predicate IsRelocatable() {
      SharedObject? || PartialObject? || model.Relocatable?
    }
  }

  /** The flags of a symbol that decide its table entries. */
  datatype ValueFlags = ValueFlags(
    absolute: bool,
    dynamic: bool,
    ifunc: bool,
    nonInterposable: bool,
    exportDynamic: bool,
    got: bool,
    plt: bool,
    gotTlsOffset: bool,
    gotTlsModule: bool,
    gotTlsDescriptor: bool,
    ifuncGotForAddress: bool)
  {
    predicate IsInterposable() {
      !nonInterposable
    }

    predicate IsAddress() {
      !ifunc && !dynamic && !absolute
    }

    predicate IsTls() {
      gotTlsOffset || gotTlsModule || gotTlsDescriptor
    }

    predicate HasDynamicSymbol() {
      dynamic || (exportDynamic && IsInterposable())
    }
  }

  const GOT_ENTRY_SIZE: nat := 8
  const PLT_ENTRY_SIZE: nat := 16
  const RELA_ENTRY_SIZE: nat := 24
  const RELR_ENTRY_SIZE: nat := 8

  /** One number for each of the tables that resolutions use. */
  datatype Parts = Parts(got: nat, pltGot: nat, relaPlt: nat, relative: nat, general: nat, relr: nat) {
    function Plus(o: Parts): Parts {
      Parts(got + o.got, pltGot + o.pltGot, relaPlt + o.relaPlt,
            relative + o.relative, general + o.general, relr + o.relr)
    }

    /** The byte sizes for these entry counts, with the entry sizes written out. */
    function Bytes(): Parts {
      Parts(8 * got, 16 * pltGot, 24 * relaPlt, 24 * relative, 24 * general, 8 * relr)
    }
  }

  const NO_PARTS := Parts(0, 0, 0, 0, 0, 0)

  /** A per-part map of sizes or offsets that the passes increment in place. */
  class PartMap {
    var got: nat
    var pltGot: nat
    var relaPlt: nat
    var relative: nat
    var general: nat
    var relr: nat

    constructor (p: Parts)
      ensures Value() == p
    {
      got, pltGot, relaPlt, relative, general, relr := p.got, p.pltGot, p.relaPlt, p.relative, p.general, p.relr;
    }

    ghost function Value(): Parts
      reads this
    {
      Parts(got, pltGot, relaPlt, relative, general, relr)
    }
  }

  function Count(b: bool): nat {
    if b then 1 else 0
  }

  /** The entries that `AllocateResolution` sets aside, table by table. */
  function Allocated(flags: ValueFlags, kind: OutputKind, relr: bool): Parts {
    var pointer := flags.got && !flags.IsTls();
    var addresses :=
      if !kind.IsRelocatable() then 0
      else Count(pointer && flags.IsAddress() && !flags.HasDynamicSymbol()) + Count(flags.ifuncGotForAddress);
    Parts(
      Count(pointer) + Count(flags.ifuncGotForAddress) + TlsSlots(flags),
      Count(pointer && flags.plt),
      Count(pointer && flags.ifunc),
      if relr then 0 else addresses,
      Count(pointer && !flags.ifunc && flags.HasDynamicSymbol()) + TlsRelocations(flags, kind),
      if relr then addresses else 0)
  }

  /** The slot for a pointer, its PLT entry, and the one relocation that the pointer needs. */
  function PointerSpace(flags: ValueFlags, kind: OutputKind, relr: bool): Parts {
    var pointer := flags.got && !flags.IsTls();
    var address := pointer && flags.IsAddress() && !flags.HasDynamicSymbol() && kind.IsRelocatable();
    Parts(Count(pointer), Count(pointer && flags.plt), Count(pointer && flags.ifunc), Count(address && !relr),
          Count(pointer && !flags.ifunc && flags.HasDynamicSymbol()), Count(address && relr))
  }

  function IfuncAddressSpace(flags: ValueFlags, kind: OutputKind, relr: bool): Parts {
    var address := flags.ifuncGotForAddress && kind.IsRelocatable();
    Parts(Count(flags.ifuncGotForAddress), 0, 0, Count(address && !relr), 0, Count(address && relr))
  }

  function TlsSpace(flags: ValueFlags, kind: OutputKind): Parts {
    NO_PARTS.(got := TlsSlots(flags), general := TlsRelocations(flags, kind))
  }

  function TlsSlots(flags: ValueFlags): nat {
    Count(flags.gotTlsOffset) + 2 * Count(flags.gotTlsModule) + 2 * Count(flags.gotTlsDescriptor)
  }

  function TlsRelocations(flags: ValueFlags, kind: OutputKind): nat {
    Count(flags.gotTlsOffset && (flags.IsInterposable() || kind.SharedObject?))
    + Count(flags.gotTlsModule && (!kind.IsExecutable() || flags.dynamic))
    + Count(flags.gotTlsModule && flags.HasDynamicSymbol())
    + Count(flags.gotTlsDescriptor)
  }

  lemma {:induction false} AllocatedInSteps(start: Parts, flags: ValueFlags, kind: OutputKind, relr: bool)
    ensures
      start
        .Plus(PointerSpace(flags, kind, relr).Bytes())
        .Plus(IfuncAddressSpace(flags, kind, relr).Bytes())
        .Plus(TlsSpace(flags, kind).Bytes())
      == start.Plus(Allocated(flags, kind, relr).Bytes())
  {
  }

  method AllocateResolution(flags: ValueFlags, memSizes: PartMap, kind: OutputKind, relr: bool)
    modifies memSizes
    ensures memSizes.Value() == old(memSizes.Value()).Plus(Allocated(flags, kind, relr).Bytes())
  {
    AllocatedInSteps(memSizes.Value(), flags, kind, relr);
    AllocatePointer(flags, memSizes, kind, relr);
    AllocateIfuncAddress(flags, memSizes, kind, relr);
    AllocateTls(flags, memSizes, kind);
  }

  method AllocateAddressRelocation(memSizes: PartMap, relr: bool)
    modifies memSizes`relr, memSizes`relative
    ensures memSizes.relr == old(memSizes.relr) + if relr then RELR_ENTRY_SIZE else 0
    ensures memSizes.relative == old(memSizes.relative) + if relr then 0 else RELA_ENTRY_SIZE
  {
    if relr {
      memSizes.relr := memSizes.relr + RELR_ENTRY_SIZE;
    } else {
      memSizes.relative := memSizes.relative + RELA_ENTRY_SIZE;
    }
  }

  method AllocatePointer(flags: ValueFlags, memSizes: PartMap, kind: OutputKind, relr: bool)
    modifies memSizes
    ensures memSizes.Value() == old(memSizes.Value()).Plus(PointerSpace(flags, kind, relr).Bytes())
  {
    if flags.got && !flags.IsTls() {
      memSizes.got := memSizes.got + GOT_ENTRY_SIZE;
      if flags.plt {
        memSizes.pltGot := memSizes.pltGot + PLT_ENTRY_SIZE;
      }
      if flags.ifunc {
        memSizes.relaPlt := memSizes.relaPlt + RELA_ENTRY_SIZE;
      } else if flags.HasDynamicSymbol() {
        memSizes.general := memSizes.general + RELA_ENTRY_SIZE;
      } else if flags.IsAddress() && kind.IsRelocatable() {
        AllocateAddressRelocation(memSizes, relr);
      }
    }
  }

  method AllocateIfuncAddress(flags: ValueFlags, memSizes: PartMap, kind: OutputKind, relr: bool)
    modifies memSizes
    ensures memSizes.Value() == old(memSizes.Value()).Plus(IfuncAddressSpace(flags, kind, relr).Bytes())
  {
    if flags.ifuncGotForAddress {
      memSizes.got := memSizes.got + GOT_ENTRY_SIZE;
      if kind.IsRelocatable() {
        AllocateAddressRelocation(memSizes, relr);
      }
    }
  }

  method AllocateTls(flags: ValueFlags, memSizes: PartMap, kind: OutputKind)
    modifies memSizes
    ensures memSizes.Value() == old(memSizes.Value()).Plus(TlsSpace(flags, kind).Bytes())
  {
    if flags.gotTlsOffset {
      memSizes.got := memSizes.got + GOT_ENTRY_SIZE;
      if flags.IsInterposable() || kind.SharedObject? {
        memSizes.general := memSizes.general + RELA_ENTRY_SIZE;
      }
    }
    if flags.gotTlsModule {
      memSizes.got := memSizes.got + GOT_ENTRY_SIZE * 2;
      if !kind.IsExecutable() || flags.dynamic {
        memSizes.general := memSizes.general + RELA_ENTRY_SIZE;
      }
      if flags.HasDynamicSymbol() {
        memSizes.general := memSizes.general + RELA_ENTRY_SIZE;
      }
    }
    if flags.gotTlsDescriptor {
      memSizes.got := memSizes.got + GOT_ENTRY_SIZE * 2;
      memSizes.general := memSizes.general + RELA_ENTRY_SIZE;
    }
  }

  // ----- Addresses -----

  datatype Resolution = Resolution(
    flags: ValueFlags,
    rawValue: nat,
    dynamicSymbolIndex: Option<nat>,
    gotAddress: Option<nat>,
    pltAddress: Option<nat>)
  {
    // The accessors that relocations use to find a slot.

    function GotAddressForRelocation(): nat
      requires gotAddress.Some?
    {
      gotAddress.value + if flags.ifuncGotForAddress then GOT_ENTRY_SIZE else 0
    }

    function TlsgdGotAddress(): nat
      requires gotAddress.Some?
    {
      gotAddress.value + if flags.gotTlsOffset then GOT_ENTRY_SIZE else 0
    }

    function TlsDescriptorGotAddress(): nat
      requires gotAddress.Some?
    {
      gotAddress.value + (if flags.gotTlsOffset then GOT_ENTRY_SIZE else 0)
      + (if flags.gotTlsModule then 2 * GOT_ENTRY_SIZE else 0)
    }
  }

  /** The GOT slots that address assignment reserves. */
  function GotSlots(flags: ValueFlags): nat {
    if flags.plt then 1 + Count(flags.ifuncGotForAddress)
    else if flags.IsTls() then TlsSlots(flags)
    else Count(flags.got)
  }

  /** What is known about a symbol before addresses are assigned. */
  datatype Request = Request(flags: ValueFlags, rawValue: nat, dynamicSymbolIndex: Option<nat>)

  function Created(q: Request, offsets: Parts): Resolution {
    Resolution(
      q.flags,
      if q.flags.plt && q.flags.dynamic then offsets.pltGot else q.rawValue,
      q.dynamicSymbolIndex,
      if GotSlots(q.flags) > 0 then Some(offsets.got) else None,
      if q.flags.plt then Some(offsets.pltGot) else None)
  }

  /** The space address assignment steps over, in entries. */
  function Reserved(flags: ValueFlags): Parts {
    NO_PARTS.(got := GotSlots(flags), pltGot := Count(flags.plt))
  }

  method CreateResolution(q: Request, memoryOffsets: PartMap) returns (res: Resolution)
    modifies memoryOffsets
    ensures res == Created(q, old(memoryOffsets.Value()))
    ensures memoryOffsets.Value() == old(memoryOffsets.Value()).Plus(Reserved(q.flags).Bytes())
  {
    var flags := q.flags;
    res := Resolution(flags, q.rawValue, q.dynamicSymbolIndex, None, None);
    if flags.plt {
      var pltAddress := memoryOffsets.pltGot;
      memoryOffsets.pltGot := pltAddress + PLT_ENTRY_SIZE;
      res := res.(pltAddress := Some(pltAddress));
      if flags.dynamic {
        res := res.(rawValue := pltAddress);
      }
      var n := if flags.ifuncGotForAddress then 2 else 1;
      var gotAddress := AllocateGot(n, memoryOffsets);
      res := res.(gotAddress := Some(gotAddress));
    } else if flags.IsTls() {
      var n := 0;
      if flags.gotTlsOffset {
        n := n + 1;
      }
      if flags.gotTlsModule {
        n := n + 2;
      }
      if flags.gotTlsDescriptor {
        n := n + 2;
      }
      var gotAddress := AllocateGot(n, memoryOffsets);
      res := res.(gotAddress := Some(gotAddress));
    } else if flags.got {
      var gotAddress := AllocateGot(1, memoryOffsets);
      res := res.(gotAddress := Some(gotAddress));
    }
  }

  method AllocateGot(numEntries: nat, memoryOffsets: PartMap) returns (address: nat)
    modifies memoryOffsets
    ensures address == old(memoryOffsets.got)
    ensures memoryOffsets.Value() == old(memoryOffsets.Value()).(got := address + GOT_ENTRY_SIZE * numEntries)
  {
    address := memoryOffsets.got;
    memoryOffsets.got := address + GOT_ENTRY_SIZE * numEntries;
  }

  // ----- Both passes over a list of symbols -----

  function AllocatedAll(qs: seq<Request>, kind: OutputKind, relr: bool): Parts {
    if qs == [] then NO_PARTS
    else AllocatedAll(qs[..|qs| - 1], kind, relr).Plus(Allocated(qs[|qs| - 1].flags, kind, relr))
  }

  function OffsetsAfter(qs: seq<Request>, offsets: Parts): Parts {
    if qs == [] then offsets
    else OffsetsAfter(qs[..|qs| - 1], offsets).Plus(Reserved(qs[|qs| - 1].flags).Bytes())
  }

  function CreatedAll(qs: seq<Request>, offsets: Parts): (rs: seq<Resolution>)
    ensures |rs| == |qs|
    ensures forall i :: 0 <= i < |qs| ==> rs[i] == Created(qs[i], OffsetsAfter(qs[..i], offsets))
  {
    seq(|qs|, i requires 0 <= i < |qs| => Created(qs[i], OffsetsAfter(qs[..i], offsets)))
  }

  lemma {:induction false} BytesPlus(a: Parts, b: Parts)
    ensures a.Plus(b).Bytes() == a.Bytes().Plus(b.Bytes())
  {
  }

  method AllocateSymbols(qs: seq<Request>, kind: OutputKind, relr: bool) returns (memSizes: PartMap)
    ensures fresh(memSizes)
    ensures memSizes.Value() == AllocatedAll(qs, kind, relr).Bytes()
  {
    memSizes := new PartMap(NO_PARTS);
    for i := 0 to |qs|
      invariant fresh(memSizes)
      invariant memSizes.Value() == AllocatedAll(qs[..i], kind, relr).Bytes()
    {
      assert qs[..i + 1][..i] == qs[..i];
      BytesPlus(AllocatedAll(qs[..i], kind, relr), Allocated(qs[i].flags, kind, relr));
      AllocateResolution(qs[i].flags, memSizes, kind, relr);
    }
    assert qs[..|qs|] == qs;
  }

  method CreateSymbols(qs: seq<Request>, memoryOffsets: PartMap) returns (rs: seq<Resolution>)
    modifies memoryOffsets
    ensures rs == CreatedAll(qs, old(memoryOffsets.Value()))
  {
    rs := [];
    for i := 0 to |qs|
      invariant memoryOffsets.Value() == OffsetsAfter(qs[..i], old(memoryOffsets.Value()))
      invariant rs == CreatedAll(qs, old(memoryOffsets.Value()))[..i]
    {
      assert qs[..i + 1][..i] == qs[..i];
      var res := CreateResolution(qs[i], memoryOffsets);
      rs := rs + [res];
    }
  }
}
