/**
 The third pass: the writer that fills GOT, PLT and dynamic relocation slots
 for each resolution in turn.

 A table of the output is a slice that each take shortens from the front. Here
 it is the entries written so far together with a fixed capacity; the slots left
 are the difference.
 */
module TableWriters {
  import opened Machine
  import opened Wrappers
  import opened Resolutions

  /** What a GOT slot was filled for. */
  datatype GotUse = Pointer | PltPointer | TlsOffset | TlsModule | TlsModuleOffset | TlsDescriptor | TlsDescriptorArg

  /** A slot that was taken; `None` means that the writer leaves the bytes to the relocation. */
  datatype GotEntry = GotEntry(use: GotUse, value: Option<int>)

  datatype RelocationKind = GotEntryRel | Irelative | Relative | TpOff | DtpMod | DtpOff | TlsDesc

  datatype Rela = Rela(place: nat, symbol: nat, kind: RelocationKind, addend: int)

  datatype PltEntry = PltEntry(gotAddress: nat, pltAddress: nat)

  datatype Tables = Tables(
    got: seq<GotEntry>,
    pltGot: seq<PltEntry>,
    relaPlt: seq<Rela>,
    relative: seq<Rela>,
    general: seq<Rela>,
    relr: seq<nat>)
  {
    function Plus(o: Tables): Tables {
      Tables(got + o.got, pltGot + o.pltGot, relaPlt + o.relaPlt,
             relative + o.relative, general + o.general, relr + o.relr)
    }

    function Counts(): Parts {
      Parts(|got|, |pltGot|, |relaPlt|, |relative|, |general|, |relr|)
    }
  }

  const NO_TABLES := Tables([], [], [], [], [], [])

  ghost predicate Within(a: Parts, b: Parts) {
    && a.got <= b.got && a.pltGot <= b.pltGot && a.relaPlt <= b.relaPlt
    && a.relative <= b.relative && a.general <= b.general && a.relr <= b.relr
  }

  const EXE_TLS_MODULE := 1

  /** What the writer reads besides the resolution. `relr` says whether it holds a RELR table. */
  datatype Env = Env(
    kind: OutputKind,
    relr: bool,
    tlsStart: nat,
    tlsEnd: nat,
    hasLayout: bool,
    tpOffsetStart: nat,
    dtvOffset: nat)

  // ----- What a resolution asks the writer for, table by table -----

  /** The pointer slot is filled at load time by a relocation against a dynamic symbol. */
  predicate UsesGlobDat(flags: ValueFlags) {
    flags.dynamic || (flags.exportDynamic && flags.IsInterposable() && !flags.ifunc)
  }

  function SymbolOr0(res: Resolution): nat {
    if res.dynamicSymbolIndex.Some? then res.dynamicSymbolIndex.value else 0
  }

  /** No check on the way bails out, given enough room. */
  predicate Writable(env: Env, res: Resolution) {
    var flags := res.flags;
    res.gotAddress.Some? ==>
      if flags.IsTls() then TlsWritable(env, res) else NonTlsWritable(res)
  }

  predicate TlsWritable(env: Env, res: Resolution) {
    && (res.flags.gotTlsOffset ==> TlsOffsetWritable(env, res))
    && (res.flags.gotTlsModule ==> res.dynamicSymbolIndex.Some? || res.flags.IsAddress())
    && (res.flags.gotTlsDescriptor ==> !env.kind.StaticExecutable?)
  }

  predicate NonTlsWritable(res: Resolution) {
    && PointerWritable(res)
    && (res.flags.ifuncGotForAddress ==> res.pltAddress.Some?)
  }

  predicate TlsOffsetWritable(env: Env, res: Resolution) {
    && env.hasLayout
    && if res.flags.HasDynamicSymbol() then res.dynamicSymbolIndex.Some?
       else res.rawValue == 0 || env.tlsStart <= res.rawValue <= env.tlsEnd
  }

  function TlsOffsetSlot(env: Env, res: Resolution): seq<GotEntry> {
    if !res.flags.gotTlsOffset then []
    else if res.flags.HasDynamicSymbol() || res.rawValue == 0 then [GotEntry(TlsOffset, Some(0))]
    else if env.kind.IsExecutable() then [GotEntry(TlsOffset, Some(Wrap64(res.rawValue - env.tpOffsetStart)))]
    else [GotEntry(TlsOffset, None)]
  }

  function TlsModuleSlots(env: Env, res: Resolution): seq<GotEntry> {
    if !res.flags.gotTlsModule then []
    else
      [GotEntry(TlsModule, Some(if env.kind.IsExecutable() && !res.flags.dynamic then EXE_TLS_MODULE else 0)),
       GotEntry(TlsModuleOffset,
         Some(if res.dynamicSymbolIndex.Some? then 0 else Wrap64(res.rawValue - env.tlsStart - env.dtvOffset)))]
  }

  function TlsDescriptorSlots(res: Resolution): seq<GotEntry> {
    if res.flags.gotTlsDescriptor then [GotEntry(TlsDescriptor, Some(0)), GotEntry(TlsDescriptorArg, Some(0))] else []
  }

  /** RELR takes only even places; everything else is a RELATIVE relocation. */
  predicate PackedAt(env: Env, place: nat) {
    env.relr && place % 2 == 0
  }

  function TlsOffsetRelas(env: Env, res: Resolution, place: nat): seq<Rela> {
    if !res.flags.gotTlsOffset then []
    else if res.flags.HasDynamicSymbol() then [Rela(place, SymbolOr0(res), TpOff, 0)]
    else if res.rawValue != 0 && !env.kind.IsExecutable() then [Rela(place, 0, TpOff, res.rawValue - env.tlsStart)]
    else []
  }

  function TlsModuleRelas(env: Env, res: Resolution, place: nat): seq<Rela> {
    if !res.flags.gotTlsModule then []
    else
      (if env.kind.IsExecutable() && !res.flags.dynamic then [] else [Rela(place, SymbolOr0(res), DtpMod, 0)])
      + (if res.dynamicSymbolIndex.Some? && res.flags.IsInterposable()
         then [Rela(place + 8, res.dynamicSymbolIndex.value, DtpOff, 0)] else [])
  }

  function TlsDescriptorRelas(env: Env, res: Resolution, place: nat): seq<Rela> {
    if !res.flags.gotTlsDescriptor then []
    else [Rela(place, SymbolOr0(res), TlsDesc, if res.dynamicSymbolIndex.Some? then 0 else res.rawValue - env.tlsStart)]
  }

  function TlsWrites(env: Env, res: Resolution): Tables
    requires res.gotAddress.Some?
  {
    NO_TABLES.(
      got := TlsOffsetSlot(env, res) + TlsModuleSlots(env, res) + TlsDescriptorSlots(res),
      general :=
        TlsOffsetRelas(env, res, res.gotAddress.value)
        + TlsModuleRelas(env, res, res.TlsgdGotAddress())
        + TlsDescriptorRelas(env, res, res.TlsDescriptorGotAddress()))
  }

  predicate PointerWritable(res: Resolution) {
    UsesGlobDat(res.flags) ==> res.dynamicSymbolIndex.Some?
  }

  /** What the first slot of a non-TLS resolution makes the writer write. */
  function PointerWrites(env: Env, res: Resolution): Tables
    requires res.gotAddress.Some? && PointerWritable(res)
  {
    var place := res.gotAddress.value;
    var flags := res.flags;
    if UsesGlobDat(flags) then
      NO_TABLES.(got := [GotEntry(Pointer, Some(0))],
        general := [Rela(place, res.dynamicSymbolIndex.value, GotEntryRel, 0)])
    else if flags.ifunc then
      NO_TABLES.(got := [GotEntry(Pointer, Some(0))], relaPlt := [Rela(place, 0, Irelative, res.rawValue)])
    else if !(flags.IsAddress() && env.kind.IsRelocatable()) then
      NO_TABLES.(got := [GotEntry(Pointer, Some(res.rawValue))])
    else if PackedAt(env, place) then
      NO_TABLES.(got := [GotEntry(Pointer, Some(res.rawValue))], relr := [place])
    else
      NO_TABLES.(got := [GotEntry(Pointer, Some(0))], relative := [Rela(place, 0, Relative, res.rawValue)])
  }

  function IfuncAddressWrites(env: Env, res: Resolution): Tables
    requires res.gotAddress.Some? && res.pltAddress.Some?
  {
    var place, address := res.gotAddress.value + GOT_ENTRY_SIZE, res.pltAddress.value;
    if !env.kind.IsRelocatable() then NO_TABLES.(got := [GotEntry(PltPointer, Some(address))])
    else if PackedAt(env, place) then NO_TABLES.(got := [GotEntry(PltPointer, Some(address))], relr := [place])
    else NO_TABLES.(got := [GotEntry(PltPointer, Some(0))], relative := [Rela(place, 0, Relative, address)])
  }

  function PltWrites(res: Resolution): Tables
    requires res.gotAddress.Some?
  {
    if res.pltAddress.None? then NO_TABLES
    else NO_TABLES.(pltGot := [PltEntry(res.gotAddress.value, res.pltAddress.value)])
  }

  function NonTlsWrites(env: Env, res: Resolution): Tables
    requires res.gotAddress.Some? && NonTlsWritable(res)
  {
    PointerWrites(env, res)
      .Plus(PltWrites(res))
      .Plus(if res.flags.ifuncGotForAddress then IfuncAddressWrites(env, res) else NO_TABLES)
  }

  /** Everything the writer writes for `res`. */
  function Writes(env: Env, res: Resolution): Tables
    requires Writable(env, res)
  {
    if res.gotAddress.None? then NO_TABLES
    else if res.flags.IsTls() then TlsWrites(env, res)
    else NonTlsWrites(env, res)
  }

  // ----- The writer -----

  class TableWriter {
    const env: Env
    const capacity: Parts
    var got: seq<GotEntry>
    var pltGot: seq<PltEntry>
    var relaPlt: seq<Rela>
    var relative: seq<Rela>
    var general: seq<Rela>
    var relr: seq<nat>

    ghost function Written(): Tables
      reads this
    {
      Tables(got, pltGot, relaPlt, relative, general, relr)
    }

    /** No table holds more than its capacity. */
    ghost predicate Valid()
      reads this
    {
      Within(Written().Counts(), capacity)
    }

    /** Takes over buffers of the given byte sizes. An empty RELR buffer counts as no RELR table. */
    constructor (env: Env, memSizes: PartMap, relrEnabled: bool, ghost entries: Parts)
      requires memSizes.Value() == entries.Bytes()
      ensures Written() == NO_TABLES && capacity == entries
      ensures this.env == env.(relr := relrEnabled && entries.relr > 0)
    {
      var c := Parts(memSizes.got / 8, memSizes.pltGot / 16, memSizes.relaPlt / 24, memSizes.relative / 24,
                     memSizes.general / 24, memSizes.relr / 8);
      this.capacity := c;
      this.env := env.(relr := relrEnabled && c.relr > 0);
      got, pltGot, relaPlt, relative, general, relr := [], [], [], [], [], [];
    }

    method TakeGotEntry(e: GotEntry) returns (ok: bool)
      modifies this`got
      ensures ok <==> |old(got)| < capacity.got
      ensures got == old(got) + if ok then [e] else []
    {
      if |got| >= capacity.got {
        return false;
      }
      got := got + [e];
      return true;
    }

    method WriteRelaDynGeneral(r: Rela) returns (ok: bool)
      modifies this`general
      ensures ok <==> |old(general)| < capacity.general
      ensures general == old(general) + if ok then [r] else []
    {
      if |general| >= capacity.general {
        return false;
      }
      general := general + [r];
      return true;
    }

    method WriteIfuncRelocation(res: Resolution) returns (ok: bool)
      requires res.gotAddress.Some?
      modifies this`relaPlt
      ensures ok <==> |old(relaPlt)| < capacity.relaPlt
      ensures relaPlt == old(relaPlt) + if ok then [Rela(res.gotAddress.value, 0, Irelative, res.rawValue)] else []
    {
      if |relaPlt| >= capacity.relaPlt {
        return false;
      }
      relaPlt := relaPlt + [Rela(res.gotAddress.value, 0, Irelative, res.rawValue)];
      return true;
    }

    method WritePltEntry(gotAddress: nat, pltAddress: nat) returns (ok: bool)
      modifies this`pltGot
      ensures ok <==> |old(pltGot)| < capacity.pltGot
      ensures pltGot == old(pltGot) + if ok then [PltEntry(gotAddress, pltAddress)] else []
    {
      if |pltGot| >= capacity.pltGot {
        return false;
      }
      pltGot := pltGot + [PltEntry(gotAddress, pltAddress)];
      return true;
    }

    /** Writes a RELR or RELATIVE entry and returns what belongs at the place itself. */
    method WriteAddressRelocation(place: nat, address: nat) returns (value: Option<nat>)
      modifies this`relr, this`relative
      ensures value.Some? <==>
        if PackedAt(env, place) then |old(relr)| < capacity.relr else |old(relative)| < capacity.relative
      ensures value.None? ==> relr == old(relr) && relative == old(relative)
      ensures value.Some? ==>
        && value.value == (if PackedAt(env, place) then address else 0)
        && relr == old(relr) + (if PackedAt(env, place) then [place] else [])
        && relative == old(relative) + (if PackedAt(env, place) then [] else [Rela(place, 0, Relative, address)])
    {
      if env.relr && place % 2 == 0 {
        if |relr| >= capacity.relr {
          return None;
        }
        relr := relr + [place];
        return Some(address);
      }
      if |relative| >= capacity.relative {
        return None;
      }
      relative := relative + [Rela(place, 0, Relative, address)];
      return Some(0);
    }

    method ProcessGotTlsOffset(res: Resolution, place: nat) returns (ok: bool)
      requires res.flags.gotTlsOffset && Valid()
      modifies this`got, this`general
      ensures Valid()
      ensures ok <==>
        && TlsOffsetWritable(env, res)
        && |old(got)| + 1 <= capacity.got
        && |old(general)| + |TlsOffsetRelas(env, res, place)| <= capacity.general
      ensures ok ==> got == old(got) + TlsOffsetSlot(env, res)
      ensures ok ==> general == old(general) + TlsOffsetRelas(env, res, place)
    {
      if !env.hasLayout {
        return false;
      }
      var address := res.rawValue;
      if res.flags.HasDynamicSymbol() {
        ok := TakeGotEntry(GotEntry(TlsOffset, Some(0)));
        if !ok || res.dynamicSymbolIndex.None? {
          return false;
        }
        ok := WriteRelaDynGeneral(Rela(place, res.dynamicSymbolIndex.value, TpOff, 0));
      } else if address == 0 {
        ok := TakeGotEntry(GotEntry(TlsOffset, Some(0)));
      } else if !(env.tlsStart <= address <= env.tlsEnd) {
        ok := false;
      } else if env.kind.IsExecutable() {
        ok := TakeGotEntry(GotEntry(TlsOffset, Some(Wrap64(address - env.tpOffsetStart))));
      } else {
        ok := TakeGotEntry(GotEntry(TlsOffset, None));
        if ok {
          ok := WriteRelaDynGeneral(Rela(place, 0, TpOff, address - env.tlsStart));
        }
      }
    }

    method ProcessGotTlsModAndOffset(res: Resolution, place: nat) returns (ok: bool)
      requires res.flags.gotTlsModule && Valid()
      modifies this`got, this`general
      ensures Valid()
      ensures ok <==>
        && (res.dynamicSymbolIndex.Some? || res.flags.IsAddress())
        && |old(got)| + 2 <= capacity.got
        && |old(general)| + |TlsModuleRelas(env, res, place)| <= capacity.general
      ensures ok ==> got == old(got) + TlsModuleSlots(env, res)
      ensures ok ==> general == old(general) + TlsModuleRelas(env, res, place)
    {
      if env.kind.IsExecutable() && !res.flags.dynamic {
        ok := TakeGotEntry(GotEntry(TlsModule, Some(EXE_TLS_MODULE)));
      } else {
        ok := TakeGotEntry(GotEntry(TlsModule, Some(0)));
        if ok {
          ok := WriteRelaDynGeneral(Rela(place, SymbolOr0(res), DtpMod, 0));
        }
      }
      if !ok {
        return;
      }
      if res.dynamicSymbolIndex.Some? {
        ok := TakeGotEntry(GotEntry(TlsModuleOffset, Some(0)));
        if ok && res.flags.IsInterposable() {
          ok := WriteRelaDynGeneral(Rela(place + 8, res.dynamicSymbolIndex.value, DtpOff, 0));
        }
      } else if !res.flags.IsAddress() {
        ok := false;
      } else {
        ok := TakeGotEntry(GotEntry(TlsModuleOffset, Some(Wrap64(res.rawValue - env.tlsStart - env.dtvOffset))));
      }
    }

    method ProcessGotTlsDescriptor(res: Resolution, place: nat) returns (ok: bool)
      requires res.flags.gotTlsDescriptor && Valid()
      modifies this`got, this`general
      ensures Valid()
      ensures ok <==>
        && !env.kind.StaticExecutable?
        && |old(got)| + 2 <= capacity.got
        && |old(general)| + |TlsDescriptorRelas(env, res, place)| <= capacity.general
      ensures ok ==> got == old(got) + TlsDescriptorSlots(res)
      ensures ok ==> general == old(general) + TlsDescriptorRelas(env, res, place)
    {
      ok := TakeGotEntry(GotEntry(TlsDescriptor, Some(0)));
      if !ok {
        return;
      }
      ok := TakeGotEntry(GotEntry(TlsDescriptorArg, Some(0)));
      if !ok || env.kind.StaticExecutable? {
        return false;
      }
      var addend := if res.dynamicSymbolIndex.None? then res.rawValue - env.tlsStart else 0;
      ok := WriteRelaDynGeneral(Rela(place, SymbolOr0(res), TlsDesc, addend));
    }

    method ProcessTlsOffsetAndModule(res: Resolution) returns (ok: bool)
      requires res.gotAddress.Some? && Valid()
      modifies this`got, this`general
      ensures Valid()
      ensures ok <==>
        && (res.flags.gotTlsOffset ==> TlsOffsetWritable(env, res))
        && (res.flags.gotTlsModule ==> res.dynamicSymbolIndex.Some? || res.flags.IsAddress())
        && |old(got)| + |TlsOffsetSlot(env, res)| + |TlsModuleSlots(env, res)| <= capacity.got
        && |old(general)| + |TlsOffsetRelas(env, res, res.gotAddress.value)|
           + |TlsModuleRelas(env, res, res.TlsgdGotAddress())| <= capacity.general
      ensures ok ==> got == old(got) + TlsOffsetSlot(env, res) + TlsModuleSlots(env, res)
      ensures ok ==>
        general == old(general) + TlsOffsetRelas(env, res, res.gotAddress.value) + TlsModuleRelas(env, res,
          res.TlsgdGotAddress())
    {
      var place := res.gotAddress.value;
      ok := true;
      if res.flags.gotTlsOffset {
        ok := ProcessGotTlsOffset(res, place);
        if !ok {
          return;
        }
        place := place + GOT_ENTRY_SIZE;
      }
      assert place == res.TlsgdGotAddress();
      assert got == old(got) + TlsOffsetSlot(env, res);
      assert general == old(general) + TlsOffsetRelas(env, res, res.gotAddress.value);
      if res.flags.gotTlsModule {
        ok := ProcessGotTlsModAndOffset(res, place);
      }
    }

    /** A TLS symbol takes its offset slot, its module pair and its descriptor pair, in that order. */
    method ProcessTls(res: Resolution) returns (ok: bool)
      requires res.gotAddress.Some? && res.flags.IsTls() && Valid()
      modifies this`got, this`general
      ensures Valid()
      ensures ok <==>
        && TlsWritable(env, res)
        && |old(got)| + |TlsWrites(env, res).got| <= capacity.got
        && |old(general)| + |TlsWrites(env, res).general| <= capacity.general
      ensures ok ==> got == old(got) + TlsWrites(env, res).got
      ensures ok ==> general == old(general) + TlsWrites(env, res).general
    {
      Regroup(got, TlsOffsetSlot(env, res), TlsModuleSlots(env, res), TlsDescriptorSlots(res));
      Regroup(general, TlsOffsetRelas(env, res, res.gotAddress.value), TlsModuleRelas(env, res, res.TlsgdGotAddress()),
              TlsDescriptorRelas(env, res, res.TlsDescriptorGotAddress()));
      ok := ProcessTlsOffsetAndModule(res);
      if ok && res.flags.gotTlsDescriptor {
        ok := ProcessGotTlsDescriptor(res, res.TlsDescriptorGotAddress());
      }
    }

    /** A pointer that the loader fills in from a dynamic symbol. */
    method ProcessGlobDat(res: Resolution) returns (ok: bool)
      requires res.gotAddress.Some? && UsesGlobDat(res.flags) && Valid()
      modifies this`got, this`general
      ensures Valid()
      ensures ok <==> PointerWritable(res) && Within(old(Written()).Plus(PointerWrites(env, res)).Counts(), capacity)
      ensures ok ==> Written() == old(Written()).Plus(PointerWrites(env, res))
    {
      ok := TakeGotEntry(GotEntry(Pointer, Some(0)));
      if !ok || res.dynamicSymbolIndex.None? {
        return false;
      }
      ok := WriteRelaDynGeneral(Rela(res.gotAddress.value, res.dynamicSymbolIndex.value, GotEntryRel, 0));
    }

    /** A pointer to an address of the output, which moves with the load address. */
    method ProcessAddress(res: Resolution) returns (ok: bool)
      requires res.gotAddress.Some? && !UsesGlobDat(res.flags) && !res.flags.ifunc && Valid()
      requires res.flags.IsAddress() && env.kind.IsRelocatable()
      modifies this`got, this`relative, this`relr
      ensures Valid()
      ensures ok <==> PointerWritable(res) && Within(old(Written()).Plus(PointerWrites(env, res)).Counts(), capacity)
      ensures ok ==> Written() == old(Written()).Plus(PointerWrites(env, res))
    {
      var value := WriteAddressRelocation(res.gotAddress.value, res.rawValue);
      if value.None? {
        return false;
      }
      ok := TakeGotEntry(GotEntry(Pointer, Some(value.value)));
    }

    /** The pointer slot itself, with the relocation that keeps it right at load time. */
    method ProcessPointer(res: Resolution) returns (ok: bool)
      requires res.gotAddress.Some? && Valid()
      modifies this`got, this`relaPlt, this`relative, this`general, this`relr
      ensures Valid()
      ensures ok <==> PointerWritable(res) && Within(old(Written()).Plus(PointerWrites(env, res)).Counts(), capacity)
      ensures ok ==> Written() == old(Written()).Plus(PointerWrites(env, res))
    {
      if UsesGlobDat(res.flags) {
        ok := ProcessGlobDat(res);
      } else if res.flags.ifunc {
        ok := TakeGotEntry(GotEntry(Pointer, Some(0)));
        if ok {
          ok := WriteIfuncRelocation(res);
        }
      } else if res.flags.IsAddress() && env.kind.IsRelocatable() {
        ok := ProcessAddress(res);
      } else {
        ok := TakeGotEntry(GotEntry(Pointer, Some(res.rawValue)));
      }
    }

    /** The second slot of an ifunc, which holds the address of its PLT stub. */
    method ProcessIfuncAddress(res: Resolution) returns (ok: bool)
      requires res.gotAddress.Some? && Valid()
      modifies this`got, this`relative, this`relr
      ensures Valid()
      ensures ok <==>
        res.pltAddress.Some? && Within(old(Written()).Plus(IfuncAddressWrites(env, res)).Counts(), capacity)
      ensures ok ==> Written() == old(Written()).Plus(IfuncAddressWrites(env, res))
    {
      var place := res.gotAddress.value + GOT_ENTRY_SIZE;
      if res.pltAddress.None? {
        return false;
      }
      var value := res.pltAddress.value;
      if env.kind.IsRelocatable() {
        var written := WriteAddressRelocation(place, value);
        if written.None? {
          return false;
        }
        value := written.value;
      }
      ok := TakeGotEntry(GotEntry(PltPointer, Some(value)));
    }

    /** The pointer and, if there is one, the PLT entry that jumps through it. */
    method ProcessPointerAndPlt(res: Resolution) returns (ok: bool)
      requires res.gotAddress.Some? && Valid()
      modifies this
      ensures Valid()
      ensures ok <==>
        && PointerWritable(res)
        && Within(old(Written()).Plus(PointerWrites(env, res).Plus(PltWrites(res))).Counts(), capacity)
      ensures ok ==> Written() == old(Written()).Plus(PointerWrites(env, res).Plus(PltWrites(res)))
    {
      ok := ProcessPointer(res);
      if ok && res.pltAddress.Some? {
        ok := WritePltEntry(res.gotAddress.value, res.pltAddress.value);
      }
    }

    method ProcessNonTls(res: Resolution) returns (ok: bool)
      requires res.gotAddress.Some? && Valid()
      modifies this
      ensures Valid()
      ensures ok <==>
        && NonTlsWritable(res)
        && Within(old(Written()).Plus(NonTlsWrites(env, res)).Counts(), capacity)
      ensures ok ==> Written() == old(Written()).Plus(NonTlsWrites(env, res))
    {
      ghost var before := Written();
      ok := ProcessPointerAndPlt(res);
      if ok {
        ghost var both := PointerWrites(env, res).Plus(PltWrites(res));
        if res.flags.ifuncGotForAddress {
          if res.pltAddress.Some? {
            PlusAssociative(before, both, IfuncAddressWrites(env, res));
          }
          ok := ProcessIfuncAddress(res);
        } else {
          PlusNothing(both);
        }
      }
    }

    /** Writes every entry of one resolution; fails if a check bails out or a table is full. */
    method ProcessResolution(res: Resolution) returns (ok: bool)
      requires Valid()
      modifies this
      ensures Valid()
      ensures ok <==> Writable(env, res) && Within(old(Written()).Plus(Writes(env, res)).Counts(), capacity)
      ensures ok ==> Written() == old(Written()).Plus(Writes(env, res))
    {
      if res.gotAddress.None? {
        return true;
      }
      if res.flags.IsTls() {
        ok := ProcessTls(res);
        return;
      }
      ok := ProcessNonTls(res);
    }

    /** Writes a list of resolutions in order, as each file's writing loop does. */
    method ProcessResolutions(rs: seq<Resolution>) returns (ok: bool)
      requires Valid()
      modifies this
      ensures Valid()
      ensures ok <==> AllWritable(env, rs) && Within(old(Written()).Plus(Concat(WritesOf(env, rs))).Counts(), capacity)
      ensures ok ==> Written() == old(Written()).Plus(Concat(WritesOf(env, rs)))
    {
      PlusNothing(Written());
      for i := 0 to |rs|
        invariant Valid() && AllWritable(env, rs[..i])
        invariant Written() == old(Written()).Plus(Concat(WritesOf(env, rs[..i])))
      {
        ok := ProcessResolution(rs[i]);
        if Writable(env, rs[i]) {
          WritesOfNext(env, rs, i, old(Written()));
        }
        if !ok {
          if AllWritable(env, rs) {
            assert WritesOf(env, rs)[..i + 1] == WritesOf(env, rs[..i + 1]);
            ConcatPrefix(WritesOf(env, rs), i + 1);
          }
          return;
        }
      }
      assert rs[..|rs|] == rs;
      return true;
    }
  }

  lemma {:induction false} Regroup<T>(s: seq<T>, a: seq<T>, b: seq<T>, c: seq<T>)
    ensures s + a + b + c == s + (a + b + c)
  {
  }

  ghost predicate AllWritable(env: Env, rs: seq<Resolution>) {
    forall i :: 0 <= i < |rs| ==> Writable(env, rs[i])
  }

  ghost function WritesOf(env: Env, rs: seq<Resolution>): (ws: seq<Tables>)
    requires AllWritable(env, rs)
    ensures |ws| == |rs|
  {
    seq(|rs|, i requires 0 <= i < |rs| => Writes(env, rs[i]))
  }

  /** The tables of a list of writes, one after the other. */
  ghost function Concat(ws: seq<Tables>): Tables {
    if ws == [] then NO_TABLES else Concat(ws[..|ws| - 1]).Plus(ws[|ws| - 1])
  }

  lemma {:induction false} WritesOfNext(env: Env, rs: seq<Resolution>, i: nat, before: Tables)
    requires i < |rs| && AllWritable(env, rs[..i]) && Writable(env, rs[i])
    ensures AllWritable(env, rs[..i + 1])
    ensures before.Plus(Concat(WritesOf(env, rs[..i]))).Plus(Writes(env, rs[i]))
         == before.Plus(Concat(WritesOf(env, rs[..i + 1])))
  {
    assert forall j :: 0 <= j < i ==> rs[..i + 1][j] == rs[..i][j];
    var ws := WritesOf(env, rs[..i + 1]);
    assert ws[..i] == WritesOf(env, rs[..i]);
    PlusAssociative(before, Concat(ws[..i]), ws[i]);
  }

  lemma {:induction false} PlusNothing(t: Tables)
    ensures t.Plus(NO_TABLES) == t
  {
  }

  lemma {:induction false} PlusAssociative(a: Tables, b: Tables, c: Tables)
    ensures a.Plus(b).Plus(c) == a.Plus(b.Plus(c))
  {
    assert a.got + b.got + c.got == a.got + (b.got + c.got);
    assert a.pltGot + b.pltGot + c.pltGot == a.pltGot + (b.pltGot + c.pltGot);
    assert a.relaPlt + b.relaPlt + c.relaPlt == a.relaPlt + (b.relaPlt + c.relaPlt);
    assert a.relative + b.relative + c.relative == a.relative + (b.relative + c.relative);
    assert a.general + b.general + c.general == a.general + (b.general + c.general);
    assert a.relr + b.relr + c.relr == a.relr + (b.relr + c.relr);
  }

  /** Each table written for a prefix of the list is a prefix of the table for the list. */
  lemma {:induction false} ConcatPrefix(ws: seq<Tables>, i: nat)
    requires i <= |ws|
    ensures
      var a, b := Concat(ws[..i]), Concat(ws);
      && a.got <= b.got && a.pltGot <= b.pltGot && a.relaPlt <= b.relaPlt
      && a.relative <= b.relative && a.general <= b.general && a.relr <= b.relr
  {
    if i == |ws| {
      assert ws[..i] == ws;
    } else {
      var init := ws[..|ws| - 1];
      assert init[..i] == ws[..i];
      ConcatPrefix(init, i);
    }
  }
}
