/**
 The three passes agree: what is allocated for a resolution is what the writer
 takes, and every address handed out is the address of the slot filled for it.
 */
module Accounting {
  import opened Wrappers
  import opened Resolutions
  import opened TableWriters

  /** What symbol resolution guarantees: an index exactly for symbols in the dynamic symbol table. */
  predicate SymbolFacts(q: Request) {
    q.dynamicSymbolIndex.Some? <==> q.flags.HasDynamicSymbol()
  }

  /** When the passes agree on the relocation of a TLS offset. */
  predicate TlsOffsetConsistent(env: Env, q: Request) {
    var dyn := q.flags.HasDynamicSymbol();
    match env.kind
    case SharedObject => dyn || q.rawValue != 0
    case PartialObject => q.flags.IsInterposable() <==> dyn || q.rawValue != 0
    case _ => q.flags.IsInterposable() <==> dyn
  }

  /**
   When the passes agree on a TLS symbol. For a dynamic symbol that cannot be interposed, the module
   entry takes a relocation less than was allocated; that comes out even only if an offset entry takes
   one more.
   */
  predicate TlsConsistent(env: Env, q: Request) {
    var flags, dyn := q.flags, q.flags.HasDynamicSymbol();
    && !flags.ifuncGotForAddress
    && (flags.gotTlsOffset ==>
          env.hasLayout && (dyn || q.rawValue == 0 || env.tlsStart <= q.rawValue <= env.tlsEnd))
    && (if flags.gotTlsModule && dyn && !flags.IsInterposable() then flags.gotTlsOffset && !env.kind.SharedObject?
        else flags.gotTlsOffset ==> TlsOffsetConsistent(env, q))
    && (flags.gotTlsModule ==> dyn || flags.IsAddress())
    && (flags.gotTlsDescriptor ==> !env.kind.StaticExecutable?)
  }

  predicate NeedsAddressRelocation(kind: OutputKind, flags: ValueFlags) {
    && kind.IsRelocatable()
    && (flags.ifuncGotForAddress || (flags.got && flags.IsAddress() && !flags.HasDynamicSymbol()))
  }

  /** When the passes agree on any other symbol; `even` says that its GOT address is even. */
  predicate PointerConsistent(env: Env, relr: bool, q: Request, even: bool) {
    var flags := q.flags;
    && (flags.plt ==> flags.got)
    && (flags.ifuncGotForAddress ==> flags.plt)
    && !(flags.got && flags.dynamic && flags.ifunc)
    && (NeedsAddressRelocation(env.kind, flags) && relr ==> even)
  }

  predicate Consistent(env: Env, relr: bool, q: Request, even: bool) {
    if q.flags.IsTls() then TlsConsistent(env, q) else PointerConsistent(env, relr, q, even)
  }

  /** The writer holds a RELR table if RELR is on and something was allocated in it. */
  predicate RelrTable(env: Env, relr: bool, space: Parts) {
    && (env.relr ==> relr)
    && (relr && space.relr > 0 ==> env.relr)
  }

  ghost predicate TakesExactly(env: Env, res: Resolution, space: Parts) {
    Writable(env, res) && Writes(env, res).Counts() == space
  }

  lemma {:induction false} TlsAccounting(env: Env, relr: bool, q: Request, offsets: Parts)
    requires SymbolFacts(q) && q.flags.IsTls()
    requires RelrTable(env, relr, Allocated(q.flags, env.kind, relr))
    ensures TakesExactly(env, Created(q, offsets), Allocated(q.flags, env.kind, relr)) <==> TlsConsistent(env, q)
  {
    var res := Created(q, offsets);
    var flags := q.flags;
    assert GotSlots(flags) > 0;
    if Writable(env, res) {
      var w := TlsWrites(env, res);
      assert |w.got| == TlsSlots(flags);
      assert |w.general| ==
        |TlsOffsetRelas(env, res, res.gotAddress.value)|
        + |TlsModuleRelas(env, res, res.TlsgdGotAddress())|
        + |TlsDescriptorRelas(env, res, res.TlsDescriptorGotAddress())|;
    }
  }

  lemma {:induction false} PointerAccounting(env: Env, relr: bool, q: Request, offsets: Parts)
    requires SymbolFacts(q) && !q.flags.IsTls()
    requires RelrTable(env, relr, Allocated(q.flags, env.kind, relr))
    ensures TakesExactly(env, Created(q, offsets), Allocated(q.flags, env.kind, relr)) <==>
            PointerConsistent(env, relr, q, offsets.got % 2 == 0)
  {
  }

  /** The writer takes exactly what was allocated for a resolution if and only if its flags are consistent. */
  lemma {:induction false} AccountingIff(env: Env, relr: bool, q: Request, offsets: Parts)
    requires SymbolFacts(q)
    requires RelrTable(env, relr, Allocated(q.flags, env.kind, relr))
    ensures TakesExactly(env, Created(q, offsets), Allocated(q.flags, env.kind, relr)) <==>
            Consistent(env, relr, q, offsets.got % 2 == 0)
  {
    if q.flags.IsTls() {
      TlsAccounting(env, relr, q, offsets);
    } else {
      PointerAccounting(env, relr, q, offsets);
    }
  }

  /** A dynamic ifunc with a GOT slot: space is set aside in one relocation table and taken from another. */
  lemma {:induction false} DynamicIfuncDisagrees(env: Env, offsets: Parts)
    ensures
      var flags := ValueFlags(false, true, true, false, false, true, false, false, false, false, false);
      && SymbolFacts(Request(flags, 0, Some(1)))
      && !TakesExactly(env, Created(Request(flags, 0, Some(1)), offsets), Allocated(flags, env.kind, false))
  {
    var flags := ValueFlags(false, true, true, false, false, true, false, false, false, false, false);
    assert Allocated(flags, env.kind, false).general == 0;
    assert |Writes(env, Created(Request(flags, 0, Some(1)), offsets)).general| == 1;
  }

  // ----- Lists of symbols -----

  /** Every symbol of the list is consistent at an even GOT address. */
  ghost predicate AllConsistent(env: Env, relr: bool, qs: seq<Request>) {
    qs == [] ||
    var n := |qs| - 1;
    AllConsistent(env, relr, qs[..n]) && SymbolFacts(qs[n]) && Consistent(env, relr, qs[n], true)
  }

  lemma {:induction false} ConsistentAt(env: Env, relr: bool, qs: seq<Request>, i: nat)
    requires AllConsistent(env, relr, qs) && i < |qs|
    ensures SymbolFacts(qs[i]) && Consistent(env, relr, qs[i], true)
  {
    if i < |qs| - 1 {
      ConsistentAt(env, relr, qs[..|qs| - 1], i);
    }
  }

  lemma {:induction false} OffsetsStayEven(qs: seq<Request>, offsets: Parts)
    ensures OffsetsAfter(qs, offsets).got % 2 == offsets.got % 2
  {
    if qs != [] {
      OffsetsStayEven(qs[..|qs| - 1], offsets);
    }
  }

  /** A RELR table for the whole list serves each symbol of it. */
  lemma {:induction false} RelrTableServes(env: Env, relr: bool, qs: seq<Request>, kind: OutputKind, i: nat)
    requires RelrTable(env, relr, AllocatedAll(qs, kind, relr)) && i < |qs|
    ensures RelrTable(env, relr, Allocated(qs[i].flags, kind, relr))
  {
    if i < |qs| - 1 {
      RelrTableServes(env, relr, qs[..|qs| - 1], kind, i);
    }
  }

  lemma {:induction false} SumOfCounts(ws: seq<Tables>, qs: seq<Request>, kind: OutputKind, relr: bool)
    requires |ws| == |qs|
    requires forall i :: 0 <= i < |ws| ==> ws[i].Counts() == Allocated(qs[i].flags, kind, relr)
    ensures Concat(ws).Counts() == AllocatedAll(qs, kind, relr)
  {
    if ws != [] {
      var n := |ws| - 1;
      SumOfCounts(ws[..n], qs[..n], kind, relr);
      assert ws[n].Counts() == Allocated(qs[n].flags, kind, relr);
    }
  }

  /** Buffers sized by the first pass are consumed exactly by the third. */
  lemma {:induction false} AllTakeExactly(env: Env, relr: bool, qs: seq<Request>, offsets: Parts)
    requires AllConsistent(env, relr, qs) && offsets.got % 2 == 0
    requires RelrTable(env, relr, AllocatedAll(qs, env.kind, relr))
    ensures AllWritable(env, CreatedAll(qs, offsets))
    ensures Concat(WritesOf(env, CreatedAll(qs, offsets))).Counts() == AllocatedAll(qs, env.kind, relr)
  {
    var rs := CreatedAll(qs, offsets);
    forall i | 0 <= i < |qs|
      ensures TakesExactly(env, rs[i], Allocated(qs[i].flags, env.kind, relr))
    {
      ConsistentAt(env, relr, qs, i);
      OffsetsStayEven(qs[..i], offsets);
      RelrTableServes(env, relr, qs, env.kind, i);
      AccountingIff(env, relr, qs[i], OffsetsAfter(qs[..i], offsets));
    }
    SumOfCounts(WritesOf(env, rs), qs, env.kind, relr);
  }

  lemma {:induction false} ConsistentWithoutRelr(env: Env, relr: bool, qs: seq<Request>, table: bool)
    requires AllConsistent(env, relr, qs)
    ensures AllConsistent(env.(relr := table), relr, qs)
  {
    if qs != [] {
      ConsistentWithoutRelr(env, relr, qs[..|qs| - 1], table);
    }
  }

  /**
   All three passes over one list of symbols. Nothing fails, no table is left with a slot to spare, and
   the result is what the resolutions ask for.
   */
  method LinkSymbols(env: Env, relr: bool, qs: seq<Request>, memoryOffsets: PartMap)
    returns (w: TableWriter, rs: seq<Resolution>, ok: bool)
    requires AllConsistent(env, relr, qs) && memoryOffsets.got % 2 == 0
    modifies memoryOffsets
    ensures rs == CreatedAll(qs, old(memoryOffsets.Value()))
    ensures ok && w.Written().Counts() == w.capacity == AllocatedAll(qs, env.kind, relr)
    ensures AllWritable(w.env, rs) && w.Written() == Concat(WritesOf(w.env, rs))
  {
    var memSizes := AllocateSymbols(qs, env.kind, relr);
    rs := CreateSymbols(qs, memoryOffsets);
    w := new TableWriter(env, memSizes, relr, AllocatedAll(qs, env.kind, relr));
    ConsistentWithoutRelr(env, relr, qs, w.env.relr);
    AllTakeExactly(w.env, relr, qs, old(memoryOffsets.Value()));
    NothingPlus(Concat(WritesOf(w.env, rs)));
    ok := w.ProcessResolutions(rs);
  }

  lemma {:induction false} NothingPlus(t: Tables)
    ensures NO_TABLES.Plus(t) == t
  {
  }

  // ----- Addresses -----

  /** The GOT slot at which the writer starts on write `i`. */
  ghost function FirstSlot(ws: seq<Tables>, i: nat): nat
    requires i <= |ws|
  {
    |Concat(ws[..i]).got|
  }

  ghost function FirstPltEntry(ws: seq<Tables>, i: nat): nat
    requires i <= |ws|
  {
    |Concat(ws[..i]).pltGot|
  }

  /** No TLS symbol goes through the PLT. */
  ghost predicate NoTlsPlt(qs: seq<Request>) {
    forall i :: 0 <= i < |qs| ==> !(qs[i].flags.plt && qs[i].flags.IsTls())
  }

  /** The writes fill exactly the GOT slots and PLT entries that address assignment steps over. */
  ghost predicate FillsReserved(qs: seq<Request>, ws: seq<Tables>) {
    && |ws| == |qs|
    && forall i :: 0 <= i < |qs| ==>
         |ws[i].got| == Reserved(qs[i].flags).got && |ws[i].pltGot| == Reserved(qs[i].flags).pltGot
  }

  lemma {:induction false} ReservedIsTaken(env: Env, relr: bool, q: Request, offsets: Parts)
    requires SymbolFacts(q) && Consistent(env, relr, q, true) && !(q.flags.plt && q.flags.IsTls())
    requires Writable(env, Created(q, offsets))
    ensures
      var w, r := Writes(env, Created(q, offsets)), Reserved(q.flags);
      |w.got| == r.got && |w.pltGot| == r.pltGot
  {
  }

  lemma {:induction false} AllReservedIsTaken(env: Env, relr: bool, qs: seq<Request>, offsets: Parts)
    requires AllConsistent(env, relr, qs) && NoTlsPlt(qs)
    requires AllWritable(env, CreatedAll(qs, offsets))
    ensures FillsReserved(qs, WritesOf(env, CreatedAll(qs, offsets)))
  {
    var ws := WritesOf(env, CreatedAll(qs, offsets));
    forall i | 0 <= i < |qs|
      ensures |ws[i].got| == Reserved(qs[i].flags).got && |ws[i].pltGot| == Reserved(qs[i].flags).pltGot
    {
      ConsistentAt(env, relr, qs, i);
      ReservedIsTaken(env, relr, qs[i], OffsetsAfter(qs[..i], offsets));
    }
  }

  /** The offsets handed to symbol `i` are the addresses of the next GOT slot and PLT entry the writer takes. */
  lemma {:induction false} OffsetsAreSlots(qs: seq<Request>, ws: seq<Tables>, offsets: Parts, i: nat)
    requires FillsReserved(qs, ws) && i <= |qs|
    ensures OffsetsAfter(qs[..i], offsets).got == offsets.got + 8 * FirstSlot(ws, i)
    ensures OffsetsAfter(qs[..i], offsets).pltGot == offsets.pltGot + 16 * FirstPltEntry(ws, i)
  {
    if i > 0 {
      OffsetsAreSlots(qs, ws, offsets, i - 1);
      assert qs[..i][..i - 1] == qs[..i - 1] && ws[..i][..i - 1] == ws[..i - 1];
    }
  }

  lemma {:induction false} WrittenAt(ws: seq<Tables>, i: nat)
    requires i < |ws|
    ensures FirstSlot(ws, i) + |ws[i].got| == FirstSlot(ws, i + 1) <= |Concat(ws).got|
    ensures Concat(ws).got[FirstSlot(ws, i)..FirstSlot(ws, i + 1)] == ws[i].got
    ensures FirstPltEntry(ws, i) + |ws[i].pltGot| == FirstPltEntry(ws, i + 1) <= |Concat(ws).pltGot|
    ensures Concat(ws).pltGot[FirstPltEntry(ws, i)..FirstPltEntry(ws, i + 1)] == ws[i].pltGot
  {
    assert ws[..i + 1][..i] == ws[..i];
    ConcatPrefix(ws, i + 1);
    var a, b := Concat(ws[..i + 1]), Concat(ws);
    assert a.got == Concat(ws[..i]).got + ws[i].got;
    assert a.got == b.got[..|a.got|];
    assert a.pltGot == Concat(ws[..i]).pltGot + ws[i].pltGot;
    assert a.pltGot == b.pltGot[..|a.pltGot|];
  }

  /** The use of the GOT slot at `address`, when the GOT starts at `base`. */
  ghost predicate SlotHas(got: seq<GotEntry>, base: nat, address: nat, use: GotUse) {
    exists k :: 0 <= k < |got| && address == base + 8 * k && got[k].use == use
  }

  /** Within one resolution, each accessor counts the slots in the order the writer fills them. */
  lemma {:induction false} TlsAccessorOrder(env: Env, res: Resolution)
    requires res.gotAddress.Some? && res.flags.IsTls()
    ensures AccessorsAgree(TlsWrites(env, res).got, res.gotAddress.value, res)
  {
    var a, b, c := TlsOffsetSlot(env, res), TlsModuleSlots(env, res), TlsDescriptorSlots(res);
    var g := TlsWrites(env, res).got;
    assert g == a + b + c;
    assert |a| == Count(res.flags.gotTlsOffset) && |b| == 2 * Count(res.flags.gotTlsModule);
    assert a != [] ==> g[0] == a[0];
    assert b != [] ==> g[|a|] == b[0] && g[|a| + 1] == b[1];
    assert c != [] ==> g[|a| + |b|] == c[0] && g[|a| + |b| + 1] == c[1];
  }

  ghost predicate AccessorsAgree(got: seq<GotEntry>, base: nat, res: Resolution)
    requires res.gotAddress.Some?
  {
    var flags := res.flags;
    if flags.IsTls() then
      && (flags.gotTlsOffset ==> SlotHas(got, base, res.gotAddress.value, TlsOffset))
      && (flags.gotTlsModule ==>
            SlotHas(got, base, res.TlsgdGotAddress(), TlsModule)
            && SlotHas(got, base, res.TlsgdGotAddress() + 8, TlsModuleOffset))
      && (flags.gotTlsDescriptor ==>
            SlotHas(got, base, res.TlsDescriptorGotAddress(), TlsDescriptor)
            && SlotHas(got, base, res.TlsDescriptorGotAddress() + 8, TlsDescriptorArg))
    else
      && SlotHas(got, base, res.gotAddress.value, Pointer)
      && SlotHas(got, base, res.GotAddressForRelocation(), if flags.ifuncGotForAddress then PltPointer else Pointer)
  }

  lemma {:induction false} PointerAccessorOrder(env: Env, res: Resolution)
    requires res.gotAddress.Some? && NonTlsWritable(res) && !res.flags.IsTls()
    ensures AccessorsAgree(NonTlsWrites(env, res).got, res.gotAddress.value, res)
  {
    var g := NonTlsWrites(env, res).got;
    assert g[0] == PointerWrites(env, res).got[0] && g[0].use == Pointer;
    if res.flags.ifuncGotForAddress {
      assert g[1] == IfuncAddressWrites(env, res).got[0] && g[1].use == PltPointer;
    }
  }

  lemma {:induction false} AccessorOrder(env: Env, rs: seq<Resolution>, i: nat)
    requires AllWritable(env, rs) && i < |rs| && rs[i].gotAddress.Some?
    ensures AccessorsAgree(WritesOf(env, rs)[i].got, rs[i].gotAddress.value, rs[i])
  {
    if rs[i].flags.IsTls() {
      TlsAccessorOrder(env, rs[i]);
    } else {
      PointerAccessorOrder(env, rs[i]);
    }
  }

  /** A run of slots keeps its uses when it is part of a larger GOT. */
  lemma {:induction false} SlotInPart(
      part: seq<GotEntry>, got: seq<GotEntry>, base: nat, k: nat, address: nat, use: GotUse)
    requires k + |part| <= |got| && got[k..k + |part|] == part
    requires SlotHas(part, base + 8 * k, address, use)
    ensures SlotHas(got, base, address, use)
  {
    var j :| 0 <= j < |part| && address == base + 8 * k + 8 * j && part[j].use == use;
    assert got[k..k + |part|][j] == got[k + j];
  }

  lemma {:induction false} GotAt(ws: seq<Tables>, i: nat, part: seq<GotEntry>, got: seq<GotEntry>, k: nat)
    requires i < |ws| && part == ws[i].got && got == Concat(ws).got && k == FirstSlot(ws, i)
    ensures k + |part| <= |got| && got[k..k + |part|] == part
  {
    WrittenAt(ws, i);
  }

  lemma {:induction false} AccessorsInList(ws: seq<Tables>, base: nat, i: nat, res: Resolution)
    requires i < |ws| && res.gotAddress == Some(base + 8 * FirstSlot(ws, i))
    requires AccessorsAgree(ws[i].got, res.gotAddress.value, res)
    ensures AccessorsAgree(Concat(ws).got, base, res)
  {
    var part, got, k := ws[i].got, Concat(ws).got, FirstSlot(ws, i);
    GotAt(ws, i, part, got, k);
    LiftAccessors(part, got, base, k, res);
  }

  /** Resolution `i` of a list has the offsets of its turn, and the writes fill what was reserved. */
  ghost predicate InTurn(qs: seq<Request>, ws: seq<Tables>, offsets: Parts, i: nat, res: Resolution) {
    && i < |qs| && FillsReserved(qs, ws)
    && (res.gotAddress.Some? ==> res.gotAddress.value == OffsetsAfter(qs[..i], offsets).got)
    && (res.pltAddress.Some? ==> res.pltAddress.value == OffsetsAfter(qs[..i], offsets).pltGot)
  }

  lemma {:induction false} GotInTurn(qs: seq<Request>, ws: seq<Tables>, offsets: Parts, i: nat, res: Resolution)
    requires InTurn(qs, ws, offsets, i, res) && res.gotAddress.Some?
    requires AccessorsAgree(ws[i].got, res.gotAddress.value, res)
    ensures res.gotAddress.value == offsets.got + 8 * FirstSlot(ws, i)
    ensures AccessorsAgree(Concat(ws).got, offsets.got, res)
  {
    OffsetsAreSlots(qs, ws, offsets, i);
    AccessorsInList(ws, offsets.got, i, res);
  }

  /** The PLT address of `res` is that of the PLT entry that write `i` makes for it. */
  ghost predicate OwnPltEntryAt(ws: seq<Tables>, base: nat, i: nat, res: Resolution)
    requires i <= |ws|
  {
    var k, plt := FirstPltEntry(ws, i), Concat(ws).pltGot;
    && res.gotAddress.Some? && res.pltAddress == Some(base + 16 * k)
    && k < |plt| && plt[k] == PltEntry(res.gotAddress.value, res.pltAddress.value)
  }

  lemma {:induction false} PltInTurn(qs: seq<Request>, ws: seq<Tables>, offsets: Parts, i: nat, res: Resolution)
    requires InTurn(qs, ws, offsets, i, res) && res.gotAddress.Some? && res.pltAddress.Some?
    requires ws[i].pltGot == [PltEntry(res.gotAddress.value, res.pltAddress.value)]
    ensures OwnPltEntryAt(ws, offsets.pltGot, i, res)
  {
    OffsetsAreSlots(qs, ws, offsets, i);
    WrittenAt(ws, i);
    var k := FirstPltEntry(ws, i);
    assert Concat(ws).pltGot[k..k + 1][0] == ws[i].pltGot[0];
  }

  /** What creating and writing in the same order give a resolution. */
  lemma {:induction false} CreatedInTurn(env: Env, relr: bool, qs: seq<Request>, offsets: Parts, i: nat)
    requires AllConsistent(env, relr, qs) && NoTlsPlt(qs) && i < |qs|
    requires AllWritable(env, CreatedAll(qs, offsets))
    ensures InTurn(qs, WritesOf(env, CreatedAll(qs, offsets)), offsets, i, CreatedAll(qs, offsets)[i])
  {
    AllReservedIsTaken(env, relr, qs, offsets);
  }

  /**
   When symbols are created and written in the same order, each resolution's GOT address is that of the
   first slot the writer fills for it, and each accessor names the slot of its own purpose.
   */
  lemma {:induction false} GotAddressesNameSlots(env: Env, relr: bool, qs: seq<Request>, offsets: Parts, i: nat)
    requires AllConsistent(env, relr, qs) && NoTlsPlt(qs) && i < |qs|
    requires AllWritable(env, CreatedAll(qs, offsets)) && CreatedAll(qs, offsets)[i].gotAddress.Some?
    ensures
      var rs := CreatedAll(qs, offsets);
      var ws := WritesOf(env, rs);
      && rs[i].gotAddress.value == offsets.got + 8 * FirstSlot(ws, i)
      && AccessorsAgree(Concat(ws).got, offsets.got, rs[i])
  {
    var rs := CreatedAll(qs, offsets);
    var ws, res := WritesOf(env, rs), rs[i];
    CreatedInTurn(env, relr, qs, offsets, i);
    AccessorOrder(env, rs, i);
    GotInTurn(qs, ws, offsets, i, res);
  }

  /** Likewise each PLT address is that of the resolution's own PLT entry. */
  lemma {:induction false} PltAddressesNameEntries(env: Env, relr: bool, qs: seq<Request>, offsets: Parts, i: nat)
    requires AllConsistent(env, relr, qs) && NoTlsPlt(qs) && i < |qs|
    requires AllWritable(env, CreatedAll(qs, offsets)) && qs[i].flags.plt
    ensures OwnPltEntryAt(WritesOf(env, CreatedAll(qs, offsets)), offsets.pltGot, i, CreatedAll(qs, offsets)[i])
  {
    var rs := CreatedAll(qs, offsets);
    var ws, res := WritesOf(env, rs), rs[i];
    CreatedInTurn(env, relr, qs, offsets, i);
    PltHasAddresses(qs, offsets, i);
    OwnPltEntry(env, rs, i);
    PltInTurn(qs, ws, offsets, i, res);
  }

  lemma {:induction false} PltHasAddresses(qs: seq<Request>, offsets: Parts, i: nat)
    requires NoTlsPlt(qs) && i < |qs| && qs[i].flags.plt
    ensures
      var res := CreatedAll(qs, offsets)[i];
      !res.flags.IsTls() && res.gotAddress.Some? && res.pltAddress.Some?
  {
  }

  lemma {:induction false} OwnPltEntry(env: Env, rs: seq<Resolution>, i: nat)
    requires AllWritable(env, rs) && i < |rs|
    requires !rs[i].flags.IsTls() && rs[i].gotAddress.Some? && rs[i].pltAddress.Some?
    ensures WritesOf(env, rs)[i].pltGot == [PltEntry(rs[i].gotAddress.value, rs[i].pltAddress.value)]
  {
  }

  lemma {:induction false} LiftAccessors(part: seq<GotEntry>, got: seq<GotEntry>, base: nat, k: nat, res: Resolution)
    requires k + |part| <= |got| && got[k..k + |part|] == part
    requires res.gotAddress.Some? && AccessorsAgree(part, base + 8 * k, res)
    ensures AccessorsAgree(got, base, res)
  {
    forall address: nat, use | SlotHas(part, base + 8 * k, address, use)
      ensures SlotHas(got, base, address, use)
    {
      SlotInPart(part, got, base, k, address, use);
    }
  }

  // ----- Relocations -----

  /** What a relocation of each kind is for. */
  function Purpose(kind: RelocationKind): GotUse {
    match kind
    case TpOff => TlsOffset
    case DtpMod => TlsModule
    case DtpOff => TlsModuleOffset
    case TlsDesc => TlsDescriptor
    case _ => Pointer
  }

  /** `place` is the slot of the symbol's own address or of its PLT entry, and `value` is that address. */
  ghost predicate HoldsAddress(got: seq<GotEntry>, base: nat, place: nat, res: Resolution, value: int) {
    || (SlotHas(got, base, place, Pointer) && value == res.rawValue)
    || (SlotHas(got, base, place, PltPointer) && res.pltAddress.Some? && value == res.pltAddress.value)
  }

  /** RELR has no addend, so the slot itself holds the address. */
  ghost predicate PackedAddress(got: seq<GotEntry>, base: nat, place: nat, res: Resolution) {
    exists k, v :: SlotValue(got, base, place, k, v) && HoldsAddress(got, base, place, res, v)
  }

  ghost predicate SlotValue(got: seq<GotEntry>, base: nat, place: nat, k: int, v: int) {
    0 <= k < |got| && place == base + 8 * k && got[k].value == Some(v)
  }

  /** Every relocation written for `res` is applied to the slot that it is for. */
  ghost predicate RelocatesOwnSlots(got: seq<GotEntry>, base: nat, w: Tables, res: Resolution) {
    && (forall r :: r in w.general ==> SlotHas(got, base, r.place, Purpose(r.kind)))
    && (forall r :: r in w.relaPlt ==> SlotHas(got, base, r.place, Purpose(r.kind)))
    && (forall r :: r in w.relative ==> HoldsAddress(got, base, r.place, res, r.addend))
    && (forall place :: place in w.relr ==> PackedAddress(got, base, place, res))
  }

  /** Relocations whose places hold what they are for. */
  ghost predicate NamesSlots(got: seq<GotEntry>, base: nat, relas: seq<Rela>) {
    forall r :: r in relas ==> SlotHas(got, base, r.place, Purpose(r.kind))
  }

  lemma {:induction false} TlsOffsetOwnSlot(env: Env, res: Resolution, got: seq<GotEntry>)
    requires res.gotAddress.Some? && res.flags.IsTls() && AccessorsAgree(got, res.gotAddress.value, res)
    ensures NamesSlots(got, res.gotAddress.value, TlsOffsetRelas(env, res, res.gotAddress.value))
  {
  }

  lemma {:induction false} TlsModuleOwnSlots(env: Env, res: Resolution, got: seq<GotEntry>)
    requires res.gotAddress.Some? && res.flags.IsTls() && AccessorsAgree(got, res.gotAddress.value, res)
    ensures NamesSlots(got, res.gotAddress.value, TlsModuleRelas(env, res, res.TlsgdGotAddress()))
  {
  }

  lemma {:induction false} TlsDescriptorOwnSlots(env: Env, res: Resolution, got: seq<GotEntry>)
    requires res.gotAddress.Some? && res.flags.IsTls() && AccessorsAgree(got, res.gotAddress.value, res)
    ensures NamesSlots(got, res.gotAddress.value, TlsDescriptorRelas(env, res, res.TlsDescriptorGotAddress()))
  {
  }

  lemma {:induction false} NamesSlotsConcat(got: seq<GotEntry>, base: nat, a: seq<Rela>, b: seq<Rela>)
    requires NamesSlots(got, base, a) && NamesSlots(got, base, b)
    ensures NamesSlots(got, base, a + b)
  {
  }

  lemma {:induction false} TlsOwnSlots(env: Env, res: Resolution)
    requires res.gotAddress.Some? && res.flags.IsTls()
    ensures RelocatesOwnSlots(TlsWrites(env, res).got, res.gotAddress.value, TlsWrites(env, res), res)
  {
    TlsAccessorOrder(env, res);
    var got, base := TlsWrites(env, res).got, res.gotAddress.value;
    var a, b, c :=
      TlsOffsetRelas(env, res, base),
      TlsModuleRelas(env, res, res.TlsgdGotAddress()),
      TlsDescriptorRelas(env, res, res.TlsDescriptorGotAddress());
    TlsOffsetOwnSlot(env, res, got);
    TlsModuleOwnSlots(env, res, got);
    TlsDescriptorOwnSlots(env, res, got);
    NamesSlotsConcat(got, base, a, b);
    NamesSlotsConcat(got, base, a + b, c);
    assert TlsWrites(env, res).general == a + b + c;
  }

  lemma {:induction false} SlotAt(got: seq<GotEntry>, base: nat, k: nat)
    requires k < |got|
    ensures SlotHas(got, base, base + 8 * k, got[k].use)
    ensures got[k].value.Some? ==> SlotValue(got, base, base + 8 * k, k, got[k].value.value)
  {
  }

  lemma {:induction false} PointerOwnSlot(env: Env, res: Resolution, got: seq<GotEntry>)
    requires res.gotAddress.Some? && PointerWritable(res) && got != [] && got[0] == PointerWrites(env, res).got[0]
    ensures RelocatesOwnSlots(got, res.gotAddress.value, PointerWrites(env, res), res)
  {
    SlotAt(got, res.gotAddress.value, 0);
  }

  lemma {:induction false} IfuncOwnSlot(env: Env, res: Resolution, got: seq<GotEntry>)
    requires res.gotAddress.Some? && res.pltAddress.Some?
    requires |got| > 1 && got[1] == IfuncAddressWrites(env, res).got[0]
    ensures RelocatesOwnSlots(got, res.gotAddress.value, IfuncAddressWrites(env, res), res)
  {
    SlotAt(got, res.gotAddress.value, 1);
  }

  lemma {:induction false} OwnSlotsPlus(got: seq<GotEntry>, base: nat, a: Tables, b: Tables, res: Resolution)
    requires RelocatesOwnSlots(got, base, a, res) && RelocatesOwnSlots(got, base, b, res)
    ensures RelocatesOwnSlots(got, base, a.Plus(b), res)
  {
  }

  lemma {:induction false} PointerOwnSlots(env: Env, res: Resolution)
    requires res.gotAddress.Some? && NonTlsWritable(res)
    ensures RelocatesOwnSlots(NonTlsWrites(env, res).got, res.gotAddress.value, NonTlsWrites(env, res), res)
  {
    var got, base := NonTlsWrites(env, res).got, res.gotAddress.value;
    var a, b := PointerWrites(env, res), PltWrites(res);
    PointerOwnSlot(env, res, got);
    OwnSlotsPlus(got, base, a, b, res);
    if res.flags.ifuncGotForAddress {
      IfuncOwnSlot(env, res, got);
      OwnSlotsPlus(got, base, a.Plus(b), IfuncAddressWrites(env, res), res);
    } else {
      OwnSlotsPlus(got, base, a.Plus(b), NO_TABLES, res);
    }
  }

  lemma {:induction false} LiftAddress(
      part: seq<GotEntry>, got: seq<GotEntry>, base: nat, k: nat, place: nat, res: Resolution, value: int)
    requires k + |part| <= |got| && got[k..k + |part|] == part
    requires HoldsAddress(part, base + 8 * k, place, res, value)
    ensures HoldsAddress(got, base, place, res, value)
  {
    if SlotHas(part, base + 8 * k, place, Pointer) && value == res.rawValue {
      SlotInPart(part, got, base, k, place, Pointer);
    } else {
      SlotInPart(part, got, base, k, place, PltPointer);
    }
  }

  lemma {:induction false} LiftPacked(
      part: seq<GotEntry>, got: seq<GotEntry>, base: nat, k: nat, place: nat, res: Resolution)
    requires k + |part| <= |got| && got[k..k + |part|] == part
    requires PackedAddress(part, base + 8 * k, place, res)
    ensures PackedAddress(got, base, place, res)
  {
    var j, v :| SlotValue(part, base + 8 * k, place, j, v) && HoldsAddress(part, base + 8 * k, place, res, v);
    LiftAddress(part, got, base, k, place, res, v);
    assert got[k..k + |part|][j] == got[k + j];
    assert SlotValue(got, base, place, k + j, v);
  }

  lemma {:induction false} LiftRelocations(
      part: seq<GotEntry>, got: seq<GotEntry>, base: nat, k: nat, w: Tables, res: Resolution)
    requires k + |part| <= |got| && got[k..k + |part|] == part
    requires RelocatesOwnSlots(part, base + 8 * k, w, res)
    ensures RelocatesOwnSlots(got, base, w, res)
  {
    forall r | r in w.general || r in w.relaPlt
      ensures SlotHas(got, base, r.place, Purpose(r.kind))
    {
      SlotInPart(part, got, base, k, r.place, Purpose(r.kind));
    }
    forall r | r in w.relative
      ensures HoldsAddress(got, base, r.place, res, r.addend)
    {
      LiftAddress(part, got, base, k, r.place, res, r.addend);
    }
    forall place | place in w.relr
      ensures PackedAddress(got, base, place, res)
    {
      LiftPacked(part, got, base, k, place, res);
    }
  }

  lemma {:induction false} OwnRelocations(env: Env, rs: seq<Resolution>, i: nat)
    requires AllWritable(env, rs) && i < |rs| && rs[i].gotAddress.Some?
    ensures RelocatesOwnSlots(WritesOf(env, rs)[i].got, rs[i].gotAddress.value, WritesOf(env, rs)[i], rs[i])
  {
    if rs[i].flags.IsTls() {
      TlsOwnSlots(env, rs[i]);
    } else {
      PointerOwnSlots(env, rs[i]);
    }
  }

  /**
   In the GOT of the whole list, every dynamic relocation of a symbol is applied to the slot of its
   own purpose, and every relative or packed one to a slot that ends up with the symbol's address or
   that of its PLT entry.
   */
  lemma {:induction false} RelocationsNameSlots(env: Env, relr: bool, qs: seq<Request>, offsets: Parts, i: nat)
    requires AllConsistent(env, relr, qs) && NoTlsPlt(qs) && i < |qs|
    requires AllWritable(env, CreatedAll(qs, offsets)) && CreatedAll(qs, offsets)[i].gotAddress.Some?
    ensures
      var rs := CreatedAll(qs, offsets);
      var ws := WritesOf(env, rs);
      RelocatesOwnSlots(Concat(ws).got, offsets.got, ws[i], rs[i])
  {
    var rs := CreatedAll(qs, offsets);
    var ws, res := WritesOf(env, rs), rs[i];
    CreatedInTurn(env, relr, qs, offsets, i);
    OwnRelocations(env, rs, i);
    RelocationsInTurn(qs, ws, offsets, i, res);
  }

  lemma {:induction false} RelocationsInTurn(qs: seq<Request>, ws: seq<Tables>, offsets: Parts, i: nat, res: Resolution)
    requires InTurn(qs, ws, offsets, i, res) && res.gotAddress.Some?
    requires RelocatesOwnSlots(ws[i].got, res.gotAddress.value, ws[i], res)
    ensures RelocatesOwnSlots(Concat(ws).got, offsets.got, ws[i], res)
  {
    OffsetsAreSlots(qs, ws, offsets, i);
    var part, got, k := ws[i].got, Concat(ws).got, FirstSlot(ws, i);
    GotAt(ws, i, part, got, k);
    LiftRelocations(part, got, offsets.got, k, ws[i], res);
  }

  // ----- No slot is shared -----

  /** Address assignment never goes back over the slots it reserved. */
  lemma {:induction false} OffsetsAscend(qs: seq<Request>, offsets: Parts, i: nat, j: nat)
    requires i < j <= |qs|
    ensures OffsetsAfter(qs[..i], offsets).got + 8 * GotSlots(qs[i].flags) <= OffsetsAfter(qs[..j], offsets).got
  {
    assert qs[..j][..j - 1] == qs[..j - 1];
    if i < j - 1 {
      OffsetsAscend(qs, offsets, i, j - 1);
    }
  }

  /** The slots reserved for one resolution end before those of the next begin. */
  lemma {:induction false} SlotsAreDisjoint(qs: seq<Request>, offsets: Parts, i: nat, j: nat)
    requires i < j < |qs|
    ensures
      var a, b := CreatedAll(qs, offsets)[i], CreatedAll(qs, offsets)[j];
      a.gotAddress.Some? && b.gotAddress.Some? ==>
        a.gotAddress.value + 8 * GotSlots(qs[i].flags) <= b.gotAddress.value
  {
    OffsetsAscend(qs, offsets, i, j);
  }

  /** An accessor of `res` names `address` for `use`. */
  predicate Names(res: Resolution, address: nat, use: GotUse) {
    var flags := res.flags;
    && res.gotAddress.Some?
    && match use
       case TlsOffset => flags.gotTlsOffset && address == res.gotAddress.value
       case TlsModule => flags.gotTlsModule && address == res.TlsgdGotAddress()
       case TlsModuleOffset => flags.gotTlsModule && address == res.TlsgdGotAddress() + 8
       case TlsDescriptor => flags.gotTlsDescriptor && address == res.TlsDescriptorGotAddress()
       case TlsDescriptorArg => flags.gotTlsDescriptor && address == res.TlsDescriptorGotAddress() + 8
       case Pointer => !flags.IsTls() && address == res.gotAddress.value
       case PltPointer => !flags.IsTls() && flags.ifuncGotForAddress && address == res.GotAddressForRelocation()
  }

  /** Every named address is a whole slot of those reserved for the resolution. */
  lemma {:induction false} NamedIsReserved(env: Env, relr: bool, q: Request, offsets: Parts, address: nat, use: GotUse)
    requires Consistent(env, relr, q, true) && !(q.flags.plt && q.flags.IsTls())
    requires Names(Created(q, offsets), address, use)
    ensures
      var first := Created(q, offsets).gotAddress.value;
      first <= address && address + 8 <= first + 8 * GotSlots(q.flags)
  {
  }

  /** Different uses have different slots, within one resolution and across two. */
  lemma {:induction false} UsesNeverShare(
      env: Env, relr: bool, qs: seq<Request>, offsets: Parts, i: nat, j: nat, a: nat, use: GotUse, b: nat,
      other: GotUse)
    requires AllConsistent(env, relr, qs) && NoTlsPlt(qs) && i <= j < |qs| && (i == j ==> use != other)
    requires Names(CreatedAll(qs, offsets)[i], a, use) && Names(CreatedAll(qs, offsets)[j], b, other)
    ensures a + 8 <= b || b + 8 <= a
  {
    if i < j {
      ConsistentAt(env, relr, qs, i);
      ConsistentAt(env, relr, qs, j);
      NamedIsReserved(env, relr, qs[i], OffsetsAfter(qs[..i], offsets), a, use);
      NamedIsReserved(env, relr, qs[j], OffsetsAfter(qs[..j], offsets), b, other);
      SlotsAreDisjoint(qs, offsets, i, j);
    }
  }

  /** And the slot at a named address is the one that the writer filled for that use. */
  lemma {:induction false} NamedIsFilled(
      env: Env, relr: bool, qs: seq<Request>, offsets: Parts, i: nat, address: nat, use: GotUse)
    requires AllConsistent(env, relr, qs) && NoTlsPlt(qs) && i < |qs|
    requires AllWritable(env, CreatedAll(qs, offsets)) && Names(CreatedAll(qs, offsets)[i], address, use)
    ensures SlotHas(Concat(WritesOf(env, CreatedAll(qs, offsets))).got, offsets.got, address, use)
  {
    GotAddressesNameSlots(env, relr, qs, offsets, i);
  }

  // ----- The runtime check -----

  /** The environment in which `verify_resolution_allocation` replays one resolution. */
  function ReplayEnv(kind: OutputKind): Env {
    Env(kind, false, 0, 100, false, 0, 0)
  }

  function ReplayRequest(flags: ValueFlags): Request {
    Request(flags, 0, if flags.HasDynamicSymbol() then Some(1) else None)
  }

  /** The four tables that `validate_empty` checks are all used up. */
  predicate FourFull(a: Parts, b: Parts) {
    a.got == b.got && a.relative == b.relative && a.general == b.general && a.relr == b.relr
  }

  /** Checking four of the six tables is enough: an unused PLT or IRELATIVE slot shows up in one of them. */
  lemma {:induction false} FourTablesSuffice(env: Env, relr: bool, q: Request, offsets: Parts)
    requires SymbolFacts(q) && Writable(env, Created(q, offsets))
    ensures
      var used, space := Writes(env, Created(q, offsets)).Counts(), Allocated(q.flags, env.kind, relr);
      Within(used, space) && FourFull(used, space) ==> used == space
  {
  }

  /** The replay's own verdict on what the writer did. */
  ghost predicate Accepts(env: Env, res: Resolution, space: Parts) {
    && Writable(env, res)
    && Within(NO_TABLES.Plus(Writes(env, res)).Counts(), space)
    && FourFull(NO_TABLES.Plus(Writes(env, res)).Counts(), space)
  }

  method WriteAndValidate(env: Env, res: Resolution, memSizes: PartMap, relr: bool, ghost space: Parts)
    returns (ok: bool)
    requires memSizes.Value() == space.Bytes()
    ensures ok <==> Accepts(env.(relr := relr && space.relr > 0), res, space)
  {
    var w := new TableWriter(env, memSizes, relr, space);
    ok := w.ProcessResolution(res);
    if ok {
      ok := |w.got| == w.capacity.got && |w.relative| == w.capacity.relative
            && |w.general| == w.capacity.general && |w.relr| == w.capacity.relr;
    }
  }

  /** Replays allocation, creation and writing of one resolution with made-up addresses, and checks for leftovers. */
  method VerifyResolutionAllocation(flags: ValueFlags, kind: OutputKind, relr: bool) returns (ok: bool)
    ensures ok <==> Consistent(ReplayEnv(kind), relr, ReplayRequest(flags), true)
    ensures flags.gotTlsOffset ==> !ok
  {
    var q, offsets := ReplayRequest(flags), NO_PARTS.(got := 0x10, pltGot := 0x10);
    var memSizes := new PartMap(NO_PARTS);
    AllocateResolution(flags, memSizes, kind, relr);
    var memoryOffsets := new PartMap(offsets);
    var res := CreateResolution(q, memoryOffsets);
    NothingPlusBytes(Allocated(flags, kind, relr));
    ok := WriteAndValidate(ReplayEnv(kind), res, memSizes, relr, Allocated(flags, kind, relr));
    ReplayVerdict(relr, flags, kind, offsets);
  }

  lemma {:induction false} NothingPlusBytes(p: Parts)
    ensures NO_PARTS.Plus(p.Bytes()) == p.Bytes()
  {
  }

  lemma {:induction false} ReplayVerdict(relr: bool, flags: ValueFlags, kind: OutputKind, offsets: Parts)
    requires offsets.got % 2 == 0
    ensures
      var space := Allocated(flags, kind, relr);
      var env := ReplayEnv(kind).(relr := relr && space.relr > 0);
      Accepts(env, Created(ReplayRequest(flags), offsets), space)
      <==> Consistent(ReplayEnv(kind), relr, ReplayRequest(flags), true)
  {
    var q, space := ReplayRequest(flags), Allocated(flags, kind, relr);
    var env := ReplayEnv(kind).(relr := relr && space.relr > 0);
    AccountingIff(env, relr, q, offsets);
    if Writable(env, Created(q, offsets)) {
      NothingPlus(Writes(env, Created(q, offsets)));
      FourTablesSuffice(env, relr, q, offsets);
    }
  }
}
