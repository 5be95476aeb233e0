/**
 What a GOT slot holds once the dynamic loader has applied the relocations that the writer wrote:
 the one thing that the symbol's flags call for, for every list of symbols.
 */
module Loading {
  import opened Wrappers
  import opened Machine
  import opened Resolutions
  import opened TableWriters
  import opened Accounting

  // ----- The loader -----

  /** What a slot holds after loading; symbol 0 stands for the module itself. */
  datatype Content =
    | Absolute(value: int)
    | Based(value: int)
    | SymbolAddress(symbol: nat, addend: int)
    | Resolver(value: int)
    | ThreadOffset(symbol: nat, addend: int)
    | ModuleId(symbol: nat)
    | ModuleOffset(symbol: nat, addend: int)
    | Descriptor(symbol: nat, addend: int)
    | Unset

  /** Where the module is loaded and what its symbols turn out to be. */
  datatype Loader = Loader(
    base: int,
    address: nat -> int,
    resolve: int -> int,
    threadOffset: nat -> int,
    moduleId: nat -> int,
    moduleOffset: nat -> int,
    descriptor: (nat, int) -> int)

  /** The number that a content comes to with a given loader. */
  function ValueWith(l: Loader, c: Content): int {
    match c
    case Absolute(v) => v
    case Based(v) => l.base + v
    case SymbolAddress(s, a) => l.address(s) + a
    case Resolver(v) => l.resolve(l.base + v)
    case ThreadOffset(s, a) => l.threadOffset(s) + a
    case ModuleId(s) => l.moduleId(s)
    case ModuleOffset(s, a) => l.moduleOffset(s) + a
    case Descriptor(s, a) => l.descriptor(s, a)
    case Unset => 0
  }

  function LoadRela(r: Rela): Content {
    match r.kind
    case GotEntryRel => SymbolAddress(r.symbol, r.addend)
    case Irelative => Resolver(r.addend)
    case Relative => Based(r.addend)
    case TpOff => ThreadOffset(r.symbol, r.addend)
    case DtpMod => ModuleId(r.symbol)
    case DtpOff => ModuleOffset(r.symbol, r.addend)
    case TlsDesc => Descriptor(r.symbol, r.addend)
  }

  /** The relocation of a table that applies to `place`. */
  function Find(relas: seq<Rela>, place: int): Option<Rela> {
    if relas == [] then None
    else if relas[|relas| - 1].place == place then Some(relas[|relas| - 1])
    else Find(relas[..|relas| - 1], place)
  }

  function LoadSlot(slot: GotEntry, packed: bool): Content {
    if slot.value.None? then Unset else if packed then Based(slot.value.value) else Absolute(slot.value.value)
  }

  /** Slot `k` of a GOT at `base` after loading. */
  function Loaded(w: Tables, base: nat, k: nat): Content
    requires k < |w.got|
  {
    var place := base + 8 * k;
    if Find(w.general, place).Some? then LoadRela(Find(w.general, place).value)
    else if Find(w.relaPlt, place).Some? then LoadRela(Find(w.relaPlt, place).value)
    else if Find(w.relative, place).Some? then LoadRela(Find(w.relative, place).value)
    else LoadSlot(w.got[k], place in w.relr)
  }

  // ----- What the flags call for -----

  /** The content that a slot of `res` needs for each use, from the flags alone. */
  function Needed(env: Env, res: Resolution, use: GotUse): Content {
    var flags := res.flags;
    var executable := env.kind.StaticExecutable? || env.kind.DynamicExecutable?;
    var moves := executable ==> env.kind.model.Relocatable?;
    var symbol := if res.dynamicSymbolIndex.Some? then res.dynamicSymbolIndex.value else 0;
    var inTable := flags.dynamic || (flags.exportDynamic && !flags.nonInterposable);
    match use
    case Pointer =>
      if inTable && (flags.dynamic || !flags.ifunc) then SymbolAddress(symbol, 0)
      else if flags.ifunc then Resolver(res.rawValue)
      else if moves && !flags.absolute then Based(res.rawValue)
      else Absolute(res.rawValue)
    case PltPointer =>
      var stub := if res.pltAddress.Some? then res.pltAddress.value else 0;
      if moves then Based(stub) else Absolute(stub)
    case TlsOffset =>
      if inTable then ThreadOffset(symbol, 0)
      else if res.rawValue == 0 then Absolute(0)
      else if executable then Absolute((res.rawValue - env.tpOffsetStart) % 0x1_0000_0000_0000_0000)
      else ThreadOffset(0, res.rawValue - env.tlsStart)
    case TlsModule =>
      if executable && !flags.dynamic then Absolute(1) else ModuleId(symbol)
    case TlsModuleOffset =>
      if res.dynamicSymbolIndex.None? then
        Absolute((res.rawValue - env.tlsStart - env.dtvOffset) % 0x1_0000_0000_0000_0000)
      else if flags.nonInterposable then Absolute(0)
      else ModuleOffset(symbol, 0)
    case TlsDescriptor =>
      Descriptor(symbol, if res.dynamicSymbolIndex.Some? then 0 else res.rawValue - env.tlsStart)
    case TlsDescriptorArg => Absolute(0)
  }

  // ----- Relocations by place -----

  lemma {:induction false} FindOne(r: Rela, place: int)
    ensures Find([r], place) == if r.place == place then Some(r) else None
  {
    assert [r][..0] == [];
  }

  lemma {:induction false} FindConcat(a: seq<Rela>, b: seq<Rela>, place: int)
    ensures Find(a + b, place) == if Find(b, place).Some? then Find(b, place) else Find(a, place)
  {
    if b == [] {
      assert a + b == a;
    } else {
      var init := b[..|b| - 1];
      assert (a + b)[..|a + b| - 1] == a + init;
      FindConcat(a, init, place);
    }
  }

  lemma {:induction false} FindNone(relas: seq<Rela>, place: int)
    requires forall r :: r in relas ==> r.place != place
    ensures Find(relas, place) == None
  {
    if relas != [] {
      assert relas[|relas| - 1] in relas;
      FindNone(relas[..|relas| - 1], place);
    }
  }

  /** What applies to `place` in two sets of tables taken together. */
  ghost predicate SameAt(w: Tables, p: Tables, place: int) {
    && Find(w.general, place) == Find(p.general, place) && Find(w.relaPlt, place) == Find(p.relaPlt, place)
    && Find(w.relative, place) == Find(p.relative, place) && (place in w.relr <==> place in p.relr)
  }

  /** Nothing in these tables applies to `place`. */
  ghost predicate Leaves(w: Tables, place: int) {
    && (forall r :: r in w.general ==> r.place != place) && (forall r :: r in w.relaPlt ==> r.place != place)
    && (forall r :: r in w.relative ==> r.place != place) && place !in w.relr
  }

  lemma {:induction false} PlusLeft(a: Tables, b: Tables, place: int)
    requires Leaves(b, place)
    ensures SameAt(a.Plus(b), a, place)
  {
    FindConcat(a.general, b.general, place);
    FindConcat(a.relaPlt, b.relaPlt, place);
    FindConcat(a.relative, b.relative, place);
    FindNone(b.general, place);
    FindNone(b.relaPlt, place);
    FindNone(b.relative, place);
  }

  lemma {:induction false} PlusRight(a: Tables, b: Tables, place: int)
    requires Leaves(a, place)
    ensures SameAt(a.Plus(b), b, place)
  {
    FindConcat(a.general, b.general, place);
    FindConcat(a.relaPlt, b.relaPlt, place);
    FindConcat(a.relative, b.relative, place);
    FindNone(a.general, place);
    FindNone(a.relaPlt, place);
    FindNone(a.relative, place);
  }

  /** A slot of the left tables, when the right ones leave it alone. */
  lemma {:induction false} LoadedLeft(a: Tables, b: Tables, base: nat, k: nat)
    requires k < |a.got| && Leaves(b, base + 8 * k)
    ensures a.Plus(b).got[k] == a.got[k] && Loaded(a.Plus(b), base, k) == Loaded(a, base, k)
  {
    PlusLeft(a, b, base + 8 * k);
  }

  /** A slot of the right tables, when the left ones leave it alone. */
  lemma {:induction false} LoadedRight(a: Tables, b: Tables, base: nat, k: nat)
    requires k < |b.got| && Leaves(a, base + 8 * |a.got| + 8 * k)
    ensures
      var n := |a.got| + k;
      a.Plus(b).got[n] == b.got[k] && Loaded(a.Plus(b), base, n) == Loaded(b, base + 8 * |a.got|, k)
  {
    PlusRight(a, b, base + 8 * |a.got| + 8 * k);
  }

  // ----- One resolution -----

  /** Slot `n` of the GOT at `base` is filled for `use` and holds `c` after loading. */
  ghost predicate SlotHolds(w: Tables, base: nat, n: int, use: GotUse, c: Content) {
    0 <= n < |w.got| && w.got[n].use == use && Loaded(w, base, n) == c
  }

  /** Slot `k` of what was written for `res` loads as `use` needs. */
  ghost predicate LoadsAs(env: Env, res: Resolution, w: Tables, k: int, use: GotUse) {
    res.gotAddress.Some? && SlotHolds(w, res.gotAddress.value, k, use, Needed(env, res, use))
  }

  lemma {:induction false} PointerAlone(env: Env, res: Resolution)
    requires res.gotAddress.Some? && PointerWritable(res)
    ensures LoadsAs(env, res, PointerWrites(env, res), 0, Pointer)
    ensures |PointerWrites(env, res).got| == 1
  {
    var p, place := PointerWrites(env, res), res.gotAddress.value;
    if p.general != [] {
      FindOne(p.general[0], place);
    } else if p.relaPlt != [] {
      FindOne(p.relaPlt[0], place);
    } else if p.relative != [] {
      FindOne(p.relative[0], place);
    }
  }

  lemma {:induction false} StubAlone(env: Env, res: Resolution)
    requires res.gotAddress.Some? && res.pltAddress.Some?
    ensures
      var a := IfuncAddressWrites(env, res);
      && |a.got| == 1 && a.got[0].use == PltPointer && Leaves(a, res.gotAddress.value)
      && Loaded(a, res.gotAddress.value + 8, 0) == Needed(env, res, PltPointer)
  {
    var a, place := IfuncAddressWrites(env, res), res.gotAddress.value + 8;
    if a.relative != [] {
      FindOne(a.relative[0], place);
    }
  }

  lemma {:induction false} PointerLeavesStub(env: Env, res: Resolution)
    requires res.gotAddress.Some? && PointerWritable(res)
    ensures Leaves(PointerWrites(env, res).Plus(PltWrites(res)), res.gotAddress.value + 8)
  {
  }

  /** The pointer's slot in `p` stays what it is next to tables that leave it alone. */
  lemma {:induction false} LoadsAsLeft(env: Env, res: Resolution, p: Tables, b: Tables, use: GotUse)
    requires LoadsAs(env, res, p, 0, use) && Leaves(b, res.gotAddress.value)
    ensures LoadsAs(env, res, p.Plus(b), 0, use)
  {
    LoadedLeft(p, b, res.gotAddress.value, 0);
  }

  /** The first slot of a symbol that is not TLS, with everything written for it. */
  lemma {:induction false} PointerLoads(env: Env, res: Resolution, p: Tables)
    requires res.gotAddress.Some? && NonTlsWritable(res) && p == PointerWrites(env, res).Plus(PltWrites(res))
    ensures LoadsAs(env, res, p, 0, Pointer) && |p.got| == 1
    ensures LoadsAs(env, res, NonTlsWrites(env, res), 0, Pointer)
  {
    PointerAlone(env, res);
    LoadsAsLeft(env, res, PointerWrites(env, res), PltWrites(res), Pointer);
    if res.flags.ifuncGotForAddress {
      StubAlone(env, res);
      LoadsAsLeft(env, res, p, IfuncAddressWrites(env, res), Pointer);
    } else {
      LoadsAsLeft(env, res, p, NO_TABLES, Pointer);
    }
  }

  /** The second slot of an ifunc whose address is taken. */
  lemma {:induction false} StubLoads(env: Env, res: Resolution, p: Tables, a: Tables)
    requires res.gotAddress.Some? && NonTlsWritable(res) && res.flags.ifuncGotForAddress && |p.got| == 1
    requires p == PointerWrites(env, res).Plus(PltWrites(res)) && a == IfuncAddressWrites(env, res)
    ensures LoadsAs(env, res, p.Plus(a), 1, PltPointer) && |p.Plus(a).got| == 2
  {
    StubAlone(env, res);
    PointerLeavesStub(env, res);
    LoadedRight(p, a, res.gotAddress.value, 0);
  }

  // ----- TLS symbols -----

  /** The relocations of each TLS use, found by its own place. */
  lemma {:induction false} TlsFind(env: Env, res: Resolution, place: int)
    requires res.gotAddress.Some?
    ensures
      var a, b, c :=
        TlsOffsetRelas(env, res, res.gotAddress.value),
        TlsModuleRelas(env, res, res.TlsgdGotAddress()),
        TlsDescriptorRelas(env, res, res.TlsDescriptorGotAddress());
      Find(TlsWrites(env, res).general, place) ==
        if Find(c, place).Some? then Find(c, place) else if Find(b, place).Some? then Find(b, place) else Find(a, place)
  {
    var a, b, c :=
      TlsOffsetRelas(env, res, res.gotAddress.value),
      TlsModuleRelas(env, res, res.TlsgdGotAddress()),
      TlsDescriptorRelas(env, res, res.TlsDescriptorGotAddress());
    FindConcat(a, b, place);
    FindConcat(a + b, c, place);
  }

  lemma {:induction false} TlsOffsetFind(env: Env, res: Resolution, at: nat, place: int)
    ensures
      var relas := TlsOffsetRelas(env, res, at);
      Find(relas, place) == if relas != [] && place == at then Some(relas[0]) else None
  {
    var relas := TlsOffsetRelas(env, res, at);
    if relas != [] {
      assert relas == [relas[0]];
      FindOne(relas[0], place);
    }
  }

  lemma {:induction false} TlsDescriptorFind(env: Env, res: Resolution, at: nat, place: int)
    ensures
      var relas := TlsDescriptorRelas(env, res, at);
      Find(relas, place) == if relas != [] && place == at then Some(relas[0]) else None
  {
    var relas := TlsDescriptorRelas(env, res, at);
    if relas != [] {
      assert relas == [relas[0]];
      FindOne(relas[0], place);
    }
  }

  /** The two parts of the module's relocations. */
  function ModuleRela(env: Env, res: Resolution, at: nat): seq<Rela> {
    if !res.flags.gotTlsModule || (env.kind.IsExecutable() && !res.flags.dynamic) then []
    else [Rela(at, SymbolOr0(res), DtpMod, 0)]
  }

  function OffsetRela(res: Resolution, at: nat): seq<Rela> {
    if !res.flags.gotTlsModule || res.dynamicSymbolIndex.None? || !res.flags.IsInterposable() then []
    else [Rela(at + 8, res.dynamicSymbolIndex.value, DtpOff, 0)]
  }

  lemma {:induction false} TlsModuleFind(env: Env, res: Resolution, at: nat, place: int)
    ensures
      var relas, m, o := TlsModuleRelas(env, res, at), ModuleRela(env, res, at), OffsetRela(res, at);
      Find(relas, place) ==
        if o != [] && place == at + 8 then Some(o[0]) else if m != [] && place == at then Some(m[0]) else None
  {
    var m, o := ModuleRela(env, res, at), OffsetRela(res, at);
    assert TlsModuleRelas(env, res, at) == m + o;
    FindConcat(m, o, place);
    if m != [] {
      assert m == [m[0]];
      FindOne(m[0], place);
    }
    if o != [] {
      assert o == [o[0]];
      FindOne(o[0], place);
    }
  }

  /** A slot of tables without RELATIVE, IRELATIVE or packed relocations loads from the general table alone. */
  lemma {:induction false} GeneralLoads(w: Tables, base: nat, k: nat, slot: GotEntry, found: Option<Rela>)
    requires k < |w.got| && w.got[k] == slot && w.relaPlt == [] && w.relative == [] && w.relr == []
    requires Find(w.general, base + 8 * k) == found
    ensures SlotHolds(w, base, k, slot.use, if found.Some? then LoadRela(found.value) else LoadSlot(slot, false))
  {
  }

  function First(relas: seq<Rela>): Option<Rela> {
    if relas == [] then None else Some(relas[0])
  }

  lemma {:induction false} OffsetContent(env: Env, res: Resolution, at: nat)
    requires res.flags.gotTlsOffset && TlsOffsetWritable(env, res)
    ensures
      var found, a := First(TlsOffsetRelas(env, res, at)), TlsOffsetSlot(env, res);
      && |a| == 1 && a[0].use == TlsOffset
      && Needed(env, res, TlsOffset) == if found.Some? then LoadRela(found.value) else LoadSlot(a[0], false)
  {
  }

  lemma {:induction false} TlsOffsetFound(env: Env, res: Resolution)
    requires res.gotAddress.Some? && res.flags.gotTlsOffset
    ensures
      var at := res.gotAddress.value;
      Find(TlsWrites(env, res).general, at) == First(TlsOffsetRelas(env, res, at))
  {
    var place := res.gotAddress.value;
    TlsFind(env, res, place);
    TlsOffsetFind(env, res, place, place);
    TlsModuleFind(env, res, res.TlsgdGotAddress(), place);
    TlsDescriptorFind(env, res, res.TlsDescriptorGotAddress(), place);
  }

  lemma {:induction false} OffsetPart(env: Env, res: Resolution, w: Tables, a: seq<GotEntry>)
    requires res.gotAddress.Some? && TlsWritable(env, res)
    requires w == TlsWrites(env, res) && a == TlsOffsetSlot(env, res) && a <= w.got
    ensures |a| == Count(res.flags.gotTlsOffset)
    ensures a != [] ==> LoadsAs(env, res, w, 0, TlsOffset)
  {
    if res.flags.gotTlsOffset {
      var at := res.gotAddress.value;
      TlsOffsetFound(env, res);
      OffsetContent(env, res, at);
      GeneralLoads(w, at, 0, a[0], First(TlsOffsetRelas(env, res, at)));
    }
  }

  /** The relocation found at either slot of the module pair. */
  lemma {:induction false} TlsModuleFound(env: Env, res: Resolution, place: int)
    requires res.gotAddress.Some? && res.flags.gotTlsModule
    requires place == res.TlsgdGotAddress() || place == res.TlsgdGotAddress() + 8
    ensures
      var at := res.TlsgdGotAddress();
      Find(TlsWrites(env, res).general, place) ==
        if place == at then First(ModuleRela(env, res, at)) else First(OffsetRela(res, at))
  {
    TlsFind(env, res, place);
    TlsOffsetFind(env, res, res.gotAddress.value, place);
    TlsModuleFind(env, res, res.TlsgdGotAddress(), place);
    TlsDescriptorFind(env, res, res.TlsDescriptorGotAddress(), place);
  }

  /** What the module pair of a TLS symbol is loaded from. */
  ghost predicate ModuleWritten(env: Env, res: Resolution, w: Tables, at: nat, k: nat) {
    var b := TlsModuleSlots(env, res);
    && res.gotAddress.Some? && at == res.gotAddress.value + 8 * k && res.flags.gotTlsModule
    && k + 1 < |w.got| && w.got[k] == b[0] && w.got[k + 1] == b[1]
    && w.relaPlt == [] && w.relative == [] && w.relr == []
    && Find(w.general, at) == First(ModuleRela(env, res, at))
    && Find(w.general, at + 8) == First(OffsetRela(res, at))
  }

  lemma {:induction false} ModuleIdContent(env: Env, res: Resolution, w: Tables, at: nat, k: nat)
    requires ModuleWritten(env, res, w, at, k)
    ensures LoadsAs(env, res, w, k, TlsModule)
  {
    GeneralLoads(w, res.gotAddress.value, k, w.got[k], First(ModuleRela(env, res, at)));
  }

  lemma {:induction false} ModuleOffsetContent(env: Env, res: Resolution, w: Tables, at: nat, k: nat)
    requires ModuleWritten(env, res, w, at, k)
    requires res.dynamicSymbolIndex.Some? <==> res.flags.HasDynamicSymbol()
    ensures LoadsAs(env, res, w, k + 1, TlsModuleOffset)
  {
    GeneralLoads(w, res.gotAddress.value, k + 1, w.got[k + 1], First(OffsetRela(res, at)));
  }

  lemma {:induction false} ModuleIsWritten(
      env: Env, res: Resolution, w: Tables, a: seq<GotEntry>, b: seq<GotEntry>, c: seq<GotEntry>, at: nat)
    requires res.gotAddress.Some? && res.flags.gotTlsModule && |a| == Count(res.flags.gotTlsOffset)
    requires w == TlsWrites(env, res) && b == TlsModuleSlots(env, res) && w.got == a + b + c
    requires at == res.TlsgdGotAddress()
    ensures ModuleWritten(env, res, w, at, |a|)
  {
    TlsModuleFound(env, res, at);
    TlsModuleFound(env, res, at + 8);
  }

  lemma {:induction false} ModulePart(
      env: Env, res: Resolution, w: Tables, a: seq<GotEntry>, b: seq<GotEntry>, c: seq<GotEntry>)
    requires res.gotAddress.Some? && (res.dynamicSymbolIndex.Some? <==> res.flags.HasDynamicSymbol())
    requires w == TlsWrites(env, res) && b == TlsModuleSlots(env, res) && w.got == a + b + c
    requires |a| == Count(res.flags.gotTlsOffset)
    ensures |b| == 2 * Count(res.flags.gotTlsModule)
    ensures b != [] ==> LoadsAs(env, res, w, |a|, TlsModule) && LoadsAs(env, res, w, |a| + 1, TlsModuleOffset)
  {
    if res.flags.gotTlsModule {
      var at := res.TlsgdGotAddress();
      ModuleIsWritten(env, res, w, a, b, c, at);
      ModuleIdContent(env, res, w, at, |a|);
      ModuleOffsetContent(env, res, w, at, |a|);
    }
  }

  lemma {:induction false} TlsDescriptorFound(env: Env, res: Resolution, place: int)
    requires res.gotAddress.Some? && res.flags.gotTlsDescriptor && place >= res.TlsDescriptorGotAddress()
    ensures
      var at := res.TlsDescriptorGotAddress();
      Find(TlsWrites(env, res).general, place) ==
        if place == at then First(TlsDescriptorRelas(env, res, at)) else None
  {
    TlsFind(env, res, place);
    TlsOffsetFind(env, res, res.gotAddress.value, place);
    TlsModuleFind(env, res, res.TlsgdGotAddress(), place);
    TlsDescriptorFind(env, res, res.TlsDescriptorGotAddress(), place);
  }

  /** What the descriptor pair of a TLS symbol is loaded from. */
  ghost predicate DescriptorWritten(env: Env, res: Resolution, w: Tables, at: nat, k: nat) {
    var c := TlsDescriptorSlots(res);
    && res.gotAddress.Some? && at == res.gotAddress.value + 8 * k && res.flags.gotTlsDescriptor
    && k + 1 < |w.got| && w.got[k] == c[0] && w.got[k + 1] == c[1]
    && w.relaPlt == [] && w.relative == [] && w.relr == []
    && Find(w.general, at) == First(TlsDescriptorRelas(env, res, at)) && Find(w.general, at + 8) == None
  }

  lemma {:induction false} DescriptorContent(env: Env, res: Resolution, w: Tables, at: nat, k: nat)
    requires DescriptorWritten(env, res, w, at, k)
    ensures LoadsAs(env, res, w, k, TlsDescriptor) && LoadsAs(env, res, w, k + 1, TlsDescriptorArg)
  {
    GeneralLoads(w, res.gotAddress.value, k, w.got[k], First(TlsDescriptorRelas(env, res, at)));
    GeneralLoads(w, res.gotAddress.value, k + 1, w.got[k + 1], None);
  }

  lemma {:induction false} DescriptorIsWritten(
      env: Env, res: Resolution, w: Tables, ab: seq<GotEntry>, c: seq<GotEntry>, at: nat)
    requires res.gotAddress.Some? && res.flags.gotTlsDescriptor
    requires w == TlsWrites(env, res) && c == TlsDescriptorSlots(res) && w.got == ab + c
    requires at == res.TlsDescriptorGotAddress() == res.gotAddress.value + 8 * |ab|
    ensures DescriptorWritten(env, res, w, at, |ab|)
  {
    TlsDescriptorFound(env, res, at);
    TlsDescriptorFound(env, res, at + 8);
  }

  lemma {:induction false} DescriptorPart(env: Env, res: Resolution, w: Tables, ab: seq<GotEntry>, c: seq<GotEntry>)
    requires res.gotAddress.Some? && w == TlsWrites(env, res) && c == TlsDescriptorSlots(res) && w.got == ab + c
    requires |ab| == Count(res.flags.gotTlsOffset) + 2 * Count(res.flags.gotTlsModule)
    ensures |c| == 2 * Count(res.flags.gotTlsDescriptor)
    ensures c != [] ==> LoadsAs(env, res, w, |ab|, TlsDescriptor) && LoadsAs(env, res, w, |ab| + 1, TlsDescriptorArg)
  {
    if res.flags.gotTlsDescriptor {
      var at := res.TlsDescriptorGotAddress();
      DescriptorIsWritten(env, res, w, ab, c, at);
      DescriptorContent(env, res, w, at, |ab|);
    }
  }

  /** What each part of a TLS symbol's slots loads as. */
  ghost predicate PartsLoad(env: Env, res: Resolution, w: Tables, a: nat, b: nat, c: nat) {
    && a <= 1 && b <= 2 && c <= 2 && |w.got| == a + b + c
    && (a > 0 ==> LoadsAs(env, res, w, 0, TlsOffset))
    && (b > 0 ==> LoadsAs(env, res, w, a, TlsModule) && LoadsAs(env, res, w, a + 1, TlsModuleOffset))
    && (c > 0 ==> LoadsAs(env, res, w, a + b, TlsDescriptor) && LoadsAs(env, res, w, a + b + 1, TlsDescriptorArg))
  }

  lemma {:induction false} TlsParts(
      env: Env, res: Resolution, w: Tables, a: seq<GotEntry>, b: seq<GotEntry>, c: seq<GotEntry>)
    requires res.gotAddress.Some? && TlsWritable(env, res) && w == TlsWrites(env, res)
    requires a == TlsOffsetSlot(env, res) && b == TlsModuleSlots(env, res) && c == TlsDescriptorSlots(res)
    requires res.dynamicSymbolIndex.Some? <==> res.flags.HasDynamicSymbol()
    ensures PartsLoad(env, res, w, |a|, |b|, |c|)
  {
    OffsetPart(env, res, w, a);
    ModulePart(env, res, w, a, b, c);
    DescriptorPart(env, res, w, a + b, c);
  }

  lemma {:induction false} LoadsByPart(env: Env, res: Resolution, w: Tables, a: nat, b: nat, c: nat, k: nat)
    requires PartsLoad(env, res, w, a, b, c) && k < |w.got|
    ensures LoadsAs(env, res, w, k, w.got[k].use)
  {
  }

  /** Every slot of a TLS symbol. */
  lemma {:induction false} TlsLoads(env: Env, res: Resolution, w: Tables, k: nat)
    requires res.gotAddress.Some? && TlsWritable(env, res) && w == TlsWrites(env, res) && k < |w.got|
    requires res.dynamicSymbolIndex.Some? <==> res.flags.HasDynamicSymbol()
    ensures LoadsAs(env, res, w, k, w.got[k].use)
  {
    var a, b, c := TlsOffsetSlot(env, res), TlsModuleSlots(env, res), TlsDescriptorSlots(res);
    TlsParts(env, res, w, a, b, c);
    LoadsByPart(env, res, w, |a|, |b|, |c|, k);
  }

  // ----- Lists of symbols -----

  lemma {:induction false} NonTlsLoads(env: Env, res: Resolution, w: Tables, k: nat)
    requires res.gotAddress.Some? && NonTlsWritable(res) && w == NonTlsWrites(env, res) && k < |w.got|
    ensures LoadsAs(env, res, w, k, w.got[k].use)
  {
    var p := PointerWrites(env, res).Plus(PltWrites(res));
    PointerLoads(env, res, p);
    if k > 0 {
      StubLoads(env, res, p, IfuncAddressWrites(env, res));
    }
  }

  lemma {:induction false} OwnSlotLoads(env: Env, res: Resolution, w: Tables, k: nat)
    requires Writable(env, res) && w == Writes(env, res) && k < |w.got|
    requires res.dynamicSymbolIndex.Some? <==> res.flags.HasDynamicSymbol()
    ensures LoadsAs(env, res, w, k, w.got[k].use)
  {
    if res.flags.IsTls() {
      TlsLoads(env, res, w, k);
    } else {
      NonTlsLoads(env, res, w, k);
    }
  }

  /** Relocations within a run of slots leave everything outside it alone. */
  lemma {:induction false} OutsideIsLeft(got: seq<GotEntry>, base: nat, w: Tables, res: Resolution, place: int)
    requires RelocatesOwnSlots(got, base, w, res) && (place < base || base + 8 * |got| <= place)
    ensures Leaves(w, place)
  {
  }

  lemma {:induction false} ListLeaves(ws: seq<Tables>, place: int)
    requires forall j :: 0 <= j < |ws| ==> Leaves(ws[j], place)
    ensures Leaves(Concat(ws), place)
  {
    if ws != [] {
      var n := |ws| - 1;
      ListLeaves(ws[..n], place);
      PlusLeaves(Concat(ws[..n]), ws[n], place);
    }
  }

  lemma {:induction false} PlusLeaves(a: Tables, b: Tables, place: int)
    requires Leaves(a, place) && Leaves(b, place)
    ensures Leaves(a.Plus(b), place)
  {
  }

  /** Slot `k` of write `i`, when no other write of the list touches it. */
  lemma {:induction false} LoadedInList(ws: seq<Tables>, base: nat, i: nat, k: nat, n: nat)
    requires i < |ws| && k < |ws[i].got| && n == FirstSlot(ws, i) + k
    requires forall j :: 0 <= j < |ws| && j != i ==> Leaves(ws[j], base + 8 * n)
    ensures n < |Concat(ws).got| && Concat(ws).got[n] == ws[i].got[k]
    ensures Loaded(Concat(ws), base, n) == Loaded(ws[i], base + 8 * FirstSlot(ws, i), k)
  {
    var last := |ws| - 1;
    var init := ws[..last];
    if i == last {
      ListLeaves(init, base + 8 * n);
      LoadedRight(Concat(init), ws[last], base, k);
    } else {
      assert init[..i] == ws[..i];
      LoadedInList(init, base, i, k, n);
      LoadedLeft(Concat(init), ws[last], base, n);
    }
  }

  lemma {:induction false} FirstSlotsAscend(ws: seq<Tables>, i: nat, j: nat)
    requires i < j <= |ws|
    ensures FirstSlot(ws, i) + |ws[i].got| <= FirstSlot(ws, j)
  {
    assert ws[..j][..i] == ws[..i];
    WrittenAt(ws[..j], i);
    assert ws[..j][..i + 1] == ws[..i + 1];
  }

  /** What is written for `res` relocates nothing but its own slots, which start at GOT slot `first`. */
  ghost predicate KeepsToItself(w: Tables, base: nat, first: nat, res: Resolution) {
    if res.gotAddress.None? then w == NO_TABLES
    else res.gotAddress.value == base + 8 * first && RelocatesOwnSlots(w.got, res.gotAddress.value, w, res)
  }

  ghost predicate AllKeep(ws: seq<Tables>, base: nat, rs: seq<Resolution>) {
    |rs| == |ws| && forall j :: 0 <= j < |ws| ==> KeepsToItself(ws[j], base, FirstSlot(ws, j), rs[j])
  }

  lemma {:induction false} KeepInTurn(
      env: Env, relr: bool, qs: seq<Request>, offsets: Parts, rs: seq<Resolution>, ws: seq<Tables>, j: nat)
    requires AllConsistent(env, relr, qs) && NoTlsPlt(qs) && rs == CreatedAll(qs, offsets)
    requires AllWritable(env, rs) && ws == WritesOf(env, rs) && j < |ws|
    ensures KeepsToItself(ws[j], offsets.got, FirstSlot(ws, j), rs[j])
  {
    if rs[j].gotAddress.Some? {
      CreatedInTurn(env, relr, qs, offsets, j);
      OffsetsAreSlots(qs, ws, offsets, j);
      OwnRelocations(env, rs, j);
    }
  }

  lemma {:induction false} AllKeepInTurn(
      env: Env, relr: bool, qs: seq<Request>, offsets: Parts, rs: seq<Resolution>, ws: seq<Tables>)
    requires AllConsistent(env, relr, qs) && NoTlsPlt(qs) && rs == CreatedAll(qs, offsets)
    requires AllWritable(env, rs) && ws == WritesOf(env, rs)
    ensures AllKeep(ws, offsets.got, rs)
  {
    forall j | 0 <= j < |ws|
      ensures KeepsToItself(ws[j], offsets.got, FirstSlot(ws, j), rs[j])
    {
      KeepInTurn(env, relr, qs, offsets, rs, ws, j);
    }
  }

  /** What is written for symbol `j` leaves every slot of symbol `i` alone. */
  lemma {:induction false} OthersAreLeft(ws: seq<Tables>, base: nat, i: nat, n: nat, j: nat, res: Resolution)
    requires i < |ws| && j < |ws| && i != j && KeepsToItself(ws[j], base, FirstSlot(ws, j), res)
    requires FirstSlot(ws, i) <= n < FirstSlot(ws, i) + |ws[i].got|
    ensures Leaves(ws[j], base + 8 * n)
  {
    if res.gotAddress.Some? {
      if i < j {
        FirstSlotsAscend(ws, i, j);
      } else {
        FirstSlotsAscend(ws, j, i);
      }
      OutsideIsLeft(ws[j].got, res.gotAddress.value, ws[j], res, base + 8 * n);
    }
  }

  /** No other write of the list touches the slots of write `i`, which start at the address of its symbol. */
  ghost predicate Alone(ws: seq<Tables>, base: nat, i: nat, n: nat, res: Resolution)
    requires i < |ws|
  {
    && (res.gotAddress.Some? ==> res.gotAddress.value == base + 8 * FirstSlot(ws, i))
    && forall j :: 0 <= j < |ws| && j != i ==> Leaves(ws[j], base + 8 * n)
  }

  lemma {:induction false} KeepsAlone(ws: seq<Tables>, base: nat, i: nat, n: nat, rs: seq<Resolution>)
    requires AllKeep(ws, base, rs) && i < |ws| && FirstSlot(ws, i) <= n < FirstSlot(ws, i) + |ws[i].got|
    ensures Alone(ws, base, i, n, rs[i])
  {
    forall j | 0 <= j < |ws| && j != i
      ensures Leaves(ws[j], base + 8 * n)
    {
      OthersAreLeft(ws, base, i, n, j, rs[j]);
    }
  }

  /** A slot that is alone loads from the whole list as it does from its own write. */
  lemma {:induction false} LoadedAlone(
      ws: seq<Tables>, base: nat, i: nat, k: nat, n: nat, res: Resolution, use: GotUse, c: Content)
    requires i < |ws| && k < |ws[i].got| && n == FirstSlot(ws, i) + k && Alone(ws, base, i, n, res)
    requires res.gotAddress.Some? && SlotHolds(ws[i], res.gotAddress.value, k, use, c)
    ensures SlotHolds(Concat(ws), base, n, use, c)
  {
    LoadedInList(ws, base, i, k, n);
  }

  /** In a list of writes that keep to themselves, a slot loads as it does from its own write. */
  lemma {:induction false} LoadedAmong(
      ws: seq<Tables>, base: nat, i: nat, k: nat, n: nat, rs: seq<Resolution>, res: Resolution, use: GotUse, c: Content)
    requires AllKeep(ws, base, rs) && i < |ws| && k < |ws[i].got| && n == FirstSlot(ws, i) + k
    requires res == rs[i] && res.gotAddress.Some? && SlotHolds(ws[i], res.gotAddress.value, k, use, c)
    ensures SlotHolds(Concat(ws), base, n, use, c)
  {
    KeepsAlone(ws, base, i, n, rs);
    LoadedAlone(ws, base, i, k, n, res, use, c);
  }

  /** The content that slot `k` of symbol `i` has from its own write is what its use needs. */
  lemma {:induction false} WrittenLoads(
      env: Env, relr: bool, qs: seq<Request>, offsets: Parts, rs: seq<Resolution>, ws: seq<Tables>, i: nat, k: nat)
    requires AllConsistent(env, relr, qs) && rs == CreatedAll(qs, offsets)
    requires AllWritable(env, rs) && ws == WritesOf(env, rs) && i < |ws| && k < |ws[i].got|
    ensures LoadsAs(env, rs[i], ws[i], k, ws[i].got[k].use)
  {
    ConsistentAt(env, relr, qs, i);
    OwnSlotLoads(env, rs[i], ws[i], k);
  }

  /** Slot `k` of symbol `i` is slot `n` of the whole list, and loaded from there it holds what its use needs. */
  lemma {:induction false} SlotsLoad(
      env: Env, relr: bool, qs: seq<Request>, offsets: Parts, rs: seq<Resolution>, ws: seq<Tables>, i: nat, k: nat,
      n: nat)
    requires AllConsistent(env, relr, qs) && NoTlsPlt(qs) && rs == CreatedAll(qs, offsets)
    requires AllWritable(env, rs) && ws == WritesOf(env, rs)
    requires i < |ws| && k < |ws[i].got| && n == FirstSlot(ws, i) + k
    ensures SlotHolds(Concat(ws), offsets.got, n, ws[i].got[k].use, Needed(env, rs[i], ws[i].got[k].use))
  {
    var use := ws[i].got[k].use;
    AllKeepInTurn(env, relr, qs, offsets, rs, ws);
    WrittenLoads(env, relr, qs, offsets, rs, ws, i, k);
    LoadedAmong(ws, offsets.got, i, k, n, rs, rs[i], use, Needed(env, rs[i], use));
  }

  /** The same of the slot at `address`. */
  ghost predicate HoldsAt(w: Tables, base: nat, address: nat, use: GotUse, c: Content) {
    exists n :: SlotHolds(w, base, n, use, c) && address == base + 8 * n
  }

  ghost function NamedSlot(got: seq<GotEntry>, res: Resolution, address: nat, use: GotUse): (k: nat)
    requires res.gotAddress.Some? && AccessorsAgree(got, res.gotAddress.value, res) && Names(res, address, use)
    ensures k < |got| && address == res.gotAddress.value + 8 * k && got[k].use == use
  {
    var k :| 0 <= k < |got| && address == res.gotAddress.value + 8 * k && got[k].use == use;
    k
  }

  /** What symbol `q` needs is a matter of its own value, not of the PLT address that may stand for it. */
  lemma {:induction false} NeededAsRequested(env: Env, q: Request, offsets: Parts, address: nat, use: GotUse)
    requires SymbolFacts(q) && !(q.flags.plt && q.flags.IsTls()) && Names(Created(q, offsets), address, use)
    ensures
      var res := Created(q, offsets);
      Needed(env, res, use) == Needed(env, res.(rawValue := q.rawValue), use)
  {
  }

  /** The address that any accessor of a symbol names for a use holds, after loading, what that use needs. */
  lemma {:induction false} NamedLoads(
      env: Env, relr: bool, qs: seq<Request>, offsets: Parts, rs: seq<Resolution>, ws: seq<Tables>, i: nat,
      address: nat, use: GotUse)
    requires AllConsistent(env, relr, qs) && NoTlsPlt(qs) && rs == CreatedAll(qs, offsets)
    requires AllWritable(env, rs) && ws == WritesOf(env, rs) && i < |ws| && Names(rs[i], address, use)
    ensures HoldsAt(Concat(ws), offsets.got, address, use, Needed(env, rs[i].(rawValue := qs[i].rawValue), use))
  {
    AccessorOrder(env, rs, i);
    KeepInTurn(env, relr, qs, offsets, rs, ws, i);
    var k := NamedSlot(ws[i].got, rs[i], address, use);
    var n := FirstSlot(ws, i) + k;
    SlotsLoad(env, relr, qs, offsets, rs, ws, i, k, n);
    assert address == offsets.got + 8 * n;
    ConsistentAt(env, relr, qs, i);
    NeededAsRequested(env, qs[i], OffsetsAfter(qs[..i], offsets), address, use);
  }

  /** In numbers, for every load address and every choice of symbol addresses: what a symbol's GOT pointer holds. */
  lemma {:induction false} PointerValue(l: Loader, env: Env, q: Request, offsets: Parts)
    requires SymbolFacts(q) && !(q.flags.dynamic && q.flags.ifunc)
    ensures
      var flags, moves := q.flags, env.kind.SharedObject? || env.kind.PartialObject? || env.kind.model.Relocatable?;
      ValueWith(l, Needed(env, Created(q, offsets), Pointer)) ==
        if flags.ifunc then l.resolve(l.base + q.rawValue)
        else if q.dynamicSymbolIndex.Some? then l.address(q.dynamicSymbolIndex.value)
        else if moves && !flags.absolute then l.base + q.rawValue
        else q.rawValue
  {
  }

  /**
   The address that stands for an imported function is that of its own PLT entry, and the GOT slot that
   the entry jumps through holds, after loading, the address of the imported symbol.
   */
  lemma {:induction false} ImportsAreReached(
      env: Env, relr: bool, qs: seq<Request>, offsets: Parts, rs: seq<Resolution>, ws: seq<Tables>, i: nat)
    requires AllConsistent(env, relr, qs) && NoTlsPlt(qs) && rs == CreatedAll(qs, offsets)
    requires AllWritable(env, rs) && ws == WritesOf(env, rs) && i < |qs| && qs[i].flags.plt && qs[i].flags.dynamic
    ensures
      var k, all, symbol := FirstPltEntry(ws, i), Concat(ws), qs[i].dynamicSymbolIndex;
      && rs[i].rawValue == offsets.pltGot + 16 * k && k < |all.pltGot| && symbol.Some?
      && HoldsAt(all, offsets.got, all.pltGot[k].gotAddress, Pointer, SymbolAddress(symbol.value, 0))
  {
    PltAddressesNameEntries(env, relr, qs, offsets, i);
    ConsistentAt(env, relr, qs, i);
    NamedLoads(env, relr, qs, offsets, rs, ws, i, rs[i].gotAddress.value, Pointer);
  }
}
