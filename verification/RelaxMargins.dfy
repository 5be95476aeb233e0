/**
 The margins by which layout decides whether to scan a section again. A section is skipped if its
 least margin is more than the bytes deleted, on the ground that addresses shift by at most those
 bytes and so no candidate can succeed. First how far addresses really shift; then, for shifts within
 that bound, which candidates of a skipped section could still have succeeded.
 */
module RelaxMargins {
  import opened Wrappers
  import opened Machine
  import opened Alignments
  import opened RelaxDeltas
  import opened Relaxation

  // ----- How far one aligned address falls -----

  /** How far the next multiple falls when the place before it falls by `g`. */
  function Fall(x: int, g: nat, a: nat): int
    requires a > 0
  {
    NextMultiple(x, a) - NextMultiple(x - g, a)
  }

  /** The fall goes past a boundary that `g` alone does not account for. */
  predicate RoundsUp(x: int, g: nat, a: nat)
    requires a > 0
  {
    g % a != 0 && (x - 1) % a < g % a
  }

  /** The place of `x` between multiples of `a`, counted from just after one. */
  lemma {:induction false} MultipleAbove(x: int, a: nat)
    requires a > 0
    ensures NextMultiple(x, a) == x - 1 - (x - 1) % a + a
  {
    var y := x - 1;
    var q, r := y / a, y % a;
    assert y == q * a + r;
    if r == a - 1 {
      assert x == (q + 1) * a;
      MultipleMod(q + 1, a);
    } else {
      RemainderUnique(x, q, r + 1, a);
    }
  }

  lemma {:induction false} RemainderOfDifference(y: int, g: nat, a: nat)
    requires a > 0
    ensures (y - g) % a == y % a - g % a + if y % a < g % a then a else 0
  {
    var q, r := y / a, y % a;
    var k, s := g / a, g % a;
    assert y == q * a + r && g == k * a + s;
    var n, t := if r < s then q - k - 1 else q - k, if r < s then r - s + a else r - s;
    assert y - g == n * a + t;
    RemainderUnique(y - g, n, t, a);
  }

  /** It falls by `g` rounded down to the alignment, or by one multiple more. */
  lemma {:induction false} FallIs(x: int, g: nat, a: nat)
    requires a > 0
    ensures Fall(x, g, a) == g - g % a + if RoundsUp(x, g, a) then a else 0
  {
    MultipleAbove(x, a);
    MultipleAbove(x - g, a);
    RemainderOfDifference(x - 1, g, a);
    assert x - g - 1 == x - 1 - g;
  }

  /** An aligned address falls by no more than what is before it exactly if it does not round up. */
  lemma {:induction false} FallWithinIff(x: int, g: nat, a: nat)
    requires a > 0
    ensures 0 <= Fall(x, g, a)
    ensures Fall(x, g, a) <= g <==> !RoundsUp(x, g, a)
  {
    FallIs(x, g, a);
    RemainderWithin(g, a, g % a, RoundsUp(x, g, a), Fall(x, g, a));
  }

  lemma {:induction false} RemainderWithin(g: nat, a: nat, s: int, up: bool, fall: int)
    requires a > 0 && s == g % a && (up ==> s != 0) && fall == g - s + if up then a else 0
    ensures 0 <= fall && (fall <= g <==> !up)
  {
    assert g == (g / a) * a + s && (g / a) * a >= 0;
  }

  /** Bytes removed from a section are all counted in its capacity exactly if that rounds up or has nothing to round. */
  lemma {:induction false} CountedIff(size: nat, removed: nat, a: nat)
    requires a > 0 && removed <= size
    ensures Fall(size, removed, a) >= removed <==> removed % a == 0 || RoundsUp(size, removed, a)
  {
    FallIs(size, removed, a);
  }

  // ----- How far addresses fall in a layout -----

  /** A section in address order: its alignment and its capacity before and after a pass. */
  datatype Piece = Piece(alignment: nat, before: nat, after: nat)

  ghost predicate Shrinks(ps: seq<Piece>) {
    forall i :: 0 <= i < |ps| ==> ps[i].alignment > 0 && ps[i].after <= ps[i].before
  }

  /** Where everything before piece `i` ends, before the pass. */
  function EndBefore(ps: seq<Piece>, base: nat, i: nat): int
    requires Shrinks(ps) && i <= |ps|
    decreases i, 0
  {
    if i == 0 then base else AddressBefore(ps, base, i - 1) + ps[i - 1].before
  }

  function AddressBefore(ps: seq<Piece>, base: nat, i: nat): int
    requires Shrinks(ps) && i < |ps|
    decreases i, 1
  {
    NextMultiple(EndBefore(ps, base, i), ps[i].alignment)
  }

  function EndAfter(ps: seq<Piece>, base: nat, i: nat): int
    requires Shrinks(ps) && i <= |ps|
    decreases i, 0
  {
    if i == 0 then base else AddressAfter(ps, base, i - 1) + ps[i - 1].after
  }

  function AddressAfter(ps: seq<Piece>, base: nat, i: nat): int
    requires Shrinks(ps) && i < |ps|
    decreases i, 1
  {
    NextMultiple(EndAfter(ps, base, i), ps[i].alignment)
  }

  /** The bytes by which the first `i` capacities shrank. */
  function Deleted(ps: seq<Piece>, i: nat): nat
    requires Shrinks(ps) && i <= |ps|
  {
    if i == 0 then 0 else Deleted(ps, i - 1) + (ps[i - 1].before - ps[i - 1].after)
  }

  /** How far the end before piece `i`, and piece `i` itself, fall. */
  function EndFall(ps: seq<Piece>, base: nat, i: nat): int
    requires Shrinks(ps) && i <= |ps|
  {
    EndBefore(ps, base, i) - EndAfter(ps, base, i)
  }

  function AddressFall(ps: seq<Piece>, base: nat, i: nat): int
    requires Shrinks(ps) && i < |ps|
  {
    AddressBefore(ps, base, i) - AddressAfter(ps, base, i)
  }

  lemma {:induction false} FallsForward(ps: seq<Piece>, base: nat, i: nat)
    requires Shrinks(ps) && i <= |ps|
    ensures EndFall(ps, base, i) >= 0
    ensures i < |ps| ==> AddressFall(ps, base, i) == Fall(EndBefore(ps, base, i), EndFall(ps, base, i), ps[i].alignment)
    ensures i < |ps| ==> AddressFall(ps, base, i) >= 0
  {
    if i > 0 {
      FallsForward(ps, base, i - 1);
    }
    if i < |ps| {
      FallWithinIff(EndBefore(ps, base, i), EndFall(ps, base, i), ps[i].alignment);
    }
  }

  /** Piece `i` falls by no more than the end before it. */
  ghost predicate KeepsUp(ps: seq<Piece>, base: nat, i: int)
    requires Shrinks(ps) && 0 <= i < |ps|
  {
    AddressFall(ps, base, i) <= EndFall(ps, base, i)
  }

  ghost predicate RoundsUpAt(ps: seq<Piece>, base: nat, i: int)
    requires Shrinks(ps) && 0 <= i < |ps|
  {
    EndFall(ps, base, i) >= 0 && RoundsUp(EndBefore(ps, base, i), EndFall(ps, base, i), ps[i].alignment)
  }

  /** No piece falls further than what is before it exactly if none rounds up. */
  lemma {:induction false} KeepsUpIff(ps: seq<Piece>, base: nat, i: nat)
    requires Shrinks(ps) && i < |ps|
    ensures KeepsUp(ps, base, i) <==> !RoundsUpAt(ps, base, i)
  {
    FallsForward(ps, base, i);
    FallWithinIff(EndBefore(ps, base, i), EndFall(ps, base, i), ps[i].alignment);
  }

  ghost predicate NoneRoundsUp(ps: seq<Piece>, base: nat)
    requires Shrinks(ps)
  {
    forall i {:trigger RoundsUpAt(ps, base, i)} :: 0 <= i < |ps| ==> !RoundsUpAt(ps, base, i)
  }

  /** Then addresses fall by at most what was deleted before them, as layout assumes. */
  lemma {:induction false} FallsWithinDeleted(ps: seq<Piece>, base: nat, i: nat)
    requires Shrinks(ps) && NoneRoundsUp(ps, base) && i <= |ps|
    ensures 0 <= EndFall(ps, base, i) <= Deleted(ps, i)
    ensures i < |ps| ==> 0 <= AddressFall(ps, base, i) <= Deleted(ps, i)
  {
    FallsForward(ps, base, i);
    if i > 0 {
      FallsWithinDeleted(ps, base, i - 1);
    }
    if i < |ps| {
      assert !RoundsUpAt(ps, base, i);
      KeepsUpIff(ps, base, i);
    }
  }

  lemma {:induction false} DeletedGrows(ps: seq<Piece>, i: nat, j: nat)
    requires Shrinks(ps) && i <= j <= |ps|
    ensures Deleted(ps, i) <= Deleted(ps, j)
  {
    if i < j {
      DeletedGrows(ps, i, j - 1);
    }
  }

  // ----- Calls -----

  /** Within reach of a call whose distance changes by at most `moved` bytes either way. */
  ghost predicate CallCanFit(distance: int, moved: int) {
    exists d :: FitsJal(d) && distance - moved <= d <= distance + moved
  }

  /** A call out of reach can come into reach exactly from its margin on, or one byte earlier if it is backward. */
  lemma {:induction false} CallMarginIff(distance: int, moved: nat)
    requires !FitsJal(distance)
    ensures CallCanFit(distance, moved) <==> moved >= CallMargin(distance) - if distance < 0 then 1 else 0
  {
    assert FitsJal(-0x10_0000) && FitsJal(0xf_ffff);
  }

  /**
   For shifts of at most `deleted` bytes, a call of a skipped section could have come into reach
   exactly if it is backward and one byte short of its margin.
   */
  lemma {:induction false} SkippedCallFitsIff(distance: int, deleted: nat)
    requires !FitsJal(distance) && deleted < CallMargin(distance)
    ensures CallCanFit(distance, deleted) <==> distance < 0 && deleted == CallMargin(distance) - 1
  {
    CallMarginIff(distance, deleted);
  }

  /** A backward call that two bytes would bring into reach has margin 3, so its section is skipped. */
  lemma {:induction false} BackwardCallIsMissed()
    ensures !FitsJal(-0x10_0002) && CallCanFit(-0x10_0002, 2) && CallMargin(-0x10_0002) == 3
  {
    assert FitsJal(-0x10_0000);
  }

  /** The distance that a scan measures: to a symbol at `target`, from input offset `offset` of a section. */
  function Distance(target: int, section: int, offset: nat): int {
    target - (section + offset)
  }

  /**
   A call from piece `i` to a symbol of piece `j`, after a pass in which no piece rounds up and the
   symbol fell by `inner` more bytes, all of them counted in its piece's capacity. Skipped forward
   calls stay out of reach, and so do backward ones more than a byte short of their margin.
   */
  lemma {:induction false} SkippedCallStaysOut(
      ps: seq<Piece>, base: nat, i: nat, j: nat, at: nat, inner: nat, offset: nat)
    requires Shrinks(ps) && NoneRoundsUp(ps, base) && i < |ps| && j < |ps|
    requires inner <= ps[j].before - ps[j].after
    ensures
      var was := Distance(AddressBefore(ps, base, j) + at, AddressBefore(ps, base, i), offset);
      var now := Distance(AddressAfter(ps, base, j) + at - inner, AddressAfter(ps, base, i), offset);
      && was - Deleted(ps, |ps|) <= now <= was + Deleted(ps, |ps|)
      && (!FitsJal(was) && Deleted(ps, |ps|) + (if was < 0 then 1 else 0) < CallMargin(was) ==> !FitsJal(now))
  {
    FallsWithinDeleted(ps, base, i);
    FallsWithinDeleted(ps, base, j);
    DeletedGrows(ps, i, |ps|);
    DeletedGrows(ps, j + 1, |ps|);
  }

  /** Two bytes go, the next page-aligned section falls by a page, and a skipped forward call comes into reach. */
  lemma {:induction false} RealignedCallIsMissed(ps: seq<Piece>)
    requires ps == [Piece(2, 0x10_2002, 0x10_2000), Piece(0x1000, 4, 4)]
    ensures Shrinks(ps) && Deleted(ps, 2) == 2 && AddressFall(ps, 0, 1) == 0x1000 && RoundsUpAt(ps, 0, 1)
    ensures
      var was := Distance(AddressBefore(ps, 0, 1), AddressBefore(ps, 0, 0), 0x2ffe);
      var now := Distance(AddressAfter(ps, 0, 1), AddressAfter(ps, 0, 0), 0x2ffe);
      !FitsJal(was) && CallMargin(was) == 3 && FitsJal(now)
  {
    assert AddressBefore(ps, 0, 0) == 0 && AddressAfter(ps, 0, 0) == 0;
    assert EndBefore(ps, 0, 1) == 0x10_2002 && EndAfter(ps, 0, 1) == 0x10_2000;
    assert AddressBefore(ps, 0, 1) == 0x10_3000 && AddressAfter(ps, 0, 1) == 0x10_2000;
    assert Deleted(ps, 1) == 2;
  }

  /** Two of a section's bytes go without a change of its capacity, and a skipped forward call comes into reach. */
  lemma {:induction false} UncountedCallIsMissed(ps: seq<Piece>)
    requires ps == [Piece(4, 0x10_0100, 0x10_00fc), Piece(4, 8, 8)]
    ensures Shrinks(ps) && NoneRoundsUp(ps, 0) && Deleted(ps, 2) == 4 && Fall(8, 2, 4) == 0
    ensures
      var was := Distance(AddressBefore(ps, 0, 1) + 8, AddressBefore(ps, 0, 0), 0x104);
      var now := Distance(AddressAfter(ps, 0, 1) + 8 - 2, AddressAfter(ps, 0, 0), 0x104);
      !FitsJal(was) && CallMargin(was) == 5 && FitsJal(now)
  {
    assert AddressBefore(ps, 0, 0) == 0 && AddressAfter(ps, 0, 0) == 0;
    assert EndBefore(ps, 0, 1) == 0x10_0100 && EndAfter(ps, 0, 1) == 0x10_00fc;
    assert AddressBefore(ps, 0, 1) == 0x10_0100 && AddressAfter(ps, 0, 1) == 0x10_00fc;
    assert EndFall(ps, 0, 0) == 0 && EndFall(ps, 0, 1) == 4;
    assert Deleted(ps, 1) == 4;
  }

  // ----- Address loads -----

  /** Within reach of a load whose value falls by at most `moved` bytes: the lui goes, or gets its short form. */
  ghost predicate LuiCanRelax(value: nat, moved: nat) {
    exists v: nat :: (Hi20IsZero(v) || Hi20FitsCLui(v)) && value - moved <= v <= value
  }

  lemma {:induction false} LuiFits(v: nat)
    requires v + 0x800 < 0x1_0000_0000_0000_0000
    ensures Hi20FitsCLui(v) <==> 0x1000 <= v + 0x800 < 0x2_0000
  {
    CLuiRange(v);
    assert Wrap64(v + 0x800) == v + 0x800;
  }

  lemma {:induction false} LuiGoes(v: nat)
    requires v + 0x800 < 0x1_0000_0000_0000_0000
    ensures Hi20IsZero(v) <==> (v + 0x800) % 0x1_0000_0000 < 0x1000
  {
    var x := v + 0x800;
    assert Wrap64(x) == x;
    var h := x / 0x1000;
    assert x == 0x1000 * h + x % 0x1000;
    assert h == 0x10_0000 * (h / 0x10_0000) + h % 0x10_0000;
    var r := 0x1000 * (h % 0x10_0000) + x % 0x1000;
    RemainderUnique(x, h / 0x10_0000, r, 0x1_0000_0000);
  }

  /** The nearest value below `x` that lets the lui go is just before the first page of its 4 GiB ends. */
  lemma {:induction false} GoesBelow(x: nat, y: nat)
    requires y <= x && y % 0x1_0000_0000 < 0x1000 <= x % 0x1_0000_0000
    ensures x - y >= x % 0x1_0000_0000 - 0xfff
  {
    assert x == 0x1_0000_0000 * (x / 0x1_0000_0000) + x % 0x1_0000_0000;
    assert y == 0x1_0000_0000 * (y / 0x1_0000_0000) + y % 0x1_0000_0000;
  }

  /**
   A load that is left alone could be relaxed after a fall exactly if the fall can take it below 32
   pages, or back into the first page of its 4 GiB.
   */
  lemma {:induction false} LuiRelaxIff(value: nat, moved: nat)
    requires value + 0x800 < 0x1_0000_0000_0000_0000 && Hi20Of(value) > 31 && !Hi20IsZero(value)
    ensures LuiCanRelax(value, moved) <==>
      moved > value + 0x800 - 0x2_0000 || moved + 0xfff >= (value + 0x800) % 0x1_0000_0000
  {
    var x := value + 0x800;
    assert Wrap64(x) == x && x >= 0x2_0000;
    LuiGoes(value);
    if LuiCanRelax(value, moved) {
      var v: nat :| (Hi20IsZero(v) || Hi20FitsCLui(v)) && value - moved <= v <= value;
      LuiFits(v);
      LuiGoes(v);
      if Hi20IsZero(v) {
        GoesBelow(x, v + 0x800);
      }
    }
    if moved > x - 0x2_0000 {
      LuiFits(0x1_f7ff);
      assert value - moved <= 0x1_f7ff <= value;
    } else if moved + 0xfff >= x % 0x1_0000_0000 {
      LuiReached(value, moved);
    }
  }

  lemma {:induction false} LuiReached(value: nat, moved: nat)
    requires value + 0x800 < 0x1_0000_0000_0000_0000
    requires 0x1000 <= (value + 0x800) % 0x1_0000_0000 <= moved + 0xfff
    ensures LuiCanRelax(value, moved)
  {
    LuiGoes(value);
    LuiGoIff(value, moved);
  }

  /** The margin counts whole pages down to 32, the rest of the value's page included. */
  lemma {:induction false} LuiMarginIs(value: nat)
    requires value + 0x800 < 0x1_0000_0000_0000_0000 && Hi20Of(value) > 31
    ensures LuiMargin(value) == (value + 0x800 - 0x1_ffff) + (0xfff - (value + 0x800) % 0x1000)
  {
    var x := value + 0x800;
    assert Wrap64(x) == x;
    assert x == 0x1000 * (x / 0x1000) + x % 0x1000;
  }

  /** For a fall of at most `deleted` bytes, when a load of a skipped section could have been relaxed. */
  lemma {:induction false} SkippedLuiRelaxIff(value: nat, deleted: nat)
    requires value + 0x800 < 0x1_0000_0000_0000_0000 && Hi20Of(value) > 31 && !Hi20IsZero(value)
    requires deleted < LuiMargin(value)
    ensures LuiCanRelax(value, deleted) <==>
      || (LuiMargin(value) - deleted <= 0xfff - (value + 0x800) % 0x1000)
      || deleted + 0xfff >= (value + 0x800) % 0x1_0000_0000
  {
    LuiRelaxIff(value, deleted);
    LuiMarginIs(value);
  }

  /** After a pass in which no piece rounds up, a load that no counted fall can reach is still left alone. */
  lemma {:induction false} SkippedLuiStays(
      ps: seq<Piece>, base: nat, j: nat, at: int, inner: nat, was: nat, now: nat)
    requires Shrinks(ps) && NoneRoundsUp(ps, base) && j < |ps| && inner <= ps[j].before - ps[j].after
    requires was == AddressBefore(ps, base, j) + at && now == AddressAfter(ps, base, j) + at - inner
    ensures was - Deleted(ps, |ps|) <= now <= was
    ensures !LuiCanRelax(was, Deleted(ps, |ps|)) ==> !Hi20IsZero(now) && !Hi20FitsCLui(now)
  {
    FallsWithinDeleted(ps, base, j);
    DeletedGrows(ps, j + 1, |ps|);
  }

  /** One byte would do for the short form, but the margin is a whole page, so the section is skipped. */
  lemma {:induction false} PageIsMissed()
    ensures !Hi20FitsCLui(0x1_f800) && LuiCanRelax(0x1_f800, 1) && LuiMargin(0x1_f800) == 0x1000
  {
    LuiFits(0x1_f800);
    LuiFits(0x1_f7ff);
    assert Hi20Of(0x1_f800) == 32;
  }

  /** One byte would let the lui go, but the margin is almost 4 GiB. */
  lemma {:induction false} FourGigabytesAreMissed()
    ensures !Hi20IsZero(0x1_0000_0800) && !Hi20FitsCLui(0x1_0000_0800)
    ensures LuiCanRelax(0x1_0000_0800, 1) && LuiMargin(0x1_0000_0800) == 0xfffe_2000
  {
    LuiFits(0x1_0000_0800);
    LuiGoes(0x1_0000_0800);
    LuiGoes(0x1_0000_07ff);
    assert Hi20Of(0x1_0000_0800) == 0x10_0001;
  }

  // ----- Loads without a margin -----

  /** The scan resolves the load's symbol, has its bytes, and deleted nothing of it before. */
  ghost predicate IsCandidate(bytes: seq<byte>, pass: Pass, existing: seq<Delta>, lui: Rel) {
    && Resolve(pass, lui.symbol).Some? && lui.offset + 4 <= |bytes|
    && !HasDeltaAt(existing, lui.offset) && !HasDeltaAt(existing, lui.offset + 2)
  }

  /** A load is left alone without a margin exactly if its register has no short form and its lui has to stay. */
  lemma {:induction false} NoMarginIff(bytes: seq<byte>, pass: Pass, existing: seq<Delta>, lui: Rel)
    requires IsCandidate(bytes, pass, existing, lui)
    ensures
      var value, rd := Wrap64(Resolve(pass, lui.symbol).value + lui.addend), Destination(bytes, lui.offset);
      LuiDelta(bytes, pass, existing, lui).None? && MarginOfLui(bytes, pass, existing, lui).None? <==>
      (rd == 0 || rd == 2) && !Hi20IsZero(value)
  {
  }

  /** Within reach of a load that can only go altogether. */
  ghost predicate LuiCanGo(value: nat, moved: nat) {
    exists v: nat :: Hi20IsZero(v) && value - moved <= v <= value
  }

  lemma {:induction false} LuiGoIff(value: nat, moved: nat)
    requires value + 0x800 < 0x1_0000_0000_0000_0000 && !Hi20IsZero(value)
    ensures LuiCanGo(value, moved) <==> moved + 0xfff >= (value + 0x800) % 0x1_0000_0000
  {
    var x := value + 0x800;
    LuiGoes(value);
    if LuiCanGo(value, moved) {
      var v: nat :| Hi20IsZero(v) && value - moved <= v <= value;
      LuiGoes(v);
      GoesBelow(x, v + 0x800);
    }
    if moved + 0xfff >= x % 0x1_0000_0000 {
      var y := x - x % 0x1_0000_0000 + 0xfff;
      assert y == (x / 0x1_0000_0000) * 0x1_0000_0000 + 0xfff;
      RemainderUnique(y, x / 0x1_0000_0000, 0xfff, 0x1_0000_0000);
      LuiGoes(y - 0x800);
    }
  }

  /** Such a load asks for no further scan, although one byte would let its lui go. */
  lemma {:induction false} UnrecordedLuiIsMissed(bytes: seq<byte>, lui: Rel, was: Pass, now: Pass)
    requires bytes == [0x37, 1, 0, 0] && lui == Rel(Hi20, 0, Some(0), 0)
    requires was == Pass(0, map[0 := SymbolInfo(0x800, false)]) && now == Pass(0, map[0 := SymbolInfo(0x7ff, false)])
    ensures LuiDelta(bytes, was, [], lui).None? && MarginOfLui(bytes, was, [], lui).None?
    ensures LuiDelta(bytes, now, [], lui) == Some(Delta(0, 4))
  {
    LuiGoes(0x800);
    LuiGoes(0x7ff);
    assert Destination(bytes, 0) == 2;
  }
}
