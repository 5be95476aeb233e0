/** The RISC-V scan that decides which bytes a relaxation pass deletes, over any number of passes. */
module Relaxation {
  import opened Machine
  import opened Wrappers
  import opened RelaxDeltas
  import opened Alignments

  datatype Kind = Align | Call | Hi20 | Relax | Other

  datatype Rel = Rel(kind: Kind, offset: nat, symbol: Option<nat>, addend: int)

  datatype Section = Section(bytes: seq<byte>, rels: seq<Rel>)

  datatype SymbolInfo = SymbolInfo(address: nat, interposable: bool)

  /** What one pass sees: where the section lies and where symbols resolve to. */
  datatype Pass = Pass(address: nat, symbols: map<nat, SymbolInfo>)

  // ----- The decision at each relocation -----

  predicate HasDeltaAt(existing: seq<Delta>, x: nat) {
    exists i :: 0 <= i < |existing| && existing[i].offset == x
  }

  predicate FitsJal(distance: int) {
    -0x10_0000 <= distance <= 0xf_ffff
  }

  function Hi20Of(value: nat): nat {
    Wrap64(value + 0x800) / 0x1000
  }

  predicate Hi20IsZero(value: nat) {
    Hi20Of(value) % 0x10_0000 == 0
  }

  /** The low six bits as a signed number. */
  function SignExtend6(x: nat): int {
    if x % 64 >= 32 then x % 64 - 64 else x % 64
  }

  predicate Hi20FitsCLui(value: nat) {
    SignExtend6(Hi20Of(value)) == Hi20Of(value) && Hi20Of(value) != 0
  }

  /** The shift is unsigned, so the negative half of the immediate's range is never used. */
  lemma {:induction false} CLuiRange(value: nat)
    ensures Hi20FitsCLui(value) <==> 1 <= Hi20Of(value) <= 31
  {
    var h := Hi20Of(value);
    if h <= 63 {
      assert h % 64 == h;
    }
  }

  /** Every negative value that the documentation allows is refused. */
  lemma {:induction false} NegativeIsRefused(hi20: int)
    requires -32 <= hi20 <= -1
    ensures !Hi20FitsCLui(Wrap64(0x1000 * hi20))
  {
    assert Wrap64(0x1000 * hi20) == 0x1_0000_0000_0000_0000 + 0x1000 * hi20;
    assert Hi20Of(Wrap64(0x1000 * hi20)) == 0x10_0000_0000_0000 + hi20;
  }

  function Destination(bytes: seq<byte>, at: nat): nat
    requires at + 4 <= |bytes|
  {
    U32(bytes, at) / 128 % 32
  }

  /** The address of a symbol that cannot be replaced at run time. */
  function Resolve(pass: Pass, symbol: Option<nat>): Option<nat> {
    match symbol
    case None => None
    case Some(s) =>
      if s in pass.symbols && !pass.symbols[s].interposable then Some(pass.symbols[s].address) else None
  }

  function CallDelta(pass: Pass, existing: seq<Delta>, call: Rel): Option<Delta> {
    if HasDeltaAt(existing, call.offset + 4) then None
    else
      match Resolve(pass, call.symbol)
      case None => None
      case Some(address) =>
        if FitsJal(address - (pass.address + call.offset)) then Some(Delta(call.offset + 4, 4)) else None
  }

  function LuiDelta(bytes: seq<byte>, pass: Pass, existing: seq<Delta>, lui: Rel): Option<Delta> {
    if HasDeltaAt(existing, lui.offset) || HasDeltaAt(existing, lui.offset + 2) then None
    else
      match Resolve(pass, lui.symbol)
      case None => None
      case Some(address) =>
        var value := Wrap64(address + lui.addend);
        if lui.offset + 4 > |bytes| then None
        else if Hi20IsZero(value) then Some(Delta(lui.offset, 4))
        else
          var rd := Destination(bytes, lui.offset);
          if rd != 0 && rd != 2 && Hi20FitsCLui(value) then Some(Delta(lui.offset + 2, 2)) else None
  }

  // ----- How far a candidate is from being relaxed -----

  function CallMargin(distance: int): nat
    requires !FitsJal(distance)
  {
    (if distance < 0 then -distance else distance) - 0xf_ffff
  }

  function LuiMargin(value: nat): nat {
    if Hi20Of(value) > 31 then (Hi20Of(value) - 31) * 0x1000 else 0x1000
  }

  function MarginOfCall(pass: Pass, existing: seq<Delta>, call: Rel): Option<nat> {
    if HasDeltaAt(existing, call.offset + 4) then None
    else
      match Resolve(pass, call.symbol)
      case None => None
      case Some(address) =>
        var distance := address - (pass.address + call.offset);
        if FitsJal(distance) then None else Some(CallMargin(distance))
  }

  function MarginOfLui(bytes: seq<byte>, pass: Pass, existing: seq<Delta>, lui: Rel): Option<nat> {
    if HasDeltaAt(existing, lui.offset) || HasDeltaAt(existing, lui.offset + 2) then None
    else
      match Resolve(pass, lui.symbol)
      case None => None
      case Some(address) =>
        var value := Wrap64(address + lui.addend);
        if lui.offset + 4 > |bytes| || Hi20IsZero(value) then None
        else
          var rd := Destination(bytes, lui.offset);
          if rd == 0 || rd == 2 || Hi20FitsCLui(value) then None else Some(LuiMargin(value))
  }

  /** The margin of the candidate, if any, that the marker at `i` leaves as it is. */
  function MarginAt(sec: Section, pass: Pass, existing: seq<Delta>, i: nat): Option<nat>
    requires i < |sec.rels|
  {
    if !sec.rels[i].kind.Relax? || i == 0 || sec.rels[i - 1].offset != sec.rels[i].offset then None
    else if sec.rels[i - 1].kind.Call? then MarginOfCall(pass, existing, sec.rels[i - 1])
    else if sec.rels[i - 1].kind.Hi20? then MarginOfLui(sec.bytes, pass, existing, sec.rels[i - 1])
    else None
  }

  function Least(a: Option<nat>, b: Option<nat>): Option<nat> {
    if b.None? then a else if a.None? || b.value < a.value then b else a
  }

  /** `margin` is the least that any of the first `n` relocations has, and `None` if none has one. */
  ghost predicate IsLeastMargin(sec: Section, pass: Pass, existing: seq<Delta>, n: nat, margin: Option<nat>)
    requires n <= |sec.rels|
  {
    && (forall i {:trigger MarginAt(sec, pass, existing, i)} :: 0 <= i < n ==>
          Least(margin, MarginAt(sec, pass, existing, i)) == margin)
    && (margin.Some? ==> exists i :: 0 <= i < n && MarginAt(sec, pass, existing, i) == margin)
  }

  lemma {:induction false} LeastMarginNext(sec: Section, pass: Pass, existing: seq<Delta>, n: nat, margin: Option<nat>)
    requires n < |sec.rels| && IsLeastMargin(sec, pass, existing, n, margin)
    ensures IsLeastMargin(sec, pass, existing, n + 1, Least(margin, MarginAt(sec, pass, existing, n)))
  {
    var last := MarginAt(sec, pass, existing, n);
    if margin.Some? {
      var i :| 0 <= i < n && MarginAt(sec, pass, existing, i) == margin;
      assert i < n + 1;
    }
  }

  /** `deleted` bytes have gone in this pass already. */
  function AlignDelta(pass: Pass, existing: seq<Delta>, align: Rel, deleted: nat): Option<Delta> {
    var padding := Wrap64(align.addend);
    if padding == 0 || HasDeltaAt(existing, align.offset) then None
    else
      var p := pass.address + (align.offset - Before(existing, align.offset) - deleted);
      Trimmed(align.offset, p, padding)
  }

  /** The deletion that leaves a padding at `p` only as long as it has to be. */
  function Trimmed(offset: nat, p: int, padding: nat): Option<Delta> {
    var removed := Surplus(p, padding);
    if removed > 0 then Some(Delta(offset, removed % 0x1_0000_0000)) else None
  }

  /** How far `padding` bytes from `p` on go past the boundary that they are there to reach. */
  function Surplus(p: int, padding: nat): nat {
    Pow2FromReaches(1, padding);
    var desired := NextMultiple(p, NextPow2(padding));
    if p + padding > desired then p + padding - desired else 0
  }

  /** What the relocation at `i` deletes: a relaxable owner must be directly before its marker. */
  function Decide(sec: Section, pass: Pass, existing: seq<Delta>, i: nat): Option<Delta>
    requires i < |sec.rels|
    decreases i, 2
  {
    var rel := sec.rels[i];
    match rel.kind
    case Align => DecidePadding(sec, pass, existing, i)
    case Relax =>
      if i == 0 || sec.rels[i - 1].offset != rel.offset then None
      else if sec.rels[i - 1].kind.Call? then CallDelta(pass, existing, sec.rels[i - 1])
      else if sec.rels[i - 1].kind.Hi20? then LuiDelta(sec.bytes, pass, existing, sec.rels[i - 1])
      else None
    case _ => None
  }

  function DecidePadding(sec: Section, pass: Pass, existing: seq<Delta>, i: nat): Option<Delta>
    requires i < |sec.rels|
    decreases i, 1
  {
    AlignDelta(pass, existing, sec.rels[i], Total(Collected(sec, pass, existing, i)))
  }

  function Listed(d: Option<Delta>): seq<Delta> {
    match d
    case None => []
    case Some(x) => [x]
  }

  /** What the first `n` relocations delete. */
  function Collected(sec: Section, pass: Pass, existing: seq<Delta>, n: nat): seq<Delta>
    requires n <= |sec.rels|
    decreases n, 0
  {
    if n == 0 then []
    else Collected(sec, pass, existing, n - 1) + Listed(Decide(sec, pass, existing, n - 1))
  }

  // ----- Ownership -----

  function Owns(rel: Rel): nat {
    match rel.kind
    case Align => if rel.addend >= 0 then rel.addend else 0
    case Call => 8
    case Hi20 => 4
    case _ => 0
  }

  ghost predicate Apart(a: Rel, b: Rel) {
    a.offset <= b.offset && (Owns(b) > 0 ==> a.offset + Owns(a) <= b.offset)
  }

  /**
    * Relocations ascend, the bytes they own are disjoint and inside the section, paddings are not
    * negative, and sizes fit the 32 bits in which deletions are recorded.
    */
  ghost predicate WellFormed(sec: Section) {
    && |sec.bytes| < 0x1_0000_0000
    && (forall i {:trigger Owns(sec.rels[i])} :: 0 <= i < |sec.rels| ==>
          && sec.rels[i].offset + Owns(sec.rels[i]) <= |sec.bytes|
          && (sec.rels[i].kind.Align? ==> sec.rels[i].addend >= 0))
    && forall i, j {:trigger Apart(sec.rels[i], sec.rels[j])} :: 0 <= i < j < |sec.rels| ==>
         Apart(sec.rels[i], sec.rels[j])
  }

  /** The deletions that the owner of some bytes can ask for. */
  ghost predicate DeltaFor(rel: Rel, d: Delta) {
    match rel.kind
    case Align => d.offset == rel.offset && 0 < d.deleted <= rel.addend
    case Call => d == Delta(rel.offset + 4, 4)
    case Hi20 => d == Delta(rel.offset, 4) || d == Delta(rel.offset + 2, 2)
    case _ => false
  }

  ghost predicate OwnedAt(sec: Section, k: int, d: Delta) {
    0 <= k < |sec.rels| && DeltaFor(sec.rels[k], d)
  }

  ghost predicate Owned(sec: Section, ds: seq<Delta>) {
    forall j {:trigger HasOwner(sec, ds[j])} :: 0 <= j < |ds| ==> HasOwner(sec, ds[j])
  }

  ghost predicate HasOwner(sec: Section, d: Delta) {
    exists k :: OwnedAt(sec, k, d)
  }

  ghost predicate Disjoint(d: Delta, e: Delta) {
    d.End() <= e.offset || e.End() <= d.offset
  }

  ghost predicate DisjointFrom(d: Delta, ds: seq<Delta>) {
    forall j {:trigger Disjoint(d, ds[j])} :: 0 <= j < |ds| ==> Disjoint(d, ds[j])
  }

  lemma {:induction false} OwnersAscend(sec: Section, k: int, l: int, d: Delta, e: Delta)
    requires WellFormed(sec) && OwnedAt(sec, k, d) && OwnedAt(sec, l, e) && k < l
    ensures d.End() <= e.offset
  {
    assert Apart(sec.rels[k], sec.rels[l]);
  }

  lemma {:induction false} OwnedWithin(sec: Section, ds: seq<Delta>)
    requires WellFormed(sec) && Owned(sec, ds)
    ensures Within(ds, |sec.bytes|)
  {
    forall j | 0 <= j < |ds|
      ensures ds[j].End() <= |sec.bytes|
    {
      assert HasOwner(sec, ds[j]);
      var k :| OwnedAt(sec, k, ds[j]);
      assert Owns(sec.rels[k]) >= 0;
    }
  }

  /** The relocation whose bytes a decision at `i` deletes. */
  function OwnerOf(sec: Section, i: nat): int
    requires i < |sec.rels|
  {
    if sec.rels[i].kind.Align? then i else i - 1
  }

  /** A decision deletes bytes of its owner only, and nothing was deleted there before. */
  lemma {:induction false} DecisionOwned(sec: Section, pass: Pass, existing: seq<Delta>, i: nat, d: Delta)
    requires WellFormed(sec) && i < |sec.rels|
    requires Decide(sec, pass, existing, i) == Some(d)
    ensures OwnedAt(sec, OwnerOf(sec, i), d) && !Done(sec, OwnerOf(sec, i), i) && Done(sec, OwnerOf(sec, i), i + 1)
    ensures forall j :: 0 <= j < |existing| ==> !OwnedAt(sec, OwnerOf(sec, i), existing[j])
  {
    var rel := sec.rels[i];
    if rel.kind.Align? {
      AlignOwned(sec, pass, existing, i, Total(Collected(sec, pass, existing, i)), d);
    }
  }

  lemma {:induction false} AlignOwned(sec: Section, pass: Pass, existing: seq<Delta>, i: nat, deleted: nat, d: Delta)
    requires WellFormed(sec) && i < |sec.rels| && sec.rels[i].kind.Align?
    requires AlignDelta(pass, existing, sec.rels[i], deleted) == Some(d)
    ensures OwnedAt(sec, i, d)
    ensures
      var rel := sec.rels[i];
      d.deleted == Surplus(pass.address + (rel.offset - Before(existing, rel.offset) - deleted), rel.addend)
  {
    var rel := sec.rels[i];
    assert Owns(rel) == rel.addend;
    SmallWraps(rel.addend);
    SurplusIs(pass.address + (rel.offset - Before(existing, rel.offset) - deleted), rel.addend);
  }

  lemma {:induction false} SmallWraps(x: int)
    requires 0 <= x < 0x1_0000_0000
    ensures Wrap64(x) == x && x % 0x1_0000_0000 == x
  {
  }

  lemma {:induction false} SurplusIs(p: int, padding: nat)
    requires padding < 0x1_0000_0000
    ensures Surplus(p, padding) <= padding && Surplus(p, padding) % 0x1_0000_0000 == Surplus(p, padding)
  {
    Pow2FromReaches(1, padding);
    NextMultipleIsLeast(p, NextPow2(padding));
    SmallWraps(Surplus(p, padding));
  }

  /** What the scan needs to know of a deletion decided at `i`. */
  ghost predicate GoodDecision(sec: Section, existing: seq<Delta>, i: nat, d: Delta)
    requires i < |sec.rels|
  {
    var k := OwnerOf(sec, i);
    OwnedAt(sec, k, d) && !Done(sec, k, i) && Done(sec, k, i + 1) && d.deleted > 0 && DisjointFrom(d, existing)
  }

  lemma {:induction false} DecisionGood(sec: Section, pass: Pass, existing: seq<Delta>, i: nat)
    requires WellFormed(sec) && Owned(sec, existing) && i < |sec.rels|
    ensures
      var found := Decide(sec, pass, existing, i);
      found.Some? ==> GoodDecision(sec, existing, i, found.value)
  {
    var found := Decide(sec, pass, existing, i);
    if found.Some? {
      DecisionOwned(sec, pass, existing, i, found.value);
      OwnerAlone(sec, existing, OwnerOf(sec, i), found.value);
    }
  }

  lemma {:induction false} OwnerAlone(sec: Section, existing: seq<Delta>, k: int, d: Delta)
    requires WellFormed(sec) && Owned(sec, existing) && OwnedAt(sec, k, d)
    requires forall j :: 0 <= j < |existing| ==> !OwnedAt(sec, k, existing[j])
    ensures DisjointFrom(d, existing)
  {
    forall j | 0 <= j < |existing|
      ensures Disjoint(d, existing[j])
    {
      assert HasOwner(sec, existing[j]);
      var l :| OwnedAt(sec, l, existing[j]);
      if k < l {
        OwnersAscend(sec, k, l, d, existing[j]);
      } else if l < k {
        OwnersAscend(sec, l, k, existing[j], d);
      }
    }
  }

  // ----- One pass -----

  /** Every delta of `ds` has an owner among the first `n` relocations that is done by then. */
  ghost predicate OwnedBefore(sec: Section, ds: seq<Delta>, n: nat) {
    forall j {:trigger OwnedByThen(sec, ds[j], n)} :: 0 <= j < |ds| ==> OwnedByThen(sec, ds[j], n)
  }

  ghost predicate OwnedByThen(sec: Section, d: Delta, n: nat) {
    exists k :: OwnedAt(sec, k, d) && Done(sec, k, n)
  }

  /** The decision for the owner at `k` falls before relocation `n` is looked at. */
  ghost predicate Done(sec: Section, k: int, n: int) {
    k < n && 0 <= k < |sec.rels| && (k == n - 1 ==> sec.rels[k].kind.Align?)
  }

  ghost predicate PassOk(sec: Section, existing: seq<Delta>, ds: seq<Delta>) {
    Ordered(ds) && Owned(sec, ds) && forall j {:trigger DisjointFrom(ds[j], existing)} :: 0 <= j < |ds| ==>
      DisjointFrom(ds[j], existing)
  }

  lemma {:induction false} CollectedOk(sec: Section, pass: Pass, existing: seq<Delta>, n: nat)
    requires WellFormed(sec) && Owned(sec, existing) && n <= |sec.rels|
    ensures PassOk(sec, existing, Collected(sec, pass, existing, n))
    ensures OwnedBefore(sec, Collected(sec, pass, existing, n), n)
  {
    if n > 0 {
      CollectedOk(sec, pass, existing, n - 1);
      DecisionGood(sec, pass, existing, n - 1);
      DecisionKeeps(sec, existing, n, Collected(sec, pass, existing, n - 1), Decide(sec, pass, existing, n - 1));
    }
  }

  lemma {:induction false} DecisionKeeps(
      sec: Section, existing: seq<Delta>, n: nat, before: seq<Delta>, found: Option<Delta>)
    requires WellFormed(sec) && 0 < n <= |sec.rels|
    requires PassOk(sec, existing, before) && OwnedBefore(sec, before, n - 1)
    requires found.Some? ==> GoodDecision(sec, existing, n - 1, found.value)
    ensures PassOk(sec, existing, before + Listed(found)) && OwnedBefore(sec, before + Listed(found), n)
  {
    DoneLater(sec, before, n);
    if found.Some? {
      DecisionFollows(sec, before, n, found.value);
      AppendOk(sec, existing, before, n, OwnerOf(sec, n - 1), found.value);
    } else {
      assert before + Listed(found) == before;
    }
  }

  lemma {:induction false} AppendOk(sec: Section, existing: seq<Delta>, before: seq<Delta>, n: nat, k: int, d: Delta)
    requires PassOk(sec, existing, before) && OwnedBefore(sec, before, n)
    requires OwnedAt(sec, k, d) && Done(sec, k, n) && d.deleted > 0 && DisjointFrom(d, existing)
    requires forall j :: 0 <= j < |before| ==> before[j].End() <= d.offset
    ensures PassOk(sec, existing, before + [d]) && OwnedBefore(sec, before + [d], n)
  {
    var ds := before + [d];
    assert OwnedByThen(sec, d, n) && HasOwner(sec, d);
    OrderedSnoc(before, d);
    assert Owned(sec, ds);
  }

  lemma {:induction false} DoneLater(sec: Section, ds: seq<Delta>, n: nat)
    requires 0 < n <= |sec.rels| && OwnedBefore(sec, ds, n - 1)
    ensures OwnedBefore(sec, ds, n)
  {
    forall j | 0 <= j < |ds|
      ensures OwnedByThen(sec, ds[j], n)
    {
      assert OwnedByThen(sec, ds[j], n - 1);
      var k :| OwnedAt(sec, k, ds[j]) && Done(sec, k, n - 1);
      assert Done(sec, k, n);
    }
  }

  lemma {:induction false} DecisionFollows(sec: Section, before: seq<Delta>, n: nat, d: Delta)
    requires WellFormed(sec) && 0 < n <= |sec.rels| && OwnedBefore(sec, before, n - 1)
    requires OwnedAt(sec, OwnerOf(sec, n - 1), d) && !Done(sec, OwnerOf(sec, n - 1), n - 1)
    ensures forall j :: 0 <= j < |before| ==> before[j].End() <= d.offset
  {
    forall j | 0 <= j < |before|
      ensures before[j].End() <= d.offset
    {
      assert OwnedByThen(sec, before[j], n - 1);
      var k :| OwnedAt(sec, k, before[j]) && Done(sec, k, n - 1);
      OwnersAscend(sec, k, OwnerOf(sec, n - 1), before[j], d);
    }
  }

  // ----- Merging -----

  function Insert(ds: seq<Delta>, d: Delta): seq<Delta> {
    if ds == [] || ds[|ds| - 1].offset <= d.offset then ds + [d]
    else Insert(ds[..|ds| - 1], d) + [ds[|ds| - 1]]
  }

  /** The stable sort by offset. */
  function SortByOffset(ds: seq<Delta>): seq<Delta> {
    if ds == [] then [] else Insert(SortByOffset(ds[..|ds| - 1]), ds[|ds| - 1])
  }

  lemma {:induction false} InsertKeeps(ds: seq<Delta>, d: Delta, x: nat)
    ensures multiset(Insert(ds, d)) == multiset(ds) + multiset{d}
    ensures Before(Insert(ds, d), x) == Before(ds, x) + (if d.offset < x then d.deleted else 0)
    ensures Total(Insert(ds, d)) == Total(ds) + d.deleted
  {
    if ds != [] {
      var init, last := ds[..|ds| - 1], ds[|ds| - 1];
      assert ds == init + [last];
      if last.offset > d.offset {
        InsertKeeps(init, d, x);
        assert (Insert(init, d) + [last])[..|Insert(init, d)|] == Insert(init, d);
      }
    }
    assert (ds + [d])[..|ds|] == ds;
  }

  lemma {:induction false} InsertOrdered(ds: seq<Delta>, d: Delta)
    requires Ordered(ds) && d.deleted > 0 && DisjointFrom(d, ds)
    ensures Ordered(Insert(ds, d))
    ensures forall j :: 0 <= j < |Insert(ds, d)| ==> Insert(ds, d)[j] == d || Insert(ds, d)[j] in ds
  {
    if ds != [] {
      var init, last := ds[..|ds| - 1], ds[|ds| - 1];
      assert Disjoint(d, last);
      if last.offset > d.offset {
        forall j | 0 <= j < |init|
          ensures Disjoint(d, init[j])
        {
          assert Disjoint(d, ds[j]);
        }
        InsertOrdered(init, d);
        var r := Insert(init, d);
        forall j | 0 <= j < |r|
          ensures r[j].End() <= last.offset && r[j].deleted > 0 && (r[j] == d || r[j] in ds)
        {
          if r[j] != d {
            var l :| 0 <= l < |init| && init[l] == r[j];
            assert ds[l].End() <= ds[|ds| - 1].offset;
          }
        }
        OrderedSnoc(r, last);
      } else {
        forall j | 0 <= j < |ds|
          ensures ds[j].End() <= d.offset
        {
          assert j < |ds| - 1 ==> ds[j].End() <= ds[|ds| - 1].offset;
        }
        OrderedSnoc(ds, d);
      }
    }
  }

  lemma {:induction false} OrderedSnoc(ds: seq<Delta>, d: Delta)
    requires Ordered(ds) && d.deleted > 0 && forall j :: 0 <= j < |ds| ==> ds[j].End() <= d.offset
    ensures Ordered(ds + [d])
  {
  }

  lemma {:induction false} OrderedInit(ds: seq<Delta>)
    requires Ordered(ds) && ds != []
    ensures Ordered(ds[..|ds| - 1]) && (|ds| > 1 ==> ds[|ds| - 2].offset <= ds[|ds| - 1].offset)
  {
  }

  /** Sorting leaves what ascends as it is. */
  lemma {:induction false} SortOrdered(ds: seq<Delta>)
    requires Ordered(ds)
    ensures SortByOffset(ds) == ds
  {
    if ds != [] {
      var init, last := ds[..|ds| - 1], ds[|ds| - 1];
      OrderedInit(ds);
      SortOrdered(init);
      assert ds == init + [last];
    }
  }

  function Merge(existing: seq<Delta>, additional: seq<Delta>): seq<Delta> {
    SortByOffset(existing + additional)
  }

  /** What a merge of `existing` and `ds` must be. */
  ghost predicate MergedOk(sec: Section, existing: seq<Delta>, ds: seq<Delta>, merged: seq<Delta>) {
    && Ordered(merged) && Owned(sec, merged)
    && multiset(merged) == multiset(existing) + multiset(ds)
  }

  lemma {:induction false} LastApart(
      sec: Section, existing: seq<Delta>, init: seq<Delta>, last: Delta, merged: seq<Delta>)
    requires PassOk(sec, existing, init + [last]) && MergedOk(sec, existing, init, merged)
    ensures last.deleted > 0 && HasOwner(sec, last) && DisjointFrom(last, merged)
  {
    var ds := init + [last];
    assert ds[|init|] == last && HasOwner(sec, ds[|init|]);
    forall j | 0 <= j < |merged|
      ensures Disjoint(last, merged[j])
    {
      assert merged[j] in multiset(merged);
      if merged[j] in existing {
        assert DisjointFrom(ds[|init|], existing);
      } else {
        assert merged[j] in init;
        var l :| 0 <= l < |init| && init[l] == merged[j];
        assert ds[l].End() <= ds[|init|].offset;
      }
    }
  }

  lemma {:induction false} InsertOwned(sec: Section, ds: seq<Delta>, d: Delta)
    requires Ordered(ds) && d.deleted > 0 && DisjointFrom(d, ds) && Owned(sec, ds) && HasOwner(sec, d)
    ensures Owned(sec, Insert(ds, d))
  {
    InsertOrdered(ds, d);
    var r := Insert(ds, d);
    forall j | 0 <= j < |r|
      ensures HasOwner(sec, r[j])
    {
      if r[j] != d {
        var l :| 0 <= l < |ds| && ds[l] == r[j];
        assert HasOwner(sec, ds[l]);
      }
    }
  }

  lemma {:induction false} PassInit(sec: Section, existing: seq<Delta>, init: seq<Delta>, last: Delta)
    requires PassOk(sec, existing, init + [last])
    ensures PassOk(sec, existing, init)
  {
    var ds := init + [last];
    assert forall j :: 0 <= j < |init| ==> ds[j] == init[j];
  }

  lemma {:induction false} MergeStep(
      sec: Section, existing: seq<Delta>, init: seq<Delta>, last: Delta, merged: seq<Delta>)
    requires PassOk(sec, existing, init + [last]) && MergedOk(sec, existing, init, merged)
    ensures MergedOk(sec, existing, init + [last], Insert(merged, last))
  {
    LastApart(sec, existing, init, last, merged);
    InsertOrdered(merged, last);
    InsertOwned(sec, merged, last);
    InsertKeeps(merged, last, 0);
  }

  /** The union of two disjoint ordered lists is ordered. */
  lemma {:induction false} MergeOk(sec: Section, existing: seq<Delta>, ds: seq<Delta>)
    requires Ordered(existing) && Owned(sec, existing) && PassOk(sec, existing, ds)
    ensures MergedOk(sec, existing, ds, Merge(existing, ds))
  {
    if ds == [] {
      assert existing + ds == existing;
      SortOrdered(existing);
    } else {
      var init, last := ds[..|ds| - 1], ds[|ds| - 1];
      assert ds == init + [last];
      PassInit(sec, existing, init, last);
      MergeOk(sec, existing, init);
      MergeStep(sec, existing, init, last, Merge(existing, init));
      MergeSnoc(existing, init, last);
    }
  }

  lemma {:induction false} SortSums(ds: seq<Delta>, x: nat)
    ensures Before(SortByOffset(ds), x) == Before(ds, x) && Total(SortByOffset(ds)) == Total(ds)
  {
    if ds != [] {
      SortSums(ds[..|ds| - 1], x);
      InsertKeeps(SortByOffset(ds[..|ds| - 1]), ds[|ds| - 1], x);
    }
  }

  /** A merge deletes what either list deletes, before every offset. */
  lemma {:induction false} MergeSums(existing: seq<Delta>, ds: seq<Delta>, x: nat)
    ensures Before(Merge(existing, ds), x) == Before(existing, x) + Before(ds, x)
    ensures Total(Merge(existing, ds)) == Total(existing) + Total(ds)
  {
    SortSums(existing + ds, x);
    ConcatSums(existing, ds, x);
  }

  lemma {:induction false} ConcatSums(a: seq<Delta>, b: seq<Delta>, x: nat)
    ensures Before(a + b, x) == Before(a, x) + Before(b, x)
    ensures Total(a + b) == Total(a) + Total(b)
  {
    if b == [] {
      assert a + b == a;
    } else {
      ConcatSums(a, b[..|b| - 1], x);
      assert (a + b)[..|a + b| - 1] == a + b[..|b| - 1];
    }
  }

  lemma {:induction false} MergeSnoc(existing: seq<Delta>, init: seq<Delta>, last: Delta)
    ensures Merge(existing, init + [last]) == Insert(Merge(existing, init), last)
  {
    var all := existing + (init + [last]);
    assert all[..|all| - 1] == existing + init;
  }

  // ----- The scan -----

  /** The call a marker at `i` may relax, as the scan remembers it. */
  function CallBefore(rels: seq<Rel>, i: nat): Option<Rel>
    requires i <= |rels|
  {
    if i > 0 && rels[i - 1].kind.Call? && rels[i - 1].symbol.Some? then Some(rels[i - 1]) else None
  }

  function LuiBefore(rels: seq<Rel>, i: nat): Option<Rel>
    requires i <= |rels|
  {
    if i > 0 && rels[i - 1].kind.Hi20? && rels[i - 1].symbol.Some? then Some(rels[i - 1]) else None
  }

  /** Everything deleted up to a padding, in this pass or before, fits in front of it. */
  lemma {:induction false} NoUnderflow(sec: Section, pass: Pass, existing: seq<Delta>, i: nat)
    requires WellFormed(sec) && Ordered(existing) && Owned(sec, existing)
    requires i < |sec.rels| && sec.rels[i].kind.Align? && sec.rels[i].addend > 0
    ensures
      var o := sec.rels[i].offset;
      Before(existing, o) + Total(Collected(sec, pass, existing, i)) <= o
  {
    var o, ds := sec.rels[i].offset, Collected(sec, pass, existing, i);
    CollectedOk(sec, pass, existing, i);
    MergeOk(sec, existing, ds);
    MergeSums(existing, ds, o);
    BeforePadding(sec, ds, i);
    BeforeFits(sec, Merge(existing, ds), i);
  }

  /** All of a pass's decisions so far lie before the padding under consideration. */
  lemma {:induction false} BeforePadding(sec: Section, ds: seq<Delta>, i: nat)
    requires WellFormed(sec) && OwnedBefore(sec, ds, i)
    requires i < |sec.rels| && sec.rels[i].kind.Align? && sec.rels[i].addend > 0
    ensures forall j :: 0 <= j < |ds| ==> ds[j].End() <= sec.rels[i].offset
    ensures Before(ds, sec.rels[i].offset) == Total(ds)
  {
    forall j | 0 <= j < |ds|
      ensures ds[j].End() <= sec.rels[i].offset && ds[j].deleted > 0
    {
      assert OwnedByThen(sec, ds[j], i);
      var k :| OwnedAt(sec, k, ds[j]) && Done(sec, k, i);
      assert Apart(sec.rels[k], sec.rels[i]);
    }
    BeforeIsTotal(ds, sec.rels[i].offset, |ds|);
    assert ds[..|ds|] == ds;
  }

  lemma {:induction false} BeforeFits(sec: Section, ds: seq<Delta>, i: nat)
    requires WellFormed(sec) && Ordered(ds) && Owned(sec, ds)
    requires i < |sec.rels| && sec.rels[i].kind.Align? && sec.rels[i].addend > 0
    ensures Before(ds, sec.rels[i].offset) <= sec.rels[i].offset
  {
    var o := sec.rels[i].offset;
    var k := Rank(ds, o);
    BeforeIsTotal(ds, o, k);
    if k > 0 {
      var d := ds[k - 1];
      assert HasOwner(sec, d);
      var l :| OwnedAt(sec, l, d);
      assert l > i ==> Apart(sec.rels[i], sec.rels[l]);
      assert l < i ==> Apart(sec.rels[l], sec.rels[i]);
    }
    TotalFits(ds, k, o);
  }

  lemma {:induction false} LookupsAgree(rs: seq<RelaxDelta>, ds: seq<Delta>, x: nat)
    requires Accumulated(rs, ds)
    ensures HasEntryAt(rs, x) <==> HasDeltaAt(ds, x)
  {
    if HasDeltaAt(ds, x) {
      var i :| 0 <= i < |ds| && ds[i].offset == x;
      assert AccumulatedAt(rs, ds, i);
    }
    if HasEntryAt(rs, x) {
      var i :| 0 <= i < |rs| && rs[i].inputOffset == x;
      assert AccumulatedAt(rs, ds, i);
    }
  }

  predicate HasEntryAt(rs: seq<RelaxDelta>, x: nat) {
    exists i :: 0 <= i < |rs| && rs[i].inputOffset == x
  }

  method ScanAlign(sec: Section, pass: Pass, existing: seq<RelaxDelta>, ghost ds: seq<Delta>, i: nat, deleted: nat)
    returns (d: Option<Delta>)
    requires WellFormed(sec) && Ordered(ds) && Owned(sec, ds) && Accumulated(existing, ds)
    requires i < |sec.rels| && sec.rels[i].kind.Align? && deleted == Total(Collected(sec, pass, ds, i))
    ensures d == AlignDelta(pass, ds, sec.rels[i], deleted)
  {
    var rel := sec.rels[i];
    assert Owns(rel) == rel.addend;
    SmallWraps(rel.addend);
    var padding := Wrap64(rel.addend);
    LookupsAgree(existing, ds, rel.offset);
    if padding == 0 || HasEntryAt(existing, rel.offset) {
      return None;
    }
    InputToOutputIs(existing, ds, rel.offset);
    NoUnderflow(sec, pass, ds, i);
    var outputOffset: nat := InputToOutputOffset(existing, rel.offset) - deleted;
    var p := pass.address + outputOffset;
    d := Trimmed(rel.offset, p, padding);
  }

  method ScanRelax(
      sec: Section, pass: Pass, existing: seq<RelaxDelta>, ghost ds: seq<Delta>, i: nat,
      prevCall: Option<Rel>, prevLui: Option<Rel>) returns (d: Option<Delta>, margin: Option<nat>)
    requires Accumulated(existing, ds) && i < |sec.rels| && sec.rels[i].kind.Relax?
    requires prevCall == CallBefore(sec.rels, i) && prevLui == LuiBefore(sec.rels, i)
    ensures d == Decide(sec, pass, ds, i) && margin == MarginAt(sec, pass, ds, i)
  {
    var rel := sec.rels[i];
    LookupsAgree(existing, ds, rel.offset);
    LookupsAgree(existing, ds, rel.offset + 2);
    LookupsAgree(existing, ds, rel.offset + 4);
    if prevCall.Some? && prevCall.value.offset == rel.offset && !HasEntryAt(existing, prevCall.value.offset + 4) {
      d, margin := ScanCall(pass, prevCall.value);
      return;
    }
    if prevLui.Some? && prevLui.value.offset == rel.offset
       && !(HasEntryAt(existing, prevLui.value.offset) || HasEntryAt(existing, prevLui.value.offset + 2)) {
      d, margin := ScanLui(sec.bytes, pass, prevLui.value);
      return;
    }
    return None, None;
  }

  method ScanCall(pass: Pass, call: Rel) returns (d: Option<Delta>, margin: Option<nat>)
    ensures forall ds :: !HasDeltaAt(ds, call.offset + 4) ==>
      d == CallDelta(pass, ds, call) && margin == MarginOfCall(pass, ds, call)
  {
    d, margin := None, None;
    var info := Resolve(pass, call.symbol);
    if info.Some? {
      var distance := info.value - (pass.address + call.offset);
      if FitsJal(distance) {
        d := Some(Delta(call.offset + 4, 4));
      } else {
        margin := Some(CallMargin(distance));
      }
    }
  }

  method ScanLui(bytes: seq<byte>, pass: Pass, lui: Rel) returns (d: Option<Delta>, margin: Option<nat>)
    ensures forall ds :: !HasDeltaAt(ds, lui.offset) && !HasDeltaAt(ds, lui.offset + 2) ==>
      d == LuiDelta(bytes, pass, ds, lui) && margin == MarginOfLui(bytes, pass, ds, lui)
  {
    d, margin := None, None;
    var info := Resolve(pass, lui.symbol);
    if info.Some? && lui.offset + 4 <= |bytes| {
      var value := Wrap64(info.value + lui.addend);
      if Hi20IsZero(value) {
        d := Some(Delta(lui.offset, 4));
      } else {
        var rd := Destination(bytes, lui.offset);
        if rd != 0 && rd != 2 {
          if Hi20FitsCLui(value) {
            d := Some(Delta(lui.offset + 2, 2));
          } else {
            margin := Some(LuiMargin(value));
          }
        }
      }
    }
  }

  lemma {:induction false} CollectNext(
      sec: Section, pass: Pass, ds: seq<Delta>, i: nat, raw: seq<Delta>, found: Option<Delta>)
    requires i < |sec.rels| && raw == Collected(sec, pass, ds, i) && found == Decide(sec, pass, ds, i)
    ensures Collected(sec, pass, ds, i + 1) == if found.Some? then raw + [found.value] else raw
    ensures found.Some? ==> Total(raw + [found.value]) == Total(raw) + found.value.deleted
  {
    if found.Some? {
      assert (raw + [found.value])[..|raw|] == raw;
    }
  }

  method ScanOne(
      sec: Section, pass: Pass, existing: seq<RelaxDelta>, ghost ds: seq<Delta>, i: nat, deleted: nat,
      prevCall: Option<Rel>, prevLui: Option<Rel>)
    returns (found: Option<Delta>, margin: Option<nat>, call: Option<Rel>, lui: Option<Rel>)
    requires WellFormed(sec) && Ordered(ds) && Owned(sec, ds) && Accumulated(existing, ds)
    requires i < |sec.rels| && deleted == Total(Collected(sec, pass, ds, i))
    requires prevCall == CallBefore(sec.rels, i) && prevLui == LuiBefore(sec.rels, i)
    ensures found == Decide(sec, pass, ds, i) && margin == MarginAt(sec, pass, ds, i)
    ensures call == CallBefore(sec.rels, i + 1) && lui == LuiBefore(sec.rels, i + 1)
  {
    var rel := sec.rels[i];
    found, margin, call, lui := None, None, None, None;
    match rel.kind {
      case Align =>
        found := ScanAlign(sec, pass, existing, ds, i, deleted);
      case Call =>
        call := if rel.symbol.Some? then Some(rel) else None;
      case Hi20 =>
        lui := if rel.symbol.Some? then Some(rel) else None;
      case Relax =>
        found, margin := ScanRelax(sec, pass, existing, ds, i, prevCall, prevLui);
      case Other =>
    }
  }

  method ScanStep(
      sec: Section, pass: Pass, existing: seq<RelaxDelta>, ghost ds: seq<Delta>, i: nat,
      raw: seq<Delta>, deleted: nat, least: Option<nat>, prevCall: Option<Rel>, prevLui: Option<Rel>)
    returns (raw': seq<Delta>, deleted': nat, least': Option<nat>, call: Option<Rel>, lui: Option<Rel>)
    requires WellFormed(sec) && Ordered(ds) && Owned(sec, ds) && Accumulated(existing, ds)
    requires i < |sec.rels| && raw == Collected(sec, pass, ds, i) && deleted == Total(raw)
    requires IsLeastMargin(sec, pass, ds, i, least)
    requires prevCall == CallBefore(sec.rels, i) && prevLui == LuiBefore(sec.rels, i)
    ensures raw' == Collected(sec, pass, ds, i + 1) && deleted' == Total(raw')
    ensures IsLeastMargin(sec, pass, ds, i + 1, least')
    ensures call == CallBefore(sec.rels, i + 1) && lui == LuiBefore(sec.rels, i + 1)
  {
    var found, margin;
    found, margin, call, lui := ScanOne(sec, pass, existing, ds, i, deleted, prevCall, prevLui);
    CollectNext(sec, pass, ds, i, raw, found);
    LeastMarginNext(sec, pass, ds, i, least);
    least' := Least(least, margin);
    raw', deleted' := raw, deleted;
    if found.Some? {
      raw' := raw + [found.value];
      deleted' := deleted + found.value.deleted;
    }
  }

  method ScanAll(sec: Section, pass: Pass, existing: seq<RelaxDelta>, ghost ds: seq<Delta>)
    returns (raw: seq<Delta>, least: Option<nat>)
    requires WellFormed(sec) && Ordered(ds) && Owned(sec, ds) && Accumulated(existing, ds)
    ensures raw == Collected(sec, pass, ds, |sec.rels|) && IsLeastMargin(sec, pass, ds, |sec.rels|, least)
  {
    raw, least := [], None;
    var prevCall: Option<Rel>, prevLui: Option<Rel> := None, None;
    var deleted: nat := 0;
    for i := 0 to |sec.rels|
      invariant raw == Collected(sec, pass, ds, i) && deleted == Total(raw)
      invariant IsLeastMargin(sec, pass, ds, i, least)
      invariant prevCall == CallBefore(sec.rels, i) && prevLui == LuiBefore(sec.rels, i)
    {
      raw, deleted, least, prevCall, prevLui :=
        ScanStep(sec, pass, existing, ds, i, raw, deleted, least, prevCall, prevLui);
    }
  }

  /**
    * One scan. Its deletions ascend, lie inside the section, and touch neither each other nor
    * anything deleted by an earlier pass; the margin is the least of the candidates left alone.
    */
  method CollectRelaxationDeltas(sec: Section, pass: Pass, existing: seq<RelaxDelta>, ghost ds: seq<Delta>)
    returns (raw: seq<Delta>, least: Option<nat>)
    requires WellFormed(sec) && Ordered(ds) && Owned(sec, ds) && Accumulated(existing, ds)
    ensures raw == Collected(sec, pass, ds, |sec.rels|) && IsLeastMargin(sec, pass, ds, |sec.rels|, least)
    ensures PassOk(sec, ds, raw) && Within(raw, |sec.bytes|)
  {
    raw, least := ScanAll(sec, pass, existing, ds);
    CollectedOk(sec, pass, ds, |sec.rels|);
    OwnedWithin(sec, raw);
  }

  // ----- Any number of passes -----

  function AfterPasses(sec: Section, passes: seq<Pass>): seq<Delta> {
    if passes == [] then []
    else
      var existing := AfterPasses(sec, passes[..|passes| - 1]);
      Merge(existing, Collected(sec, passes[|passes| - 1], existing, |sec.rels|))
  }

  /** Whatever addresses the passes see, everything they ever delete stays disjoint and in bounds. */
  lemma {:induction false} PassesStayDisjoint(sec: Section, passes: seq<Pass>)
    requires WellFormed(sec)
    ensures Ordered(AfterPasses(sec, passes)) && Owned(sec, AfterPasses(sec, passes))
    ensures Within(AfterPasses(sec, passes), |sec.bytes|) && Total(AfterPasses(sec, passes)) <= |sec.bytes|
  {
    if passes != [] {
      var existing := AfterPasses(sec, passes[..|passes| - 1]);
      var pass := passes[|passes| - 1];
      PassesStayDisjoint(sec, passes[..|passes| - 1]);
      CollectedOk(sec, pass, existing, |sec.rels|);
      MergeOk(sec, existing, Collected(sec, pass, existing, |sec.rels|));
    }
    OwnedFits(sec, AfterPasses(sec, passes));
  }

  lemma {:induction false} OwnedFits(sec: Section, ds: seq<Delta>)
    requires WellFormed(sec) && Ordered(ds) && Owned(sec, ds)
    ensures Within(ds, |sec.bytes|) && Total(ds) <= |sec.bytes|
  {
    OwnedWithin(sec, ds);
    assert ds[..|ds|] == ds;
    TotalFits(ds, |ds|, |sec.bytes|);
  }

  /** Scans, takes the deleted bytes off the section's size and merges the deltas. */
  method RelaxOnce(sec: Section, pass: Pass, existing: seq<RelaxDelta>, ds: seq<Delta>, size: nat)
    returns (merged: seq<Delta>, total: seq<RelaxDelta>, left: nat)
    requires WellFormed(sec) && Ordered(ds) && Owned(sec, ds) && Accumulated(existing, ds)
    requires size == |sec.bytes| - Total(ds)
    ensures merged == Merge(ds, Collected(sec, pass, ds, |sec.rels|)) && Accumulated(total, merged)
    ensures left == |sec.bytes| - Total(merged)
  {
    var raw, margin := CollectRelaxationDeltas(sec, pass, existing, ds);
    MergedFits(sec, ds, raw);
    var freed := Deleted(raw);
    left := size - freed;
    merged := Merge(ds, raw);
    total := Accumulate(merged);
  }

  lemma {:induction false} MergedFits(sec: Section, existing: seq<Delta>, ds: seq<Delta>)
    requires WellFormed(sec) && Ordered(existing) && Owned(sec, existing) && PassOk(sec, existing, ds)
    ensures Total(Merge(existing, ds)) == Total(existing) + Total(ds) <= |sec.bytes|
  {
    MergeOk(sec, existing, ds);
    MergeSums(existing, ds, 0);
    OwnedFits(sec, Merge(existing, ds));
  }

  /**
    * Scans and merges once for each pass, shrinking the section as it goes, and writes the result:
    * the surviving bytes in order, filling the reduced size exactly.
    */
  method RelaxSection(sec: Section, passes: seq<Pass>) returns (out: array<byte>, deltas: seq<Delta>)
    requires WellFormed(sec)
    ensures deltas == AfterPasses(sec, passes) && Ordered(deltas) && Within(deltas, |sec.bytes|)
    ensures out[..] == Surviving(sec.bytes, deltas, |sec.bytes|)
  {
    var existing: seq<RelaxDelta>, ds: seq<Delta> := [], [];
    var size: nat := |sec.bytes|;
    for k := 0 to |passes|
      invariant ds == AfterPasses(sec, passes[..k]) && Accumulated(existing, ds)
      invariant size == |sec.bytes| - Total(ds)
    {
      assert passes[..k + 1][..k] == passes[..k];
      PassesStayDisjoint(sec, passes[..k]);
      ds, existing, size := RelaxOnce(sec, passes[k], existing, ds, size);
    }
    assert passes[..|passes|] == passes;
    PassesStayDisjoint(sec, passes);
    deltas := ds;
    out := WriteRelaxed(sec.bytes, ds, size);
  }

  method WriteRelaxed(input: seq<byte>, ds: seq<Delta>, size: nat) returns (out: array<byte>)
    requires Ordered(ds) && Within(ds, |input|) && size == |input| - Total(ds)
    ensures out[..] == Surviving(input, ds, |input|)
  {
    out := new byte[size];
    CompactSection(input, ds, out);
    assert out[..] == out[..size];
  }

  method Deleted(raw: seq<Delta>) returns (n: nat)
    ensures n == Total(raw)
  {
    n := 0;
    for i := 0 to |raw|
      invariant n == Total(raw[..i])
    {
      assert raw[..i + 1][..i] == raw[..i];
      n := n + raw[i].deleted;
    }
    assert raw[..|raw|] == raw;
  }

  // ----- Paddings -----

  lemma {:induction false} BeforeSnoc(ds: seq<Delta>, d: Option<Delta>, x: nat)
    ensures Before(ds + Listed(d), x) ==
      Before(ds, x) + if d.Some? && d.value.offset < x then d.value.deleted else 0
    ensures Total(ds + Listed(d)) == Total(ds) + if d.Some? then d.value.deleted else 0
  {
    if d.Some? {
      assert (ds + [d.value])[..|ds|] == ds;
    } else {
      assert ds + Listed(d) == ds;
    }
  }

  lemma {:induction false} PaddingDecision(
      sec: Section, existing: seq<Delta>, i: nat, before: seq<Delta>, found: Option<Delta>)
    requires WellFormed(sec) && i < |sec.rels| && sec.rels[i].kind.Align? && sec.rels[i].addend > 0
    requires OwnedBefore(sec, before, i) && (found.Some? ==> GoodDecision(sec, existing, i, found.value))
    ensures
      var o, padding, ds := sec.rels[i].offset, sec.rels[i].addend, before + Listed(found);
      Before(ds, o) == Total(before) && Before(ds, o + padding) == Total(ds)
  {
    var o, padding := sec.rels[i].offset, sec.rels[i].addend;
    BeforeSnoc(before, found, o);
    BeforeSnoc(before, found, o + padding);
    BeforePadding(sec, before, i);
    assert forall j :: 0 <= j < |before| ==> before[j].offset <= before[j].End() < o + padding;
    BeforeIsTotal(before, o + padding, |before|);
    assert before[..|before|] == before;
  }

  /** Whatever is decided at `j` starts from `x` on. */
  ghost predicate DecidedFrom(sec: Section, pass: Pass, existing: seq<Delta>, j: int, x: nat)
    requires 0 <= j < |sec.rels|
  {
    var found := Decide(sec, pass, existing, j);
    found.Some? ==> found.value.offset >= x
  }

  /** What follows a padding adds nothing before its end. */
  lemma {:induction false} DeletedLater(
      sec: Section, pass: Pass, existing: seq<Delta>, i: nat, m: nat, a: seq<Delta>, b: seq<Delta>, x: nat, y: nat)
    requires i <= m <= |sec.rels| && y <= x
    requires a == Collected(sec, pass, existing, i) && b == Collected(sec, pass, existing, m)
    requires forall j {:trigger DecidedFrom(sec, pass, existing, j, x)} :: i <= j < m ==>
      DecidedFrom(sec, pass, existing, j, x)
    ensures Before(b, y) == Before(a, y)
  {
    if m > i {
      var c, found := Collected(sec, pass, existing, m - 1), Decide(sec, pass, existing, m - 1);
      DeletedLater(sec, pass, existing, i, m - 1, a, c, x, y);
      assert DecidedFrom(sec, pass, existing, m - 1, x);
      BeforeSnoc(c, found, y);
    }
  }

  lemma {:induction false} DecidedAfterPadding(sec: Section, pass: Pass, existing: seq<Delta>, i: nat, j: nat)
    requires WellFormed(sec) && Owned(sec, existing) && i < j < |sec.rels|
    requires sec.rels[i].kind.Align? && sec.rels[i].addend > 0
    ensures DecidedFrom(sec, pass, existing, j, sec.rels[i].offset + sec.rels[i].addend)
  {
    DecisionGood(sec, pass, existing, j);
    var found := Decide(sec, pass, existing, j);
    if found.Some? {
      LaterDecision(sec, i, OwnerOf(sec, j), found.value);
    }
  }

  lemma {:induction false} PaddingTail(
      sec: Section, pass: Pass, existing: seq<Delta>, i: nat, next: seq<Delta>, ds: seq<Delta>, y: nat)
    requires WellFormed(sec) && Owned(sec, existing) && i < |sec.rels|
    requires sec.rels[i].kind.Align? && sec.rels[i].addend > 0 && y <= sec.rels[i].offset + sec.rels[i].addend
    requires next == Collected(sec, pass, existing, i + 1) && ds == Collected(sec, pass, existing, |sec.rels|)
    ensures Before(ds, y) == Before(next, y)
  {
    var x, from := sec.rels[i].offset + sec.rels[i].addend, i + 1;
    forall j | from <= j < |sec.rels|
      ensures DecidedFrom(sec, pass, existing, j, x)
    {
      DecidedAfterPadding(sec, pass, existing, i, j);
    }
    DeletedLater(sec, pass, existing, from, |sec.rels|, next, ds, x, y);
  }

  lemma {:induction false} PaddingHead(
      sec: Section, pass: Pass, existing: seq<Delta>, i: nat, here: seq<Delta>, next: seq<Delta>)
    requires WellFormed(sec) && Owned(sec, existing) && i < |sec.rels|
    requires sec.rels[i].kind.Align? && sec.rels[i].addend > 0
    requires here == Collected(sec, pass, existing, i) && next == Collected(sec, pass, existing, i + 1)
    ensures
      var o, padding := sec.rels[i].offset, sec.rels[i].addend;
      Before(next, o) == Total(here) && Before(next, o + padding) == Total(next)
  {
    DecisionGood(sec, pass, existing, i);
    CollectedOk(sec, pass, existing, i);
    PaddingDecision(sec, existing, i, here, Decide(sec, pass, existing, i));
  }

  lemma {:induction false} LaterDecision(sec: Section, i: nat, k: int, d: Delta)
    requires WellFormed(sec) && i < k && OwnedAt(sec, k, d)
    ensures sec.rels[i].offset + Owns(sec.rels[i]) <= d.offset
  {
    assert Apart(sec.rels[i], sec.rels[k]);
  }

  /** Where the byte after a padding lands, once what goes past the boundary is gone. */
  ghost predicate EndsAt(start: int, padding: nat, alignment: nat, end: int)
    requires alignment > 0
  {
    var boundary := NextMultiple(start, alignment);
    end == if start + padding >= boundary then boundary else start + padding
  }

  /** So it is aligned exactly when the padding reaches the boundary, and then at the first chance. */
  lemma {:induction false} EndAligned(start: int, padding: nat, alignment: nat, end: int)
    requires alignment > 0 && EndsAt(start, padding, alignment, end)
    ensures end % alignment == 0 <==> start + padding >= NextMultiple(start, alignment)
    ensures forall m {:trigger m % alignment} :: m % alignment == 0 && start <= m ==> end <= m
  {
    NextMultipleIsLeast(start, alignment);
  }

  lemma {:induction false} SurplusEnds(start: int, padding: nat, alignment: nat, end: int)
    requires alignment == NextPow2(padding) && alignment > 0 && end == start + padding - Surplus(start, padding)
    ensures EndsAt(start, padding, alignment, end)
  {
    NextMultipleIsLeast(start, alignment);
  }

  /** How many bytes `found` deletes. */
  function Removes(found: Option<Delta>): nat {
    if found.Some? then found.value.deleted else 0
  }

  lemma {:induction false} TrimmedRemoves(offset: nat, p: int, padding: nat)
    requires padding < 0x1_0000_0000
    ensures Removes(Trimmed(offset, p, padding)) == Surplus(p, padding)
  {
    SurplusIs(p, padding);
  }

  /** `rel` is the padding at `i`. */
  ghost predicate PaddingAt(sec: Section, i: nat, rel: Rel) {
    i < |sec.rels| && rel == sec.rels[i] && rel.kind.Align? && rel.addend > 0
  }

  /** A padding that was left alone so far loses its surplus. */
  lemma {:induction false} PaddingLoses(
      sec: Section, pass: Pass, existing: seq<Delta>, i: nat, rel: Rel, here: seq<Delta>, next: seq<Delta>, start: int)
    requires WellFormed(sec) && PaddingAt(sec, i, rel) && !HasDeltaAt(existing, rel.offset)
    requires here == Collected(sec, pass, existing, i) && next == Collected(sec, pass, existing, i + 1)
    requires start == pass.address + (rel.offset - Before(existing, rel.offset) - Total(here))
    ensures Total(next) == Total(here) + Surplus(start, rel.addend)
  {
    assert Owns(rel) == rel.addend;
    SmallWraps(rel.addend);
    TrimmedRemoves(rel.offset, start, rel.addend);
    assert DecidePadding(sec, pass, existing, i) == AlignDelta(pass, existing, rel, Total(here));
    BeforeSnoc(here, Decide(sec, pass, existing, i), 0);
  }

  /** One that was shortened before is left alone. */
  lemma {:induction false} PaddingRests(
      sec: Section, pass: Pass, existing: seq<Delta>, i: nat, rel: Rel, here: seq<Delta>)
    requires PaddingAt(sec, i, rel) && HasDeltaAt(existing, rel.offset) && here == Collected(sec, pass, existing, i)
    ensures Total(Collected(sec, pass, existing, i + 1)) == Total(here)
  {
    assert DecidePadding(sec, pass, existing, i) == None;
    BeforeSnoc(here, Decide(sec, pass, existing, i), 0);
  }

  /** Bytes that one pass deletes before a padding. */
  lemma {:induction false} DeletedBefore(
      sec: Section, pass: Pass, existing: seq<Delta>, i: nat, rel: Rel, here: seq<Delta>, next: seq<Delta>,
      ds: seq<Delta>)
    requires WellFormed(sec) && Owned(sec, existing) && PaddingAt(sec, i, rel)
    requires here == Collected(sec, pass, existing, i) && next == Collected(sec, pass, existing, i + 1)
    requires ds == Collected(sec, pass, existing, |sec.rels|)
    ensures Before(ds, rel.offset) == Total(here)
  {
    PaddingHead(sec, pass, existing, i, here, next);
    PaddingTail(sec, pass, existing, i, next, ds, rel.offset);
  }

  /** Bytes that it deletes before the padding's end. */
  lemma {:induction false} DeletedThrough(
      sec: Section, pass: Pass, existing: seq<Delta>, i: nat, rel: Rel, here: seq<Delta>, next: seq<Delta>,
      ds: seq<Delta>)
    requires WellFormed(sec) && Owned(sec, existing) && PaddingAt(sec, i, rel)
    requires here == Collected(sec, pass, existing, i) && next == Collected(sec, pass, existing, i + 1)
    requires ds == Collected(sec, pass, existing, |sec.rels|)
    ensures Before(ds, rel.offset + rel.addend) == Total(next)
  {
    var end: nat := rel.offset + rel.addend;
    PaddingHead(sec, pass, existing, i, here, next);
    assert Before(next, end) == Total(next);
    PaddingTail(sec, pass, existing, i, next, ds, end);
  }

  /** Whatever was deleted within a padding was deleted at its start. */
  lemma {:induction false} OnlyAtStart(sec: Section, existing: seq<Delta>, i: nat, n: nat)
    requires WellFormed(sec) && Owned(sec, existing) && i < |sec.rels| && n <= |existing|
    requires sec.rels[i].kind.Align? && sec.rels[i].addend > 0 && !HasDeltaAt(existing, sec.rels[i].offset)
    ensures Before(existing[..n], sec.rels[i].offset + sec.rels[i].addend) == Before(existing[..n], sec.rels[i].offset)
  {
    if n > 0 {
      OnlyAtStart(sec, existing, i, n - 1);
      assert existing[..n][..n - 1] == existing[..n - 1];
      assert HasOwner(sec, existing[n - 1]) && existing[n - 1].offset != sec.rels[i].offset;
      OwnOrElsewhere(sec, i, existing[n - 1]);
    }
  }

  lemma {:induction false} OwnOrElsewhere(sec: Section, i: nat, d: Delta)
    requires WellFormed(sec) && i < |sec.rels| && sec.rels[i].kind.Align? && HasOwner(sec, d)
    ensures d.offset <= sec.rels[i].offset || sec.rels[i].offset + sec.rels[i].addend <= d.offset
  {
    var k :| OwnedAt(sec, k, d);
    assert Owns(sec.rels[i]) == sec.rels[i].addend;
    if k < i {
      assert Apart(sec.rels[k], sec.rels[i]);
      assert Owns(sec.rels[k]) > 0;
    } else if k > i {
      assert Apart(sec.rels[i], sec.rels[k]);
    }
  }

  lemma {:induction false} NothingInside(sec: Section, existing: seq<Delta>, i: nat, rel: Rel)
    requires WellFormed(sec) && Owned(sec, existing) && PaddingAt(sec, i, rel) && !HasDeltaAt(existing, rel.offset)
    ensures Before(existing, rel.offset + rel.addend) == Before(existing, rel.offset)
  {
    OnlyAtStart(sec, existing, i, |existing|);
    assert existing[..|existing|] == existing;
  }

  /** Before every offset, `merged` deletes as much as `existing` and `ds` together. */
  ghost predicate SumsTo(existing: seq<Delta>, ds: seq<Delta>, merged: seq<Delta>) {
    forall x: nat {:trigger Before(merged, x)} :: Before(merged, x) == Before(existing, x) + Before(ds, x)
  }

  lemma {:induction false} MergeSumsTo(existing: seq<Delta>, ds: seq<Delta>)
    ensures SumsTo(existing, ds, Merge(existing, ds))
  {
    forall x: nat
      ensures Before(Merge(existing, ds), x) == Before(existing, x) + Before(ds, x)
    {
      MergeSums(existing, ds, x);
    }
  }

  /** Where input offset `x` lies once `ds` are deleted from a section at `address`. */
  function AddressOf(address: nat, ds: seq<Delta>, x: nat): int {
    address + (x - Before(ds, x))
  }

  lemma {:induction false} PaddingEnds(
      sec: Section, pass: Pass, existing: seq<Delta>, i: nat, rel: Rel, here: seq<Delta>, next: seq<Delta>,
      alignment: nat, start: int, end: int)
    requires WellFormed(sec) && PaddingAt(sec, i, rel) && !HasDeltaAt(existing, rel.offset)
    requires here == Collected(sec, pass, existing, i) && next == Collected(sec, pass, existing, i + 1)
    requires alignment == NextPow2(rel.addend) && alignment > 0
    requires start == pass.address + (rel.offset - Before(existing, rel.offset) - Total(here))
    requires end == start + rel.addend - (Total(next) - Total(here))
    ensures EndsAt(start, rel.addend, alignment, end)
  {
    PaddingLoses(sec, pass, existing, i, rel, here, next, start);
    SurplusEnds(start, rel.addend, alignment, end);
  }

  /**
    * In every pass, the byte after a padding that no earlier pass has shortened lands on the least
    * multiple of the computed alignment at or above the padding's own place exactly when the padding
    * reaches that far, all deletions of this and earlier passes counted.
    */
  lemma {:induction false} PassAligns(
      sec: Section, pass: Pass, existing: seq<Delta>, i: nat, rel: Rel, ds: seq<Delta>, merged: seq<Delta>,
      alignment: nat, start: int, end: int)
    requires WellFormed(sec) && Owned(sec, existing) && PaddingAt(sec, i, rel) && !HasDeltaAt(existing, rel.offset)
    requires ds == Collected(sec, pass, existing, |sec.rels|) && SumsTo(existing, ds, merged)
    requires alignment == NextPow2(rel.addend) && alignment > 0
    requires start == AddressOf(pass.address, merged, rel.offset)
    requires end == AddressOf(pass.address, merged, rel.offset + rel.addend)
    ensures EndsAt(start, rel.addend, alignment, end)
  {
    var here, next := Collected(sec, pass, existing, i), Collected(sec, pass, existing, i + 1);
    DeletedBefore(sec, pass, existing, i, rel, here, next, ds);
    DeletedThrough(sec, pass, existing, i, rel, here, next, ds);
    NothingInside(sec, existing, i, rel);
    PaddingEnds(sec, pass, existing, i, rel, here, next, alignment, start, end);
  }

  /**
    * A padding that an earlier pass has shortened is left alone, so what follows it moves with it: by
    * as much as the section moves and the bytes deleted before the padding since.
    */
  lemma {:induction false} ShortenedPaddingMoves(
      sec: Section, pass: Pass, existing: seq<Delta>, i: nat, rel: Rel, ds: seq<Delta>, merged: seq<Delta>, was: nat)
    requires WellFormed(sec) && Owned(sec, existing) && PaddingAt(sec, i, rel) && HasDeltaAt(existing, rel.offset)
    requires ds == Collected(sec, pass, existing, |sec.rels|) && SumsTo(existing, ds, merged)
    ensures AddressOf(pass.address, merged, rel.offset + rel.addend) ==
      AddressOf(was, existing, rel.offset + rel.addend) + (pass.address - was) - Before(ds, rel.offset)
  {
    var here, next := Collected(sec, pass, existing, i), Collected(sec, pass, existing, i + 1);
    PaddingRests(sec, pass, existing, i, rel, here);
    DeletedBefore(sec, pass, existing, i, rel, here, next, ds);
    DeletedThrough(sec, pass, existing, i, rel, here, next, ds);
  }

  /** So an aligned end stays aligned exactly if that distance is a multiple of the alignment. */
  lemma {:induction false} StaysAlignedIff(
      sec: Section, pass: Pass, existing: seq<Delta>, i: nat, rel: Rel, ds: seq<Delta>, merged: seq<Delta>, was: nat,
      alignment: nat)
    requires WellFormed(sec) && Owned(sec, existing) && PaddingAt(sec, i, rel) && HasDeltaAt(existing, rel.offset)
    requires ds == Collected(sec, pass, existing, |sec.rels|) && SumsTo(existing, ds, merged) && alignment > 0
    requires AddressOf(was, existing, rel.offset + rel.addend) % alignment == 0
    ensures AddressOf(pass.address, merged, rel.offset + rel.addend) % alignment == 0 <==>
            (was - pass.address + Before(ds, rel.offset)) % alignment == 0
  {
    ShortenedPaddingMoves(sec, pass, existing, i, rel, ds, merged, was);
    var before := AddressOf(was, existing, rel.offset + rel.addend);
    MultiplesApart(before, was - pass.address + Before(ds, rel.offset), alignment);
  }

  /** A call of eight bytes, then a padding of six. */
  predicate CallThenPadding(sec: Section) {
    |sec.bytes| == 20 && sec.rels == [Rel(Call, 0, Some(7), 0), Rel(Relax, 0, None, 0), Rel(Align, 8, None, 6)]
  }

  const FAR := Pass(0x1000, map[7 := SymbolInfo(0x20_0000, false)])
  const NEAR := Pass(0x1000, map[7 := SymbolInfo(0x2000, false)])

  lemma {:induction false} FirstScan(sec: Section)
    requires CallThenPadding(sec)
    ensures Collected(sec, FAR, [], 3) == [Delta(8, 6)]
  {
    assert Decide(sec, FAR, [], 0) == None && Decide(sec, FAR, [], 1) == None;
    assert Collected(sec, FAR, [], 1) == [] && Collected(sec, FAR, [], 2) == [];
    assert NextPow2(6) == 8;
    assert Surplus(0x1008, 6) == 6;
    assert Decide(sec, FAR, [], 2) == Some(Delta(8, 6));
  }

  lemma {:induction false} SecondScan(sec: Section, existing: seq<Delta>)
    requires CallThenPadding(sec) && existing == [Delta(8, 6)]
    ensures Collected(sec, NEAR, existing, 3) == [Delta(4, 4)]
  {
    assert existing[0].offset == 8;
    assert Decide(sec, NEAR, existing, 0) == None;
    assert Decide(sec, NEAR, existing, 1) == Some(Delta(4, 4));
    assert Collected(sec, NEAR, existing, 1) == [] && Collected(sec, NEAR, existing, 2) == [Delta(4, 4)];
    assert DecidePadding(sec, NEAR, existing, 2) == None;
  }

  lemma {:induction false} MergeTwo(one: seq<Delta>, two: seq<Delta>)
    requires one == [Delta(8, 6)] && two == [Delta(4, 4)]
    ensures Merge([], one) == one && Merge(one, two) == two + one
  {
    assert [] + one == one && one[..0] == [];
    assert SortByOffset(one) == Insert([], one[0]) == one;
    assert (one + two)[..1] == one;
    assert Insert(one, two[0]) == Insert([], two[0]) + one;
  }

  lemma {:induction false} AfterNext(sec: Section, passes: seq<Pass>, pass: Pass, existing: seq<Delta>, ds: seq<Delta>)
    requires existing == AfterPasses(sec, passes) && ds == Collected(sec, pass, existing, |sec.rels|)
    ensures AfterPasses(sec, passes + [pass]) == Merge(existing, ds)
  {
    assert (passes + [pass])[..|passes|] == passes;
  }

  lemma {:induction false} BothScans(sec: Section, one: seq<Delta>, two: seq<Delta>)
    requires CallThenPadding(sec) && one == [Delta(8, 6)] && two == [Delta(4, 4)]
    ensures AfterPasses(sec, [FAR]) == one && AfterPasses(sec, [FAR] + [NEAR]) == two + one
  {
    FirstScan(sec);
    SecondScan(sec, one);
    MergeTwo(one, two);
    assert [] + [FAR] == [FAR];
    AfterNext(sec, [], FAR, [], one);
    AfterNext(sec, [FAR], NEAR, one, two);
  }

  lemma {:induction false} BothBefore(one: seq<Delta>, two: seq<Delta>)
    requires one == [Delta(8, 6)] && two == [Delta(4, 4)]
    ensures Before(one, 14) == 6 && Before(two + one, 14) == 10
  {
    assert one[..0] == [] && two[..0] == [] && (two + one)[..1] == two;
    assert Before(two, 14) == 4;
  }

  /** Such a section is one that the passes are meant for. */
  lemma {:induction false} CallThenPaddingOk(sec: Section)
    requires CallThenPadding(sec)
    ensures WellFormed(sec)
  {
  }

  /**
    * The first pass deletes the padding, as its place is aligned. In the second the call comes into
    * reach, and what follows the padding is no longer aligned.
    */
  lemma {:induction false} SecondPassMisaligns(sec: Section, one: seq<Delta>, both: seq<Delta>)
    requires CallThenPadding(sec)
    requires one == AfterPasses(sec, [FAR]) && both == AfterPasses(sec, [FAR] + [NEAR])
    ensures AddressOf(0x1000, one, 14) % 8 == 0 && AddressOf(0x1000, both, 14) % 8 == 4
  {
    var two := [Delta(4, 4)];
    BothScans(sec, [Delta(8, 6)], two);
    BothBefore(one, two);
  }

  /**
    * An assembler whose instructions are `k` bytes pads an alignment `a` with `a - k` bytes. The
    * computed alignment is the requested one exactly when that is more than `2 * k`.
    */
  lemma {:induction false} RequestedAlignment(a: nat, k: nat)
    requires IsPow2(a) && IsPow2(k) && k < a
    ensures NextPow2(a - k) == a <==> a > 2 * k
  {
    Pow2Gap(k, a);
    NextPow2IsLeast(a - k);
    if a > 2 * k {
      if NextPow2(a - k) < a {
        Pow2Gap(NextPow2(a - k), a);
      }
    } else {
      assert a - k == k;
    }
  }
}
