/**
 `.eh_frame` at layout time: splitting the section into entries, linking the
 FDEs of each section into a list, and counting the frames of the sections that
 get loaded.
 */
module EhFrame {
  import opened Machine
  import opened Sequences
  import opened Wrappers

  const PREFIX_LEN: nat := 8
  const FDE_PC_BEGIN_OFFSET: nat := 8

  /** A relocation; a symbol that is not defined in this file has no section. */
  datatype Rel = Rel(offset: nat, symbol: Option<Symbol>)
  datatype Symbol = Symbol(section: Option<nat>)

  /** A CIE or FDE of the input with the relocations that fall into it. */
  datatype Entry = Entry(pos: nat, size: nat, cieId: nat, rels: seq<Rel>) {
    predicate IsCie() {
      cieId == 0
    }
  }

  datatype Parsed = Parsed(entries: seq<Entry>, tail: nat) | Malformed

  /** How many of the first relocations lie before `limit`. */
  function RelsBefore(rels: seq<Rel>, limit: nat): (n: nat)
    ensures n <= |rels|
  {
    if rels == [] || rels[0].offset >= limit then 0 else 1 + RelsBefore(rels[1..], limit)
  }

  lemma {:induction false} RelsBeforeIs(rels: seq<Rel>, limit: nat, n: nat)
    requires n <= |rels| && (forall i :: 0 <= i < n ==> rels[i].offset < limit)
    requires n < |rels| ==> rels[n].offset >= limit
    ensures RelsBefore(rels, limit) == n
  {
    if n > 0 {
      RelsBeforeIs(rels[1..], limit, n - 1);
    }
  }

  function SizeAt(data: seq<byte>, pos: nat): nat
    requires pos + PREFIX_LEN <= |data|
  {
    4 + U32(data, pos)
  }

  /** The entry at `pos`, given the relocations not yet used up. */
  function EntryAt(data: seq<byte>, rels: seq<Rel>, pos: nat): Entry
    requires pos + PREFIX_LEN <= |data|
  {
    var size := SizeAt(data, pos);
    Entry(pos, size, U32(data, pos + 4), rels[..RelsBefore(rels, pos + size)])
  }

  function Prepend(e: Entry, p: Parsed): Parsed {
    if p.Malformed? then p else p.(entries := [e] + p.entries)
  }

  /** The entries from `pos` on, up to bytes too few to be an entry. */
  function Parse(data: seq<byte>, rels: seq<Rel>, pos: nat): Parsed
    requires pos <= |data|
    decreases |data| - pos
  {
    if pos + PREFIX_LEN > |data| then Parsed([], pos)
    else if pos + SizeAt(data, pos) > |data| then Malformed
    else
      var e := EntryAt(data, rels, pos);
      Prepend(e, Parse(data, rels[|e.rels|..], pos + e.size))
  }

  predicate IsPcBegin(e: Entry, r: Rel) {
    r.offset == e.pos + FDE_PC_BEGIN_OFFSET
  }

  /** The section that layout attaches an FDE to: that of its last pc-begin relocation with a symbol. */
  function LayoutTarget(e: Entry, n: nat): Option<nat>
    requires n <= |e.rels|
  {
    if n == 0 then None
    else
      var r := e.rels[n - 1];
      if IsPcBegin(e, r) && r.symbol.Some? then r.symbol.value.section else LayoutTarget(e, n - 1)
  }

  function Target(e: Entry): Option<nat> {
    LayoutTarget(e, |e.rels|)
  }

  /** An FDE that layout keeps track of. */
  datatype Fde = Fde(target: nat, size: nat)

  function FdeOf(e: Entry, tracked: set<nat>): seq<Fde> {
    if !e.IsCie() && Target(e).Some? && Target(e).value in tracked then [Fde(Target(e).value, e.size)] else []
  }

  function Fdes(entries: seq<Entry>, tracked: set<nat>): seq<Fde> {
    if entries == [] then [] else Fdes(entries[..|entries| - 1], tracked) + FdeOf(entries[|entries| - 1], tracked)
  }

  function CieBytes(entries: seq<Entry>): nat {
    if entries == [] then 0
    else CieBytes(entries[..|entries| - 1]) + if entries[|entries| - 1].IsCie() then entries[|entries| - 1].size else 0
  }

  // ----- Frame lists -----

  datatype Frame = Frame(size: nat, previous: Option<nat>)

  /** The last of the first `n` FDEs that belongs to section `s`. */
  function LastOf(fdes: seq<Fde>, s: nat, n: nat): (r: Option<nat>)
    requires n <= |fdes|
    ensures r.Some? ==> r.value < n && fdes[r.value].target == s
  {
    if n == 0 then None else if fdes[n - 1].target == s then Some(n - 1) else LastOf(fdes, s, n - 1)
  }

  /** Bytes of the first `n` FDEs whose section is in `loaded`. */
  function BytesOf(fdes: seq<Fde>, loaded: set<nat>, n: nat): nat
    requires n <= |fdes|
  {
    if n == 0 then 0 else BytesOf(fdes, loaded, n - 1) + if fdes[n - 1].target in loaded then fdes[n - 1].size else 0
  }

  function CountOf(fdes: seq<Fde>, loaded: set<nat>, n: nat): nat
    requires n <= |fdes|
  {
    if n == 0 then 0 else CountOf(fdes, loaded, n - 1) + if fdes[n - 1].target in loaded then 1 else 0
  }

  /** Each frame points at the one before it of the same section. */
  ghost predicate Linked(frames: seq<Frame>, fdes: seq<Fde>) {
    && |frames| == |fdes|
    && forall i {:trigger FrameOk(frames, fdes, i)} :: 0 <= i < |frames| ==> FrameOk(frames, fdes, i)
  }

  ghost predicate FrameOk(frames: seq<Frame>, fdes: seq<Fde>, i: nat)
    requires i < |frames| == |fdes|
  {
    frames[i].size == fdes[i].size && frames[i].previous == LastOf(fdes, fdes[i].target, i)
  }

  lemma {:induction false} SkipToLast(fdes: seq<Fde>, s: nat, n: nat)
    requires n <= |fdes|
    ensures
      match LastOf(fdes, s, n)
      case None => BytesOf(fdes, {s}, n) == 0 && CountOf(fdes, {s}, n) == 0
      case Some(k) =>
        && BytesOf(fdes, {s}, n) == fdes[k].size + BytesOf(fdes, {s}, k)
        && CountOf(fdes, {s}, n) == 1 + CountOf(fdes, {s}, k)
  {
    if n > 0 && fdes[n - 1].target != s {
      SkipToLast(fdes, s, n - 1);
    }
  }

  lemma {:induction false} AddSection(fdes: seq<Fde>, loaded: set<nat>, s: nat, n: nat)
    requires n <= |fdes| && s !in loaded
    ensures BytesOf(fdes, loaded + {s}, n) == BytesOf(fdes, loaded, n) + BytesOf(fdes, {s}, n)
    ensures CountOf(fdes, loaded + {s}, n) == CountOf(fdes, loaded, n) + CountOf(fdes, {s}, n)
  {
    if n > 0 {
      AddSection(fdes, loaded, s, n - 1);
    }
  }

  /** The list that starts at `head`, as the loading pass follows it. */
  ghost function FrameList(frames: seq<Frame>, fdes: seq<Fde>, head: Option<nat>): seq<nat>
    requires Linked(frames, fdes) && (head.Some? ==> head.value < |frames|)
    decreases if head.Some? then head.value + 1 else 0
  {
    if head.None? then []
    else
      assert FrameOk(frames, fdes, head.value);
      [head.value] + FrameList(frames, fdes, frames[head.value].previous)
  }

  /** The FDEs of section `s` among the first `n`, last first. */
  function SectionFrames(fdes: seq<Fde>, s: nat, n: nat): seq<nat>
    requires n <= |fdes|
  {
    if n == 0 then []
    else (if fdes[n - 1].target == s then [n - 1] else []) + SectionFrames(fdes, s, n - 1)
  }

  /** `list` strictly descends and holds exactly the FDEs of section `s` among the first `n`. */
  ghost predicate VisitsOnce(fdes: seq<Fde>, s: nat, n: nat, list: seq<nat>)
    requires n <= |fdes|
  {
    && (forall i :: 0 <= i < |list| ==> list[i] < n && fdes[list[i]].target == s)
    && (forall i, j :: 0 <= i < j < |list| ==> list[i] > list[j])
    && (forall k :: 0 <= k < n && fdes[k].target == s ==> k in list)
  }

  lemma {:induction false} SectionFramesVisitOnce(fdes: seq<Fde>, s: nat, n: nat)
    requires n <= |fdes|
    ensures VisitsOnce(fdes, s, n, SectionFrames(fdes, s, n))
  {
    if n > 0 {
      SectionFramesVisitOnce(fdes, s, n - 1);
    }
  }

  lemma {:induction false} FrameListIs(frames: seq<Frame>, fdes: seq<Fde>, s: nat, n: nat)
    requires Linked(frames, fdes) && n <= |fdes|
    ensures FrameList(frames, fdes, LastOf(fdes, s, n)) == SectionFrames(fdes, s, n)
  {
    if n > 0 {
      FrameListIs(frames, fdes, s, n - 1);
      if fdes[n - 1].target == s {
        assert FrameOk(frames, fdes, n - 1);
      }
    }
  }

  /** A section's frame list strictly descends and visits each of its FDEs once. */
  lemma {:induction false} FrameListVisitsSection(frames: seq<Frame>, fdes: seq<Fde>, s: nat, n: nat)
    requires Linked(frames, fdes) && n <= |fdes|
    ensures VisitsOnce(fdes, s, n, FrameList(frames, fdes, LastOf(fdes, s, n)))
  {
    FrameListIs(frames, fdes, s, n);
    SectionFramesVisitOnce(fdes, s, n);
  }

  // ----- The code -----

  /** A section slot: not loadable, waiting with the head of its frame list, or loaded. */
  datatype Slot = Other | Unloaded(lastFrame: Option<nat>) | Loaded

  /** A slot that waits heads the list of its section's frames. */
  ghost predicate SlotsOk(sections: seq<Slot>, fdes: seq<Fde>, tracked: set<nat>, loaded: set<nat>) {
    && (forall s :: s in tracked ==> s < |sections|)
    && loaded <= tracked
    && forall s :: 0 <= s < |sections| ==> sections[s] == SlotFor(s, fdes, tracked, loaded)
  }

  ghost function SlotFor(s: nat, fdes: seq<Fde>, tracked: set<nat>, loaded: set<nat>): Slot {
    if s !in tracked then Other else if s in loaded then Loaded else Unloaded(LastOf(fdes, s, |fdes|))
  }

  class ObjectLayoutState {
    var cies: seq<nat>
    var ehFrameSize: nat
    var frames: seq<Frame>
    var sections: seq<Slot>
    var frameCount: nat

    ghost var entries: seq<Entry>
    ghost var fdes: seq<Fde>
    ghost var trailing: nat
    ghost var tracked: set<nat>
    ghost var loaded: set<nat>

    ghost predicate Valid()
      reads this
    {
      && fdes == Fdes(entries, tracked)
      && Linked(frames, fdes)
      && SlotsOk(sections, fdes, tracked, loaded)
      && Sum(cies) == CieBytes(entries)
      && ehFrameSize == trailing + BytesOf(fdes, loaded, |fdes|)
      && frameCount == CountOf(fdes, loaded, |fdes|)
    }

    constructor (loadable: seq<bool>)
      ensures Valid() && loaded == {} && entries == [] && trailing == 0
      ensures tracked == set s | 0 <= s < |loadable| && loadable[s]
      ensures |sections| == |loadable|
    {
      cies, ehFrameSize, frames, frameCount := [], 0, [], 0;
      sections := seq(|loadable|, s requires 0 <= s < |loadable| => if loadable[s] then Unloaded(None) else Other);
      entries, fdes, trailing, loaded := [], [], 0, {};
      tracked := set s | 0 <= s < |loadable| && loadable[s];
    }

    /** Frames are only attached before anything is loaded, and only to sections that exist. */
    ghost predicate CanAttach(e: Entry)
      reads this
    {
      && loaded == {}
      && (Target(e).Some? ==> Target(e).value < |sections|)
    }

    method AddCie(size: nat, ghost e: Entry)
      requires Valid() && e.IsCie() && e.size == size
      modifies this
      ensures Valid() && entries == old(entries) + [e]
      ensures trailing == old(trailing) && tracked == old(tracked) && loaded == old(loaded) &&
        |sections| == |old(sections)|
    {
      cies := cies + [size];
      assert (entries + [e])[..|entries|] == entries;
      assert cies[..|cies| - 1] == old(cies);
      entries := entries + [e];
    }

    /** Pushes the frame at the head of its section's list, if the section may still be loaded. */
    method AddFde(section: Option<nat>, size: nat, ghost e: Entry)
      requires Valid() && CanAttach(e) && !e.IsCie() && e.size == size && section == Target(e)
      modifies this
      ensures Valid() && entries == old(entries) + [e]
      ensures trailing == old(trailing) && tracked == old(tracked) && loaded == old(loaded) &&
        |sections| == |old(sections)|
    {
      assert (entries + [e])[..|entries|] == entries;
      if section.Some? && sections[section.value].Unloaded? {
        var index := |frames|;
        var previous := sections[section.value].lastFrame;
        Attach(frames, sections, fdes, tracked, section.value, size);
        SumsNext(fdes, Fde(section.value, size), loaded);
        sections := sections[section.value := Unloaded(Some(index))];
        frames := frames + [Frame(size, previous)];
        fdes := fdes + [Fde(section.value, size)];
      }
      entries := entries + [e];
    }

    method ProcessEntry(
        data: seq<byte>, rels: seq<Rel>, start: nat, offset: nat, size: nat, ghost e: Entry)
      returns (next: nat)
      requires Valid() && loaded == {} && SectionsBelow(rels, |sections|)
      requires start <= |rels| && offset + PREFIX_LEN <= |data| && size == SizeAt(data, offset)
      requires e == EntryAt(data, rels[start..], offset)
      modifies this
      ensures Valid() && trailing == old(trailing) && tracked == old(tracked) && loaded == old(loaded)
      ensures |sections| == |old(sections)|
      ensures entries == old(entries) + [e] && next == start + |e.rels| <= |rels|
    {
      if U32(data, offset + 4) == 0 {
        next := SkipRelocations(rels, start, offset + size);
        AddCie(size, e);
      } else {
        EntryTargetInRange(rels, start, e, |sections|);
        var section;
        section, next := ScanFde(rels, start, offset, offset + size, e);
        AddFde(section, size, e);
      }
    }

    /** One `.eh_frame` section of the object: every CIE is kept, every FDE is attached to its section. */
    method LoadExceptionFrameData(data: seq<byte>, rels: seq<Rel>) returns (ok: bool)
      requires Valid() && loaded == {}
      requires SectionsBelow(rels, |sections|)
      modifies this
      ensures ok <==> Parse(data, rels, 0).Parsed?
      ensures ok ==> Valid() && tracked == old(tracked) && loaded == old(loaded) && |sections| == |old(sections)|
      ensures ok ==> entries == old(entries) + Parse(data, rels, 0).entries
      ensures ok ==> trailing == old(trailing) + |data| - Parse(data, rels, 0).tail
    {
      var offset;
      ghost var seen, next;
      ok, offset, seen, next := LoadEntries(data, rels);
      if ok {
        SplitEnds(data, rels, seen, next, offset);
        AddTrailing(|data| - offset);
      }
    }

    method LoadEntry(
        data: seq<byte>, rels: seq<Rel>, ghost before: seq<Entry>, ghost seen: seq<Entry>, start: nat, offset: nat,
        size: nat)
      returns (next: nat, ghost e: Entry)
      requires Valid() && loaded == {} && SectionsBelow(rels, |sections|) && entries == before + seen
      requires start <= |rels| && Split(data, rels, seen, start, offset)
      requires offset + PREFIX_LEN <= |data| && size == SizeAt(data, offset) && offset + size <= |data|
      modifies this
      ensures Valid() && tracked == old(tracked) && loaded == old(loaded) && |sections| == |old(sections)|
      ensures entries == before + (seen + [e]) && trailing == old(trailing)
      ensures next <= |rels| && Split(data, rels, seen + [e], next, offset + size)
    {
      e := EntryAt(data, rels[start..], offset);
      SplitNext(data, rels, seen, start, offset, e);
      assert before + (seen + [e]) == before + seen + [e];
      next := ProcessEntry(data, rels, start, offset, size, e);
    }

    /** Entry after entry, up to bytes too few to be one. */
    method LoadEntries(data: seq<byte>, rels: seq<Rel>)
      returns (ok: bool, offset: nat, ghost seen: seq<Entry>, ghost used: nat)
      requires Valid() && loaded == {} && SectionsBelow(rels, |sections|)
      modifies this
      ensures !ok ==> Parse(data, rels, 0).Malformed?
      ensures ok ==> Valid() && tracked == old(tracked) && loaded == old(loaded) && |sections| == |old(sections)|
      ensures ok ==> entries == old(entries) + seen && trailing == old(trailing)
      ensures ok ==> used <= |rels| && offset <= |data| < offset + PREFIX_LEN && Split(data, rels, seen, used, offset)
    {
      var next: nat := 0;
      offset, seen, used := 0, [], 0;
      while offset + PREFIX_LEN <= |data|
        invariant offset <= |data| && next == used <= |rels|
        invariant Valid() && tracked == old(tracked) && loaded == old(loaded) && |sections| == |old(sections)|
        invariant entries == old(entries) + seen && trailing == old(trailing)
        invariant Split(data, rels, seen, used, offset)
        decreases |data| - offset
      {
        var size := SizeAt(data, offset);
        var nextOffset := offset + size;
        if nextOffset > |data| {
          SplitFails(data, rels, seen, next, offset);
          ok := false;
          return;
        }
        ghost var e;
        next, e := LoadEntry(data, rels, old(entries), seen, next, offset, size);
        seen, used, offset := seen + [e], next, nextOffset;
      }
      ok := true;
    }

    /** Bytes too few to be an entry are kept as they are. */
    method AddTrailing(n: nat)
      requires Valid()
      modifies this`ehFrameSize, this`trailing
      ensures Valid() && trailing == old(trailing) + n
    {
      trailing := trailing + n;
      ehFrameSize := ehFrameSize + n;
    }

    /** A non-empty section is loaded: its frames are counted by following their list. */
    method LoadSection(s: nat)
      requires Valid() && s in tracked && s !in loaded
      modifies this
      ensures Valid() && loaded == old(loaded) + {s}
      ensures entries == old(entries) && trailing == old(trailing) && tracked == old(tracked) &&
        |sections| == |old(sections)|
    {
      var numFrames, size := SectionExceptionFrames(sections[s].lastFrame, s);
      AddSection(fdes, loaded, s, |fdes|);
      MarkLoaded(sections, fdes, tracked, loaded, s);
      sections := sections[s := Loaded];
      ehFrameSize := ehFrameSize + size;
      frameCount := frameCount + numFrames;
      loaded := loaded + {s};
    }

    method SectionExceptionFrames(head: Option<nat>, ghost s: nat) returns (numFrames: nat, size: nat)
      requires Linked(frames, fdes) && head == LastOf(fdes, s, |fdes|)
      ensures size == BytesOf(fdes, {s}, |fdes|) && numFrames == CountOf(fdes, {s}, |fdes|)
    {
      numFrames, size := 0, 0;
      var next := head;
      ghost var n: nat := |fdes|;
      while next.Some?
        invariant n <= |fdes| && next == LastOf(fdes, s, n)
        invariant size + BytesOf(fdes, {s}, n) == BytesOf(fdes, {s}, |fdes|)
        invariant numFrames + CountOf(fdes, {s}, n) == CountOf(fdes, {s}, |fdes|)
        decreases n
      {
        SkipToLast(fdes, s, n);
        assert FrameOk(frames, fdes, next.value);
        n := next.value;
        var frame := frames[next.value];
        size := size + frame.size;
        numFrames := numFrames + 1;
        next := frame.previous;
      }
      SkipToLast(fdes, s, n);
    }

    /** The size the section is given: the loaded FDEs, trailing bytes, and every CIE. */
    method FinaliseObjectSizes()
      requires Valid()
      modifies this`ehFrameSize
      ensures ehFrameSize == CieBytes(entries) + BytesOf(fdes, loaded, |fdes|) + trailing
    {
      for i := 0 to |cies|
        invariant ehFrameSize == old(ehFrameSize) + Sum(cies[..i])
      {
        assert cies[..i + 1][..i] == cies[..i];
        ehFrameSize := ehFrameSize + cies[i];
      }
      assert cies[..|cies|] == cies;
    }
  }

  method SkipRelocations(rels: seq<Rel>, start: nat, limit: nat) returns (next: nat)
    requires start <= |rels|
    ensures next == start + RelsBefore(rels[start..], limit)
  {
    next := start;
    while next < |rels| && rels[next].offset < limit
      invariant start <= next <= |rels|
      invariant forall i :: start <= i < next ==> rels[i].offset < limit
    {
      next := next + 1;
    }
    RelsBeforeIs(rels[start..], limit, next - start);
  }

  /** Goes through the relocations of an FDE and remembers the section of its pc-begin. */
  method ScanFde(
      rels: seq<Rel>, start: nat, pos: nat, limit: nat, ghost e: Entry)
    returns (section: Option<nat>, next: nat)
    requires start <= |rels| && e.pos == pos && e.rels == rels[start..][..RelsBefore(rels[start..], limit)]
    ensures section == Target(e) && next == start + |e.rels|
  {
    section, next := None, start;
    ghost var own := Entry(pos, 0, 0, rels[start..]);
    while next < |rels| && rels[next].offset < limit
      invariant start <= next <= |rels|
      invariant forall i :: start <= i < next ==> rels[i].offset < limit
      invariant section == LayoutTarget(own, next - start)
    {
      assert rels[next] == own.rels[next - start];
      if rels[next].offset == pos + FDE_PC_BEGIN_OFFSET && rels[next].symbol.Some? {
        section := rels[next].symbol.value.section;
      }
      next := next + 1;
    }
    RelsBeforeIs(rels[start..], limit, next - start);
    TargetOfPrefix(own, e, next - start);
  }

  /** The target depends only on the position and the relocations looked at. */
  lemma {:induction false} TargetOfPrefix(a: Entry, b: Entry, n: nat)
    requires a.pos == b.pos && n <= |a.rels| && n <= |b.rels| && a.rels[..n] == b.rels[..n]
    ensures LayoutTarget(a, n) == LayoutTarget(b, n)
  {
    if n > 0 {
      assert a.rels[n - 1] == a.rels[..n][n - 1] && b.rels[n - 1] == b.rels[..n][n - 1];
      assert a.rels[..n - 1] == a.rels[..n][..n - 1] && b.rels[..n - 1] == b.rels[..n][..n - 1];
      TargetOfPrefix(a, b, n - 1);
    }
  }

  // ----- Steps of the proofs above -----

  /** The first bytes up to `pos` and the first `next` relocations make up the entries `es`. */
  ghost predicate Split(data: seq<byte>, rels: seq<Rel>, es: seq<Entry>, next: nat, pos: nat)
    decreases |es|
  {
    if es == [] then next == 0 && pos == 0
    else
      var e := es[|es| - 1];
      && |e.rels| <= next <= |rels| && e.pos + e.size == pos <= |data| && e.pos + PREFIX_LEN <= |data|
      && e == EntryAt(data, rels[next - |e.rels|..], e.pos)
      && Split(data, rels, es[..|es| - 1], next - |e.rels|, e.pos)
  }

  lemma {:induction false} SplitNext(data: seq<byte>, rels: seq<Rel>, es: seq<Entry>, next: nat, pos: nat, e: Entry)
    requires Split(data, rels, es, next, pos) && next <= |rels|
    requires pos + PREFIX_LEN <= |data| && pos + SizeAt(data, pos) <= |data| && e == EntryAt(data, rels[next..], pos)
    ensures next + |e.rels| <= |rels| && Split(data, rels, es + [e], next + |e.rels|, pos + e.size)
  {
    assert (es + [e])[..|es|] == es;
  }

  lemma {:induction false} ParseUnfold(data: seq<byte>, rels: seq<Rel>, e: Entry, rest: seq<Rel>, end: nat)
    requires e.pos + PREFIX_LEN <= |data| && e == EntryAt(data, rels, e.pos) && rest == rels[|e.rels|..]
    requires end == e.pos + e.size <= |data|
    ensures Parse(data, rels, e.pos) == Prepend(e, Parse(data, rest, end))
  {
  }

  /** Reading on after a split is reading from the start. */
  lemma {:induction false} SplitParses(data: seq<byte>, rels: seq<Rel>, es: seq<Entry>, next: nat, pos: nat)
    requires Split(data, rels, es, next, pos) && next <= |rels| && pos <= |data|
    ensures Parse(data, rels, 0) == PrependAll(es, Parse(data, rels[next..], pos))
    decreases |es|
  {
    if es == [] {
      assert rels[0..] == rels;
      assert PrependAll([], Parse(data, rels, 0)) == Parse(data, rels, 0);
    } else {
      var init, e := es[..|es| - 1], es[|es| - 1];
      var start := next - |e.rels|;
      SplitParses(data, rels, init, start, e.pos);
      assert rels[start..][|e.rels|..] == rels[next..];
      ParseUnfold(data, rels[start..], e, rels[next..], pos);
      PrependLast(init, e, Parse(data, rels[next..], pos));
      assert init + [e] == es;
    }
  }

  lemma {:induction false} SplitEnds(data: seq<byte>, rels: seq<Rel>, es: seq<Entry>, next: nat, pos: nat)
    requires Split(data, rels, es, next, pos) && next <= |rels| && pos <= |data| < pos + PREFIX_LEN
    ensures Parse(data, rels, 0) == Parsed(es, pos)
  {
    SplitParses(data, rels, es, next, pos);
  }

  lemma {:induction false} SplitFails(data: seq<byte>, rels: seq<Rel>, es: seq<Entry>, next: nat, pos: nat)
    requires Split(data, rels, es, next, pos) && next <= |rels| && pos + PREFIX_LEN <= |data|
    requires pos + SizeAt(data, pos) > |data|
    ensures Parse(data, rels, 0) == Malformed
  {
    SplitParses(data, rels, es, next, pos);
  }

  lemma {:induction false} EntryTargetInRange(rels: seq<Rel>, next: nat, e: Entry, limit: nat)
    requires next <= |rels| && next + |e.rels| <= |rels| && e.rels == rels[next..][..|e.rels|]
    requires SectionsBelow(rels, limit)
    ensures Target(e).Some? ==> Target(e).value < limit
  {
    forall i | 0 <= i < |e.rels|
      ensures SectionBelow(e.rels[i], limit)
    {
      assert e.rels[i] == rels[next + i];
    }
    TargetInRange(e, |e.rels|, limit);
  }

  predicate SectionBelow(r: Rel, limit: nat) {
    r.symbol.Some? && r.symbol.value.section.Some? ==> r.symbol.value.section.value < limit
  }

  /** Every section that a relocation refers to is one of the object's. */
  ghost predicate SectionsBelow(rels: seq<Rel>, limit: nat) {
    forall i :: 0 <= i < |rels| ==> SectionBelow(rels[i], limit)
  }

  function PrependAll(es: seq<Entry>, p: Parsed): Parsed {
    if p.Malformed? then p else p.(entries := es + p.entries)
  }

  lemma {:induction false} PrependLast(es: seq<Entry>, e: Entry, p: Parsed)
    ensures PrependAll(es, Prepend(e, p)) == PrependAll(es + [e], p)
  {
    if p.Parsed? {
      assert es + ([e] + p.entries) == es + [e] + p.entries;
    }
  }

  lemma {:induction false} TargetInRange(e: Entry, n: nat, limit: nat)
    requires n <= |e.rels|
    requires SectionsBelow(e.rels, limit)
    ensures LayoutTarget(e, n).Some? ==> LayoutTarget(e, n).value < limit
  {
    if n > 0 {
      assert SectionBelow(e.rels[n - 1], limit);
      TargetInRange(e, n - 1, limit);
    }
  }

  lemma {:induction false} LastOfPrefix(fdes: seq<Fde>, f: Fde, s: nat, n: nat)
    requires n <= |fdes|
    ensures LastOf(fdes + [f], s, n) == LastOf(fdes, s, n)
  {
    if n > 0 {
      LastOfPrefix(fdes, f, s, n - 1);
    }
  }

  lemma {:induction false} LastOfNext(fdes: seq<Fde>, f: Fde, s: nat)
    ensures LastOf(fdes + [f], s, |fdes| + 1) == if s == f.target then Some(|fdes|) else LastOf(fdes, s, |fdes|)
  {
    LastOfPrefix(fdes, f, s, |fdes|);
  }

  /** Pushing a frame keeps every list: its own gets a new head, the others stay. */
  lemma {:induction false} Attach(
      frames: seq<Frame>, sections: seq<Slot>, fdes: seq<Fde>, tracked: set<nat>, s: nat, size: nat)
    requires Linked(frames, fdes) && SlotsOk(sections, fdes, tracked, {})
    requires s < |sections| && sections[s].Unloaded?
    ensures Linked(frames + [Frame(size, sections[s].lastFrame)], fdes + [Fde(s, size)])
    ensures SlotsOk(sections[s := Unloaded(Some(|frames|))], fdes + [Fde(s, size)], tracked, {})
  {
    var f, fdes' := Fde(s, size), fdes + [Fde(s, size)];
    var frames' := frames + [Frame(size, sections[s].lastFrame)];
    forall i | 0 <= i < |frames'|
      ensures FrameOk(frames', fdes', i)
    {
      assert i < |frames| ==> FrameOk(frames, fdes, i);
      LastOfPrefix(fdes, f, fdes'[i].target, i);
    }
    forall k | 0 <= k < |sections|
      ensures sections[s := Unloaded(Some(|frames|))][k] == SlotFor(k, fdes', tracked, {})
    {
      LastOfNext(fdes, f, k);
    }
  }

  lemma {:induction false} MarkLoaded(sections: seq<Slot>, fdes: seq<Fde>, tracked: set<nat>, loaded: set<nat>, s: nat)
    requires SlotsOk(sections, fdes, tracked, loaded) && s in tracked
    ensures SlotsOk(sections[s := Loaded], fdes, tracked, loaded + {s})
  {
  }

  lemma {:induction false} SumsPrefix(fdes: seq<Fde>, f: Fde, loaded: set<nat>, n: nat)
    requires n <= |fdes|
    ensures BytesOf(fdes + [f], loaded, n) == BytesOf(fdes, loaded, n)
    ensures CountOf(fdes + [f], loaded, n) == CountOf(fdes, loaded, n)
  {
    if n > 0 {
      SumsPrefix(fdes, f, loaded, n - 1);
    }
  }

  lemma {:induction false} SumsNext(fdes: seq<Fde>, f: Fde, loaded: set<nat>)
    requires f.target !in loaded
    ensures BytesOf(fdes + [f], loaded, |fdes| + 1) == BytesOf(fdes, loaded, |fdes|)
    ensures CountOf(fdes + [f], loaded, |fdes| + 1) == CountOf(fdes, loaded, |fdes|)
  {
    SumsPrefix(fdes, f, loaded, |fdes|);
  }

}
