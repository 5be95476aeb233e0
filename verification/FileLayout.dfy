/** File offsets after debug sections were compressed, and the splitting of the output that relies on them. */
module FileLayouts {
  import opened Machine
  import opened Sequences
  import opened Wrappers
  import opened Alignments

  datatype Part = Part(fileOffset: nat, fileSize: nat)

  datatype Compressed = Compressed(chunks: seq<seq<byte>>, total: nat)

  /** Parts go from the largest alignment to the least, so the last is the one with alignment 1. */
  datatype Section = Section(
    alignment: nat, fileOffset: nat, fileSize: nat, parts: seq<Part>, compressed: Option<Compressed>)

  /** The bytes a group of input files has in each part of each section. */
  datatype Group = Group(epilogue: bool, sizes: seq<seq<nat>>)

  datatype Event = SegmentStart(segment: nat) | SectionAt(id: nat) | OtherEvent

  datatype Segment = Segment(id: nat, fileOffset: nat)

  function PartSizes(parts: seq<Part>): (ns: seq<nat>)
    ensures |ns| == |parts|
  {
    seq(|parts|, p requires 0 <= p < |parts| => parts[p].fileSize)
  }

  function TotalSize(parts: seq<Part>): nat {
    Sum(PartSizes(parts))
  }

  function ChunkSizes(chunks: seq<seq<byte>>): (ns: seq<nat>)
    ensures |ns| == |chunks|
  {
    seq(|chunks|, c requires 0 <= c < |chunks| => |chunks[c]|)
  }

  // ----- Compression -----

  /** Pieces of `size` bytes, the last one maybe shorter. */
  function Chunks(s: seq<byte>, size: nat): seq<seq<byte>>
    requires size > 0
  {
    if s == [] then [] else if |s| <= size then [s] else [s[..size]] + Chunks(s[size..], size)
  }

  function Concat(chunks: seq<seq<byte>>): seq<byte> {
    if chunks == [] then [] else chunks[0] + Concat(chunks[1..])
  }

  /** Nothing is lost or doubled by chunking. */
  lemma {:induction false} ChunksConcat(s: seq<byte>, size: nat)
    requires size > 0
    ensures Concat(Chunks(s, size)) == s
  {
    if |s| > size {
      ChunksConcat(s[size..], size);
      assert s[..size] + s[size..] == s;
    } else if s != [] {
      assert Concat([s][1..]) == [];
    }
  }

  /** Each chunk of the input, compressed on its own. */
  function CompressEach(chunks: seq<seq<byte>>, compress: seq<byte> -> seq<byte>): (out: seq<seq<byte>>)
    ensures |out| == |chunks|
  {
    seq(|chunks|, c requires 0 <= c < |chunks| => compress(chunks[c]))
  }

  /** Chunks of at least 64 KiB, and at most about 128 of them. */
  function ChunkSize(length: nat): (size: nat)
    ensures size >= 0x1_0000 && size >= length / 128 && (size == 0x1_0000 || size == length / 128)
  {
    if length / 128 > 0x1_0000 then length / 128 else 0x1_0000
  }

  /** The `Elf64_Chdr` that stands before compressed data: kind, padding, size and alignment of the input. */
  function HeaderBytes(kind: nat, size: nat, alignment: nat): (h: seq<byte>)
    requires kind < 0x1_0000_0000 && size < 0x1_0000_0000_0000_0000 && alignment < 0x1_0000_0000_0000_0000
    ensures |h| == 24
  {
    LeBytes(kind) + LeBytes(0) + Le64(size) + Le64(alignment)
  }

  /** The chunks to be written: the header, then each piece of the input compressed on its own. */
  function CompressedChunks(input: seq<byte>, header: seq<byte>, compress: seq<byte> -> seq<byte>): seq<seq<byte>> {
    [header] + CompressEach(Chunks(input, ChunkSize(|input|)), compress)
  }

  /** Compresses exactly if header and chunks are smaller than the input, and records their size. */
  method CompressSection(uncompressed: seq<byte>, kind: nat, alignment: nat, compress: seq<byte> -> seq<byte>)
    returns (r: Option<Compressed>)
    requires kind < 0x1_0000_0000 && alignment < 0x1_0000_0000_0000_0000 && |uncompressed| < 0x1_0000_0000_0000_0000
    ensures
      var chunks := CompressedChunks(uncompressed, HeaderBytes(kind, |uncompressed|, alignment), compress);
      && (r.Some? <==> Sum(ChunkSizes(chunks)) < |uncompressed|)
      && (r.Some? ==> r.value == Compressed(chunks, Sum(ChunkSizes(chunks))))
  {
    var compressed := CompressEach(Chunks(uncompressed, ChunkSize(|uncompressed|)), compress);
    var header := HeaderBytes(kind, |uncompressed|, alignment);
    var total := |header|;
    for c := 0 to |compressed|
      invariant total == |header| + Sum(ChunkSizes(compressed)[..c])
    {
      assert ChunkSizes(compressed)[..c + 1][..c] == ChunkSizes(compressed)[..c];
      total := total + |compressed[c]|;
    }
    assert ChunkSizes(compressed)[..|compressed|] == ChunkSizes(compressed);
    assert ChunkSizes([header] + compressed) == [|header|] + ChunkSizes(compressed);
    SumCons(|header|, ChunkSizes(compressed));
    if total >= |uncompressed| {
      return None;
    }
    r := Some(Compressed([header] + compressed, total));
  }

  // ----- What a reader gets back -----

  /** The header holds, as little-endian words, what a reader needs. */
  lemma {:induction false} HeaderReadsBack(kind: nat, size: nat, alignment: nat)
    requires kind < 0x1_0000_0000 && size < 0x1_0000_0000_0000_0000 && alignment < 0x1_0000_0000_0000_0000
    ensures
      var h := HeaderBytes(kind, size, alignment);
      U32(h, 0) == kind && U32(h, 4) == 0 && U64(h, 8) == size && U64(h, 16) == alignment
  {
    var h := HeaderBytes(kind, size, alignment);
    var a, b, c, d := LeBytes(kind), LeBytes(0), Le64(size), Le64(alignment);
    WordIn([], a, b + c + d, h);
    WordIn(a, b, c + d, h);
    WordIn(a + b, c, d, h);
    WordIn(a + b + c, d, [], h);
  }

  lemma {:induction false} WordIn(a: seq<byte>, part: seq<byte>, b: seq<byte>, h: seq<byte>)
    requires a + part + b == h
    ensures |part| >= 4 ==> U32(h, |a|) == U32(part, 0)
    ensures |part| >= 8 ==> U64(h, |a|) == U64(part, 0)
  {
    forall k | 0 <= k < |part|
      ensures h[|a| + k] == part[k]
    {
    }
  }

  /** All chunks but the last are as long as the chunk size, and the last is not empty. */
  lemma {:induction false} ChunksEven(s: seq<byte>, size: nat, c: nat)
    requires size > 0 && c < |Chunks(s, size)|
    ensures |Chunks(s, size)[c]| == if c < |Chunks(s, size)| - 1 then size else |s| - c * size
    ensures 0 < |Chunks(s, size)[c]| <= size
  {
    if |s| > size && c > 0 {
      ChunksEven(s[size..], size, c - 1);
      assert c * size == (c - 1) * size + size;
    }
  }

  /** What each of the chunks behind the header inflates to. */
  function InflateEach(chunks: seq<seq<byte>>, inflate: seq<byte> -> seq<byte>): (out: seq<seq<byte>>)
    ensures |out| == |chunks|
  {
    seq(|chunks|, c requires 0 <= c < |chunks| => inflate(chunks[c]))
  }

  /** Inflating the chunks behind the header, one after the other, gives back the input. */
  lemma {:induction false} ChunksInflateBack(
      input: seq<byte>, header: seq<byte>, compress: seq<byte> -> seq<byte>, inflate: seq<byte> -> seq<byte>)
    requires forall s :: inflate(compress(s)) == s
    ensures
      var chunks := CompressedChunks(input, header, compress);
      chunks[0] == header && Concat(InflateEach(chunks[1..], inflate)) == input
  {
    var chunks, pieces := CompressedChunks(input, header, compress), Chunks(input, ChunkSize(|input|));
    assert InflateEach(chunks[1..], inflate) == pieces;
    ChunksConcat(input, ChunkSize(|input|));
  }

  /** `inflate` reads compressed pieces that follow each other. */
  ghost predicate Streams(compress: seq<byte> -> seq<byte>, inflate: seq<byte> -> seq<byte>) {
    && inflate([]) == []
    && forall s, rest {:trigger compress(s) + rest} :: inflate(compress(s) + rest) == s + inflate(rest)
  }

  lemma {:induction false} PiecesStream(
      pieces: seq<seq<byte>>, compress: seq<byte> -> seq<byte>, inflate: seq<byte> -> seq<byte>)
    requires Streams(compress, inflate)
    ensures inflate(Concat(CompressEach(pieces, compress))) == Concat(pieces)
  {
    if pieces != [] {
      var out := CompressEach(pieces, compress);
      assert out[1..] == CompressEach(pieces[1..], compress);
      PiecesStream(pieces[1..], compress, inflate);
      assert Concat(out) == compress(pieces[0]) + Concat(out[1..]);
    }
  }

  /** The bytes of a compressed section: the header, and behind it a stream that inflates to the input. */
  lemma {:induction false} SectionInflatesBack(
      input: seq<byte>, header: seq<byte>, compress: seq<byte> -> seq<byte>, inflate: seq<byte> -> seq<byte>)
    requires Streams(compress, inflate)
    ensures
      var bytes := Concat(CompressedChunks(input, header, compress));
      header <= bytes && inflate(bytes[|header|..]) == input
  {
    var chunks, pieces := CompressedChunks(input, header, compress), Chunks(input, ChunkSize(|input|));
    assert chunks[1..] == CompressEach(pieces, compress);
    PiecesStream(pieces, compress, inflate);
    ChunksConcat(input, ChunkSize(|input|));
    assert Concat(chunks)[|header|..] == Concat(chunks[1..]);
  }

  // ----- New sizes -----

  function ResizedParts(sec: Section): (parts: seq<Part>)
    ensures |parts| == |sec.parts|
  {
    if sec.compressed.None? then sec.parts
    else
      seq(|sec.parts|, p requires 0 <= p < |sec.parts| =>
        Part(sec.parts[p].fileOffset, if p == |sec.parts| - 1 then sec.compressed.value.total else 0))
  }

  function Resized(sec: Section): Section {
    sec.(parts := ResizedParts(sec))
  }

  /** A compressed section comes from the epilogue's group alone. */
  function ResizedRow(sec: Section, epilogue: bool, row: seq<nat>): (r: seq<nat>)
    ensures |r| == |row|
  {
    if sec.compressed.None? then row
    else seq<nat>(|row|, p requires 0 <= p < |row| => EpilogueShare(sec.compressed.value, epilogue && p == |row| - 1))
  }

  function EpilogueShare(c: Compressed, here: bool): nat {
    if here then c.total else 0
  }

  function ResizedIn(g: Group, id: nat, sec: Section): Group
    requires id < |g.sizes|
  {
    g.(sizes := g.sizes[id := ResizedRow(sec, g.epilogue, g.sizes[id])])
  }

  function ResizedGroup(sections: seq<Section>, g: Group): (r: Group)
    requires |g.sizes| == |sections|
    ensures r.epilogue == g.epilogue && |r.sizes| == |sections|
  {
    g.(sizes := seq(|sections|, id requires 0 <= id < |sections| => ResizedRow(sections[id], g.epilogue, g.sizes[id])))
  }

  ghost predicate SectionOk(sec: Section) {
    sec.alignment > 0 && sec.parts != [] && (sec.compressed.Some? ==>
      sec.compressed.value.total == Sum(ChunkSizes(sec.compressed.value.chunks)))
  }

  ghost predicate Shaped(sections: seq<Section>, groups: seq<Group>) {
    && (forall id :: 0 <= id < |sections| ==> SectionOk(sections[id]))
    && forall g :: 0 <= g < |groups| ==> GroupShaped(sections, groups[g])
  }

  ghost predicate GroupShaped(sections: seq<Section>, group: Group) {
    |group.sizes| == |sections| && forall id :: 0 <= id < |sections| ==> |group.sizes[id]| == |sections[id].parts|
  }

  /** What each group has in part `p` of section `id`. */
  function Column(sections: seq<Section>, groups: seq<Group>, id: nat, p: nat): (ns: seq<nat>)
    requires id < |sections| && p < |sections[id].parts|
    requires forall g :: 0 <= g < |groups| ==>
      |groups[g].sizes| == |sections| && |groups[g].sizes[id]| == |sections[id].parts|
    ensures |ns| == |groups|
  {
    seq(|groups|, g requires 0 <= g < |groups| => groups[g].sizes[id][p])
  }

  function Epilogues(groups: seq<Group>): nat {
    if groups == [] then 0 else Epilogues(groups[..|groups| - 1]) + if groups[|groups| - 1].epilogue then 1 else 0
  }

  function ResizedAll(sections: seq<Section>, groups: seq<Group>): (r: seq<Group>)
    requires forall g :: 0 <= g < |groups| ==> |groups[g].sizes| == |sections|
    ensures |r| == |groups|
  {
    seq(|groups|, g requires 0 <= g < |groups| => ResizedGroup(sections, groups[g]))
  }

  function ResizedSections(sections: seq<Section>): (r: seq<Section>)
    ensures |r| == |sections|
  {
    seq(|sections|, id requires 0 <= id < |sections| => Resized(sections[id]))
  }

  lemma {:induction false} ColumnSnoc(sections: seq<Section>, init: seq<Group>, last: Group, id: nat, p: nat)
    requires Shaped(sections, init) && GroupShaped(sections, last)
    requires id < |sections| && p < |sections[id].parts|
    ensures Column(sections, ResizedAll(sections, init + [last]), id, p) ==
      Column(sections, ResizedAll(sections, init), id, p) + [ResizedRow(sections[id], last.epilogue, last.sizes[id])[p]]
  {
    var groups := init + [last];
    assert ResizedAll(sections, groups) == ResizedAll(sections, init) + [ResizedGroup(sections, last)];
  }

  lemma {:induction false} EpilogueSum(sections: seq<Section>, groups: seq<Group>, id: nat, p: nat)
    requires Shaped(sections, groups) && id < |sections| && p < |sections[id].parts| && sections[id].compressed.Some?
    ensures
      Sum(Column(sections, ResizedAll(sections, groups), id, p)) ==
      if p == |sections[id].parts| - 1 then Epilogues(groups) * sections[id].compressed.value.total else 0
  {
    if groups != [] {
      var init, last := groups[..|groups| - 1], groups[|groups| - 1];
      assert groups == init + [last];
      EpilogueSum(sections, init, id, p);
      ColumnSnoc(sections, init, last, id, p);
      SumSnoc(
        Column(sections, ResizedAll(sections, init), id, p),
          ResizedRow(sections[id], last.epilogue, last.sizes[id])[p]);
      var n, total := Epilogues(init), sections[id].compressed.value.total;
      assert ResizedRow(sections[id], last.epilogue, last.sizes[id])[p] ==
             EpilogueShare(sections[id].compressed.value, last.epilogue && p == |sections[id].parts| - 1);
      assert (n + 1) * total == n * total + total;
    }
  }

  /** Together the groups have what the part has. */
  ghost predicate Covers(sections: seq<Section>, groups: seq<Group>, id: nat, p: nat)
    requires Shaped(sections, groups) && id < |sections| && p < |sections[id].parts|
  {
    Sum(Column(sections, groups, id, p)) == sections[id].parts[p].fileSize
  }

  lemma {:induction false} ResizedShaped(sections: seq<Section>, groups: seq<Group>)
    requires Shaped(sections, groups)
    ensures Shaped(ResizedSections(sections), ResizedAll(sections, groups))
  {
  }

  /**
    * The new sizes of groups add up to those of a compressed section's parts exactly if one group
    * has the epilogue; those of other sections still add up as they did.
    */
  lemma {:induction false} ResizedCovers(sections: seq<Section>, groups: seq<Group>, id: nat, p: nat)
    requires Shaped(sections, groups) && id < |sections| && p < |sections[id].parts|
    ensures Shaped(ResizedSections(sections), ResizedAll(sections, groups))
    ensures sections[id].compressed.None? ==>
      (Covers(ResizedSections(sections), ResizedAll(sections, groups), id, p) <==> Covers(sections, groups, id, p))
    ensures sections[id].compressed.Some? && p < |sections[id].parts| - 1 ==>
      Covers(ResizedSections(sections), ResizedAll(sections, groups), id, p)
    ensures
      sections[id].compressed.Some? && sections[id].compressed.value.total > 0 && p == |sections[id].parts| - 1 ==>
      (Covers(ResizedSections(sections), ResizedAll(sections, groups), id, p) <==> Epilogues(groups) == 1)
  {
    ResizedShaped(sections, groups);
    var after := ResizedAll(sections, groups);
    var column := Column(ResizedSections(sections), after, id, p);
    if sections[id].compressed.None? {
      assert column == Column(sections, groups, id, p);
    } else {
      EpilogueSum(sections, groups, id, p);
      assert column == Column(sections, after, id, p);
      var n, total := Epilogues(groups), sections[id].compressed.value.total;
      if n >= 2 && total > 0 {
        MulMonotone(2, n, total);
      }
    }
  }

  // ----- New offsets -----

  /** The parts of a section that starts at `start`, one after the other. */
  function PlacedParts(parts: seq<Part>, start: nat): (r: seq<Part>)
    ensures |r| == |parts|
  {
    seq(|parts|, p requires 0 <= p < |parts| => Part(start + Sum(PartSizes(parts)[..p]), parts[p].fileSize))
  }

  function Placed(sec: Section, start: nat): Section {
    sec.(fileOffset := start, fileSize := TotalSize(sec.parts), parts := PlacedParts(sec.parts, start))
  }

  ghost predicate AllAligned(sections: seq<Section>) {
    forall id :: 0 <= id < |sections| ==> sections[id].alignment > 0
  }

  /** Every section comes exactly once in the output order. */
  ghost predicate OrderOk(order: seq<Event>, count: nat) {
    && (forall k :: 0 <= k < |order| && order[k].SectionAt? ==> order[k].id < count)
    && (forall j, k :: 0 <= j < k < |order| && order[j].SectionAt? && order[k].SectionAt? ==>
      order[j].id != order[k].id)
    && forall id :: 0 <= id < count ==> Occurs(order, id)
  }

  ghost predicate Occurs(order: seq<Event>, id: int) {
    exists k :: 0 <= k < |order| && order[k].SectionAt? && order[k].id == id
  }

  /** The end of what the first `k` events place. */
  ghost function EndAfter(order: seq<Event>, sections: seq<Section>, k: nat): nat
    requires k <= |order| && OrderOk(order, |sections|) && AllAligned(sections)
    decreases k, 0
  {
    if k == 0 then 0
    else if order[k - 1].SectionAt? then StartAt(order, sections, k - 1) + TotalSize(sections[order[k - 1].id].parts)
    else EndAfter(order, sections, k - 1)
  }

  /** Where event `k` starts: as soon as its alignment allows. */
  ghost function StartAt(order: seq<Event>, sections: seq<Section>, k: nat): nat
    requires k < |order| && OrderOk(order, |sections|) && AllAligned(sections)
    decreases k, 1
  {
    var end := EndAfter(order, sections, k);
    if order[k].SectionAt? then
      NextMultipleIsLeast(end, sections[order[k].id].alignment);
      NextMultiple(end, sections[order[k].id].alignment)
    else end
  }

  /** How many segments have been matched before event `k`. */
  function Matched(order: seq<Event>, segments: seq<Segment>, k: nat): (n: nat)
    requires k <= |order|
    ensures n <= |segments|
  {
    if k == 0 then 0
    else
      var n := Matched(order, segments, k - 1);
      if Starts(order[k - 1], segments, n) then n + 1 else n
  }

  predicate Starts(e: Event, segments: seq<Segment>, n: nat) {
    n < |segments| && e.SegmentStart? && e.segment == segments[n].id
  }

  /** The segment that starts at event `k`, if one does, is where it was. */
  ghost predicate StaysAt(order: seq<Event>, segments: seq<Segment>, sections: seq<Section>, k: int)
    requires 0 <= k < |order| && OrderOk(order, |sections|) && AllAligned(sections)
  {
    var n := Matched(order, segments, k);
    Starts(order[k], segments, n) ==> segments[n].fileOffset == EndAfter(order, sections, k)
  }

  /** How many segments start before event `k`. */
  function StartsBefore(order: seq<Event>, k: nat): nat
    requires k <= |order|
  {
    if k == 0 then 0 else StartsBefore(order, k - 1) + if order[k - 1].SegmentStart? then 1 else 0
  }

  /** The segments are those of the output order, in that order. */
  ghost predicate SegmentsInOrder(order: seq<Event>, segments: seq<Segment>) {
    forall k {:trigger StartsBefore(order, k)} :: 0 <= k < |order| && order[k].SegmentStart? ==>
      StartsBefore(order, k) < |segments| && segments[StartsBefore(order, k)].id == order[k].segment
  }

  lemma {:induction false} MatchedInOrder(order: seq<Event>, segments: seq<Segment>, k: nat)
    requires SegmentsInOrder(order, segments) && k <= |order|
    ensures Matched(order, segments, k) == StartsBefore(order, k)
  {
    if k > 0 {
      MatchedInOrder(order, segments, k - 1);
    }
  }

  /** Then each segment is compared with the end of everything placed before it. */
  lemma {:induction false} SegmentStaysIff(order: seq<Event>, segments: seq<Segment>, sections: seq<Section>, k: nat)
    requires OrderOk(order, |sections|) && AllAligned(sections) && SegmentsInOrder(order, segments) && k < |order|
    ensures StaysAt(order, segments, sections, k) <==>
      (order[k].SegmentStart? ==> segments[StartsBefore(order, k)].fileOffset == EndAfter(order, sections, k))
  {
    MatchedInOrder(order, segments, k);
  }

  ghost predicate LaidOut(order: seq<Event>, before: seq<Section>, after: seq<Section>)
    requires OrderOk(order, |before|) && AllAligned(before)
  {
    |after| == |before| && LaidOutTo(order, before, after, |order|)
  }

  ghost predicate LaidOutTo(order: seq<Event>, before: seq<Section>, after: seq<Section>, n: nat)
    requires OrderOk(order, |before|) && AllAligned(before) && |after| == |before| && n <= |order|
  {
    forall k {:trigger order[k]} :: 0 <= k < n && order[k].SectionAt? ==>
      after[order[k].id] == Placed(before[order[k].id], StartAt(order, before, k))
  }

  method PlaceParts(parts: seq<Part>, start: nat) returns (placed: seq<Part>, end: nat)
    ensures placed == PlacedParts(parts, start) && end == start + TotalSize(parts)
  {
    placed, end := [], start;
    for p := 0 to |parts|
      invariant |placed| == p && end == start + Sum(PartSizes(parts)[..p])
      invariant forall q :: 0 <= q < p ==> placed[q] == PlacedParts(parts, start)[q]
    {
      placed := placed + [Part(end, parts[p].fileSize)];
      assert PartSizes(parts)[..p + 1][..p] == PartSizes(parts)[..p];
      end := end + parts[p].fileSize;
    }
    assert PartSizes(parts)[..|parts|] == PartSizes(parts);
  }

  class Layout {
    var sections: seq<Section>
    var groups: seq<Group>
    const order: seq<Event>
    const segments: seq<Segment>

    constructor (sections: seq<Section>, groups: seq<Group>, order: seq<Event>, segments: seq<Segment>)
      ensures this.sections == sections && this.groups == groups && this.order == order && this.segments == segments
    {
      this.sections, this.groups, this.order, this.segments := sections, groups, order, segments;
    }

    method ResizeGroups(id: nat, sec: Section)
      requires forall g :: 0 <= g < |groups| ==> id < |groups[g].sizes|
      modifies this`groups
      ensures |groups| == |old(groups)|
      ensures forall g :: 0 <= g < |groups| ==>
        groups[g] == ResizedIn(old(groups)[g], id, sec)
    {
      for g := 0 to |groups|
        invariant |groups| == |old(groups)|
        invariant forall j :: 0 <= j < g ==>
          groups[j] == ResizedIn(old(groups)[j], id, sec)
        invariant forall j :: g <= j < |groups| ==> groups[j] == old(groups)[j]
      {
        groups := groups[g := ResizedIn(groups[g], id, sec)];
      }
    }

    /** Compressed sections keep one part, and one group to fill it. */
    method UpdateAllocationSizes()
      requires Shaped(sections, groups)
      modifies this
      ensures sections == ResizedSections(old(sections)) && groups == ResizedAll(old(sections), old(groups))
    {
      ghost var secs, grps := sections, groups;
      for id := 0 to |sections|
        invariant |sections| == |secs| && |groups| == |grps|
        invariant forall j :: 0 <= j < |secs| ==> sections[j] == if j < id then Resized(secs[j]) else secs[j]
        invariant forall g :: 0 <= g < |grps| ==> groups[g].epilogue == grps[g].epilogue && |groups[g].sizes| == |secs|
        invariant forall g, j :: 0 <= g < |grps| && 0 <= j < |secs| ==>
          groups[g].sizes[j] ==
            if j < id then ResizedRow(secs[j], grps[g].epilogue, grps[g].sizes[j]) else grps[g].sizes[j]
      {
        var sec := sections[id];
        sections := sections[id := Resized(sec)];
        ResizeGroups(id, sec);
      }
      assert sections == ResizedSections(secs);
      forall g | 0 <= g < |grps|
        ensures groups[g] == ResizedGroup(secs, grps[g])
      {
        assert groups[g].sizes == ResizedGroup(secs, grps[g]).sizes;
      }
    }

    /** Fails exactly if a segment would move; otherwise every section is placed. */
    method UpdateFileOffset() returns (ok: bool)
      requires OrderOk(order, |sections|) && AllAligned(sections)
      modifies this`sections
      ensures ok <==> forall k :: 0 <= k < |order| ==> StaysAt(order, segments, old(sections), k)
      ensures ok ==> LaidOut(order, old(sections), sections)
    {
      ghost var secs := sections;
      var matched: nat, end: nat := 0, 0;
      for k := 0 to |order|
        invariant |sections| == |secs| && matched == Matched(order, segments, k) && end == EndAfter(order, secs, k)
        invariant forall j :: 0 <= j < k ==> StaysAt(order, segments, secs, j)
        invariant LaidOutTo(order, secs, sections, k)
        invariant forall j {:trigger order[j]} :: k <= j < |order| && order[j].SectionAt? ==>
          sections[order[j].id] == secs[order[j].id]
      {
        var e := order[k];
        if Starts(e, segments, matched) {
          if segments[matched].fileOffset != end {
            assert !StaysAt(order, segments, secs, k);
            return false;
          }
          matched := matched + 1;
        } else if e.SectionAt? {
          var sec := sections[e.id];
          var start := NextMultiple(end, sec.alignment);
          assert start == StartAt(order, secs, k);
          var parts;
          parts, end := PlaceParts(sec.parts, start);
          sections := sections[e.id := sec.(fileOffset := start, fileSize := end - start, parts := parts)];
        }
      }
      ok := true;
    }
  }

  lemma {:induction false} EndsAscend(order: seq<Event>, sections: seq<Section>, j: nat, k: nat)
    requires j <= k <= |order| && OrderOk(order, |sections|) && AllAligned(sections)
    ensures EndAfter(order, sections, j) <= EndAfter(order, sections, k)
  {
    if j < k {
      EndsAscend(order, sections, j, k - 1);
      if order[k - 1].SectionAt? {
        NextMultipleIsLeast(EndAfter(order, sections, k - 1), sections[order[k - 1].id].alignment);
      }
    }
  }

  /** Sections follow each other in output order, aligned, and as large as their parts together. */
  lemma {:induction false} SectionsFollow(order: seq<Event>, before: seq<Section>, after: seq<Section>, j: nat, k: nat)
    requires OrderOk(order, |before|) && AllAligned(before) && LaidOut(order, before, after)
    requires j < k < |order| && order[j].SectionAt? && order[k].SectionAt?
    ensures
      var a, b := after[order[j].id], after[order[k].id];
      && a.fileOffset + a.fileSize <= b.fileOffset
      && b.fileOffset % b.alignment == 0 && b.fileSize == TotalSize(b.parts)
  {
    var a, b := order[j].id, order[k].id;
    EndsAscend(order, before, j + 1, k);
    NextMultipleIsLeast(EndAfter(order, before, k), before[b].alignment);
    assert PartSizes(after[b].parts) == PartSizes(before[b].parts);
  }

  /** No section starts between events `j` and `k`. */
  ghost predicate NoneBetween(order: seq<Event>, j: int, k: nat)
    requires -1 <= j < k <= |order|
  {
    forall m :: j < m < k ==> !order[m].SectionAt?
  }

  lemma {:induction false} EndKept(order: seq<Event>, sections: seq<Section>, j: int, k: nat)
    requires -1 <= j < k <= |order| && OrderOk(order, |sections|) && AllAligned(sections) && NoneBetween(order, j, k)
    ensures EndAfter(order, sections, k) == EndAfter(order, sections, j + 1)
    decreases k
  {
    if j + 1 < k {
      EndKept(order, sections, j, k - 1);
    }
  }

  /** The first section starts the file, and each next one as early as its alignment allows. */
  lemma {:induction false} SectionsAreTight(
      order: seq<Event>, before: seq<Section>, after: seq<Section>, j: int, k: nat)
    requires OrderOk(order, |before|) && AllAligned(before) && LaidOut(order, before, after)
    requires -1 <= j < k < |order| && order[k].SectionAt? && NoneBetween(order, j, k)
    requires j >= 0 ==> order[j].SectionAt?
    ensures
      var b := after[order[k].id];
      var end := if j < 0 then 0 else after[order[j].id].fileOffset + after[order[j].id].fileSize;
      && end <= b.fileOffset < end + b.alignment && b.fileOffset % b.alignment == 0
  {
    var b := order[k].id;
    EndKept(order, before, j, k);
    NextMultipleIsLeast(EndAfter(order, before, k), before[b].alignment);
    if j >= 0 {
      assert after[order[j].id] == Placed(before[order[j].id], StartAt(order, before, j));
    }
  }

  // ----- Splitting the output -----

  datatype Alloc = Alloc(id: nat, offset: nat, size: nat) {
    function End(): nat {
      offset + size
    }
  }

  predicate Before(a: Alloc, b: Alloc) {
    a.offset < b.offset || (a.offset == b.offset && a.End() <= b.End())
  }

  function Insert(s: seq<Alloc>, a: Alloc): seq<Alloc> {
    if s == [] || Before(s[|s| - 1], a) then s + [a] else Insert(s[..|s| - 1], a) + [s[|s| - 1]]
  }

  /** The stable sort by offset, then by end. */
  function Sorted(s: seq<Alloc>): seq<Alloc> {
    if s == [] then [] else Insert(Sorted(s[..|s| - 1]), s[|s| - 1])
  }

  ghost predicate Separate(a: Alloc, b: Alloc) {
    a.End() <= b.offset || b.End() <= a.offset
  }

  ghost predicate AllSeparate(s: seq<Alloc>) {
    forall i, j :: 0 <= i < j < |s| ==> Separate(s[i], s[j])
  }

  /** Each ends before the next begins. */
  ghost predicate Chained(s: seq<Alloc>) {
    forall i, j :: 0 <= i < j < |s| ==> s[i].End() <= s[j].offset
  }

  /** Of two separate ranges, the one that sorts first also ends first, even where one is empty. */
  lemma {:induction false} SeparateBefore(a: Alloc, b: Alloc)
    requires Separate(a, b)
    ensures Before(a, b) ==> a.End() <= b.offset
    ensures !Before(a, b) ==> b.End() <= a.offset
  {
  }

  lemma {:induction false} ChainedSnoc(s: seq<Alloc>, a: Alloc)
    requires Chained(s) && forall i :: 0 <= i < |s| ==> s[i].End() <= a.offset
    ensures Chained(s + [a])
  {
  }

  lemma {:induction false} InsertMultiset(s: seq<Alloc>, a: Alloc)
    ensures multiset(Insert(s, a)) == multiset(s) + multiset{a}
  {
    if s != [] && !Before(s[|s| - 1], a) {
      InsertMultiset(s[..|s| - 1], a);
      assert s == s[..|s| - 1] + [s[|s| - 1]];
    }
  }

  lemma {:induction false} InsertChained(s: seq<Alloc>, a: Alloc)
    requires Chained(s) && forall i :: 0 <= i < |s| ==> Separate(s[i], a)
    ensures Chained(Insert(s, a))
  {
    if s != [] {
      var init, last := s[..|s| - 1], s[|s| - 1];
      SeparateBefore(last, a);
      if Before(last, a) {
        forall i | 0 <= i < |s|
          ensures s[i].End() <= a.offset
        {
          assert i < |s| - 1 ==> s[i].End() <= s[|s| - 1].offset;
        }
        ChainedSnoc(s, a);
      } else {
        InsertChained(init, a);
        InsertMultiset(init, a);
        InsertedBefore(init, a, Insert(init, a), last);
        ChainedSnoc(Insert(init, a), last);
      }
    }
  }

  lemma {:induction false} InsertedBefore(init: seq<Alloc>, a: Alloc, r: seq<Alloc>, last: Alloc)
    requires multiset(r) == multiset(init) + multiset{a} && a.End() <= last.offset
    requires forall i :: 0 <= i < |init| ==> init[i].End() <= last.offset
    ensures forall i :: 0 <= i < |r| ==> r[i].End() <= last.offset
  {
    forall i | 0 <= i < |r|
      ensures r[i].End() <= last.offset
    {
      assert r[i] in multiset(r);
      if r[i] != a {
        var j :| 0 <= j < |init| && init[j] == r[i];
      }
    }
  }

  lemma {:induction false} SortedChained(s: seq<Alloc>)
    requires AllSeparate(s)
    ensures Chained(Sorted(s)) && multiset(Sorted(s)) == multiset(s)
  {
    if s != [] {
      var init, last := s[..|s| - 1], s[|s| - 1];
      assert s == init + [last];
      SortedChained(init);
      var r := Sorted(init);
      forall i | 0 <= i < |r|
        ensures Separate(r[i], last)
      {
        assert r[i] in multiset(r);
        var j :| 0 <= j < |init| && init[j] == r[i];
        assert Separate(s[j], s[|s| - 1]);
      }
      InsertChained(r, last);
      InsertMultiset(r, last);
    }
  }

  function Allocs(sections: seq<Section>): (s: seq<Alloc>)
    ensures |s| == |sections|
  {
    seq(|sections|, id requires 0 <= id < |sections| => Alloc(id, sections[id].fileOffset, sections[id].fileSize))
  }

  /** A range of the output file. */
  datatype Slice = Slice(start: nat, size: nat)

  function EndBefore(s: seq<Alloc>, k: nat): nat
    requires k <= |s|
  {
    if k == 0 then 0 else s[k - 1].End()
  }

  /** Padding `k` goes from the end of one section to the start of the next. */
  ghost predicate Pads(s: seq<Alloc>, padding: seq<Slice>) {
    && |padding| == |s|
    && forall k {:trigger PadAt(s, padding, k)} :: 0 <= k < |s| ==> PadAt(s, padding, k)
  }

  ghost predicate PadAt(s: seq<Alloc>, padding: seq<Slice>, k: int)
    requires 0 <= k < |s| && k < |padding|
  {
    padding[k].start == EndBefore(s, k) && padding[k].start + padding[k].size == s[k].offset
  }

  ghost predicate TakenAt(s: seq<Alloc>, data: map<nat, Slice>, k: int)
    requires 0 <= k < |s|
  {
    s[k].id in data && data[s[k].id] == Slice(s[k].offset, s[k].size)
  }

  ghost predicate DistinctIds(s: seq<Alloc>) {
    forall i, j :: 0 <= i < j < |s| ==> s[i].id != s[j].id
  }

  /** Takes the ranges out of the output one after the other. */
  method SplitSorted(s: seq<Alloc>, length: nat) returns (data: map<nat, Slice>, padding: seq<Slice>)
    requires Chained(s) && DistinctIds(s) && forall k :: 0 <= k < |s| ==> s[k].End() <= length
    ensures Pads(s, padding)
    ensures forall k {:trigger TakenAt(s, data, k)} :: 0 <= k < |s| ==> TakenAt(s, data, k)
  {
    data, padding := map[], [];
    var offset: nat := 0;
    var rest: nat := length;
    for k := 0 to |s|
      invariant offset == EndBefore(s, k) && offset + rest == length && |padding| == k
      invariant forall j {:trigger PadAt(s, padding, j)} :: 0 <= j < k ==> PadAt(s, padding, j)
      invariant forall j {:trigger TakenAt(s, data, j)} :: 0 <= j < k ==> TakenAt(s, data, j)
    {
      assert k > 0 ==> s[k - 1].End() <= s[k].offset;
      var gap: nat := s[k].offset - offset;
      var left: nat := rest - gap;
      ghost var padded, taken := padding, data;
      padding := padding + [Slice(offset, gap)];
      data := data[s[k].id := Slice(s[k].offset, s[k].size)];
      forall j | 0 <= j <= k
        ensures PadAt(s, padding, j) && TakenAt(s, data, j)
      {
        assert j < k ==> PadAt(s, padded, j) && TakenAt(s, taken, j) && s[j].id != s[k].id;
      }
      rest := left - s[k].size;
      offset := s[k].offset + s[k].size;
    }
  }

  /**
    * Offsets never go backward, so paddings and sections tile the file up to the end of the last
    * section, and each section gets its own range.
    */
  method SplitOutputIntoSections(sections: seq<Section>, length: nat)
    returns (data: map<nat, Slice>, padding: seq<Slice>, ghost sorted: seq<Alloc>)
    requires AllSeparate(Allocs(sections))
    requires forall id :: 0 <= id < |sections| ==> sections[id].fileOffset + sections[id].fileSize <= length
    ensures Chained(sorted) && multiset(sorted) == multiset(Allocs(sections)) && Pads(sorted, padding)
    ensures forall id :: 0 <= id < |sections| ==>
      id in data && data[id] == Slice(sections[id].fileOffset, sections[id].fileSize)
  {
    var allocs := Sorted(Allocs(sections));
    sorted := allocs;
    SortedChained(Allocs(sections));
    SortedIds(sections, allocs);
    data, padding := SplitSorted(allocs, length);
    forall id | 0 <= id < |sections|
      ensures id in data && data[id] == Slice(sections[id].fileOffset, sections[id].fileSize)
    {
      assert Allocs(sections)[id] in multiset(Allocs(sections));
      assert Allocs(sections)[id] in multiset(allocs);
      var k :| 0 <= k < |allocs| && allocs[k] == Allocs(sections)[id];
      assert TakenAt(allocs, data, k);
    }
  }

  lemma {:induction false} SortedIds(sections: seq<Section>, sorted: seq<Alloc>)
    requires multiset(sorted) == multiset(Allocs(sections))
    ensures forall j :: 0 <= j < |sorted| ==> sorted[j].id < |sections| && sorted[j] == Allocs(sections)[sorted[j].id]
    ensures DistinctIds(sorted)
  {
    var allocs := Allocs(sections);
    forall j | 0 <= j < |sorted|
      ensures sorted[j].id < |sections| && sorted[j] == allocs[sorted[j].id]
    {
      assert sorted[j] in multiset(sorted);
      var id :| 0 <= id < |allocs| && allocs[id] == sorted[j];
    }
    forall i, j | 0 <= i < j < |sorted|
      ensures sorted[i].id != sorted[j].id
    {
      if sorted[i].id == sorted[j].id {
        RepeatedInMultiset(sorted, i, j);
        OnceInMultiset(sections, sorted[i]);
      }
    }
  }

  lemma {:induction false} OnceInMultiset(sections: seq<Section>, a: Alloc)
    requires a in Allocs(sections)
    ensures multiset(Allocs(sections))[a] == 1
  {
    var s := Allocs(sections);
    var i: nat :| i < |s| && s[i] == a;
    assert s == s[..i] + [s[i]] + s[i + 1..];
    assert a !in s[..i] && a !in s[i + 1..];
  }

  /** What `UpdateFileOffset` leaves behind is what splitting asks for. */
  lemma {:induction false} LaidOutSeparate(order: seq<Event>, before: seq<Section>, after: seq<Section>)
    requires OrderOk(order, |before|) && AllAligned(before) && LaidOut(order, before, after)
    ensures AllSeparate(Allocs(after))
  {
    var s := Allocs(after);
    forall i, j | 0 <= i < j < |s|
      ensures Separate(s[i], s[j])
    {
      assert Occurs(order, i) && Occurs(order, j);
      var k: nat :| k < |order| && order[k].SectionAt? && order[k].id == i;
      var l: nat :| l < |order| && order[l].SectionAt? && order[l].id == j;
      if k < l {
        SectionsFollow(order, before, after, k, l);
      } else {
        SectionsFollow(order, before, after, l, k);
      }
    }
  }

  lemma {:induction false} LaidOutWithin(order: seq<Event>, before: seq<Section>, after: seq<Section>, id: nat)
    requires OrderOk(order, |before|) && AllAligned(before) && LaidOut(order, before, after) && id < |before|
    ensures after[id].fileOffset + after[id].fileSize <= EndAfter(order, before, |order|)
  {
    assert Occurs(order, id);
    var k: nat :| k < |order| && order[k].SectionAt? && order[k].id == id;
    EndsAscend(order, before, k + 1, |order|);
  }

  // ----- Parts, groups and chunks -----

  /** Pieces of the given sizes from the front of a slice, and how much is left. */
  method SplitSlice(slice: Slice, sizes: seq<nat>) returns (pieces: seq<Slice>, rest: nat)
    requires Sum(sizes) <= slice.size
    ensures |pieces| == |sizes| && rest == slice.size - Sum(sizes)
    ensures forall k :: 0 <= k < |sizes| ==> pieces[k] == Slice(slice.start + Sum(sizes[..k]), sizes[k])
  {
    pieces := [];
    var start: nat := slice.start;
    rest := slice.size;
    for k := 0 to |sizes|
      invariant |pieces| == k && start == slice.start + Sum(sizes[..k]) && rest == slice.size - Sum(sizes[..k])
      invariant forall j :: 0 <= j < k ==> pieces[j] == Slice(slice.start + Sum(sizes[..j]), sizes[j])
    {
      assert sizes[..k + 1][..k] == sizes[..k];
      SumMonotone(sizes, k + 1, |sizes|);
      assert sizes[..|sizes|] == sizes;
      pieces := pieces + [Slice(start, sizes[k])];
      start, rest := start + sizes[k], rest - sizes[k];
    }
    assert sizes[..|sizes|] == sizes;
  }

  /** Every part of a placed section gets the bytes at its own file offset, with none left over. */
  method SplitByAlignment(sec: Section, start: nat) returns (pieces: seq<Slice>)
    ensures
      var placed := Placed(sec, start);
      && |pieces| == |placed.parts|
      && (forall p :: 0 <= p < |pieces| ==> pieces[p] == Slice(placed.parts[p].fileOffset, placed.parts[p].fileSize))
      && (pieces != [] ==> pieces[|pieces| - 1].start + pieces[|pieces| - 1].size == start + placed.fileSize)
  {
    var sizes, rest := PartSizes(sec.parts), 0;
    pieces, rest := SplitSlice(Slice(start, TotalSize(sec.parts)), sizes);
    if sizes != [] {
      assert sizes[..|sizes| - 1] + [sizes[|sizes| - 1]] == sizes;
    }
  }

  /** Groups whose sizes add up to the part's share it among them, in order and completely. */
  method SplitByGroup(
      sections: seq<Section>, groups: seq<Group>, id: nat, p: nat)
    returns (pieces: seq<Slice>, rest: nat)
    requires Shaped(sections, groups) && id < |sections| && p < |sections[id].parts| && Covers(sections, groups, id, p)
    ensures |pieces| == |groups| && rest == 0
    ensures forall g :: 0 <= g < |groups| ==>
      pieces[g] ==
        Slice(sections[id].parts[p].fileOffset + Sum(Column(sections, groups, id, p)[..g]), groups[g].sizes[id][p])
  {
    var part := sections[id].parts[p];
    pieces, rest := SplitSlice(Slice(part.fileOffset, part.fileSize), Column(sections, groups, id, p));
  }

  /** A compressed section is as large as its chunks, and its last part is all of it. */
  lemma {:induction false} CompressedSize(sec: Section, start: nat)
    requires SectionOk(sec) && sec.compressed.Some?
    ensures
      var placed, last := Placed(Resized(sec), start), |sec.parts| - 1;
      && placed.fileSize == placed.parts[last].fileSize == Sum(ChunkSizes(sec.compressed.value.chunks))
      && placed.parts[last].fileOffset == start
  {
    var parts, last := ResizedParts(sec), |sec.parts| - 1;
    var sizes := PartSizes(parts);
    assert sizes == sizes[..last] + [sec.compressed.value.total];
    SumZeros(sizes[..last]);
    SumSnoc(sizes[..last], sec.compressed.value.total);
  }

  lemma {:induction false} OneEpilogue(groups: seq<Group>, e: nat, g: nat)
    requires Epilogues(groups) == 1 && e < |groups| && groups[e].epilogue && g < |groups| && g != e
    ensures !groups[g].epilogue
  {
    if groups[g].epilogue {
      TwoEpilogues(groups, if e < g then e else g, if e < g then g else e);
    }
  }

  lemma {:induction false} TwoEpilogues(groups: seq<Group>, i: nat, j: nat)
    requires i < j < |groups| && groups[i].epilogue && groups[j].epilogue
    ensures Epilogues(groups) >= 2
  {
    var init := groups[..|groups| - 1];
    if j < |groups| - 1 {
      TwoEpilogues(init, i, j);
    } else {
      AnEpilogue(init, i);
    }
  }

  lemma {:induction false} AnEpilogue(groups: seq<Group>, i: nat)
    requires i < |groups| && groups[i].epilogue
    ensures Epilogues(groups) >= 1
  {
    if i < |groups| - 1 {
      AnEpilogue(groups[..|groups| - 1], i);
    }
  }

  /** The epilogue's share of a compressed section is the whole section, and exactly its chunks. */
  lemma {:induction false} EpilogueHasSection(sections: seq<Section>, groups: seq<Group>, id: nat, e: nat, start: nat)
    requires Shaped(sections, groups) && id < |sections| && sections[id].compressed.Some?
    requires Epilogues(groups) == 1 && e < |groups| && groups[e].epilogue
    ensures
      var placed, last := Placed(Resized(sections[id]), start), |sections[id].parts| - 1;
      var column := Column(sections, ResizedAll(sections, groups), id, last);
      && placed.parts[last].fileOffset + Sum(column[..e]) == placed.fileOffset
      && column[e] == placed.fileSize == Sum(ChunkSizes(sections[id].compressed.value.chunks))
  {
    var last := |sections[id].parts| - 1;
    var column := Column(sections, ResizedAll(sections, groups), id, last);
    CompressedSize(sections[id], start);
    forall g | 0 <= g < e
      ensures column[g] == 0
    {
      OneEpilogue(groups, e, g);
      LastCell(sections, groups, id, g);
    }
    SumZeros(column[..e]);
    LastCell(sections, groups, id, e);
  }

  lemma {:induction false} LastCell(sections: seq<Section>, groups: seq<Group>, id: nat, g: nat)
    requires Shaped(sections, groups) && id < |sections| && sections[id].compressed.Some? && g < |groups|
    ensures
      Column(sections, ResizedAll(sections, groups), id, |sections[id].parts| - 1)[g] ==
      EpilogueShare(sections[id].compressed.value, groups[g].epilogue)
  {
    assert GroupShaped(sections, groups[g]);
    var row := ResizedRow(sections[id], groups[g].epilogue, groups[g].sizes[id]);
    assert ResizedAll(sections, groups)[g].sizes[id] == row;
    assert row[|row| - 1] == EpilogueShare(sections[id].compressed.value, groups[g].epilogue);
  }

  method CopyChunk(chunk: seq<byte>, out: array<byte>, pos: nat)
    requires pos + |chunk| <= out.Length
    modifies out
    ensures out[..] == old(out[..pos]) + chunk + old(out[pos + |chunk|..])
  {
    for k := 0 to |chunk|
      invariant forall j :: 0 <= j < out.Length ==> out[j] == if pos <= j < pos + k then chunk[j - pos] else old(out[j])
    {
      out[pos + k] := chunk[k];
    }
  }

  lemma {:induction false} ConcatSnoc(chunks: seq<seq<byte>>, c: nat)
    requires c < |chunks|
    ensures Concat(chunks[..c + 1]) == Concat(chunks[..c]) + chunks[c]
    decreases c
  {
    if c == 0 {
      assert chunks[..1] == [chunks[0]] && chunks[..1][1..] == [] && chunks[..0] == [];
    } else {
      ConcatSnoc(chunks[1..], c - 1);
      assert chunks[1..][..c] == chunks[..c + 1][1..] && chunks[1..][..c - 1] == chunks[..c][1..];
    }
  }

  lemma {:induction false} ConcatSize(chunks: seq<seq<byte>>, c: nat)
    requires c <= |chunks|
    ensures |Concat(chunks[..c])| == Sum(ChunkSizes(chunks)[..c])
  {
    if c > 0 {
      ConcatSize(chunks, c - 1);
      ConcatSnoc(chunks, c - 1);
      assert ChunkSizes(chunks)[..c][..c - 1] == ChunkSizes(chunks)[..c - 1];
    }
  }

  lemma {:induction false} NextChunk(chunks: seq<seq<byte>>, c: nat)
    requires c < |chunks|
    ensures Concat(chunks[..c + 1]) == Concat(chunks[..c]) + chunks[c]
    ensures |Concat(chunks[..c])| == Sum(ChunkSizes(chunks)[..c])
    ensures Sum(ChunkSizes(chunks)[..c + 1]) == Sum(ChunkSizes(chunks)[..c]) + |chunks[c]| <= Sum(ChunkSizes(chunks))
  {
    ConcatSnoc(chunks, c);
    ConcatSize(chunks, c);
    assert ChunkSizes(chunks)[..c + 1][..c] == ChunkSizes(chunks)[..c];
    SumMonotone(ChunkSizes(chunks), c + 1, |chunks|);
    assert ChunkSizes(chunks)[..|chunks|] == ChunkSizes(chunks);
  }

  lemma {:induction false} Spliced(
      was: seq<byte>, start: nat, done: seq<byte>, pos: nat, chunk: seq<byte>, current: seq<byte>, next: seq<byte>)
    requires start + |done| == pos && pos + |chunk| <= |was| && current == was[..start] + done + was[pos..]
    requires next == current[..pos] + chunk + current[pos + |chunk|..]
    ensures next == was[..start] + (done + chunk) + was[pos + |chunk|..]
  {
    assert current[..pos] == was[..start] + done;
    assert current[pos + |chunk|..] == was[pos + |chunk|..];
  }

  /** Fills exactly the slice with the chunks, one after the other, and touches nothing else. */
  method WriteCompressed(chunks: seq<seq<byte>>, slice: Slice, out: array<byte>)
    requires slice.size == Sum(ChunkSizes(chunks)) && slice.start + slice.size <= out.Length
    modifies out
    ensures out[..] == old(out[..slice.start]) + Concat(chunks) + old(out[slice.start + slice.size..])
  {
    ghost var was, done := out[..], [];
    var pos := slice.start;
    for c := 0 to |chunks|
      invariant pos == slice.start + Sum(ChunkSizes(chunks)[..c]) <= out.Length
      invariant done == Concat(chunks[..c]) && pos == slice.start + |done|
      invariant out[..] == was[..slice.start] + done + was[pos..]
    {
      NextChunk(chunks, c);
      ghost var current := out[..];
      CopyChunk(chunks[c], out, pos);
      Spliced(was, slice.start, done, pos, chunks[c], current, out[..]);
      pos, done := pos + |chunks[c]|, done + chunks[c];
    }
    assert chunks[..|chunks|] == chunks && ChunkSizes(chunks)[..|chunks|] == ChunkSizes(chunks);
  }

  /**
    * After compression: new sizes, new offsets, and then the output split by section and a compressed
    * section's last part split by group. The epilogue group `e` is handed exactly the section.
    */
  method SplitCompressed(layout: Layout, length: nat, id: nat, e: nat)
    returns (ok: bool, data: map<nat, Slice>, padding: seq<Slice>, share: Slice)
    requires Shaped(layout.sections, layout.groups) && OrderOk(layout.order, |layout.sections|)
    requires EndAfter(layout.order, ResizedSections(layout.sections), |layout.order|) <= length
    requires id < |layout.sections| && layout.sections[id].compressed.Some? &&
      layout.sections[id].compressed.value.total > 0
    requires Epilogues(layout.groups) == 1 && e < |layout.groups| && layout.groups[e].epilogue
    modifies layout
    ensures ok ==> LaidOut(layout.order, ResizedSections(old(layout.sections)), layout.sections)
    ensures ok ==> id in data && share == data[id]
    ensures ok ==>
      share == Slice(layout.sections[id].fileOffset, Sum(ChunkSizes(old(layout.sections)[id].compressed.value.chunks)))
  {
    ghost var secs, grps := layout.sections, layout.groups;
    var order, last := layout.order, |layout.sections[id].parts| - 1;
    layout.UpdateAllocationSizes();
    ghost var resized := layout.sections;
    ok := layout.UpdateFileOffset();
    data, padding, share := map[], [], Slice(0, 0);
    if ok {
      LaidOutSeparate(order, resized, layout.sections);
      forall j | 0 <= j < |layout.sections|
        ensures layout.sections[j].fileOffset + layout.sections[j].fileSize <= length
      {
        LaidOutWithin(order, resized, layout.sections, j);
      }
      ghost var sorted;
      data, padding, sorted := SplitOutputIntoSections(layout.sections, length);
      var start := layout.sections[id].fileOffset;
      PlacedAs(order, resized, layout.sections, id);
      ShareOf(secs, grps, layout.sections, id, e, start);
      var part := layout.sections[id].parts[last];
      var column := Column(layout.sections, layout.groups, id, last);
      var pieces, rest := SplitSlice(Slice(part.fileOffset, part.fileSize), column);
      share := pieces[e];
    }
  }

  lemma {:induction false} PlacedAs(order: seq<Event>, before: seq<Section>, after: seq<Section>, id: nat)
    requires OrderOk(order, |before|) && AllAligned(before) && LaidOut(order, before, after) && id < |before|
    ensures after[id] == Placed(before[id], after[id].fileOffset)
  {
    assert Occurs(order, id);
    var k: nat :| k < |order| && order[k].SectionAt? && order[k].id == id;
  }

  lemma {:induction false} ShareOf(
      sections: seq<Section>, groups: seq<Group>, after: seq<Section>, id: nat, e: nat, start: nat)
    requires Shaped(sections, groups) && id < |sections| == |after|
    requires sections[id].compressed.Some? && sections[id].compressed.value.total > 0
    requires Epilogues(groups) == 1 && e < |groups| && groups[e].epilogue
    requires after[id] == Placed(Resized(sections[id]), start)
    ensures forall g :: 0 <= g < |groups| ==>
      |ResizedAll(sections, groups)[g].sizes| == |after| &&
        |ResizedAll(sections, groups)[g].sizes[id]| == |after[id].parts|
    ensures
      var last := |sections[id].parts| - 1;
      var column := Column(after, ResizedAll(sections, groups), id, last);
      && Sum(column) == after[id].parts[last].fileSize
      && after[id].parts[last].fileOffset + Sum(column[..e]) == start
      && column[e] == after[id].fileSize == Sum(ChunkSizes(sections[id].compressed.value.chunks))
  {
    var last, resized := |sections[id].parts| - 1, ResizedAll(sections, groups);
    assert forall g :: 0 <= g < |groups| ==> GroupShaped(sections, groups[g]);
    assert Column(after, resized, id, last) == Column(sections, resized, id, last);
    EpilogueHasSection(sections, groups, id, e, start);
    EpilogueSum(sections, groups, id, last);
    CompressedSize(sections[id], start);
  }
}
