/** The `.riscv.attributes` section: its size, its bytes and the parser that reads it back. */
module RiscvAttributes {
  import opened Machine
  import opened Wrappers

  type u64 = x: int | 0 <= x < 0x1_0000_0000_0000_0000

  /** One entry of the architecture map, in map order. */
  datatype Extension = Extension(name: seq<byte>, major: u64, minor: u64)

  datatype Attribute =
    | StackAlign(align: u64)
    | Arch(extensions: seq<Extension>)
    | UnalignedAccess(access: bool)
    | PrivilegedSpecMajor(version: u64)
    | PrivilegedSpecMinor(version: u64)
    | PrivilegedSpecRevision(version: u64)

  const UNDERSCORE: byte := 95
  const LETTER_P: byte := 112
  const VENDOR: seq<byte> := [114, 105, 115, 99, 118]

  // ----- Numbers -----

  function Uleb(n: nat): (r: seq<byte>)
    ensures |r| > 0
  {
    if n < 128 then [n] else [128 + n % 128] + Uleb(n / 128)
  }

  /** Reads the bytes from the `k`-th on; the tenth may only be 0 or 1. */
  function ReadUlebFrom(s: seq<byte>, k: nat): (r: Option<(nat, seq<byte>)>)
    ensures r.Some? ==> |r.value.1| < |s|
  {
    if s == [] || (k == 9 && s[0] > 1) then None
    else if s[0] < 128 then Some((s[0], s[1..]))
    else
      match ReadUlebFrom(s[1..], k + 1)
      case None => None
      case Some((high, rest)) => Some((s[0] - 128 + 128 * high, rest))
  }

  function ReadUleb(s: seq<byte>): (r: Option<(nat, seq<byte>)>)
    ensures r.Some? ==> |r.value.1| < |s|
  {
    ReadUlebFrom(s, 0)
  }

  /** Values from the `k`-th byte on stay below this. */
  function Limit(k: nat): nat
    requires k <= 9
    decreases 9 - k
  {
    if k == 9 then 2 else 128 * Limit(k + 1)
  }

  lemma {:induction false} LimitIs()
    ensures Limit(0) == 0x1_0000_0000_0000_0000
  {
    assert Limit(7) == 0x8000;
    assert Limit(5) == 0x2000_0000;
    assert Limit(3) == 0x800_0000_0000;
    assert Limit(1) == 0x200_0000_0000_0000;
  }

  lemma {:induction false} LimitShrinks(n: nat, k: nat)
    requires k <= 9 && 128 <= n < Limit(k)
    ensures k < 9 && n / 128 < Limit(k + 1)
  {
  }

  /** One byte and the rest of the number. */
  lemma {:induction false} UlebStep(n: nat, k: nat, rest: seq<byte>, s: seq<byte>)
    requires n >= 128 && k < 9 && s == Uleb(n) + rest
    requires ReadUlebFrom(Uleb(n / 128) + rest, k + 1) == Some((n / 128, rest))
    ensures ReadUlebFrom(s, k) == Some((n, rest))
  {
    var high, low := n / 128, n % 128;
    assert n == low + 128 * high;
    assert s[0] == 128 + low && s[1..] == Uleb(high) + rest;
  }

  lemma {:induction false} UlebFromRoundTrip(n: nat, k: nat, rest: seq<byte>)
    requires k <= 9 && n < Limit(k)
    ensures ReadUlebFrom(Uleb(n) + rest, k) == Some((n, rest))
    decreases n
  {
    if n < 128 {
      assert (Uleb(n) + rest)[1..] == rest;
    } else {
      LimitShrinks(n, k);
      UlebFromRoundTrip(n / 128, k + 1, rest);
      UlebStep(n, k, rest, Uleb(n) + rest);
    }
  }

  lemma {:induction false} UlebRoundTrip(n: u64, rest: seq<byte>)
    ensures ReadUleb(Uleb(n) + rest) == Some((n as nat, rest))
  {
    LimitIs();
    UlebFromRoundTrip(n, 0, rest);
  }

  lemma {:induction false} UlebFromFits(s: seq<byte>, k: nat)
    requires k <= 9 && ReadUlebFrom(s, k).Some?
    ensures ReadUlebFrom(s, k).value.0 < Limit(k)
  {
    if s[0] < 128 {
      LimitFloor(k);
    } else {
      UlebFromFits(s[1..], k + 1);
    }
  }

  lemma {:induction false} LimitFloor(k: nat)
    requires k <= 9
    ensures k < 9 ==> Limit(k) >= 256
    decreases 9 - k
  {
    if k < 8 {
      LimitFloor(k + 1);
    }
  }

  /** Whatever is read fits in 64 bits. */
  lemma {:induction false} UlebFits(s: seq<byte>)
    requires ReadUleb(s).Some?
    ensures ReadUleb(s).value.0 < 0x1_0000_0000_0000_0000
  {
    LimitIs();
    UlebFromFits(s, 0);
  }

  function Decimal(n: nat): seq<byte> {
    if n < 10 then [48 + n] else Decimal(n / 10) + [48 + n % 10]
  }

  function Digit(b: byte): Option<u64> {
    if 48 <= b <= 57 then Some(b - 48) else None
  }

  // ----- Architecture strings -----

  function PartString(e: Extension): seq<byte> {
    e.name + Decimal(e.major) + [LETTER_P] + Decimal(e.minor)
  }

  function ToAttributeString(es: seq<Extension>): seq<byte> {
    if es == [] then []
    else if |es| == 1 then PartString(es[0])
    else PartString(es[0]) + [UNDERSCORE] + ToAttributeString(es[1..])
  }

  /** The pieces between underscores; there is always at least one. */
  function Split(s: seq<byte>): (parts: seq<seq<byte>>)
    ensures |parts| > 0
  {
    if s == [] then [[]]
    else
      var rest := Split(s[1..]);
      if s[0] == UNDERSCORE then [[]] + rest else [[s[0]] + rest[0]] + rest[1..]
  }

  /** The last character is the minor version and the one before the `p` the major: one digit each. */
  function ParsePart(part: seq<byte>): Option<Extension> {
    var n := |part|;
    if n < 3 || part[n - 2] != LETTER_P || Digit(part[n - 3]).None? || Digit(part[n - 1]).None? then None
    else Some(Extension(part[..n - 3], Digit(part[n - 3]).value, Digit(part[n - 1]).value))
  }

  /** A later entry of the same name replaces the value of the earlier one, in its place. */
  function InsertExtension(es: seq<Extension>, e: Extension): seq<Extension> {
    if es == [] then [e]
    else if es[0].name == e.name then [e] + es[1..]
    else [es[0]] + InsertExtension(es[1..], e)
  }

  function ParseParts(parts: seq<seq<byte>>): Option<seq<Extension>> {
    if parts == [] then Some([])
    else
      match ParseParts(parts[..|parts| - 1])
      case None => None
      case Some(es) =>
        match ParsePart(parts[|parts| - 1])
        case None => None
        case Some(e) => Some(InsertExtension(es, e))
  }

  ghost predicate GoodExtension(e: Extension) {
    UNDERSCORE !in e.name && 0 !in e.name && e.major < 10 && e.minor < 10
  }

  ghost predicate DistinctNames(es: seq<Extension>) {
    forall i, j :: 0 <= i < j < |es| ==> es[i].name != es[j].name
  }

  /** What an architecture string can say. */
  ghost predicate GoodArch(es: seq<Extension>) {
    es != [] && DistinctNames(es) && forall i :: 0 <= i < |es| ==> GoodExtension(es[i])
  }

  lemma {:induction false} PartRoundTrip(e: Extension)
    requires GoodExtension(e)
    ensures ParsePart(PartString(e)) == Some(e)
    ensures UNDERSCORE !in PartString(e) && 0 !in PartString(e)
  {
    var s, n := PartString(e), |e.name|;
    assert s == e.name + [48 + e.major, LETTER_P, 48 + e.minor];
    assert s[..n] == e.name;
  }

  /** A piece without an underscore ends at the next one. */
  lemma {:induction false} SplitPiece(p: seq<byte>, rest: seq<byte>)
    requires UNDERSCORE !in p
    ensures Split(p + [UNDERSCORE] + rest) == [p] + Split(rest) && Split(p) == [p]
  {
    if p == [] {
      assert (p + [UNDERSCORE] + rest)[1..] == rest;
    } else {
      SplitPiece(p[1..], rest);
      assert (p + [UNDERSCORE] + rest)[1..] == p[1..] + [UNDERSCORE] + rest;
      assert [p[0]] + p[1..] == p;
    }
  }

  ghost function Parts(es: seq<Extension>): seq<seq<byte>> {
    if es == [] then [] else [PartString(es[0])] + Parts(es[1..])
  }

  lemma {:induction false} SplitJoined(es: seq<Extension>)
    requires es != [] && forall i :: 0 <= i < |es| ==> GoodExtension(es[i])
    ensures Split(ToAttributeString(es)) == Parts(es)
    ensures 0 !in ToAttributeString(es)
  {
    PartRoundTrip(es[0]);
    if |es| == 1 {
      SplitPiece(PartString(es[0]), []);
    } else {
      SplitJoined(es[1..]);
      SplitPiece(PartString(es[0]), ToAttributeString(es[1..]));
    }
  }

  lemma {:induction false} PartsSnoc(es: seq<Extension>)
    requires es != []
    ensures Parts(es) == Parts(es[..|es| - 1]) + [PartString(es[|es| - 1])]
  {
    if |es| > 1 {
      PartsSnoc(es[1..]);
      assert es[1..][..|es| - 2] == es[..|es| - 1][1..];
    }
  }

  lemma {:induction false} InsertNew(es: seq<Extension>, e: Extension)
    requires forall i :: 0 <= i < |es| ==> es[i].name != e.name
    ensures InsertExtension(es, e) == es + [e]
  {
    if es != [] {
      InsertNew(es[1..], e);
    }
  }

  lemma {:induction false} PartsRoundTrip(es: seq<Extension>)
    requires DistinctNames(es) && forall i :: 0 <= i < |es| ==> GoodExtension(es[i])
    ensures ParseParts(Parts(es)) == Some(es)
  {
    if es != [] {
      var init, last := es[..|es| - 1], es[|es| - 1];
      PartsRoundTrip(init);
      PartsSnoc(es);
      PartRoundTrip(last);
      assert Parts(es)[..|Parts(es)| - 1] == Parts(init);
      InsertNew(init, last);
      assert es == init + [last];
    }
  }

  // ----- What the parser returns -----

  lemma {:induction false} SplitPieces(s: seq<byte>)
    requires 0 !in s
    ensures forall i :: 0 <= i < |Split(s)| ==> UNDERSCORE !in Split(s)[i] && 0 !in Split(s)[i]
  {
    if s != [] {
      SplitPieces(s[1..]);
    }
  }

  /** Names come from the inserted ones, and stay distinct. */
  lemma {:induction false} InsertKeeps(es: seq<Extension>, e: Extension)
    requires DistinctNames(es) && (forall i :: 0 <= i < |es| ==> GoodExtension(es[i])) && GoodExtension(e)
    ensures GoodArch(InsertExtension(es, e))
    ensures forall i :: 0 <= i < |InsertExtension(es, e)| ==>
      var name := InsertExtension(es, e)[i].name;
      name == e.name || exists j :: 0 <= j < |es| && es[j].name == name
  {
    if es != [] && es[0].name != e.name {
      InsertKeeps(es[1..], e);
      var r := InsertExtension(es[1..], e);
      forall i | 0 <= i < |r|
        ensures r[i].name != es[0].name
      {
        if r[i].name != e.name {
          var j :| 0 <= j < |es[1..]| && es[1..][j].name == r[i].name;
          assert es[j + 1].name == r[i].name;
        }
      }
    }
  }

  lemma {:induction false} ParsePartsGood(parts: seq<seq<byte>>)
    requires forall i :: 0 <= i < |parts| ==> UNDERSCORE !in parts[i] && 0 !in parts[i]
    requires ParseParts(parts).Some?
    ensures DistinctNames(ParseParts(parts).value)
    ensures forall i :: 0 <= i < |ParseParts(parts).value| ==> GoodExtension(ParseParts(parts).value[i])
    ensures parts != [] ==> ParseParts(parts).value != []
  {
    if parts != [] {
      ParsePartsGood(parts[..|parts| - 1]);
      InsertKeeps(ParseParts(parts[..|parts| - 1]).value, ParsePart(parts[|parts| - 1]).value);
    }
  }

  // ----- Attributes -----

  function Tag(a: Attribute): u64 {
    match a
    case StackAlign(_) => 4
    case Arch(_) => 5
    case UnalignedAccess(_) => 6
    case PrivilegedSpecMajor(_) => 8
    case PrivilegedSpecMinor(_) => 10
    case PrivilegedSpecRevision(_) => 12
  }

  function Payload(a: Attribute): seq<byte> {
    match a
    case StackAlign(n) => Uleb(n)
    case Arch(es) => ToAttributeString(es) + [0]
    case UnalignedAccess(access) => Uleb(if access then 1 else 0)
    case PrivilegedSpecMajor(n) => Uleb(n)
    case PrivilegedSpecMinor(n) => Uleb(n)
    case PrivilegedSpecRevision(n) => Uleb(n)
  }

  function AttributeBytes(a: Attribute): seq<byte> {
    Uleb(Tag(a)) + Payload(a)
  }

  function AttributesBytes(attrs: seq<Attribute>): seq<byte> {
    if attrs == [] then [] else AttributeBytes(attrs[0]) + AttributesBytes(attrs[1..])
  }

  /** The string up to the first zero byte, and what follows that byte. */
  function ReadString(s: seq<byte>): (r: Option<(seq<byte>, seq<byte>)>)
    ensures r.Some? ==> s == r.value.0 + [0] + r.value.1 && 0 !in r.value.0
  {
    if s == [] then None
    else if s[0] == 0 then Some(([], s[1..]))
    else
      match ReadString(s[1..])
      case None => None
      case Some((str, rest)) => Some(([s[0]] + str, rest))
  }

  lemma {:induction false} StringRoundTrip(str: seq<byte>, rest: seq<byte>)
    requires 0 !in str
    ensures ReadString(str + [0] + rest) == Some((str, rest))
  {
    var s := str + [0] + rest;
    if str == [] {
      assert s[1..] == rest;
    } else {
      StringRoundTrip(str[1..], rest);
      assert s[1..] == str[1..] + [0] + rest;
      assert [str[0]] + str[1..] == str;
    }
  }

  function ReadNumber(s: seq<byte>): (r: Option<(u64, seq<byte>)>)
    ensures r.Some? ==> |r.value.1| < |s|
  {
    match ReadUleb(s)
    case None => None
    case Some((n, rest)) => UlebFits(s); Some((n, rest))
  }

  /** Unknown tags, and the two that are recognised but not supported, are errors. */
  function ReadPayload(tag: nat, s: seq<byte>): (r: Option<(Attribute, seq<byte>)>)
    ensures r.Some? ==> |r.value.1| < |s|
  {
    if tag == 5 then
      match ReadString(s)
      case None => None
      case Some((str, rest)) =>
        match ParseParts(Split(str))
        case None => None
        case Some(es) => Some((Arch(es), rest))
    else if tag !in {4, 6, 8, 10, 12} then None
    else
      match ReadNumber(s)
      case None => None
      case Some((n, rest)) =>
        var a :=
          if tag == 4 then StackAlign(n)
          else if tag == 6 then UnalignedAccess(n > 0)
          else if tag == 8 then PrivilegedSpecMajor(n)
          else if tag == 10 then PrivilegedSpecMinor(n)
          else PrivilegedSpecRevision(n);
        Some((a, rest))
  }

  function ReadAttribute(s: seq<byte>): (r: Option<(Attribute, seq<byte>)>)
    ensures r.Some? ==> |r.value.1| < |s|
  {
    match ReadUleb(s)
    case None => None
    case Some((tag, rest)) => ReadPayload(tag, rest)
  }

  function ParseAttributes(s: seq<byte>): Option<seq<Attribute>>
    decreases |s|
  {
    if s == [] then Some([])
    else
      match ReadAttribute(s)
      case None => None
      case Some((a, rest)) =>
        match ParseAttributes(rest)
        case None => None
        case Some(attrs) => Some([a] + attrs)
  }

  ghost predicate Good(a: Attribute) {
    a.Arch? ==> GoodArch(a.extensions)
  }

  ghost predicate AllGood(attrs: seq<Attribute>) {
    forall i :: 0 <= i < |attrs| ==> Good(attrs[i])
  }

  lemma {:induction false} AttributeRoundTrip(a: Attribute, rest: seq<byte>)
    requires Good(a)
    ensures ReadAttribute(AttributeBytes(a) + rest) == Some((a, rest))
  {
    var s := AttributeBytes(a) + rest;
    assert s == Uleb(Tag(a)) + (Payload(a) + rest);
    UlebRoundTrip(Tag(a), Payload(a) + rest);
    match a
    case Arch(es) =>
      SplitJoined(es);
      PartsRoundTrip(es);
      StringRoundTrip(ToAttributeString(es), rest);
    case StackAlign(n) => UlebRoundTrip(n, rest);
    case UnalignedAccess(access) => UlebRoundTrip(if access then 1 else 0, rest);
    case PrivilegedSpecMajor(n) => UlebRoundTrip(n, rest);
    case PrivilegedSpecMinor(n) => UlebRoundTrip(n, rest);
    case PrivilegedSpecRevision(n) => UlebRoundTrip(n, rest);
  }

  lemma {:induction false} AttributesRoundTrip(attrs: seq<Attribute>)
    requires AllGood(attrs)
    ensures ParseAttributes(AttributesBytes(attrs)) == Some(attrs)
  {
    if attrs != [] {
      assert Good(attrs[0]);
      AttributeRoundTrip(attrs[0], AttributesBytes(attrs[1..]));
      AttributesRoundTrip(attrs[1..]);
      assert [attrs[0]] + attrs[1..] == attrs;
    }
  }

  /** Everything the parser returns can be written and read back. */
  lemma {:induction false} ParsedIsGood(s: seq<byte>)
    requires ParseAttributes(s).Some?
    ensures AllGood(ParseAttributes(s).value)
    decreases |s|
  {
    if s != [] {
      var (a, rest) := ReadAttribute(s).value;
      ParsedIsGood(rest);
      var (tag, t) := ReadUleb(s).value;
      if tag == 5 {
        var (str, _) := ReadString(t).value;
        SplitPieces(str);
        ParsePartsGood(Split(str));
      }
      assert Good(a);
    }
  }

  // ----- The section -----

  /** A length field, in 32 bits. */
  function Length(n: nat): (b: seq<byte>)
    ensures |b| == 4 && (n < 0x1_0000_0000 ==> U32(b, 0) == n)
  {
    LeBytes(n % 0x1_0000_0000)
  }

  function AttributeSize(a: Attribute): nat {
    match a
    case StackAlign(n) => |Uleb(4)| + |Uleb(n)|
    case Arch(es) => |Uleb(5)| + |ToAttributeString(es)| + 1
    case UnalignedAccess(_) => |Uleb(6)| + 1
    case PrivilegedSpecMajor(n) => |Uleb(8)| + |Uleb(n)|
    case PrivilegedSpecMinor(n) => |Uleb(10)| + |Uleb(n)|
    case PrivilegedSpecRevision(n) => |Uleb(12)| + |Uleb(n)|
  }

  function AttributesSize(attrs: seq<Attribute>): nat {
    if attrs == [] then 0 else AttributesSize(attrs[..|attrs| - 1]) + AttributeSize(attrs[|attrs| - 1])
  }

  function SectionSize(attrs: seq<Attribute>): nat {
    if attrs == [] then 0 else 1 + 4 + |Uleb(1)| + 4 + |VENDOR| + 1 + AttributesSize(attrs)
  }

  function Header(size: int): seq<byte>
    requires size >= 11
  {
    [65] + Length(size - 1) + VENDOR + [0] + Uleb(1) + Length(size - 1 - 4 - |VENDOR| - 1)
  }

  ghost function SectionBytes(attrs: seq<Attribute>): seq<byte>
    requires attrs != []
  {
    Header(SectionSize(attrs)) + AttributesBytes(attrs)
  }

  lemma {:induction false} BytesSnoc(attrs: seq<Attribute>)
    requires attrs != []
    ensures AttributesBytes(attrs) == AttributesBytes(attrs[..|attrs| - 1]) + AttributeBytes(attrs[|attrs| - 1])
  {
    if |attrs| > 1 {
      BytesSnoc(attrs[1..]);
      assert attrs[1..][..|attrs| - 2] == attrs[..|attrs| - 1][1..];
    } else {
      assert AttributesBytes(attrs[1..]) == [];
    }
  }

  lemma {:induction false} AttributesSizeIs(attrs: seq<Attribute>)
    ensures AttributesSize(attrs) == |AttributesBytes(attrs)|
  {
    if attrs != [] {
      AttributesSizeIs(attrs[..|attrs| - 1]);
      BytesSnoc(attrs);
    }
  }

  /** The size computed at layout is the number of bytes written. */
  lemma {:induction false} SectionSizeIs(attrs: seq<Attribute>)
    requires attrs != []
    ensures |SectionBytes(attrs)| == SectionSize(attrs)
  {
    AttributesSizeIs(attrs);
  }

  lemma {:induction false} WordAt(s: seq<byte>, p: nat, w: seq<byte>)
    requires |w| == 4 && p + 4 <= |s| && s[p..p + 4] == w
    ensures U32(s, p) == U32(w, 0)
  {
    assert s[p] == w[0] && s[p + 1] == w[1] && s[p + 2] == w[2] && s[p + 3] == w[3];
  }

  /** Where the fields of a header lie, whatever the two words are. */
  lemma {:induction false} FieldsAt(s: seq<byte>, outer: seq<byte>, inner: seq<byte>, rest: seq<byte>)
    requires |outer| == 4 && |inner| == 4 && s == [65] + outer + VENDOR + [0] + Uleb(1) + inner + rest
    ensures |s| == 16 + |rest|
    ensures s[1..5] == outer && s[5..11] == VENDOR + [0] && s[12..16] == inner
  {
    assert Uleb(1) == [1];
  }

  /** Both length fields count the bytes that they cover: all but the first, and those from the tag on. */
  lemma {:induction false} LengthFields(attrs: seq<Attribute>)
    requires attrs != [] && SectionSize(attrs) < 0x1_0000_0000
    ensures
      var s := SectionBytes(attrs);
      && |s| >= 16
      && U32(s, 1) == |s[1..]|
      && s[5..11] == VENDOR + [0]
      && U32(s, 12) == |s[11..]|
  {
    SectionSizeIs(attrs);
    var s, size := SectionBytes(attrs), SectionSize(attrs);
    var outer, inner := Length(size - 1), Length(size - 11);
    FieldsAt(s, outer, inner, AttributesBytes(attrs));
    WordAt(s, 1, outer);
    WordAt(s, 12, inner);
  }

  /** The length fields are skipped unread. */
  function ParseSection(s: seq<byte>): Option<seq<Attribute>> {
    if s == [] || s[0] != 65 || |s[1..]| < 4 then None
    else
      match ReadString(s[5..])
      case None => None
      case Some((vendor, rest)) =>
        if vendor != VENDOR then None
        else
          match ReadUleb(rest)
          case None => None
          case Some((tag, rest)) => if tag != 1 || |rest| < 4 then None else ParseAttributes(rest[4..])
  }

  lemma {:induction false} HeaderParses(size: nat, rest: seq<byte>)
    requires size >= 11
    ensures ParseSection(Header(size) + rest) == ParseAttributes(rest)
  {
    var s, inner := Header(size) + rest, Length(size - 11);
    assert s[5..] == VENDOR + [0] + (Uleb(1) + (inner + rest));
    StringRoundTrip(VENDOR, Uleb(1) + (inner + rest));
    UlebRoundTrip(1, inner + rest);
    assert (inner + rest)[4..] == rest;
  }

  /**
    * Writing and parsing return the same list exactly when every architecture map is not empty, has
    * one-digit versions and names without underscore or zero byte, each once.
    */
  lemma {:induction false} SectionRoundTrip(attrs: seq<Attribute>)
    requires attrs != []
    ensures ParseSection(SectionBytes(attrs)) == Some(attrs) <==> AllGood(attrs)
  {
    HeaderParses(SectionSize(attrs), AttributesBytes(attrs));
    if AllGood(attrs) {
      AttributesRoundTrip(attrs);
    }
    if ParseAttributes(AttributesBytes(attrs)) == Some(attrs) {
      ParsedIsGood(AttributesBytes(attrs));
    }
  }

  /** A minor version of two digits cannot be read back. */
  lemma {:induction false} TwoDigitsAreLost(name: seq<byte>)
    ensures ParsePart(PartString(Extension(name, 2, 10))) == None
  {
    assert Decimal(10) == [49, 48];
    assert PartString(Extension(name, 2, 10)) == name + [50, LETTER_P, 49, 48];
  }

  // ----- One section, byte by byte -----

  const RV64I := Extension([114, 118, 54, 52, 105], 2, 1)
  const MULTIPLY := Extension([109], 2, 0)
  const ARCH_STRING: seq<byte> := [114, 118, 54, 52, 105, 50, 112, 49, 95, 109, 50, 112, 48]

  /** One attribute of every kind. */
  const EVERY_KIND := [
    StackAlign(16), Arch([RV64I, MULTIPLY]), UnalignedAccess(true),
    PrivilegedSpecMajor(1), PrivilegedSpecMinor(11), PrivilegedSpecRevision(300)]

  const EVERY_KIND_BYTES: seq<byte> :=
    [4, 16] + ([5] + ARCH_STRING + [0]) + [6, 1] + [8, 1] + [10, 11] + [12, 0xac, 2]

  lemma {:induction false} UlebBytes()
    ensures Uleb(624485) == [0xe5, 0x8e, 0x26] && Uleb(300) == [0xac, 2]
  {
    assert Uleb(38) == [38] && Uleb(4878) == [128 + 14, 38];
    assert Uleb(2) == [2];
  }

  lemma {:induction false} ArchBytes()
    ensures ToAttributeString([RV64I, MULTIPLY]) == ARCH_STRING && GoodArch([RV64I, MULTIPLY])
  {
    var es := [RV64I, MULTIPLY];
    assert es[1..] == [MULTIPLY];
    assert Decimal(0) == [48] && Decimal(1) == [49] && Decimal(2) == [50];
    assert PartString(RV64I) == [114, 118, 54, 52, 105, 50, 112, 49];
    assert PartString(MULTIPLY) == [109, 50, 112, 48];
    assert RV64I.name[0] != MULTIPLY.name[0];
  }

  lemma {:induction false} EachKindBytes()
    ensures AttributeBytes(StackAlign(16)) == [4, 16] && AttributeBytes(UnalignedAccess(true)) == [6, 1]
    ensures AttributeBytes(Arch([RV64I, MULTIPLY])) == [5] + ARCH_STRING + [0]
    ensures AttributeBytes(PrivilegedSpecMajor(1)) == [8, 1] && AttributeBytes(PrivilegedSpecMinor(11)) == [10, 11]
    ensures AttributeBytes(PrivilegedSpecRevision(300)) == [12, 0xac, 2]
  {
    UlebBytes();
    ArchBytes();
  }

  lemma {:induction false} TwoMore(a: Attribute, b: Attribute, rest: seq<Attribute>)
    ensures AttributesBytes([a, b] + rest) == AttributeBytes(a) + AttributeBytes(b) + AttributesBytes(rest)
  {
    assert ([a, b] + rest)[1..] == [b] + rest && ([b] + rest)[1..] == rest;
    assert AttributesBytes([b] + rest) == AttributeBytes(b) + AttributesBytes(rest);
  }

  lemma {:induction false} AllKindsBytes()
    ensures AttributesBytes(EVERY_KIND) == EVERY_KIND_BYTES
  {
    var a := EVERY_KIND;
    EachKindBytes();
    TwoMore(a[4], a[5], []);
    assert [a[4], a[5]] + [] == [a[4], a[5]];
    TwoMore(a[2], a[3], [a[4], a[5]]);
    TwoMore(a[0], a[1], [a[2], a[3]] + [a[4], a[5]]);
    assert [a[0], a[1]] + ([a[2], a[3]] + [a[4], a[5]]) == a;
  }

  const HEADER_OF_42: seq<byte> := [65, 41, 0, 0, 0, 114, 105, 115, 99, 118, 0, 1, 31, 0, 0, 0]

  lemma {:induction false} HeaderOf42()
    ensures Header(42) == HEADER_OF_42
  {
    assert Uleb(1) == [1];
    assert Length(41) == [41, 0, 0, 0] && Length(31) == [31, 0, 0, 0];
  }

  lemma {:induction false} SizeOfEveryKind()
    ensures SectionSize(EVERY_KIND) == 42
  {
    AllKindsBytes();
    AttributesSizeIs(EVERY_KIND);
    assert |Uleb(1)| == 1;
  }

  /** The whole section with one attribute of every kind, and what the parser makes of it. */
  lemma {:induction false} SectionOfEveryKind()
    ensures SectionBytes(EVERY_KIND) == HEADER_OF_42 + EVERY_KIND_BYTES
    ensures ParseSection(HEADER_OF_42 + EVERY_KIND_BYTES) == Some(EVERY_KIND)
  {
    AllKindsBytes();
    SizeOfEveryKind();
    HeaderOf42();
    ArchBytes();
    assert AllGood(EVERY_KIND);
    SectionRoundTrip(EVERY_KIND);
  }

  // ----- The writer and the parser -----

  /** A writer over a buffer of fixed size: what does not fit is refused. */
  class Cursor {
    const capacity: nat
    var written: seq<byte>

    constructor (capacity: nat)
      ensures this.capacity == capacity && written == []
    {
      this.capacity := capacity;
      written := [];
    }

    method WriteAll(bytes: seq<byte>) returns (ok: bool)
      modifies this
      ensures ok <==> |old(written)| + |bytes| <= capacity
      ensures ok ==> written == old(written) + bytes
    {
      ok := |written| + |bytes| <= capacity;
      if ok {
        written := written + bytes;
      }
    }
  }

  method WriteTwo(w: Cursor, first: seq<byte>, second: seq<byte>) returns (ok: bool)
    modifies w
    ensures ok <==> |old(w.written)| + |first| + |second| <= w.capacity
    ensures ok ==> w.written == old(w.written) + (first + second)
  {
    ok := w.WriteAll(first);
    if ok {
      ok := w.WriteAll(second);
    }
  }

  method WriteAttribute(w: Cursor, a: Attribute) returns (ok: bool)
    modifies w
    ensures ok <==> |old(w.written)| + AttributeSize(a) <= w.capacity
    ensures ok ==> w.written == old(w.written) + AttributeBytes(a)
  {
    var tag := Uleb(Tag(a));
    match a {
      case StackAlign(n) => ok := WriteTwo(w, tag, Uleb(n));
      case Arch(es) =>
        var terminated := ToAttributeString(es) + [0];
        ok := WriteTwo(w, tag, terminated);
      case UnalignedAccess(access) => ok := WriteTwo(w, tag, Uleb(if access then 1 else 0));
      case PrivilegedSpecMajor(n) => ok := WriteTwo(w, tag, Uleb(n));
      case PrivilegedSpecMinor(n) => ok := WriteTwo(w, tag, Uleb(n));
      case PrivilegedSpecRevision(n) => ok := WriteTwo(w, tag, Uleb(n));
    }
  }

  method WriteHeader(w: Cursor, size: nat) returns (ok: bool)
    requires size >= 11 && w.written == []
    modifies w
    ensures ok <==> 16 <= w.capacity
    ensures ok ==> w.written == Header(size)
  {
    ok := WriteTwo(w, [65], Length(size - 1));
    if ok {
      ok := WriteTwo(w, VENDOR, [0]);
    }
    if ok {
      ok := WriteTwo(w, Uleb(1), Length(size - 1 - 4 - |VENDOR| - 1));
    }
  }

  lemma {:induction false} NextAttribute(attrs: seq<Attribute>, i: nat)
    requires i < |attrs|
    ensures AttributesBytes(attrs[..i + 1]) == AttributesBytes(attrs[..i]) + AttributeBytes(attrs[i])
    ensures AttributesSize(attrs[..i + 1]) ==
      AttributesSize(attrs[..i]) + AttributeSize(attrs[i]) <= AttributesSize(attrs)
  {
    var done := attrs[..i + 1];
    assert done[..i] == attrs[..i];
    BytesSnoc(done);
    SizeMonotone(attrs, i + 1, |attrs|);
    assert attrs[..|attrs|] == attrs;
  }

  method WriteEach(w: Cursor, attrs: seq<Attribute>) returns (ok: bool)
    requires |w.written| <= w.capacity
    modifies w
    ensures ok <==> |old(w.written)| + AttributesSize(attrs) <= w.capacity
    ensures ok ==> w.written == old(w.written) + AttributesBytes(attrs)
  {
    ghost var start := w.written;
    var i := 0;
    while i < |attrs|
      invariant 0 <= i <= |attrs| && w.written == start + AttributesBytes(attrs[..i])
      invariant |w.written| == |start| + AttributesSize(attrs[..i]) <= w.capacity
    {
      NextAttribute(attrs, i);
      AttributesSizeIs(attrs[..i + 1]);
      ok := WriteAttribute(w, attrs[i]);
      if !ok {
        return;
      }
      AppendedNext(
        start, AttributesBytes(attrs[..i]), AttributeBytes(attrs[i]), AttributesBytes(attrs[..i + 1]), w.written);
      i := i + 1;
    }
    assert attrs[..|attrs|] == attrs;
    ok := true;
  }

  lemma {:induction false} AppendedNext(
      start: seq<byte>, done: seq<byte>, more: seq<byte>, all: seq<byte>, after: seq<byte>)
    requires after == start + done + more && all == done + more
    ensures after == start + all
  {
    assert start + done + more == start + (done + more);
  }

  /** Exactly the computed size is needed, and then filled with the section. */
  method WriteRiscvAttributes(attrs: seq<Attribute>, size: nat, buffer: nat) returns (r: Option<seq<byte>>)
    requires attrs != [] && size == SectionSize(attrs)
    ensures r.Some? <==> size <= buffer
    ensures r.Some? ==> r.value == SectionBytes(attrs) && |r.value| == size
  {
    SectionSizeIs(attrs);
    var w := new Cursor(buffer);
    var ok := WriteHeader(w, size);
    if !ok {
      return None;
    }
    ok := WriteEach(w, attrs);
    r := if ok then Some(w.written) else None;
  }

  lemma {:induction false} SizeMonotone(attrs: seq<Attribute>, j: nat, k: nat)
    requires j <= k <= |attrs|
    ensures AttributesSize(attrs[..j]) <= AttributesSize(attrs[..k])
  {
    if j < k {
      SizeMonotone(attrs, j, k - 1);
      assert attrs[..k][..k - 1] == attrs[..k - 1];
    }
  }

  /** `all` is `attrs` and then `more`, or an error in both. */
  ghost predicate PrependsTo(attrs: seq<Attribute>, more: Option<seq<Attribute>>, all: Option<seq<Attribute>>) {
    if more.None? then all.None? else all == Some(attrs + more.value)
  }

  method ProcessRiscvAttributes(content: seq<byte>) returns (r: Option<seq<Attribute>>)
    ensures r == ParseSection(content)
  {
    if content == [] || content[0] != 65 || |content[1..]| < 4 {
      return None;
    }
    var vendor := ReadString(content[5..]);
    if vendor.None? || vendor.value.0 != VENDOR {
      return None;
    }
    var tag := ReadUleb(vendor.value.1);
    if tag.None? || tag.value.0 != 1 || |tag.value.1| < 4 {
      return None;
    }
    r := ReadAttributes(tag.value.1[4..]);
  }

  method ReadAttributes(content: seq<byte>) returns (r: Option<seq<Attribute>>)
    ensures r == ParseAttributes(content)
  {
    var rest := content;
    var attrs: seq<Attribute> := [];
    ghost var all := ParseAttributes(content);
    assert all.Some? ==> attrs + all.value == all.value;
    while rest != []
      invariant PrependsTo(attrs, ParseAttributes(rest), ParseAttributes(content))
      decreases |rest|
    {
      var read := ReadAttribute(rest);
      if read.None? {
        return None;
      }
      ghost var more := ParseAttributes(read.value.1);
      assert more.Some? ==> attrs + ([read.value.0] + more.value) == attrs + [read.value.0] + more.value;
      attrs := attrs + [read.value.0];
      rest := read.value.1;
    }
    assert attrs + [] == attrs;
    r := Some(attrs);
  }
}
