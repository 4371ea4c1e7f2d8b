/**
 The CLAIMS section codec: the current `CLM2` layout (V2) and the legacy layout
 without a magic number (V1), which is still read.
 */
module Claims {
  import opened Bytes
  import opened Results
  import opened Codecs

  const CLAIMS_V2_MAGIC: seq<byte> := [0x43, 0x4C, 0x4D, 0x32]  // "CLM2"
  const MAX_CLAIMS_PER_SECTION: nat := 1_000_000

  datatype ObjTag = NULL | BOOL | I64 | U64 | F64 | BYTES | SYM | REF | NODENUM {

    function ToU8(): (b: byte) {
      match this
      case NULL => 0 case BOOL => 1 case I64 => 2 case U64 => 3 case F64 => 4
      case BYTES => 5 case SYM => 6 case REF => 7 case NODENUM => 8
    }

    static function FromU8(b: byte): (t: Option<ObjTag>) {
      match b
      case 0 => Some(NULL) case 1 => Some(BOOL) case 2 => Some(I64) case 3 => Some(U64)
      case 4 => Some(F64) case 5 => Some(BYTES) case 6 => Some(SYM) case 7 => Some(REF)
      case 8 => Some(NODENUM)
      case _ => None
    }
  }

  datatype ClaimRecord = ClaimRecord(subject: u64, pred: u32, tag: ObjTag, value: seq<byte>)

  /** Length of an object value whose first bytes are `b`; None when even the length is cut off. */
  function ValueLength(tag: ObjTag, b: seq<byte>): (n: Option<nat>) {
    match tag
    case NULL => Some(0)
    case BOOL => Some(1)
    case I64 | U64 | F64 | NODENUM => Some(8)
    case SYM => Some(4)
    case REF => Some(32)
    case BYTES => if |b| < 4 then None else Some(4 + FromLe(b[..4]))
  }

  /** A claim whose value has the length its tag calls for. */
  predicate WellFormed(c: ClaimRecord) {
    ValueLength(c.tag, c.value) == Some(|c.value|)
  }

  // ---------------------------------------------------------------------
  // Authoring: typed claims from scalars.
  // ---------------------------------------------------------------------

  /** Build a typed claim from one 64-bit scalar; BYTES and REF are refused. */
  function FromScalar(subject: u64, pred: u32, tag: ObjTag, scalar: u64): (r: Result<ClaimRecord>)
    ensures r.Ok? <==> tag !in {BYTES, REF} && (tag == BOOL ==> scalar <= 1) && (tag == SYM ==> scalar < U32_LIMIT)
    ensures r.Ok? ==> WellFormed(r.value)
    ensures r.Ok? ==> (r.value.subject, r.value.pred, r.value.tag) == (subject, pred, tag)
    ensures r.Ok? && tag != NULL ==> FromLe(r.value.value) == scalar
  {
    match tag
    case NULL => Ok(ClaimRecord(subject, pred, NULL, []))
    case BOOL => if scalar <= 1 then Ok(ClaimRecord(subject, pred, BOOL, [scalar])) else Err(ExtractionFailed)
    case I64 | U64 | F64 | NODENUM =>
      WordRoundTrip(8, scalar, U64_LIMIT);
      Ok(ClaimRecord(subject, pred, tag, Le(8, scalar)))
    case SYM =>
      if scalar < U32_LIMIT then
        WordRoundTrip(4, scalar, U32_LIMIT);
        Ok(ClaimRecord(subject, pred, SYM, Le(4, scalar)))
      else Err(ExtractionFailed)
    case BYTES | REF => Err(ExtractionFailed)
  }

  // ---------------------------------------------------------------------
  // Record layouts.
  // ---------------------------------------------------------------------

  /** Widths of subject, predicate and tag. */
  function Layout(v2: bool): (ws: seq<nat>)
    ensures |ws| == 3
  {
    if v2 then [8, 4, 1] else [2, 2, 1]
  }

  function PrefixLen(v2: bool): nat {
    if v2 then 13 else 5
  }

  lemma LayoutFacts(v2: bool)
    ensures Width(Layout(v2)) == PrefixLen(v2)
    ensures Pow256(1) == 256
    ensures v2 ==> Pow256(Layout(v2)[0]) == U64_LIMIT && Pow256(Layout(v2)[1]) == U32_LIMIT
    ensures !v2 ==> Pow256(Layout(v2)[0]) == Pow256(Layout(v2)[1]) == 0x1_0000
  {
    var ws := Layout(v2);
    assert ws[1..] == [ws[1], 1];
    assert Width(ws) == ws[0] + (ws[1] + (1 + 0)) by {
      assert [ws[1], 1][1..] == [1] && [1][1..] == [];
      assert Width([1]) == 1 && Width([ws[1], 1]) == ws[1] + 1;
    }
    assert Pow256(1) == 256 * Pow256(0);
    WordSizes();
  }

  /** Does the claim fit the layout? V1 has 16-bit subjects and predicates. */
  predicate Printable(c: ClaimRecord, v2: bool) {
    WellFormed(c) && (!v2 ==> c.subject < 0x1_0000 && c.pred < 0x1_0000)
  }

  function Words(c: ClaimRecord): (vs: seq<nat>)
    ensures |vs| == 3
  {
    [c.subject, c.pred, c.tag.ToU8()]
  }

  function PrintRecord(c: ClaimRecord, v2: bool): (s: seq<byte>)
    ensures |s| == PrefixLen(v2) + |c.value|
  {
    LayoutFacts(v2);
    EncodeWords(Layout(v2), Words(c)) + c.value
  }

  /** Read one record from the front of `b`; the second component is the number of bytes used. */
  function ParseRecord(b: seq<byte>, v2: bool): (r: Result<(ClaimRecord, nat)>)
    ensures r.Ok? ==> PrefixLen(v2) <= r.value.1 <= |b|
  {
    LayoutFacts(v2);
    if |b| < PrefixLen(v2) then Err(BufferTooSmall)
    else
      DecodeRoundTrip(Layout(v2), b);
      var vs := DecodeWords(Layout(v2), b);
      var tag := ObjTag.FromU8(vs[2]);
      var rest := b[PrefixLen(v2)..];
      if tag.None? then Err(InvalidSectionKind(vs[2]))
      else
        var len := ValueLength(tag.value, rest);
        if len.None? || |rest| < len.value then Err(BufferTooSmall)
        else Ok((ClaimRecord(vs[0], vs[1], tag.value, rest[..len.value]), PrefixLen(v2) + len.value))
  }

  function RecordPrinter(v2: bool): Printer<ClaimRecord> {
    (c: ClaimRecord) => PrintRecord(c, v2)
  }

  function RecordReader(v2: bool): Reader<ClaimRecord> {
    (b: seq<byte>) => ParseRecord(b, v2)
  }

  ghost function Fitting(v2: bool): ClaimRecord -> bool {
    (c: ClaimRecord) => Printable(c, v2)
  }

  function PrintRecords(cs: seq<ClaimRecord>, v2: bool): seq<byte> {
    Flat(RecordPrinter(v2), cs)
  }

  function ParseRecords(b: seq<byte>, n: nat, v2: bool): (r: Result<seq<ClaimRecord>>)
    ensures r.Ok? ==> |r.value| == n
  {
    ReadMany(RecordReader(v2), b, n)
  }

  /** `ClaimsSection::to_bytes`. The count is truncated to 32 bits, as the cast does. */
  function PrintSection(cs: seq<ClaimRecord>): seq<byte> {
    CLAIMS_V2_MAGIC + Len32(|cs|) + PrintRecords(cs, true)
  }

  /** The legacy layout, which only old bases contain. */
  function PrintSectionV1(cs: seq<ClaimRecord>): seq<byte> {
    Len32(|cs|) + PrintRecords(cs, false)
  }

  predicate HasMagic(b: seq<byte>) {
    CLAIMS_V2_MAGIC <= b
  }

  /** `ClaimsSection::from_bytes`. */
  function ParseSection(b: seq<byte>): (r: Result<seq<ClaimRecord>>)
    ensures r.Ok? ==> |r.value| <= MAX_CLAIMS_PER_SECTION
  {
    var at := if HasMagic(b) then 4 else 0;
    if |b| < at + 4 then Err(BufferTooSmall)
    else
      var count := FromLe(b[at..at + 4]);
      if count > MAX_CLAIMS_PER_SECTION then Err(ExtractionFailed)
      else ParseRecords(b[at + 4..], count, HasMagic(b))
  }

  // ---------------------------------------------------------------------
  // Exactness of the codec.
  // ---------------------------------------------------------------------

  /** ObjTag's two conversions are inverse bijections between nine tags and the bytes 0..8. */
  lemma TagBijection(t: ObjTag, b: byte)
    ensures ObjTag.FromU8(t.ToU8()) == Some(t)
    ensures ObjTag.FromU8(b).Some? <==> b <= 8
    ensures ObjTag.FromU8(b).Some? ==> ObjTag.FromU8(b).value.ToU8() == b
  {}

  lemma WordsFit(c: ClaimRecord, v2: bool)
    requires Printable(c, v2)
    ensures Fits(Layout(v2), Words(c))
  {
    LayoutFacts(v2);
  }

  lemma ValueLengthLocal(c: ClaimRecord, rest: seq<byte>)
    requires WellFormed(c)
    ensures ValueLength(c.tag, c.value + rest) == Some(|c.value|)
  {
    if c.tag == BYTES { assert (c.value + rest)[..4] == c.value[..4]; }
  }

  lemma RecordRoundTrip(c: ClaimRecord, v2: bool, rest: seq<byte>)
    requires Printable(c, v2)
    ensures ParseRecord(PrintRecord(c, v2) + rest, v2) == Ok((c, |PrintRecord(c, v2)|))
  {
    LayoutFacts(v2);
    WordsFit(c, v2);
    var head := EncodeWords(Layout(v2), Words(c));
    var b := PrintRecord(c, v2) + rest;
    assert b == head + (c.value + rest);
    WordsRoundTrip(Layout(v2), Words(c), c.value + rest);
    Seam(head, c.value + rest);
    ValueLengthLocal(c, rest);
    TagBijection(c.tag, 0);
    Seam(c.value, rest);
  }

  lemma CurrentHeader(n: nat, body: seq<byte>)
    ensures var b := CLAIMS_V2_MAGIC + Len32(n) + body;
            HasMagic(b) && b[4..8] == Len32(n) && b[8..] == body && b[..4] == CLAIMS_V2_MAGIC
  {}

  lemma ParsesBody(n: nat, body: seq<byte>)
    requires n <= MAX_CLAIMS_PER_SECTION
    ensures ParseSection(CLAIMS_V2_MAGIC + Len32(n) + body) == ParseRecords(body, n, true)
  {
    CurrentHeader(n, body);
    CountRoundTrip(n);
  }

  /** Parsing what was printed gives the section back, whatever bytes follow it. */
  lemma SectionRoundTrip(cs: seq<ClaimRecord>, rest: seq<byte>)
    requires |cs| <= MAX_CLAIMS_PER_SECTION
    requires forall c :: c in cs ==> WellFormed(c)
    ensures ParseSection(PrintSection(cs) + rest) == Ok(cs)
  {
    var body := PrintRecords(cs, true);
    assert PrintSection(cs) + rest == CLAIMS_V2_MAGIC + Len32(|cs|) + (body + rest);
    ParsesBody(|cs|, body + rest);
    RecordsExact(true);
    ManyRoundTrip(RecordPrinter(true), RecordReader(true), Fitting(true), cs, rest);
  }

  /** What was read reprints to the bytes it was read from. */
  lemma RecordReprint(b: seq<byte>, v2: bool)
    requires ParseRecord(b, v2).Ok?
    ensures var (c, used) := ParseRecord(b, v2).value;
            Printable(c, v2) && PrintRecord(c, v2) == b[..used]
  {
    LayoutFacts(v2);
    DecodeRoundTrip(Layout(v2), b);
    var (c, used) := ParseRecord(b, v2).value;
    var vs := DecodeWords(Layout(v2), b);
    TagBijection(c.tag, vs[2]);
    assert vs == Words(c);
    var rest := b[PrefixLen(v2)..];
    if c.tag == BYTES { assert c.value[..4] == rest[..4]; }
    assert b[..used] == b[..PrefixLen(v2)] + c.value;
  }

  /** Both record layouts are exact. */
  lemma RecordsExact(v2: bool)
    ensures Inverts(RecordPrinter(v2), RecordReader(v2), Fitting(v2))
    ensures Reprints(RecordPrinter(v2), RecordReader(v2), Fitting(v2))
  {
    forall c, rest | Printable(c, v2)
      ensures ParseRecord(PrintRecord(c, v2) + rest, v2) == Ok((c, |PrintRecord(c, v2)|))
    {
      RecordRoundTrip(c, v2, rest);
    }
    forall b | ParseRecord(b, v2).Ok?
      ensures var (c, used) := ParseRecord(b, v2).value;
              Printable(c, v2) && used <= |b| && PrintRecord(c, v2) == b[..used]
    {
      RecordReprint(b, v2);
    }
  }

  lemma RecordsReprint(body: seq<byte>, n: nat, v2: bool)
    requires ParseRecords(body, n, v2).Ok?
    ensures var cs := ParseRecords(body, n, v2).value;
            PrintRecords(cs, v2) <= body && forall c :: c in cs ==> Printable(c, v2)
  {
    RecordsExact(v2);
    ManyReprint(RecordPrinter(v2), RecordReader(v2), Fitting(v2), body, n);
    forall c | c in ParseRecords(body, n, v2).value ensures Printable(c, v2) { assert Fitting(v2)(c); }
  }

  lemma CurrentSplit(b: seq<byte>)
    requires HasMagic(b) && |b| >= 8
    ensures b == CLAIMS_V2_MAGIC + b[4..8] + b[8..]
  {}

  lemma PrefixUnder<T>(a: seq<T>, x: seq<T>, y: seq<T>)
    requires x <= y
    ensures a + x <= a + y
  {
    assert y == x + y[|x|..];
    assert a + y == a + x + y[|x|..];
  }

  /** What an accepted section contains: a count and the records. */
  lemma AcceptedParts(b: seq<byte>)
    requires ParseSection(b).Ok?
    ensures var at := if HasMagic(b) then 4 else 0;
            |b| >= at + 4 && ParseSection(b) == ParseRecords(b[at + 4..], FromLe(b[at..at + 4]), HasMagic(b))
  {}

  /** An accepted V2 section starts with the printed form of what was read from it. */
  lemma SectionReprint(b: seq<byte>)
    requires HasMagic(b) && ParseSection(b).Ok?
    ensures PrintSection(ParseSection(b).value) <= b
    ensures forall c :: c in ParseSection(b).value ==> WellFormed(c)
  {
    AcceptedParts(b);
    CurrentSplit(b);
    var count, body := b[4..8], b[8..];
    CountReprint(count);
    RecordsReprint(body, FromLe(count), true);
    PrefixUnder(CLAIMS_V2_MAGIC + count, PrintRecords(ParseSection(b).value, true), body);
  }

  /** Count and records begin at `at`. */
  lemma SectionParts(b: seq<byte>, at: nat, count: seq<byte>, body: seq<byte>)
    requires at == (if HasMagic(b) then 4 else 0) && |count| == 4 && b[at..] == count + body
    ensures ParseSection(b) ==
            if FromLe(count) > MAX_CLAIMS_PER_SECTION then Err(ExtractionFailed)
            else ParseRecords(body, FromLe(count), HasMagic(b))
  {
    assert b[at..at + 4] == b[at..][..4] == count;
    assert b[at + 4..] == b[at..][4..] == body;
  }

  lemma CutAfter(b: seq<byte>, rest: seq<byte>, at: nat)
    requires |b| >= at + 4
    ensures (b + rest)[at..] == b[at..at + 4] + (b[at + 4..] + rest)
  {
    assert (b + rest)[at..] == b[at..] + rest;
    assert b[at..] == b[at..at + 4] + b[at + 4..];
  }

  /** Bytes after an accepted section, V1 or V2, change nothing. */
  lemma SectionIgnoresTail(b: seq<byte>, rest: seq<byte>)
    requires ParseSection(b).Ok?
    ensures ParseSection(b + rest) == ParseSection(b)
  {
    AcceptedParts(b);
    assert (b + rest)[..4] == b[..4];
    var at := if HasMagic(b) then 4 else 0;
    var count, body := b[at..at + 4], b[at + 4..];
    CutAfter(b, rest, at);
    SectionParts(b + rest, at, count, body + rest);
    RecordsIgnoreTail(body, FromLe(count), HasMagic(b), rest);
  }

  lemma RecordsIgnoreTail(body: seq<byte>, n: nat, v2: bool, rest: seq<byte>)
    requires ParseRecords(body, n, v2).Ok?
    ensures ParseRecords(body + rest, n, v2) == ParseRecords(body, n, v2)
  {
    RecordsExact(v2);
    ManyIgnoresTail(RecordPrinter(v2), RecordReader(v2), Fitting(v2), body, n, rest);
  }

  /** No strict prefix of a printed section is accepted. */
  lemma StrictPrefixRejected(cs: seq<ClaimRecord>, p: seq<byte>)
    requires |cs| <= MAX_CLAIMS_PER_SECTION
    requires forall c :: c in cs ==> WellFormed(c)
    requires p < PrintSection(cs)
    ensures ParseSection(p).Err?
  {
    var whole := PrintSection(cs);
    if ParseSection(p).Ok? {
      var rest := whole[|p|..];
      assert whole == p + rest;
      SectionIgnoresTail(p, rest);
      SectionRoundTrip(cs, []);
      assert whole + [] == whole;
      assert HasMagic(p) by { assert p[..4] == whole[..4] == CLAIMS_V2_MAGIC; }
      SectionReprint(p);
    }
  }

  // ---------------------------------------------------------------------
  // Two formats, one reading.
  // ---------------------------------------------------------------------

  /** Read as a V1 count, the V2 magic is far beyond the claim limit. */
  lemma MagicIsNoCount(b: seq<byte>)
    requires HasMagic(b)
    ensures FromLe(b[..4]) == 843_926_595 > MAX_CLAIMS_PER_SECTION
  {
    assert b[..4] == CLAIMS_V2_MAGIC;
    var s := CLAIMS_V2_MAGIC;
    assert s[1..][1..] == [0x4D, 0x32] && s[1..][1..][1..] == [0x32] && s[1..][1..][1..][1..] == [];
  }

  /** A V1 section with an admissible count is never taken for V2, and is read as written. */
  lemma LegacyRoundTrip(cs: seq<ClaimRecord>, rest: seq<byte>)
    requires |cs| <= MAX_CLAIMS_PER_SECTION
    requires forall c :: c in cs ==> Printable(c, false)
    ensures !HasMagic(PrintSectionV1(cs) + rest)
    ensures ParseSection(PrintSectionV1(cs) + rest) == Ok(cs)
  {
    var body := PrintRecords(cs, false) + rest;
    var b := PrintSectionV1(cs) + rest;
    assert b == Len32(|cs|) + body;
    assert b[..4] == b[0..4] == Len32(|cs|) && b[4..] == body;
    CountRoundTrip(|cs|);
    if HasMagic(b) { MagicIsNoCount(b); }
    assert ParseSection(b) == ParseRecords(body, |cs|, false);
    RecordsExact(false);
    ManyRoundTrip(RecordPrinter(false), RecordReader(false), Fitting(false), cs, rest);
  }

  lemma AcceptedIsWellFormed(b: seq<byte>)
    requires ParseSection(b).Ok?
    ensures forall c :: c in ParseSection(b).value ==> WellFormed(c)
  {
    if HasMagic(b) {
      SectionReprint(b);
    } else {
      RecordsReprint(b[4..], FromLe(b[0..4]), false);
    }
  }

  /** Rewriting any accepted section, V1 or V2, in the current format keeps its claims. */
  lemma MigrationKeepsClaims(b: seq<byte>)
    requires ParseSection(b).Ok?
    ensures ParseSection(PrintSection(ParseSection(b).value)) == ParseSection(b)
  {
    var cs := ParseSection(b).value;
    AcceptedIsWellFormed(b);
    SectionRoundTrip(cs, []);
    assert PrintSection(cs) + [] == PrintSection(cs);
  }

  // ---------------------------------------------------------------------
  // The layouts, byte by byte.
  // ---------------------------------------------------------------------

  /** The nine tags and the widths of their values; BYTES carries its own length. */
  lemma TagTable(b: seq<byte>)
    ensures NULL.ToU8() == 0 && BOOL.ToU8() == 1 && I64.ToU8() == 2 && U64.ToU8() == 3 && F64.ToU8() == 4
    ensures BYTES.ToU8() == 5 && SYM.ToU8() == 6 && REF.ToU8() == 7 && NODENUM.ToU8() == 8
    ensures ValueLength(NULL, b) == Some(0) && ValueLength(BOOL, b) == Some(1) && ValueLength(SYM, b) == Some(4)
    ensures forall t :: t in {I64, U64, F64, NODENUM} ==> ValueLength(t, b) == Some(8)
    ensures ValueLength(REF, b) == Some(32)
    ensures ValueLength(BYTES, b) == if |b| < 4 then None else Some(4 + FromLe(b[..4]))
  {}

  /** The bytes of a record: 8, 4 and 1 byte in V2, 2, 2 and 1 in V1, then the value. */
  function RecordWords(c: ClaimRecord, v2: bool): seq<byte> {
    if v2 then Le(8, c.subject) + (Le(4, c.pred) + ([c.tag.ToU8()] + c.value))
    else Le(2, c.subject) + (Le(2, c.pred) + ([c.tag.ToU8()] + c.value))
  }

  lemma RecordBytes(c: ClaimRecord, v2: bool)
    ensures PrintRecord(c, v2) == RecordWords(c, v2)
  {
    var w, p := if v2 then 8 else 2, if v2 then 4 else 2;
    var tag := c.tag.ToU8();
    EncodeCons(1, [], tag, []);
    EncodeCons(p, [1], c.pred, [tag]);
    EncodeCons(w, [p, 1], c.subject, [c.pred, tag]);
    assert [w] + [p, 1] == Layout(v2) && [c.subject] + [c.pred, tag] == Words(c);
    LeOne(tag);
    assert Le(1, tag) + [] == [tag];
    ThreeAndValue(Le(w, c.subject), Le(p, c.pred), [tag], c.value);
  }

  lemma ThreeAndValue(a: seq<byte>, b: seq<byte>, t: seq<byte>, v: seq<byte>)
    ensures (a + (b + t)) + v == a + (b + (t + v))
  {}

  function RecordSize(v2: bool): ClaimRecord -> nat {
    (c: ClaimRecord) => (if v2 then 13 else 5) + |c.value|
  }

  /** Record `i` of a section whose records start at `at`. */
  ghost predicate RecordAt(s: seq<byte>, at: nat, cs: seq<ClaimRecord>, v2: bool, i: nat)
    requires i < |cs|
  {
    At(s, at + Offset(RecordSize(v2), cs, i), RecordWords(cs[i], v2))
  }

  /**
   An accepted section: with the bytes 43 4C 4D 32 in front it is V2 and its records start at 8,
   else it is V1 and they start at 4; the count stands before them.
   */
  lemma SectionRecords(s: seq<byte>)
    requires ParseSection(s).Ok?
    ensures var cs, v2 := ParseSection(s).value, [0x43, 0x4C, 0x4D, 0x32] <= s;
            var at := if v2 then 8 else 4;
            && |s| >= at && |cs| == FromLe(s[at - 4..at]) <= 1_000_000
            && forall i :: 0 <= i < |cs| ==> RecordAt(s, at, cs, v2, i)
  {
    var cs, v2 := ParseSection(s).value, HasMagic(s);
    var at := if v2 then 8 else 4;
    AcceptedParts(s);
    var body := s[at..];
    RecordsReprint(body, |cs|, v2);
    RecordsAt(cs, v2, body);
    forall i | 0 <= i < |cs| ensures RecordAt(s, at, cs, v2, i) {
      assert RecordAt(body, 0, cs, v2, i);
      assert s == s[..at] + body;
      AtBehind(s[..at], body, Offset(RecordSize(v2), cs, i), RecordWords(cs[i], v2));
    }
  }

  lemma RecordsAt(cs: seq<ClaimRecord>, v2: bool, body: seq<byte>)
    requires PrintRecords(cs, v2) <= body
    ensures forall i :: 0 <= i < |cs| ==> RecordAt(body, 0, cs, v2, i)
  {
    FlatAt(RecordPrinter(v2), RecordSize(v2), cs);
    var printed := PrintRecords(cs, v2);
    assert body == printed + body[|printed|..];
    forall i | 0 <= i < |cs| ensures RecordAt(body, 0, cs, v2, i) {
      assert ElementAt(printed, 0, RecordPrinter(v2), RecordSize(v2), cs, i);
      RecordBytes(cs[i], v2);
      AtBefore(printed, body[|printed|..], Offset(RecordSize(v2), cs, i), RecordWords(cs[i], v2));
    }
  }

  /** The printed section: magic, count, records. */
  lemma SectionBytes(cs: seq<ClaimRecord>)
    requires |cs| < 0x1_0000_0000
    ensures var s := PrintSection(cs);
            && [0x43, 0x4C, 0x4D, 0x32] <= s && |s| == 8 + Offset(RecordSize(true), cs, |cs|)
            && FromLe(s[4..8]) == |cs| && forall i :: 0 <= i < |cs| ==> RecordAt(s, 8, cs, true, i)
  {
    var s, body := PrintSection(cs), PrintRecords(cs, true);
    var head := CLAIMS_V2_MAGIC + Len32(|cs|);
    assert s == head + body && s[4..8] == Len32(|cs|);
    CountRoundTrip(|cs|);
    FlatAt(RecordPrinter(true), RecordSize(true), cs);
    RecordsAt(cs, true, body);
    forall i | 0 <= i < |cs| ensures RecordAt(s, 8, cs, true, i) {
      assert RecordAt(body, 0, cs, true, i);
      AtBehind(head, body, Offset(RecordSize(true), cs, i), RecordWords(cs[i], true));
    }
  }

  // ---------------------------------------------------------------------
  // The section object and its loops.
  // ---------------------------------------------------------------------

  class ClaimsSection {
    var claims: seq<ClaimRecord>

    constructor ()
      ensures claims == []
    {
      claims := [];
    }

    method AddClaim(claim: ClaimRecord)
      modifies this
      ensures claims == old(claims) + [claim]
    {
      claims := claims + [claim];
    }

    method ToBytes() returns (bytes: seq<byte>)
      ensures bytes == PrintSection(claims)
    {
      bytes := CLAIMS_V2_MAGIC;
      bytes := bytes + Len32(|claims|);
      bytes := AppendAll(RecordPrinter(true), bytes, claims);
    }
  }

  /** `from_bytes`: one cursor over the buffer, one growing vector. */
  method SectionFromBytes(bytes: seq<byte>) returns (r: Result<seq<ClaimRecord>>)
    ensures r == ParseSection(bytes)
  {
    if |bytes| < 4 {
      return Err(BufferTooSmall);
    }
    var v2 := CLAIMS_V2_MAGIC <= bytes;
    var countOffset := if v2 then 4 else 0;
    if |bytes| < countOffset + 4 {
      return Err(BufferTooSmall);
    }
    var count := FromLe(bytes[countOffset..countOffset + 4]);
    if count > MAX_CLAIMS_PER_SECTION {
      return Err(ExtractionFailed);
    }
    r := ReadAll(RecordReader(v2), bytes, countOffset + 4, count);
  }
}
