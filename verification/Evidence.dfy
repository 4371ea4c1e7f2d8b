/** The EVIDENCE section: a 32-bit count and records of six 32-bit words. */
module Evidence {
  import opened Bytes
  import opened Results
  import opened Codecs

  datatype EvidenceRecord = EvidenceRecord(
    kind: u32, sourceSym: u32, methodSym: u32, timestamp: u32, confidence: u32, flags: u32)

  const RECORD_SIZE: nat := 24

  function Layout(): seq<nat> { [4, 4, 4, 4, 4, 4] }

  function Words(e: EvidenceRecord): (vs: seq<nat>)
    ensures |vs| == 6
  {
    [e.kind, e.sourceSym, e.methodSym, e.timestamp, e.confidence, e.flags]
  }

  lemma LayoutFacts()
    ensures |Layout()| == 6 && Width(Layout()) == RECORD_SIZE
    ensures Pow256(4) == U32_LIMIT
  {
    WidthCons(4, []);
    WidthCons(4, [4]);
    WidthCons(4, [4, 4]);
    WidthCons(4, [4, 4, 4]);
    WidthCons(4, [4, 4, 4, 4]);
    WidthCons(4, [4, 4, 4, 4, 4]);
    assert [4] + [4, 4, 4, 4, 4] == Layout();
    WordSizes();
  }

  function Print(e: EvidenceRecord): (s: seq<byte>)
    ensures |s| == RECORD_SIZE
  {
    LayoutFacts();
    EncodeWords(Layout(), Words(e))
  }

  /** The six words of a record, in order. */
  function SixWords(e: EvidenceRecord): seq<byte> {
    Le(4, e.kind) + (Le(4, e.sourceSym) + (Le(4, e.methodSym) + (Le(4, e.timestamp) +
      (Le(4, e.confidence) + Le(4, e.flags)))))
  }

  lemma RecordBytes(e: EvidenceRecord)
    ensures Print(e) == SixWords(e)
  {
    EncodeCons(4, [], e.flags, []);
    EncodeCons(4, [4], e.confidence, [e.flags]);
    EncodeCons(4, [4, 4], e.timestamp, [e.confidence, e.flags]);
    EncodeCons(4, [4, 4, 4], e.methodSym, [e.timestamp, e.confidence, e.flags]);
    EncodeCons(4, [4, 4, 4, 4], e.sourceSym, [e.methodSym, e.timestamp, e.confidence, e.flags]);
    EncodeCons(4, [4, 4, 4, 4, 4], e.kind, [e.sourceSym, e.methodSym, e.timestamp, e.confidence, e.flags]);
    assert [4] + [4, 4, 4, 4, 4] == Layout();
    assert [e.kind] + [e.sourceSym, e.methodSym, e.timestamp, e.confidence, e.flags] == Words(e);
    assert Le(4, e.flags) + [] == Le(4, e.flags);
  }

  lemma WordsInRange(b: seq<byte>)
    requires |b| >= Width(Layout())
    ensures forall i :: 0 <= i < 6 ==> DecodeWords(Layout(), b)[i] < U32_LIMIT
  {
    LayoutFacts();
    DecodeRoundTrip(Layout(), b);
    forall i | 0 <= i < 6 ensures DecodeWords(Layout(), b)[i] < U32_LIMIT {
      assert Layout()[i] == 4;
    }
  }

  function Parse(b: seq<byte>): (r: Result<(EvidenceRecord, nat)>) {
    LayoutFacts();
    if |b| < RECORD_SIZE then Err(BufferTooSmall)
    else
      WordsInRange(b);
      var vs := DecodeWords(Layout(), b);
      Ok((EvidenceRecord(vs[0], vs[1], vs[2], vs[3], vs[4], vs[5]), RECORD_SIZE))
  }

  function Printing(): Printer<EvidenceRecord> { (e: EvidenceRecord) => Print(e) }

  function Reading(): Reader<EvidenceRecord> { (b: seq<byte>) => Parse(b) }

  ghost function Any(): EvidenceRecord -> bool { (e: EvidenceRecord) => true }

  lemma RecordRoundTrip(e: EvidenceRecord, rest: seq<byte>)
    ensures Parse(Print(e) + rest) == Ok((e, RECORD_SIZE))
  {
    LayoutFacts();
    WordsRoundTrip(Layout(), Words(e), rest);
  }

  lemma RecordReprint(b: seq<byte>)
    requires |b| >= RECORD_SIZE
    ensures Print(Parse(b).value.0) == b[..RECORD_SIZE]
  {
    LayoutFacts();
    DecodeRoundTrip(Layout(), b);
    var vs := DecodeWords(Layout(), b);
    assert vs == Words(Parse(b).value.0);
  }

  lemma RecordsExact()
    ensures Inverts(Printing(), Reading(), Any())
    ensures Reprints(Printing(), Reading(), Any())
    ensures TakesExactly(Reading(), RECORD_SIZE)
  {
    forall e, rest ensures Parse(Print(e) + rest) == Ok((e, RECORD_SIZE)) { RecordRoundTrip(e, rest); }
    forall b | Parse(b).Ok? ensures Print(Parse(b).value.0) == b[..RECORD_SIZE] { RecordReprint(b); }
  }

  /** `EvidenceSection::to_bytes`. */
  function PrintSection(es: seq<EvidenceRecord>): seq<byte> {
    PrintCounted(Printing(), es)
  }

  /** `EvidenceSection::from_bytes`, which checks the whole length before it reads. */
  function ParseSection(b: seq<byte>): Result<seq<EvidenceRecord>> {
    if |b| < 4 || |b| < 4 + FromLe(b[..4]) * RECORD_SIZE then Err(BufferTooSmall)
    else ReadMany(Reading(), b[4..], FromLe(b[..4]))
  }

  /** The check up front loses nothing: it fails exactly when reading would. */
  lemma LengthCheckIsExact(b: seq<byte>)
    ensures ParseSection(b) == ReadCounted(Reading(), b)
  {
    RecordsExact();
    if |b| >= 4 { FixedWidthReads(Reading(), RECORD_SIZE, b[4..], FromLe(b[..4])); }
  }

  /** Round trip, indifference to trailing bytes, and rejection of every strict prefix. */
  lemma SectionExact(es: seq<EvidenceRecord>, rest: seq<byte>)
    requires |es| < U32_LIMIT
    ensures ParseSection(PrintSection(es) + rest) == Ok(es)
    ensures forall p :: p < PrintSection(es) ==> ParseSection(p) == Err(BufferTooSmall)
  {
    RecordsExact();
    LengthCheckIsExact(PrintSection(es) + rest);
    CountedRoundTrip(Printing(), Reading(), Any(), es, rest);
    forall p | p < PrintSection(es) ensures ParseSection(p) == Err(BufferTooSmall) {
      LengthCheckIsExact(p);
      CountedPrefixRejected(Printing(), Reading(), Any(), es, p);
      if |p| >= 4 { FixedWidthReads(Reading(), RECORD_SIZE, p[4..], FromLe(p[..4])); }
    }
  }

  /** Any accepted section starts with the printed form of what was read from it. */
  lemma SectionReprint(b: seq<byte>)
    requires ParseSection(b).Ok?
    ensures PrintSection(ParseSection(b).value) <= b
  {
    RecordsExact();
    LengthCheckIsExact(b);
    CountedReprint(Printing(), Reading(), Any(), b);
  }

  /** Record `i` of a section is the six words that stand 4 + 24 * i bytes into it. */
  ghost predicate RecordAt(s: seq<byte>, i: nat, e: EvidenceRecord) {
    At(s, 4 + 24 * i, SixWords(e))
  }

  lemma SectionRecords(s: seq<byte>)
    requires ParseSection(s).Ok?
    ensures var es := ParseSection(s).value;
            && |s| >= 4 && |es| == FromLe(s[..4])
            && forall i :: 0 <= i < |es| ==> RecordAt(s, i, es[i])
  {
    var es := ParseSection(s).value;
    SectionReprint(s);
    FixedEntries(s, Printing(), 24, es);
    forall i | 0 <= i < |es| ensures RecordAt(s, i, es[i]) {
      assert FixedEntry(s, Printing(), 24, es, i);
      RecordBytes(es[i]);
    }
  }

  class EvidenceSection {
    var evidence: seq<EvidenceRecord>

    constructor ()
      ensures evidence == []
    {
      evidence := [];
    }

    method AddEvidence(e: EvidenceRecord)
      modifies this
      ensures evidence == old(evidence) + [e]
    {
      evidence := evidence + [e];
    }

    method ToBytes() returns (bytes: seq<byte>)
      ensures bytes == PrintSection(evidence)
    {
      bytes := AppendAll(Printing(), Len32(|evidence|), evidence);
    }
  }

  method SectionFromBytes(bytes: seq<byte>) returns (r: Result<seq<EvidenceRecord>>)
    ensures r == ParseSection(bytes)
  {
    if |bytes| < 4 {
      return Err(BufferTooSmall);
    }
    var count := FromLe(bytes[..4]);
    if |bytes| < 4 + count * RECORD_SIZE {
      return Err(BufferTooSmall);
    }
    r := ReadAll(Reading(), bytes, 4, count);
  }
}
