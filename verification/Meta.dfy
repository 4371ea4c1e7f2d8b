/** The META section: a 32-bit count and tagged fields of eight bytes. */
module Meta {
  import opened Bytes
  import opened Results
  import opened Codecs

  datatype MetaField = MetaField(kind: u16, valueTag: u16, value: u32)

  const FIELD_SIZE: nat := 8
  const TRUST_SCORE: u16 := 1
  const DOMAIN_MASK: u16 := 2
  const VERSION: u16 := 3
  const TAG_U32: u16 := 0
  const TAG_F32: u16 := 1
  const KNOWN_TAGS: nat := 5

  function Layout(): seq<nat> { [2, 2, 4] }

  function Words(f: MetaField): (vs: seq<nat>)
    ensures |vs| == 3
  {
    [f.kind, f.valueTag, f.value]
  }

  lemma LayoutFacts()
    ensures |Layout()| == 3 && Width(Layout()) == FIELD_SIZE
    ensures Pow256(2) == 0x1_0000 && Pow256(4) == U32_LIMIT
  {
    assert [2, 2, 4][1..] == [2, 4] && [2, 4][1..] == [4] && [4][1..] == [];
    assert Width([4]) == 4 && Width([2, 4]) == 6;
    WordSizes();
  }

  function Print(f: MetaField): (s: seq<byte>)
    ensures |s| == FIELD_SIZE
  {
    LayoutFacts();
    EncodeWords(Layout(), Words(f))
  }

  /** The three words of a field, in order. */
  function ThreeWords(f: MetaField): seq<byte> {
    Le(2, f.kind) + (Le(2, f.valueTag) + Le(4, f.value))
  }

  lemma FieldBytes(f: MetaField)
    ensures Print(f) == ThreeWords(f)
  {
    EncodeCons(4, [], f.value, []);
    EncodeCons(2, [4], f.valueTag, [f.value]);
    EncodeCons(2, [2, 4], f.kind, [f.valueTag, f.value]);
    assert [2] + [2, 4] == Layout() && [f.kind] + [f.valueTag, f.value] == Words(f);
    assert Le(4, f.value) + [] == Le(4, f.value);
  }

  function Parse(b: seq<byte>): (r: Result<(MetaField, nat)>) {
    LayoutFacts();
    if |b| < FIELD_SIZE then Err(BufferTooSmall)
    else
      DecodeRoundTrip(Layout(), b);
      var vs := DecodeWords(Layout(), b);
      Ok((MetaField(vs[0], vs[1], vs[2]), FIELD_SIZE))
  }

  function Printing(): Printer<MetaField> { (f: MetaField) => Print(f) }

  function Reading(): Reader<MetaField> { (b: seq<byte>) => Parse(b) }

  ghost function Any(): MetaField -> bool { (f: MetaField) => true }

  lemma FieldRoundTrip(f: MetaField, rest: seq<byte>)
    ensures Parse(Print(f) + rest) == Ok((f, FIELD_SIZE))
  {
    LayoutFacts();
    WordsRoundTrip(Layout(), Words(f), rest);
  }

  lemma FieldReprint(b: seq<byte>)
    requires |b| >= FIELD_SIZE
    ensures Print(Parse(b).value.0) == b[..FIELD_SIZE]
  {
    LayoutFacts();
    DecodeRoundTrip(Layout(), b);
    assert DecodeWords(Layout(), b) == Words(Parse(b).value.0);
  }

  lemma FieldsExact()
    ensures Inverts(Printing(), Reading(), Any())
    ensures Reprints(Printing(), Reading(), Any())
    ensures TakesExactly(Reading(), FIELD_SIZE)
  {
    forall f, rest ensures Parse(Print(f) + rest) == Ok((f, FIELD_SIZE)) { FieldRoundTrip(f, rest); }
    forall b | Parse(b).Ok? ensures Print(Parse(b).value.0) == b[..FIELD_SIZE] { FieldReprint(b); }
  }

  /** `MetaSection::to_bytes`. */
  function PrintSection(fs: seq<MetaField>): seq<byte> {
    PrintCounted(Printing(), fs)
  }

  /** `MetaSection::from_bytes`, which checks the whole length before it reads. */
  function ParseSection(b: seq<byte>): Result<seq<MetaField>> {
    if |b| < 4 || |b| < 4 + FromLe(b[..4]) * FIELD_SIZE then Err(BufferTooSmall)
    else ReadMany(Reading(), b[4..], FromLe(b[..4]))
  }

  lemma LengthCheckIsExact(b: seq<byte>)
    ensures ParseSection(b) == ReadCounted(Reading(), b)
  {
    FieldsExact();
    if |b| >= 4 { FixedWidthReads(Reading(), FIELD_SIZE, b[4..], FromLe(b[..4])); }
  }

  /** Round trip, indifference to trailing bytes, and rejection of every strict prefix. */
  lemma SectionExact(fs: seq<MetaField>, rest: seq<byte>)
    requires |fs| < U32_LIMIT
    ensures ParseSection(PrintSection(fs) + rest) == Ok(fs)
    ensures forall p :: p < PrintSection(fs) ==> ParseSection(p) == Err(BufferTooSmall)
  {
    FieldsExact();
    LengthCheckIsExact(PrintSection(fs) + rest);
    CountedRoundTrip(Printing(), Reading(), Any(), fs, rest);
    forall p | p < PrintSection(fs) ensures ParseSection(p) == Err(BufferTooSmall) {
      LengthCheckIsExact(p);
      CountedPrefixRejected(Printing(), Reading(), Any(), fs, p);
      if |p| >= 4 { FixedWidthReads(Reading(), FIELD_SIZE, p[4..], FromLe(p[..4])); }
    }
  }

  /** Any accepted section starts with the printed form of what was read from it. */
  lemma SectionReprint(b: seq<byte>)
    requires ParseSection(b).Ok?
    ensures PrintSection(ParseSection(b).value) <= b
  {
    FieldsExact();
    LengthCheckIsExact(b);
    CountedReprint(Printing(), Reading(), Any(), b);
  }

  /** Field `i` of a section is the three words that stand 4 + 8 * i bytes into it. */
  ghost predicate FieldAt(s: seq<byte>, i: nat, f: MetaField) {
    At(s, 4 + 8 * i, ThreeWords(f))
  }

  lemma SectionFields(s: seq<byte>)
    requires ParseSection(s).Ok?
    ensures var fs := ParseSection(s).value;
            && |s| >= 4 && |fs| == FromLe(s[..4])
            && forall i :: 0 <= i < |fs| ==> FieldAt(s, i, fs[i])
  {
    var fs := ParseSection(s).value;
    SectionReprint(s);
    FixedEntries(s, Printing(), 8, fs);
    forall i | 0 <= i < |fs| ensures FieldAt(s, i, fs[i]) {
      assert FixedEntry(s, Printing(), 8, fs, i);
      FieldBytes(fs[i]);
    }
  }

  /** `get_value` reads tag 0 and every unknown tag as an unsigned number. */
  predicate IsU32(f: MetaField) {
    f.valueTag == TAG_U32 || f.valueTag >= KNOWN_TAGS
  }

  predicate SetsTrust(f: MetaField) {
    f.kind == TRUST_SCORE && f.valueTag == TAG_F32
  }

  predicate SetsVersion(f: MetaField) {
    f.kind == VERSION && IsU32(f)
  }

  /** The raw bits of the trust and version fields that canonicalisation uses. */
  datatype Digest = Digest(trust: Option<u32>, version: Option<u32>)

  /** One iteration of the field loop of `extract_canonical_form`. */
  function Absorb(d: Digest, f: MetaField): Digest {
    if SetsTrust(f) then d.(trust := Some(f.value))
    else if SetsVersion(f) then d.(version := Some(f.value))
    else d
  }

  function AbsorbAll(fs: seq<MetaField>): Digest {
    if fs == [] then Digest(None, None) else Absorb(AbsorbAll(fs[..|fs| - 1]), fs[|fs| - 1])
  }

  /** Value of the last field that satisfies `p`. */
  function Last(p: MetaField -> bool, fs: seq<MetaField>): Option<u32> {
    if fs == [] then None
    else if p(fs[|fs| - 1]) then Some(fs[|fs| - 1].value)
    else Last(p, fs[..|fs| - 1])
  }

  lemma {:induction false} LastIsLast(p: MetaField -> bool, fs: seq<MetaField>, i: nat)
    requires i < |fs| && p(fs[i])
    requires forall j :: i < j < |fs| ==> !p(fs[j])
    ensures Last(p, fs) == Some(fs[i].value)
  {
    if i < |fs| - 1 { LastIsLast(p, fs[..|fs| - 1], i); }
  }

  /**
   The trust is the value of the last field of kind 1 and tag 1, and there is none without such
   a field; the version is that of the last field of kind 3 whose tag is 0 or unknown, that is 5 or more.
   */
  ghost predicate LastOf(fs: seq<MetaField>, kind: nat, tags: nat -> bool, v: Option<u32>) {
    match v
    case None => forall i :: 0 <= i < |fs| ==> !(fs[i].kind == kind && tags(fs[i].valueTag))
    case Some(x) => exists i :: 0 <= i < |fs| && fs[i].kind == kind && tags(fs[i].valueTag) && fs[i].value == x &&
                      forall j :: i < j < |fs| ==> !(fs[j].kind == kind && tags(fs[j].valueTag))
  }

  lemma DigestMeans(fs: seq<MetaField>)
    ensures LastOf(fs, 1, t => t == 1, AbsorbAll(fs).trust)
    ensures LastOf(fs, 3, t => t == 0 || t >= 5, AbsorbAll(fs).version)
  {
    LastFieldsDecide(fs);
    LastMeans(fs, SetsTrust, 1, t => t == 1);
    LastMeans(fs, SetsVersion, 3, t => t == 0 || t >= 5);
  }

  lemma {:induction false} LastMeans(fs: seq<MetaField>, p: MetaField -> bool, kind: nat, tags: nat -> bool)
    requires forall f :: p(f) <==> f.kind == kind && tags(f.valueTag)
    ensures LastOf(fs, kind, tags, Last(p, fs))
  {
    if fs == [] {
    } else {
      var init := fs[..|fs| - 1];
      LastMeans(init, p, kind, tags);
      assert fs == init + [fs[|fs| - 1]];
      if p(fs[|fs| - 1]) {
        assert fs[|fs| - 1].kind == kind;
      } else if Last(p, init).Some? {
        var i :|
          0 <= i < |init| && init[i].kind == kind && tags(init[i].valueTag) && init[i].value == Last(p, init).value &&
          forall j :: i < j < |init| ==> !(init[j].kind == kind && tags(init[j].valueTag));
        assert fs[i] == init[i];
      }
    }
  }

  /** The last F32 trust field and the last U32 version field decide; nothing else matters. */
  lemma {:induction false} LastFieldsDecide(fs: seq<MetaField>)
    ensures AbsorbAll(fs) == Digest(Last(SetsTrust, fs), Last(SetsVersion, fs))
  {
    if fs == [] {
    } else {
      LastFieldsDecide(fs[..|fs| - 1]);
    }
  }

  class MetaSection {
    var fields: seq<MetaField>

    constructor ()
      ensures fields == []
    {
      fields := [];
    }

    method AddField(f: MetaField)
      modifies this
      ensures fields == old(fields) + [f]
    {
      fields := fields + [f];
    }

    method ToBytes() returns (bytes: seq<byte>)
      ensures bytes == PrintSection(fields)
    {
      bytes := AppendAll(Printing(), Len32(|fields|), fields);
    }
  }

  method SectionFromBytes(bytes: seq<byte>) returns (r: Result<seq<MetaField>>)
    ensures r == ParseSection(bytes)
  {
    if |bytes| < 4 {
      return Err(BufferTooSmall);
    }
    var count := FromLe(bytes[..4]);
    if |bytes| < 4 + count * FIELD_SIZE {
      return Err(BufferTooSmall);
    }
    r := ReadAll(Reading(), bytes, 4, count);
  }

  /** The field loop of `extract_canonical_form`. */
  method Digested(fields: seq<MetaField>) returns (d: Digest)
    ensures d.trust == Last(SetsTrust, fields)
    ensures d.version == Last(SetsVersion, fields)
  {
    d := Digest(None, None);
    for i := 0 to |fields|
      invariant d == AbsorbAll(fields[..i])
    {
      assert fields[..i + 1][..i] == fields[..i];
      d := Absorb(d, fields[i]);
    }
    assert fields[..|fields|] == fields;
    LastFieldsDecide(fields);
  }
}
