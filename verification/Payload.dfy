/**
 From the bytes of an atom body to its identity: header, section table, section
 lookup, extraction of the canonical form, hash.
 */
module Payload {
  import opened Bytes
  import opened Results
  import opened Sorting
  import opened Canonical
  import opened Decimal
  import Claims
  import Symbols
  import Evidence
  import Meta

  type Digest = h: seq<byte> | |h| == 32 witness seq(32, i => 0)

  /** The library functions the pipeline uses; nothing is assumed about them. */
  datatype World = World(
    hash: seq<byte> -> Digest,                    // BLAKE3-256
    nfc: seq<byte> -> seq<byte>,                  // Unicode NFC
    lossy: seq<byte> -> seq<byte>,                // String::from_utf8_lossy
    invariants: seq<byte> -> Result<seq<byte>>,   // InvariantsSection: parse, then print
    trust: u32 -> u32)                            // f32 bits to the clamped, scaled u32

  const ATOM_MAGIC: u32 := 0x41544F4D
  const ATOM_BODY_VERSION: u16 := 1
  const HEADER_SIZE: nat := 48
  const DESC_SIZE: nat := 32

  // Section kinds.
  const SYMBOLS: u32 := 1
  const REFS: u32 := 2
  const CLAIMS: u32 := 3
  const INVARIANTS: u32 := 4
  const EDGES: u32 := 5
  const EVIDENCE: u32 := 6
  const META: u32 := 7

  datatype Header = Header(
    magic: u32, version: u16, flags: u16, createdAt: u64, validFrom: u64, validTo: u64,
    atomType: u32, sectionCount: u32, tableOff: u64)

  datatype Desc = Desc(kind: u32, flags: u32, off: u64, len: u64, crc: u32, reserved: u32)

  function HeaderLayout(): seq<nat> { [4, 2, 2, 8, 8, 8, 4, 4, 8] }

  function DescLayout(): seq<nat> { [4, 4, 8, 8, 4, 4] }

  lemma HeaderFacts()
    ensures |HeaderLayout()| == 9 && Width(HeaderLayout()) == HEADER_SIZE
    ensures Pow256(2) == 0x1_0000 && Pow256(4) == U32_LIMIT && Pow256(8) == U64_LIMIT
  {
    WidthCons(8, []);
    WidthCons(4, [8]);
    WidthCons(4, [4, 8]);
    WidthCons(8, [4, 4, 8]);
    WidthCons(8, [8, 4, 4, 8]);
    WidthCons(8, [8, 8, 4, 4, 8]);
    WidthCons(2, [8, 8, 8, 4, 4, 8]);
    WidthCons(2, [2, 8, 8, 8, 4, 4, 8]);
    WidthCons(4, [2, 2, 8, 8, 8, 4, 4, 8]);
    assert [4] + [2, 2, 8, 8, 8, 4, 4, 8] == HeaderLayout();
    WordSizes();
  }

  lemma DescFacts()
    ensures |DescLayout()| == 6 && Width(DescLayout()) == DESC_SIZE
    ensures Pow256(4) == U32_LIMIT && Pow256(8) == U64_LIMIT
  {
    WidthCons(4, []);
    WidthCons(4, [4]);
    WidthCons(8, [4, 4]);
    WidthCons(8, [8, 4, 4]);
    WidthCons(4, [8, 8, 4, 4]);
    WidthCons(4, [4, 8, 8, 4, 4]);
    assert [4] + [4, 8, 8, 4, 4] == DescLayout();
    WordSizes();
  }

  function HeaderWords(h: Header): (vs: seq<nat>)
    ensures |vs| == 9
  {
    [h.magic, h.version, h.flags, h.createdAt, h.validFrom, h.validTo, h.atomType, h.sectionCount, h.tableOff]
  }

  function DescWords(d: Desc): (vs: seq<nat>)
    ensures |vs| == 6
  {
    [d.kind, d.flags, d.off, d.len, d.crc, d.reserved]
  }

  function PrintHeader(h: Header): (s: seq<byte>)
    ensures |s| == HEADER_SIZE
  {
    HeaderFacts();
    EncodeWords(HeaderLayout(), HeaderWords(h))
  }

  function PrintDesc(d: Desc): (s: seq<byte>)
    ensures |s| == DESC_SIZE
  {
    DescFacts();
    EncodeWords(DescLayout(), DescWords(d))
  }

  function ReadHeader(b: seq<byte>): Header
    requires |b| >= HEADER_SIZE
  {
    HeaderFacts();
    DecodeRoundTrip(HeaderLayout(), b);
    var vs := DecodeWords(HeaderLayout(), b);
    Header(vs[0], vs[1], vs[2], vs[3], vs[4], vs[5], vs[6], vs[7], vs[8])
  }

  function ReadDesc(b: seq<byte>): Desc
    requires |b| >= DESC_SIZE
  {
    DescFacts();
    DecodeRoundTrip(DescLayout(), b);
    var vs := DecodeWords(DescLayout(), b);
    Desc(vs[0], vs[1], vs[2], vs[3], vs[4], vs[5])
  }

  lemma HeaderRoundTrip(h: Header, rest: seq<byte>)
    ensures ReadHeader(PrintHeader(h) + rest) == h
  {
    HeaderFacts();
    WordsRoundTrip(HeaderLayout(), HeaderWords(h), rest);
  }

  lemma DescRoundTrip(d: Desc, rest: seq<byte>)
    ensures ReadDesc(PrintDesc(d) + rest) == d
  {
    DescFacts();
    WordsRoundTrip(DescLayout(), DescWords(d), rest);
  }

  /** `AtomBodyHeader::from_bytes`. */
  function ParseHeader(b: seq<byte>): Result<Header> {
    if |b| < HEADER_SIZE then Err(BufferTooSmall)
    else if ReadHeader(b).magic != ATOM_MAGIC || ReadHeader(b).version != ATOM_BODY_VERSION then Err(InvalidMagic)
    else Ok(ReadHeader(b))
  }

  // ---------------------------------------------------------------------
  // Section table and lookup.
  // ---------------------------------------------------------------------

  /** Done, a reported error, or an out-of-range slice, which aborts the program. */
  datatype Outcome<+T> = Done(value: T) | Fails(error: CasError) | Panics

  /** End of the section table, as an unbounded number. */
  function TableEnd(h: Header): nat {
    h.tableOff + h.sectionCount * DESC_SIZE
  }

  /** The end computed in 64-bit arithmetic; release builds wrap around. */
  function WrappedTableEnd(h: Header): nat {
    if TableEnd(h) < U64_LIMIT then TableEnd(h) else TableEnd(h) - U64_LIMIT
  }

  function Descs(b: seq<byte>, off: nat, n: nat): (ds: seq<Desc>)
    requires off + n * DESC_SIZE <= |b|
    ensures |ds| == n
  {
    seq(n, i requires 0 <= i < n => ReadDesc(b[off + i * DESC_SIZE..]))
  }

  /** A length check that wraps around lets through a table whose first slice is out of range. */
  function ParseTable(b: seq<byte>, h: Header): Outcome<seq<Desc>> {
    if |b| < WrappedTableEnd(h) then Fails(BufferTooSmall)
    else if |b| < TableEnd(h) then Panics
    else Done(Descs(b, h.tableOff, h.sectionCount))
  }

  function FindKind(ds: seq<Desc>, kind: u32): Option<Desc> {
    if ds == [] then None else if ds[0].kind == kind then Some(ds[0]) else FindKind(ds[1..], kind)
  }

  /** The first section of a kind; empty when there is none or it does not lie in the body. */
  function Section(b: seq<byte>, ds: seq<Desc>, kind: u32): seq<byte> {
    match FindKind(ds, kind)
    case None => []
    case Some(d) => if d.off + d.len <= |b| then b[d.off..d.off + d.len] else []
  }

  // ---------------------------------------------------------------------
  // Extraction.
  // ---------------------------------------------------------------------

  /** What the five sections decode to, before normalisation. */
  datatype Content = Content(
    atomType: u32, validFrom: u64, validTo: u64,
    symbols: seq<seq<byte>>,
    claims: seq<Claims.ClaimRecord>,
    invariants: seq<byte>,
    evidence: seq<Evidence.EvidenceRecord>,
    meta: Meta.Digest)

  predicate Narrow(c: Claims.ClaimRecord) {
    c.subject < U32_LIMIT
  }

  function DecodeSymbols(w: World, s: seq<byte>): Result<seq<seq<byte>>> {
    if s == [] then Ok([])
    else
      var names :- Symbols.ParseNames(w.lossy, s);
      Ok(Mapped(w.nfc, names))
  }

  /** Claims are refused when a subject does not fit the canonical 32 bits. */
  function DecodeClaims(s: seq<byte>): Result<seq<Claims.ClaimRecord>> {
    if s == [] then Ok([])
    else
      var cs :- Claims.ParseSection(s);
      if forall c :: c in cs ==> Narrow(c) then Ok(cs) else Err(ExtractionFailed)
  }

  function DecodeInvariants(w: World, s: seq<byte>): Result<seq<byte>> {
    if s == [] then Ok([]) else w.invariants(s)
  }

  function DecodeEvidence(s: seq<byte>): Result<seq<Evidence.EvidenceRecord>> {
    if s == [] then Ok([]) else Evidence.ParseSection(s)
  }

  function DecodeMeta(s: seq<byte>): Result<Meta.Digest> {
    if s == [] then Ok(Meta.Digest(None, None))
    else
      var fs :- Meta.ParseSection(s);
      Ok(Meta.AbsorbAll(fs))
  }

  function Decode(w: World, h: Header, syms: seq<byte>, clms: seq<byte>, invs: seq<byte>, evds: seq<byte>,
                  metas: seq<byte>): (r: Result<Content>)
    ensures r.Ok? ==> forall c :: c in r.value.claims ==> Narrow(c)
  {
    var symbols :- DecodeSymbols(w, syms);
    var claims :- DecodeClaims(clms);
    var invariants :- DecodeInvariants(w, invs);
    var evidence :- DecodeEvidence(evds);
    var meta :- DecodeMeta(metas);
    Ok(Content(h.atomType, h.validFrom, h.validTo, symbols, claims, invariants, evidence, meta))
  }

  /** A claim as it enters the form: the mask is always zero. */
  function ToCanonical(c: Claims.ClaimRecord): CanonicalClaim {
    CanonicalClaim(Truncate32(c.subject), c.pred, c.tag.ToU8(), c.value, 0)
  }

  function EvidenceHash(w: World): Evidence.EvidenceRecord -> seq<byte> {
    (e: Evidence.EvidenceRecord) => w.hash(Evidence.Print(e))
  }

  const DOT_ZERO_DOT_ZERO: seq<byte> := [46, 48, 46, 48]

  function VersionText(v: Option<u32>): seq<byte> {
    match v case None => [] case Some(n) => Digits(n) + DOT_ZERO_DOT_ZERO
  }

  /** The form before it is normalised. */
  function RawForm(w: World, c: Content): Form {
    EmptyForm(c.atomType).(
      validFrom := c.validFrom,
      validTo := c.validTo,
      symbols := c.symbols,
      claims := Mapped(ToCanonical, c.claims),
      invariants := c.invariants,
      evidence := Mapped(EvidenceHash(w), c.evidence),
      trust := if c.meta.trust.None? then 0 else w.trust(c.meta.trust.value),
      version := VersionText(c.meta.version))
  }

  /** Everything the identity depends on. */
  function ContentOf(w: World, b: seq<byte>): Outcome<Content> {
    match ParseHeader(b)
    case Err(e) => Fails(e)
    case Ok(h) =>
      match ParseTable(b, h)
      case Fails(e) => Fails(e)
      case Panics => Panics
      case Done(ds) =>
        match Decode(w, h, Section(b, ds, SYMBOLS), Section(b, ds, CLAIMS), Section(b, ds, INVARIANTS),
                     Section(b, ds, EVIDENCE), Section(b, ds, META))
        case Err(e) => Fails(e)
        case Ok(c) => Done(c)
  }

  function IdOfContent(w: World, c: Content): Digest {
    w.hash(CanonicalBytes(RawForm(w, c)))
  }

  /** `extract_and_compute_atom_id`: the path verification takes. */
  function AtomId(w: World, b: seq<byte>): Outcome<Digest> {
    match ContentOf(w, b)
    case Fails(e) => Fails(e)
    case Panics => Panics
    case Done(c) => Done(IdOfContent(w, c))
  }

  // ---------------------------------------------------------------------
  // The id depends on content, not on layout.
  // ---------------------------------------------------------------------

  /** Equal contents up to the order of claims and of evidence records. */
  ghost predicate SameUpToOrder(c: Content, d: Content) {
    && c.(claims := d.claims, evidence := d.evidence) == d
    && Permutation(c.claims, d.claims)
    && Permutation(c.evidence, d.evidence)
  }

  /**
   Bodies whose first sections decode to the same content, up to claim and evidence
   order, have the same canonical bytes and the same id, wherever the sections lie,
   in whatever order the table lists them, in either claim format, and whatever the
   remaining bytes of the body are.
   */
  lemma LayoutIndependence(w: World, p: seq<byte>, q: seq<byte>)
    requires ContentOf(w, p).Done? && ContentOf(w, q).Done?
    requires SameUpToOrder(ContentOf(w, p).value, ContentOf(w, q).value)
    ensures CanonicalBytes(RawForm(w, ContentOf(w, p).value)) == CanonicalBytes(RawForm(w, ContentOf(w, q).value))
    ensures AtomId(w, p) == AtomId(w, q)
  {
    ContentDecidesBytes(w, ContentOf(w, p).value, ContentOf(w, q).value);
  }

  lemma RawFormDoesNotTie(w: World, c: Content)
    ensures NoTies(ClaimLe, RawForm(w, c).claims)
  {
    ZeroMasksDoNotTie(RawForm(w, c).claims);
  }

  lemma ContentDecidesBytes(w: World, c: Content, d: Content)
    requires SameUpToOrder(c, d)
    ensures CanonicalBytes(RawForm(w, c)) == CanonicalBytes(RawForm(w, d))
  {
    MappedPermutes(ToCanonical, c.claims, d.claims);
    MappedPermutes(EvidenceHash(w), c.evidence, d.evidence);
    RawFormDoesNotTie(w, c);
    NormalCharacterisesContent(RawForm(w, c), RawForm(w, d));
  }

  lemma SameIds(w: World, c: Content, d: Content)
    requires SameUpToOrder(c, d)
    ensures IdOfContent(w, c) == IdOfContent(w, d)
  {
    ContentDecidesBytes(w, c, d);
  }

  /** The trust that enters the form. */
  function TrustOf(w: World, c: Content): u32 {
    if c.meta.trust.None? then 0 else w.trust(c.meta.trust.value)
  }

  /** Each record hashed as its six words. */
  function EvidenceDigests(w: World, es: seq<Evidence.EvidenceRecord>): seq<seq<byte>> {
    seq(|es|, i requires 0 <= i < |es| => w.hash(Evidence.SixWords(es[i])))
  }

  lemma EvidenceDigestsAgree(w: World, es: seq<Evidence.EvidenceRecord>)
    ensures Mapped(EvidenceHash(w), es) == EvidenceDigests(w, es)
  {
    forall i | 0 <= i < |es| ensures EvidenceHash(w)(es[i]) == EvidenceDigests(w, es)[i] {
      Evidence.RecordBytes(es[i]);
    }
  }

  /** Equal contents up to list order, evidence being known by its hashes and trust by its scaled value. */
  ghost predicate SameMeaning(w: World, c: Content, d: Content) {
    && (c.atomType, c.validFrom, c.validTo) == (d.atomType, d.validFrom, d.validTo)
    && c.symbols == d.symbols && c.invariants == d.invariants
    && Permutation(c.claims, d.claims)
    && Permutation(EvidenceDigests(w, c.evidence), EvidenceDigests(w, d.evidence))
    && TrustOf(w, c) == TrustOf(w, d) && c.meta.version == d.meta.version
  }

  lemma VersionTextInjective(u: Option<u32>, v: Option<u32>)
    requires VersionText(u) == VersionText(v)
    ensures u == v
  {
    if u.Some? && v.Some? {
      var a, b := Digits(u.value), Digits(v.value);
      assert |a| == |b|;
      assert VersionText(u)[..|a|] == a && VersionText(v)[..|b|] == b;
      DigitsInjective(u.value, v.value);
    }
  }

  lemma ToCanonicalInjective(a: Claims.ClaimRecord, b: Claims.ClaimRecord)
    requires Narrow(a) && Narrow(b) && ToCanonical(a) == ToCanonical(b)
    ensures a == b
  {
    Claims.TagBijection(a.tag, 0);
    Claims.TagBijection(b.tag, 0);
  }

  ghost predicate AllNarrow(c: Content) {
    forall r :: r in c.claims ==> Narrow(r)
  }

  /** Two raw forms have the same content exactly if what was extracted means the same. */
  lemma RawFormsAgree(w: World, c: Content, d: Content)
    requires AllNarrow(c) && AllNarrow(d)
    ensures SameContent(RawForm(w, c), RawForm(w, d)) <==> SameMeaning(w, c, d)
  {
    EvidenceDigestsAgree(w, c.evidence);
    EvidenceDigestsAgree(w, d.evidence);
    if SameContent(RawForm(w, c), RawForm(w, d)) {
      VersionTextInjective(c.meta.version, d.meta.version);
      forall a, b | a in c.claims && b in d.claims && ToCanonical(a) == ToCanonical(b) ensures a == b {
        ToCanonicalInjective(a, b);
      }
      MappedPermutesBack(ToCanonical, c.claims, d.claims);
    }
    if SameMeaning(w, c, d) { MappedPermutes(ToCanonical, c.claims, d.claims); }
  }

  /**
   Canonical bytes lose nothing of what was extracted: they are equal exactly if claims
   (as a multiset), symbols, invariants, version, type, validity, evidence hashes and scaled trust are.
   */
  lemma BytesDetermineContent(w: World, c: Content, d: Content)
    requires Encodable(RawForm(w, c)) && Encodable(RawForm(w, d)) && AllNarrow(c) && AllNarrow(d)
    ensures CanonicalBytes(RawForm(w, c)) == CanonicalBytes(RawForm(w, d)) <==> SameMeaning(w, c, d)
  {
    RawFormDoesNotTie(w, c);
    CanonicalBytesCharacteriseContent(RawForm(w, c), RawForm(w, d));
    RawFormsAgree(w, c, d);
  }

  lemma ExtractedClaimsAreNarrow(w: World, b: seq<byte>, c: Content)
    requires ContentOf(w, b) == Done(c)
    ensures AllNarrow(c)
  {}

  /** For whole bodies: equal canonical bytes exactly for equal extracted contents. */
  lemma BodyBytesDetermineContent(w: World, p: seq<byte>, q: seq<byte>, c: Content, d: Content)
    requires ContentOf(w, p) == Done(c) && ContentOf(w, q) == Done(d)
    requires Encodable(RawForm(w, c)) && Encodable(RawForm(w, d))
    ensures CanonicalBytes(RawForm(w, c)) == CanonicalBytes(RawForm(w, d)) <==> SameMeaning(w, c, d)
  {
    ExtractedClaimsAreNarrow(w, p, c);
    ExtractedClaimsAreNarrow(w, q, d);
    BytesDetermineContent(w, c, d);
  }

  /** Rewriting a legacy claims section in the current format keeps what it decodes to. */
  lemma MigrationKeepsDecodedClaims(s: seq<byte>)
    requires s != [] && Claims.ParseSection(s).Ok?
    ensures DecodeClaims(Claims.PrintSection(Claims.ParseSection(s).value)) == DecodeClaims(s)
  {
    Claims.MigrationKeepsClaims(s);
  }

  /** The first section of the kind, if there is one, lies inside the body. */
  predicate InRange(b: seq<byte>, ds: seq<Desc>, kind: u32) {
    var d := FindKind(ds, kind); d.Some? ==> d.value.off + d.value.len <= |b|
  }

  lemma DescIgnoresTail(b: seq<byte>, off: nat, rest: seq<byte>)
    requires off + DESC_SIZE <= |b|
    ensures ReadDesc((b + rest)[off..]) == ReadDesc(b[off..])
  {
    DescFacts();
    assert (b + rest)[off..] == b[off..] + rest;
    DecodeLocal(DescLayout(), b[off..], rest);
  }

  lemma DescsIgnoreTail(b: seq<byte>, off: nat, n: nat, rest: seq<byte>)
    requires off + n * DESC_SIZE <= |b|
    ensures Descs(b + rest, off, n) == Descs(b, off, n)
  {
    forall i | 0 <= i < n ensures Descs(b + rest, off, n)[i] == Descs(b, off, n)[i] {
      DescIgnoresTail(b, off + i * DESC_SIZE, rest);
    }
  }

  lemma SectionIgnoresTail(b: seq<byte>, ds: seq<Desc>, kind: u32, rest: seq<byte>)
    requires InRange(b, ds, kind)
    ensures Section(b + rest, ds, kind) == Section(b, ds, kind)
  {
    var d := FindKind(ds, kind);
    if d.Some? {
      assert (b + rest)[d.value.off..d.value.off + d.value.len] == b[d.value.off..d.value.off + d.value.len];
    }
  }

  lemma HeaderIgnoresTail(b: seq<byte>, rest: seq<byte>)
    requires |b| >= HEADER_SIZE
    ensures ParseHeader(b + rest) == ParseHeader(b)
  {
    HeaderFacts();
    DecodeLocal(HeaderLayout(), b, rest);
  }

  /** Bytes appended to a body whose sections are all in range do not change its id. */
  lemma TrailingBytesIgnored(w: World, b: seq<byte>, rest: seq<byte>)
    requires ParseHeader(b).Ok? && ParseTable(b, ParseHeader(b).value).Done?
    requires var ds := ParseTable(b, ParseHeader(b).value).value;
             forall k :: k in {SYMBOLS, CLAIMS, INVARIANTS, EVIDENCE, META} ==> InRange(b, ds, k)
    ensures AtomId(w, b + rest) == AtomId(w, b)
  {
    var h := ParseHeader(b).value;
    HeaderIgnoresTail(b, rest);
    DescsIgnoreTail(b, h.tableOff, h.sectionCount, rest);
    var ds := ParseTable(b, h).value;
    SectionIgnoresTail(b, ds, SYMBOLS, rest);
    SectionIgnoresTail(b, ds, CLAIMS, rest);
    SectionIgnoresTail(b, ds, INVARIANTS, rest);
    SectionIgnoresTail(b, ds, EVIDENCE, rest);
    SectionIgnoresTail(b, ds, META, rest);
  }

  // ---------------------------------------------------------------------
  // Where everything is read from.
  // ---------------------------------------------------------------------

  lemma HeaderBytes(h: Header)
    ensures PrintHeader(h) ==
      Le(4, h.magic) + (Le(2, h.version) + (Le(2, h.flags) + (Le(8, h.createdAt) + (Le(8, h.validFrom) +
        (Le(8, h.validTo) + (Le(4, h.atomType) + (Le(4, h.sectionCount) + Le(8, h.tableOff))))))))
  {
    EncodeCons(8, [], h.tableOff, []);
    EncodeCons(4, [8], h.sectionCount, [h.tableOff]);
    EncodeCons(4, [4, 8], h.atomType, [h.sectionCount, h.tableOff]);
    EncodeCons(8, [4, 4, 8], h.validTo, [h.atomType, h.sectionCount, h.tableOff]);
    EncodeCons(8, [8, 4, 4, 8], h.validFrom, [h.validTo, h.atomType, h.sectionCount, h.tableOff]);
    EncodeCons(8, [8, 8, 4, 4, 8], h.createdAt, [h.validFrom, h.validTo, h.atomType, h.sectionCount, h.tableOff]);
    HeaderBytesFront(h);
    assert Le(8, h.tableOff) + [] == Le(8, h.tableOff);
  }

  lemma HeaderBytesFront(h: Header)
    ensures PrintHeader(h) ==
      Le(4, h.magic) + (Le(2, h.version) + (Le(2, h.flags) + EncodeWords([8, 8, 8, 4, 4, 8],
        [h.createdAt, h.validFrom, h.validTo, h.atomType, h.sectionCount, h.tableOff])))
  {
    var times := [h.createdAt, h.validFrom, h.validTo, h.atomType, h.sectionCount, h.tableOff];
    FlagsFront(h.flags, times);
    VersionFront(h.version, [h.flags] + times);
    EncodeCons(4, [2, 2, 8, 8, 8, 4, 4, 8], h.magic, [h.version] + ([h.flags] + times));
    assert [4] + [2, 2, 8, 8, 8, 4, 4, 8] == HeaderLayout();
    assert [h.magic] + ([h.version] + ([h.flags] + times)) == HeaderWords(h);
  }

  lemma FlagsFront(flags: nat, times: seq<nat>)
    requires |times| == 6
    ensures EncodeWords([2, 8, 8, 8, 4, 4, 8], [flags] + times) == Le(2, flags) + EncodeWords([8, 8, 8, 4, 4, 8], times)
  {
    EncodeCons(2, [8, 8, 8, 4, 4, 8], flags, times);
    assert [2] + [8, 8, 8, 4, 4, 8] == [2, 8, 8, 8, 4, 4, 8];
  }

  lemma VersionFront(version: nat, more: seq<nat>)
    requires |more| == 7
    ensures EncodeWords([2, 2, 8, 8, 8, 4, 4, 8], [version] + more) ==
            Le(2, version) + EncodeWords([2, 8, 8, 8, 4, 4, 8], more)
  {
    EncodeCons(2, [2, 8, 8, 8, 4, 4, 8], version, more);
    assert [2] + [2, 8, 8, 8, 4, 4, 8] == [2, 2, 8, 8, 8, 4, 4, 8];
  }

  lemma DescBytes(d: Desc)
    ensures PrintDesc(d) ==
      Le(4, d.kind) + (Le(4, d.flags) + (Le(8, d.off) + (Le(8, d.len) + (Le(4, d.crc) + Le(4, d.reserved)))))
  {
    EncodeCons(4, [], d.reserved, []);
    EncodeCons(4, [4], d.crc, [d.reserved]);
    EncodeCons(8, [4, 4], d.len, [d.crc, d.reserved]);
    EncodeCons(8, [8, 4, 4], d.off, [d.len, d.crc, d.reserved]);
    EncodeCons(4, [8, 8, 4, 4], d.flags, [d.off, d.len, d.crc, d.reserved]);
    EncodeCons(4, [4, 8, 8, 4, 4], d.kind, [d.flags, d.off, d.len, d.crc, d.reserved]);
    assert [4] + [4, 8, 8, 4, 4] == DescLayout();
    assert [d.kind] + [d.flags, d.off, d.len, d.crc, d.reserved] == DescWords(d);
    assert Le(4, d.reserved) + [] == Le(4, d.reserved);
  }

  /** The header fields at their positions in the first 48 bytes. */
  ghost predicate HeaderAt(b: seq<byte>, h: Header) {
    && At(b, 0, Le(4, h.magic)) && At(b, 4, Le(2, h.version)) && At(b, 6, Le(2, h.flags))
    && At(b, 8, Le(8, h.createdAt)) && At(b, 16, Le(8, h.validFrom)) && At(b, 24, Le(8, h.validTo))
    && At(b, 32, Le(4, h.atomType)) && At(b, 36, Le(4, h.sectionCount)) && At(b, 40, Le(8, h.tableOff))
  }

  /** The descriptor fields at their positions in the 32 bytes from `at` on. */
  ghost predicate DescAt(b: seq<byte>, at: nat, d: Desc) {
    && At(b, at, Le(4, d.kind)) && At(b, at + 4, Le(4, d.flags)) && At(b, at + 8, Le(8, d.off))
    && At(b, at + 16, Le(8, d.len)) && At(b, at + 24, Le(4, d.crc)) && At(b, at + 28, Le(4, d.reserved))
  }

  lemma FivePieces(b: seq<byte>, at: nat, p: seq<byte>, q: seq<byte>, r: seq<byte>, s: seq<byte>, rest: seq<byte>)
    requires At(b, at, p + (q + (r + (s + rest))))
    ensures At(b, at, p) && At(b, at + |p|, q) && At(b, at + |p| + |q|, r) && At(b, at + |p| + |q| + |r|, s)
    ensures At(b, at + |p| + |q| + |r| + |s|, rest)
  {
    AtSplit(b, at, p, q + (r + (s + rest)));
    AtSplit(b, at + |p|, q, r + (s + rest));
    AtSplit(b, at + |p| + |q|, r, s + rest);
    AtSplit(b, at + |p| + |q| + |r|, s, rest);
  }

  lemma BackOfHeader(b: seq<byte>, h: Header)
    requires At(b, 16, Le(8, h.validFrom) + (Le(8, h.validTo) + (Le(4, h.atomType) + (Le(4, h.sectionCount) +
                         Le(8, h.tableOff)))))
    ensures At(b, 16, Le(8, h.validFrom)) && At(b, 24, Le(8, h.validTo))
    ensures At(b, 32, Le(4, h.atomType)) && At(b, 36, Le(4, h.sectionCount)) && At(b, 40, Le(8, h.tableOff))
  {
    FivePieces(b, 16, Le(8, h.validFrom), Le(8, h.validTo), Le(4, h.atomType), Le(4, h.sectionCount),
               Le(8, h.tableOff));
  }

  lemma PiecesOfHeader(b: seq<byte>, h: Header, back: seq<byte>)
    requires back == Le(8, h.validFrom) + (Le(8, h.validTo) + (Le(4, h.atomType) + (Le(4, h.sectionCount) +
                       Le(8, h.tableOff))))
    requires At(b, 0, Le(4, h.magic) + (Le(2, h.version) + (Le(2, h.flags) + (Le(8, h.createdAt) + back))))
    ensures HeaderAt(b, h)
  {
    FivePieces(b, 0, Le(4, h.magic), Le(2, h.version), Le(2, h.flags), Le(8, h.createdAt), back);
    BackOfHeader(b, h);
  }

  /** From printed header to positions, wherever the header is the front of a buffer. */
  lemma PrintedHeaderAt(b: seq<byte>, h: Header)
    requires At(b, 0, PrintHeader(h))
    ensures HeaderAt(b, h)
  {
    HeaderBytes(h);
    PiecesOfHeader(b, h, Le(8, h.validFrom) + (Le(8, h.validTo) + (Le(4, h.atomType) + (Le(4, h.sectionCount) +
      Le(8, h.tableOff)))));
  }

  lemma PrintedDescAt(b: seq<byte>, at: nat, d: Desc)
    requires At(b, at, PrintDesc(d))
    ensures DescAt(b, at, d)
  {
    DescBytes(d);
    var back := Le(4, d.crc) + Le(4, d.reserved);
    FivePieces(b, at, Le(4, d.kind), Le(4, d.flags), Le(8, d.off), Le(8, d.len), back);
    AtSplit(b, at + 24, Le(4, d.crc), Le(4, d.reserved));
  }

  /** A header is read from its positions. */
  lemma ReadHeaderAt(b: seq<byte>)
    requires |b| >= 48
    ensures HeaderAt(b, ReadHeader(b))
  {
    HeaderFacts();
    DecodeRoundTrip(HeaderLayout(), b);
    HeaderReprints(b);
    PrintedHeaderAt(b, ReadHeader(b));
  }

  lemma HeaderReprints(b: seq<byte>)
    requires |b| >= 48
    ensures PrintHeader(ReadHeader(b)) == b[..48]
  {
    HeaderFacts();
    DecodeRoundTrip(HeaderLayout(), b);
    assert HeaderWords(ReadHeader(b)) == DecodeWords(HeaderLayout(), b);
  }

  lemma DescReprints(b: seq<byte>)
    requires |b| >= 32
    ensures PrintDesc(ReadDesc(b)) == b[..32]
  {
    DescFacts();
    DecodeRoundTrip(DescLayout(), b);
    assert DescWords(ReadDesc(b)) == DecodeWords(DescLayout(), b);
  }

  lemma ReadDescAt(b: seq<byte>, at: nat)
    requires |b| >= at + 32
    ensures DescAt(b, at, ReadDesc(b[at..]))
  {
    DescReprints(b[at..]);
    assert b[at..][..32] == b[at..at + 32];
    PrintedDescAt(b, at, ReadDesc(b[at..]));
  }

  /** A header is accepted exactly with "ATOM", least significant byte first, and version 1. */
  lemma HeaderMeans(b: seq<byte>)
    ensures ParseHeader(b).Ok? <==> |b| >= 48 && FromLe(b[..4]) == 0x41544F4D && FromLe(b[4..6]) == 1
    ensures ParseHeader(b).Ok? ==> HeaderAt(b, ParseHeader(b).value)
  {
    if |b| >= 48 {
      ReadHeaderAt(b);
      HeaderFacts();
      ReadWordAt(b, 0, 4, ReadHeader(b).magic);
      ReadWordAt(b, 4, 2, ReadHeader(b).version);
    }
  }

  ghost predicate EntryAt(b: seq<byte>, off: nat, ds: seq<Desc>, i: nat)
    requires i < |ds|
  {
    DescAt(b, off + 32 * i, ds[i])
  }

  /** The table is read where the header says, entry by entry, exactly if it lies in the body. */
  lemma TableMeans(b: seq<byte>, h: Header)
    requires |b| < 0x1_0000_0000_0000_0000
    ensures ParseTable(b, h).Done? <==> h.tableOff + 32 * h.sectionCount <= |b|
    ensures ParseTable(b, h).Done? ==>
      var ds := ParseTable(b, h).value;
      |ds| == h.sectionCount && forall i :: 0 <= i < |ds| ==> EntryAt(b, h.tableOff, ds, i)
    ensures ParseTable(b, h).Panics? <==>
      && h.tableOff + 32 * h.sectionCount >= 0x1_0000_0000_0000_0000
      && h.tableOff + 32 * h.sectionCount - 0x1_0000_0000_0000_0000 <= |b|
  {
    if ParseTable(b, h).Done? { TableEntries(b, h); }
  }

  lemma {:induction false} FindFirst(ds: seq<Desc>, k: nat)
    requires k < |ds| && forall i :: 0 <= i < k ==> ds[i].kind != ds[k].kind
    ensures FindKind(ds, ds[k].kind) == Some(ds[k])
  {
    if k == 0 {
    } else {
      assert ds[1..][k - 1] == ds[k];
      FindFirst(ds[1..], k - 1);
    }
  }

  lemma {:induction false} FindNone(ds: seq<Desc>, kind: u32)
    requires forall i :: 0 <= i < |ds| ==> ds[i].kind != kind
    ensures FindKind(ds, kind) == None
  {
    if ds == [] {
    } else {
      FindNone(ds[1..], kind);
    }
  }

  /** A section is what the first entry of its kind delimits, if that lies in the body. */
  lemma SectionIsFirst(b: seq<byte>, ds: seq<Desc>, k: nat)
    requires k < |ds| && forall i :: 0 <= i < k ==> ds[i].kind != ds[k].kind
    ensures Section(b, ds, ds[k].kind) ==
            if ds[k].off + ds[k].len <= |b| then b[ds[k].off..ds[k].off + ds[k].len] else []
  {
    FindFirst(ds, k);
  }

  /** Without an entry of its kind a section is empty. */
  lemma MissingSectionIsEmpty(b: seq<byte>, ds: seq<Desc>, kind: u32)
    requires forall i :: 0 <= i < |ds| ==> ds[i].kind != kind
    ensures Section(b, ds, kind) == []
  {
    FindNone(ds, kind);
  }

  // The fields of the form, from the bytes of the five sections.

  ghost predicate SymbolFrom(w: World, s: seq<byte>, names: seq<seq<byte>>, i: nat)
    requires i < |names| && |s| >= 4
  {
    exists raw :: Symbols.DecodedAt(w.lossy, s[4..], Symbols.StringPos(s[4..], i), raw) && names[i] == w.nfc(raw)
  }

  /** The strings of the section, decoded and normalised, in order. */
  ghost predicate SymbolsFrom(w: World, s: seq<byte>, names: seq<seq<byte>>) {
    if s == [] then names == []
    else |s| >= 4 && |names| == FromLe(s[..4]) && forall i :: 0 <= i < |names| ==> SymbolFrom(w, s, names, i)
  }

  ghost predicate ClaimFrom(s: seq<byte>, at: nat, v2: bool, rs: seq<Claims.ClaimRecord>,
      cs: seq<CanonicalClaim>, i: nat)
    requires i < |rs| && i < |cs|
  {
    && Claims.RecordAt(s, at, rs, v2, i) && rs[i].subject < 0x1_0000_0000
    && cs[i] == CanonicalClaim(rs[i].subject, rs[i].pred, rs[i].tag.ToU8(), rs[i].value, 0)
  }

  /** The records of the section, `rs`, in order, with mask zero. */
  ghost predicate ClaimsFrom(s: seq<byte>, rs: seq<Claims.ClaimRecord>, cs: seq<CanonicalClaim>) {
    var v2 := [0x43, 0x4C, 0x4D, 0x32] <= s;
    var at := if v2 then 8 else 4;
    if s == [] then cs == []
    else
      && |s| >= at && |cs| == |rs| == FromLe(s[at - 4..at])
      && forall i :: 0 <= i < |cs| ==> ClaimFrom(s, at, v2, rs, cs, i)
  }

  ghost predicate DigestFrom(w: World, s: seq<byte>, hs: seq<seq<byte>>, i: nat)
    requires i < |hs|
  {
    28 + 24 * i <= |s| && hs[i] == w.hash(s[4 + 24 * i..28 + 24 * i])
  }

  /** The hashes of the 24-byte records of the section, in order. */
  ghost predicate EvidenceFrom(w: World, s: seq<byte>, hs: seq<seq<byte>>) {
    if s == [] then hs == []
    else |s| >= 4 && |hs| == FromLe(s[..4]) && forall i :: 0 <= i < |hs| ==> DigestFrom(w, s, hs, i)
  }

  /** The deciding fields of the section, `fs`. */
  ghost predicate MetaFrom(w: World, s: seq<byte>, fs: seq<Meta.MetaField>, trust: u32, version: seq<byte>) {
    if s == [] then trust == 0 && version == []
    else
      && |s| >= 4 && |fs| == FromLe(s[..4]) && (forall i :: 0 <= i < |fs| ==> Meta.FieldAt(s, i, fs[i]))
      && (exists t :: Meta.LastOf(fs, 1, x => x == 1, t) && trust == (if t.None? then 0 else w.trust(t.value)))
      && (exists v :: Meta.LastOf(fs, 3, x => x == 0 || x >= 5, v) &&
                      version == (if v.None? then [] else Digits(v.value) + [46, 48, 46, 48]))
  }

  lemma SymbolsAreRead(w: World, s: seq<byte>)
    ensures DecodeSymbols(w, s).Ok? ==> SymbolsFrom(w, s, DecodeSymbols(w, s).value)
  {
    if s != [] && DecodeSymbols(w, s).Ok? {
      var raw, names := Symbols.ParseNames(w.lossy, s).value, DecodeSymbols(w, s).value;
      Symbols.SectionStrings(w.lossy, s);
      forall i | 0 <= i < |names| ensures SymbolFrom(w, s, names, i) {
        assert Symbols.NameAt(w.lossy, s[4..], raw, i);
      }
    }
  }

  lemma ClaimsAreRead(s: seq<byte>)
    ensures DecodeClaims(s).Ok? ==> ClaimsFrom(s, DecodeClaims(s).value, Mapped(ToCanonical, DecodeClaims(s).value))
  {
    if s != [] && DecodeClaims(s).Ok? {
      var rs := DecodeClaims(s).value;
      var cs := Mapped(ToCanonical, rs);
      Claims.SectionRecords(s);
      var v2 := [0x43, 0x4C, 0x4D, 0x32] <= s;
      var at := if v2 then 8 else 4;
      forall i | 0 <= i < |cs| ensures ClaimFrom(s, at, v2, rs, cs, i) {
        assert Claims.RecordAt(s, at, rs, v2, i);
        assert rs[i] in rs && Narrow(rs[i]);
      }
    }
  }

  lemma EvidenceIsRead(w: World, s: seq<byte>)
    ensures DecodeEvidence(s).Ok? ==> EvidenceFrom(w, s, EvidenceDigests(w, DecodeEvidence(s).value))
  {
    if s != [] && DecodeEvidence(s).Ok? {
      var es := DecodeEvidence(s).value;
      Evidence.SectionRecords(s);
      forall i | 0 <= i < |es| ensures DigestFrom(w, s, EvidenceDigests(w, es), i) {
        assert Evidence.RecordAt(s, i, es[i]);
        assert s[4 + 24 * i..28 + 24 * i] == Evidence.SixWords(es[i]);
      }
    }
  }

  lemma MetaIsRead(w: World, s: seq<byte>) returns (fs: seq<Meta.MetaField>)
    ensures DecodeMeta(s).Ok? ==>
      var d := DecodeMeta(s).value;
      MetaFrom(w, s, fs, if d.trust.None? then 0 else w.trust(d.trust.value), VersionText(d.version))
  {
    fs := [];
    if s != [] && DecodeMeta(s).Ok? {
      fs := Meta.ParseSection(s).value;
      Meta.SectionFields(s);
      Meta.DigestMeans(fs);
    }
  }

  /** The form that the five sections give, field by field. */
  ghost predicate SectionsGive(w: World, syms: seq<byte>, clms: seq<byte>, invs: seq<byte>, evds: seq<byte>,
                               metas: seq<byte>, rs: seq<Claims.ClaimRecord>, fs: seq<Meta.MetaField>, f: Form) {
    && SymbolsFrom(w, syms, f.symbols) && ClaimsFrom(clms, rs, f.claims)
    && (if invs == [] then f.invariants == [] else w.invariants(invs) == Ok(f.invariants))
    && EvidenceFrom(w, evds, f.evidence) && MetaFrom(w, metas, fs, f.trust, f.version)
    && f.tags == [] && f.edges == []
  }

  /** The form of an accepted body: type and validity from the header, the rest from sections 1, 3, 4, 6 and 7. */
  ghost predicate FormFrom(w: World, b: seq<byte>, ds: seq<Desc>, rs: seq<Claims.ClaimRecord>,
                           fs: seq<Meta.MetaField>, f: Form) {
    && At(b, 16, Le(8, f.validFrom)) && At(b, 24, Le(8, f.validTo)) && At(b, 32, Le(4, f.atomType))
    && SectionsGive(w, Section(b, ds, 1), Section(b, ds, 3), Section(b, ds, 4), Section(b, ds, 6),
                    Section(b, ds, 7), rs, fs, f)
  }

  lemma DecodedIsGiven(w: World, h: Header, syms: seq<byte>, clms: seq<byte>, invs: seq<byte>, evds: seq<byte>,
                       metas: seq<byte>, c: Content) returns (fs: seq<Meta.MetaField>)
    requires Decode(w, h, syms, clms, invs, evds, metas) == Ok(c)
    ensures SectionsGive(w, syms, clms, invs, evds, metas, c.claims, fs, RawForm(w, c))
  {
    SymbolsAreRead(w, syms);
    ClaimsAreRead(clms);
    EvidenceIsRead(w, evds);
    EvidenceDigestsAgree(w, c.evidence);
    fs := MetaIsRead(w, metas);
  }

  /** An ordered form with the content that header and sections give. */
  ghost predicate GivenInOrder(w: World, h: Header, syms: seq<byte>, clms: seq<byte>, invs: seq<byte>, evds: seq<byte>,
                               metas: seq<byte>, n: Form) {
    && InOrder(n) && (n.atomType, n.validFrom, n.validTo) == (h.atomType, h.validFrom, h.validTo)
    && exists rs, fs, f :: SectionsGive(w, syms, clms, invs, evds, metas, rs, fs, f) && SameContent(n, f)
  }

  lemma DecodedIsOrdered(w: World, h: Header, syms: seq<byte>, clms: seq<byte>, invs: seq<byte>, evds: seq<byte>,
                         metas: seq<byte>)
    requires Decode(w, h, syms, clms, invs, evds, metas).Ok?
    ensures GivenInOrder(w, h, syms, clms, invs, evds, metas,
                         Normal(RawForm(w, Decode(w, h, syms, clms, invs, evds, metas).value)))
  {
    var c := Decode(w, h, syms, clms, invs, evds, metas).value;
    var fs := DecodedIsGiven(w, h, syms, clms, invs, evds, metas, c);
    NormalFormIsOrdered(RawForm(w, c));
  }

  lemma RawFormIsRead(w: World, b: seq<byte>, ds: seq<Desc>, c: Content) returns (fs: seq<Meta.MetaField>)
    requires ParseHeader(b).Ok?
    requires Decode(w, ParseHeader(b).value, Section(b, ds, SYMBOLS), Section(b, ds, CLAIMS),
                    Section(b, ds, INVARIANTS), Section(b, ds, EVIDENCE), Section(b, ds, META)) == Ok(c)
    ensures FormFrom(w, b, ds, c.claims, fs, RawForm(w, c))
  {
    HeaderMeans(b);
    fs := DecodedIsGiven(w, ParseHeader(b).value, Section(b, ds, SYMBOLS), Section(b, ds, CLAIMS),
                         Section(b, ds, INVARIANTS), Section(b, ds, EVIDENCE), Section(b, ds, META), c);
  }

  /** A body has content exactly if header and table are readable, and each section that is there decodes. */
  lemma AcceptedIff(w: World, b: seq<byte>)
    ensures ContentOf(w, b).Done? <==>
      ParseHeader(b).Ok? && ParseTable(b, ParseHeader(b).value).Done? &&
      var ds := ParseTable(b, ParseHeader(b).value).value;
      var syms, clms, invs := Section(b, ds, 1), Section(b, ds, 3), Section(b, ds, 4);
      var evds, metas := Section(b, ds, 6), Section(b, ds, 7);
      && (syms != [] ==> Symbols.ParseNames(w.lossy, syms).Ok?)
      && (clms != [] ==> Claims.ParseSection(clms).Ok? &&
                         forall c :: c in Claims.ParseSection(clms).value ==> c.subject < 0x1_0000_0000)
      && (invs != [] ==> w.invariants(invs).Ok?)
      && (evds != [] ==> Evidence.ParseSection(evds).Ok?)
      && (metas != [] ==> Meta.ParseSection(metas).Ok?)
  {}

  /** How an id comes about: header, table, claim records, META fields, form, ordered form, hashed bytes. */
  datatype Account = Account(
    header: Header, table: seq<Desc>, records: seq<Claims.ClaimRecord>, fields: seq<Meta.MetaField>,
    form: Form, normal: Form, bytes: seq<byte>)

  /** The account is right: every part is read from the body, and the id is the hash of the bytes. */
  ghost predicate Accounts(w: World, b: seq<byte>, x: Account, id: Digest) {
    && HeaderAt(b, x.header) && x.header.magic == 0x41544F4D && x.header.version == 1
    && |x.table| == x.header.sectionCount
    && (forall i :: 0 <= i < |x.table| ==> EntryAt(b, x.header.tableOff, x.table, i))
    && FormFrom(w, b, x.table, x.records, x.fields, x.form)
    && SameContent(x.normal, x.form) && InOrder(x.normal) && LaidOut(x.bytes, x.normal)
    && id == w.hash(x.bytes)
  }

  lemma TableEntries(b: seq<byte>, h: Header)
    requires ParseTable(b, h).Done?
    ensures var ds := ParseTable(b, h).value;
            |ds| == h.sectionCount && forall i :: 0 <= i < |ds| ==> EntryAt(b, h.tableOff, ds, i)
  {
    var ds := ParseTable(b, h).value;
    forall i | 0 <= i < |ds| ensures EntryAt(b, h.tableOff, ds, i) {
      assert h.tableOff + i * DESC_SIZE + 32 <= |b|;
      ReadDescAt(b, h.tableOff + i * DESC_SIZE);
    }
  }

  lemma AcceptedBody(w: World, b: seq<byte>, c: Content) returns (h: Header, ds: seq<Desc>)
    requires ContentOf(w, b) == Done(c)
    ensures ParseHeader(b) == Ok(h) && ParseTable(b, h) == Done(ds)
    ensures Decode(w, h, Section(b, ds, SYMBOLS), Section(b, ds, CLAIMS), Section(b, ds, INVARIANTS),
                   Section(b, ds, EVIDENCE), Section(b, ds, META)) == Ok(c)
  {
    h := ParseHeader(b).value;
    ds := ParseTable(b, h).value;
  }

  lemma ContentAccount(w: World, b: seq<byte>, c: Content) returns (x: Account)
    requires ContentOf(w, b) == Done(c)
    ensures Accounts(w, b, x, IdOfContent(w, c))
  {
    var h, ds := AcceptedBody(w, b, c);
    HeaderMeans(b);
    TableEntries(b, h);
    var fs := RawFormIsRead(w, b, ds, c);
    var f := RawForm(w, c);
    NormalFormIsOrdered(f);
    FormIsLaidOut(Normal(f));
    x := Account(h, ds, c.claims, fs, f, Normal(f), FormBytes(Normal(f)));
  }

  /** Every id is the hash of the laid-out bytes of a form that is read from the body as described above. */
  lemma IdHasAccount(w: World, b: seq<byte>)
    ensures AtomId(w, b).Done? ==> exists x :: Accounts(w, b, x, AtomId(w, b).value)
  {
    if AtomId(w, b).Done? { var x := ContentAccount(w, b, ContentOf(w, b).value); }
  }

  // ---------------------------------------------------------------------
  // The two copies of the pipeline and the verifier.
  // ---------------------------------------------------------------------

  /** The descriptor loop both copies run. */
  method ReadTable(b: seq<byte>, h: Header) returns (r: Outcome<seq<Desc>>)
    ensures r == ParseTable(b, h)
  {
    if |b| < WrappedTableEnd(h) {
      return Fails(BufferTooSmall);
    }
    var sections: seq<Desc> := [];
    for i := 0 to h.sectionCount
      invariant i > 0 ==> h.tableOff + i * DESC_SIZE <= |b|
      invariant h.tableOff + i * DESC_SIZE <= |b| ==> sections == Descs(b, h.tableOff, i)
    {
      var o := h.tableOff + i * DESC_SIZE;
      if o + DESC_SIZE > |b| {
        return Panics;
      }
      sections := sections + [ReadDesc(b[o..])];
    }
    r := Done(sections);
  }

  /** `extract_canonical_form`, which fills the fields of a form object and then normalises it. */
  method ExtractCanonicalForm(w: World, h: Header, syms: seq<byte>, clms: seq<byte>, invs: seq<byte>,
                              evds: seq<byte>, metas: seq<byte>) returns (r: Result<CanonicalForm>)
    ensures r.Ok? ==> fresh(r.value)
    ensures match Decode(w, h, syms, clms, invs, evds, metas)
            case Err(e) => r == Err(e)
            case Ok(c) => r.Ok? && r.value.Value() == Normal(RawForm(w, c))
    ensures r.Ok? ==> GivenInOrder(w, h, syms, clms, invs, evds, metas, r.value.Value())
  {
    if Decode(w, h, syms, clms, invs, evds, metas).Ok? { DecodedIsOrdered(w, h, syms, clms, invs, evds, metas); }
    var symbols :- ExtractSymbols(w, syms);
    var claims :- ExtractClaims(clms);
    var invariants :- DecodeInvariants(w, invs);
    var evidence :- ExtractEvidence(w, evds);
    var meta :- ExtractMeta(metas);
    ghost var c := Decode(w, h, syms, clms, invs, evds, metas).value;
    var form := FillForm(w, h, symbols, claims, invariants, evidence, meta, c);
    r := Ok(form);
  }

  method FillForm(w: World, h: Header, symbols: seq<seq<byte>>, claims: seq<CanonicalClaim>, invariants: seq<byte>,
                  evidence: seq<seq<byte>>, meta: Meta.Digest, ghost c: Content) returns (form: CanonicalForm)
    requires (c.atomType, c.validFrom, c.validTo) == (h.atomType, h.validFrom, h.validTo)
    requires (c.symbols, c.invariants, c.meta) == (symbols, invariants, meta)
    requires claims == Mapped(ToCanonical, c.claims) && evidence == Mapped(EvidenceHash(w), c.evidence)
    ensures fresh(form) && form.Value() == Normal(RawForm(w, c))
  {
    form := new CanonicalForm(h.atomType);
    form.validFrom, form.validTo := h.validFrom, h.validTo;
    form.symbols, form.claims, form.invariants, form.evidence := symbols, claims, invariants, evidence;
    if meta.trust.Some? {
      form.trust := w.trust(meta.trust.value);
    }
    form.version := VersionText(meta.version);
    assert form.Value() == RawForm(w, c);
    form.Normalize();
  }

  method ExtractSymbols(w: World, s: seq<byte>) returns (r: Result<seq<seq<byte>>>)
    ensures r == DecodeSymbols(w, s)
  {
    if s == [] {
      return Ok([]);
    }
    var t :- Symbols.SectionFromBytes(w.lossy, s);
    var names := MapAll(w.nfc, t.names);
    r := Ok(names);
  }

  method ExtractClaims(s: seq<byte>) returns (r: Result<seq<CanonicalClaim>>)
    ensures r == match DecodeClaims(s) case Err(e) => Err(e) case Ok(cs) => Ok(Mapped(ToCanonical, cs))
  {
    if s == [] {
      return Ok([]);
    }
    var cs :- Claims.SectionFromBytes(s);
    r := PushClaims(cs);
  }

  method ExtractEvidence(w: World, s: seq<byte>) returns (r: Result<seq<seq<byte>>>)
    ensures r == match DecodeEvidence(s) case Err(e) => Err(e) case Ok(es) => Ok(Mapped(EvidenceHash(w), es))
  {
    if s == [] {
      return Ok([]);
    }
    var es :- Evidence.SectionFromBytes(s);
    var hashes := MapAll(EvidenceHash(w), es);
    r := Ok(hashes);
  }

  method ExtractMeta(s: seq<byte>) returns (r: Result<Meta.Digest>)
    ensures r == DecodeMeta(s)
  {
    if s == [] {
      return Ok(Meta.Digest(None, None));
    }
    var fs :- Meta.SectionFromBytes(s);
    var d := Meta.Digested(fs);
    Meta.LastFieldsDecide(fs);
    r := Ok(d);
  }

  method MapAll<T, U>(f: T -> U, s: seq<T>) returns (r: seq<U>)
    ensures r == Mapped(f, s)
  {
    r := [];
    for i := 0 to |s|
      invariant r == Mapped(f, s[..i])
    {
      MappedStep(f, s, i);
      r := r + [f(s[i])];
    }
    assert s[..|s|] == s;
  }

  /** The claim loop, which stops at the first subject that does not fit. */
  method PushClaims(cs: seq<Claims.ClaimRecord>) returns (r: Result<seq<CanonicalClaim>>)
    ensures r == if forall c :: c in cs ==> Narrow(c) then Ok(Mapped(ToCanonical, cs)) else Err(ExtractionFailed)
  {
    var claims: seq<CanonicalClaim> := [];
    for i := 0 to |cs|
      invariant claims == Mapped(ToCanonical, cs[..i])
      invariant forall j :: 0 <= j < i ==> Narrow(cs[j])
    {
      if cs[i].subject >= U32_LIMIT {
        assert cs[i] in cs && !Narrow(cs[i]);
        return Err(ExtractionFailed);
      }
      MappedStep(ToCanonical, cs, i);
      claims := claims + [CanonicalClaim(cs[i].subject, cs[i].pred, cs[i].tag.ToU8(), cs[i].value, 0)];
    }
    assert cs[..|cs|] == cs;
    r := Ok(claims);
  }

  /** The copy used for verification. */
  method ExtractAndComputeAtomId(w: World, body: seq<byte>) returns (r: Outcome<Digest>)
    ensures r == AtomId(w, body)
    ensures r.Done? ==> exists x :: Accounts(w, body, x, r.value)
  {
    IdHasAccount(w, body);
    var header := ParseHeader(body);
    if header.Err? {
      return Fails(header.error);
    }
    var table := ReadTable(body, header.value);
    match table
    case Fails(e) => return Fails(e);
    case Panics => return Panics;
    case Done(ds) =>
      var form := ExtractCanonicalForm(w, header.value, Section(body, ds, SYMBOLS), Section(body, ds, CLAIMS),
                                       Section(body, ds, INVARIANTS), Section(body, ds, EVIDENCE),
                                       Section(body, ds, META));
      if form.Err? {
        return Fails(form.error);
      }
      var bytes := form.value.ToBytes();
      return Done(w.hash(bytes));
  }

  /** The copy used on ingest: it reports every failure as a failed extraction. */
  method ComputeAtomIdFromPayload(w: World, payload: seq<byte>) returns (r: Outcome<Digest>)
    ensures r == if AtomId(w, payload).Fails? then Fails(ExtractionFailed) else AtomId(w, payload)
    ensures r.Done? ==> exists x :: Accounts(w, payload, x, r.value)
  {
    IdHasAccount(w, payload);
    var header := ParseHeader(payload);
    if header.Err? {
      return Fails(ExtractionFailed);
    }
    var table := ReadTable(payload, header.value);
    match table
    case Fails(e) => return Fails(ExtractionFailed);
    case Panics => return Panics;
    case Done(ds) =>
      var form := ExtractCanonicalForm(w, header.value, Section(payload, ds, SYMBOLS), Section(payload, ds, CLAIMS),
                                       Section(payload, ds, INVARIANTS), Section(payload, ds, EVIDENCE),
                                       Section(payload, ds, META));
      if form.Err? {
        return Fails(ExtractionFailed);
      }
      var bytes := form.value.ToBytes();
      return Done(w.hash(bytes));
  }

  /** `verify_atom_id`: true exactly when ingest would have computed the stored id. */
  method VerifyAtomId(w: World, stored: Digest, body: seq<byte>) returns (ok: Outcome<bool>)
    ensures ok == if AtomId(w, body).Panics? then Panics else Done(AtomId(w, body) == Done(stored))
    ensures ok == Done(true) ==> exists x :: Accounts(w, body, x, stored)
  {
    var id := ExtractAndComputeAtomId(w, body);
    match id
    case Done(h) => ok := Done(h == stored);
    case Fails(_) => ok := Done(false);
    case Panics => ok := Panics;
  }
}
