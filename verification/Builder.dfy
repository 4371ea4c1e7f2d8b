/**
 The payload builder of the MCP server and the claim walk of the exporter, tied
 to the identity pipeline end to end.
 */
module Builder {
  import opened Bytes
  import opened Results
  import opened Codecs
  import opened Sorting
  import opened FirstSeen
  import opened Decimal
  import opened Canonical
  import opened Payload
  import C = Claims
  import S = Symbols
  import E = Evidence
  import M = Meta

  /** A claim as authored: scalars only. */
  datatype ClaimData = ClaimData(subj: u64, pred: u64, objTag: byte, objVal: u64, qualifiersMask: u32)

  /** What an author hands to the builder. */
  datatype Draft = Draft(
    atomType: u32, symbols: seq<S.Symbol>, claims: seq<ClaimData>, trustLevel: u16, domainMask: u64)

  /** The checksum and the f32 quotient of the trust level, as bits. */
  datatype Tools = Tools(crc: seq<byte> -> u32, trustBits: u16 -> u32)

  /** The seven sections in table order; REFS and EDGES are always empty. */
  datatype Parts = Parts(
    symbols: seq<byte>, claims: seq<byte>, invariants: seq<byte>, evidence: seq<byte>, meta: seq<byte>)

  const INVARIANTS_MAGIC: u32 := 0x494E5631
  const DATA_START: nat := 272
  const U64_MAX: u64 := 0xFFFF_FFFF_FFFF_FFFF
  const SYM_PREFIX: seq<byte> := [115, 121, 109, 95]  // "sym_"

  // ---------------------------------------------------------------------
  // Sections.
  // ---------------------------------------------------------------------

  function Typed(c: ClaimData): Option<C.ClaimRecord> {
    if c.pred >= U32_LIMIT then None
    else
      var tag := C.ObjTag.FromU8(c.objTag);
      if tag.None? then None
      else
        var r := C.FromScalar(c.subj, c.pred, tag.value, c.objVal);
        if r.Err? then None else Some(r.value)
  }

  predicate Accepted(claims: seq<ClaimData>) {
    forall c :: c in claims ==> Typed(c).Some?
  }

  function Record(c: ClaimData): C.ClaimRecord {
    if Typed(c).Some? then Typed(c).value else C.ClaimRecord(0, 0, C.NULL, [])
  }

  function Records(claims: seq<ClaimData>): seq<C.ClaimRecord> {
    Mapped(Record, claims)
  }

  function DefaultName(i: nat): S.Symbol {
    SYM_PREFIX + Digits(i)
  }

  /** One default name per claim, and at least two. */
  function DefaultNames(n: nat): seq<S.Symbol> {
    seq(if n < 2 then 2 else n, i requires 0 <= i => DefaultName(i))
  }

  function Names(symbols: seq<S.Symbol>, claimCount: nat): seq<S.Symbol> {
    S.InternAll(S.EMPTY, symbols + DefaultNames(claimCount)).names
  }

  /** `InvariantsSection::new().to_bytes()`: a header without constants or code. */
  function NoInvariants(): seq<byte> {
    Le(4, INVARIANTS_MAGIC) + Le(4, 0) + Le(4, 0) + Le(4, 0) + Le(8, 32) + Le(8, 32)
  }

  function MetaFields(t: Tools, trustLevel: u16, domainMask: u64): seq<M.MetaField> {
    [M.MetaField(M.TRUST_SCORE, M.TAG_F32, t.trustBits(trustLevel)),
     M.MetaField(M.DOMAIN_MASK, M.TAG_U32, Truncate32(domainMask))]
  }

  /** All names of the SYMBOLS section. */
  function AllNames(d: Draft): seq<S.Symbol> {
    Names(d.symbols, |d.claims|)
  }

  function Build(t: Tools, d: Draft): Parts {
    Parts(S.PrintSection(AllNames(d)), C.PrintSection(Records(d.claims)), NoInvariants(),
          E.PrintSection([]), M.PrintSection(MetaFields(t, d.trustLevel, d.domainMask)))
  }

  // ---------------------------------------------------------------------
  // Body layout.
  // ---------------------------------------------------------------------

  function DataList(p: Parts): (ps: seq<seq<byte>>)
    ensures |ps| == 7
  {
    [p.symbols, [], p.claims, p.invariants, [], p.evidence, p.meta]
  }

  /** Total length of the first `k` sections. */
  function Before(ps: seq<seq<byte>>, k: nat): nat
    requires k <= |ps|
  {
    if k == 0 then 0 else Before(ps, k - 1) + |ps[k - 1]|
  }

  /** An `as u64` cast. */
  function Truncate64(n: nat): (m: nat)
    ensures m < U64_LIMIT
    ensures n < U64_LIMIT ==> m == n
  {
    if n < U64_LIMIT then n else n % U64_LIMIT
  }

  /** Descriptor of the section with index `k` that starts `at` bytes into the data. */
  function Entry(t: Tools, k: nat, at: nat, section: seq<byte>): Desc
    requires k + 1 < U32_LIMIT
  {
    Desc(k + 1, 0, Truncate64(DATA_START + at), Truncate64(|section|), t.crc(section), 0)
  }

  function Table(t: Tools, ps: seq<seq<byte>>): (ds: seq<Desc>)
    requires |ps| + 1 < U32_LIMIT
    ensures |ds| == |ps|
  {
    seq(|ps|, k requires 0 <= k < |ps| => Entry(t, k, Before(ps, k), ps[k]))
  }

  function BodyHeader(atomType: u32): Header {
    Header(ATOM_MAGIC, ATOM_BODY_VERSION, 0, 0, 0, U64_MAX, atomType, 7, HEADER_SIZE)
  }

  function Joined(): Printer<seq<byte>> { (s: seq<byte>) => s }

  function DescPrinter(): Printer<Desc> { (d: Desc) => PrintDesc(d) }

  /** Header, table, sections. */
  function Body(t: Tools, atomType: u32, p: Parts): seq<byte> {
    PrintHeader(BodyHeader(atomType)) + Flat(DescPrinter(), Table(t, DataList(p))) + Flat(Joined(), DataList(p))
  }

  /** The payload built from a draft. */
  function BuiltBody(t: Tools, d: Draft): seq<byte> {
    Body(t, d.atomType, Build(t, d))
  }

  lemma {:induction false} TableRoundTrip(head: seq<byte>, ds: seq<Desc>, rest: seq<byte>)
    ensures |Flat(DescPrinter(), ds)| == |ds| * DESC_SIZE
    ensures Descs(head + Flat(DescPrinter(), ds) + rest, |head|, |ds|) == ds
    decreases |ds|
  {
    if ds == [] {
    } else {
      var d, tail := ds[0], ds[1..];
      var head' := head + PrintDesc(d);
      var after := Flat(DescPrinter(), tail) + rest;
      var b := head + Flat(DescPrinter(), ds) + rest;
      assert b == head + (PrintDesc(d) + after) == head' + Flat(DescPrinter(), tail) + rest;
      TableRoundTrip(head', tail, rest);
      Seam(head, PrintDesc(d) + after);
      DescRoundTrip(d, after);
      forall i | 0 <= i < |ds| ensures Descs(b, |head|, |ds|)[i] == ds[i] {
        if i > 0 {
          assert |head| + i * DESC_SIZE == |head'| + (i - 1) * DESC_SIZE;
          assert Descs(b, |head|, |ds|)[i] == Descs(b, |head'|, |tail|)[i - 1];
        }
      }
    }
  }

  /** Where section `k` lies in the joined sections. */
  lemma {:induction false} JoinedAt(ps: seq<seq<byte>>, k: nat)
    requires k < |ps|
    ensures Before(ps, k) + |ps[k]| <= |Flat(Joined(), ps)|
    ensures Flat(Joined(), ps)[Before(ps, k)..Before(ps, k) + |ps[k]|] == ps[k]
    decreases |ps|
  {
    var init, last := ps[..|ps| - 1], ps[|ps| - 1];
    FlatAppend(Joined(), init, last);
    assert ps == init + [last];
    JoinedLength(init);
    BeforeInit(init, last, k);
    if k < |init| {
      JoinedAt(init, k);
      assert Flat(Joined(), ps)[Before(ps, k)..Before(ps, k) + |ps[k]|]
          == Flat(Joined(), init)[Before(ps, k)..Before(ps, k) + |ps[k]|];
    }
  }

  lemma {:induction false} BeforeInit(init: seq<seq<byte>>, last: seq<byte>, k: nat)
    requires k <= |init|
    ensures Before(init + [last], k) == Before(init, k)
  {
    if k == 0 {
    } else {
      BeforeInit(init, last, k - 1);
    }
  }

  lemma {:induction false} JoinedLength(ps: seq<seq<byte>>)
    ensures |Flat(Joined(), ps)| == Before(ps, |ps|)
  {
    if ps == [] {
    } else {
      var init, last := ps[..|ps| - 1], ps[|ps| - 1];
      JoinedLength(init);
      FlatAppend(Joined(), init, last);
      BeforeInit(init, last, |init|);
      assert ps == init + [last];
    }
  }

  lemma BodyShape(t: Tools, atomType: u32, p: Parts)
    ensures var b := Body(t, atomType, p);
            && |b| == DATA_START + Before(DataList(p), 7)
            && b[DATA_START..] == Flat(Joined(), DataList(p))
  {
    var ps := DataList(p);
    var head := PrintHeader(BodyHeader(atomType));
    TableRoundTrip(head, Table(t, ps), Flat(Joined(), ps));
    JoinedLength(ps);
    Seam(head + Flat(DescPrinter(), Table(t, ps)), Flat(Joined(), ps));
  }

  /** The body parses to the header and the table that were written. */
  lemma BodyParses(t: Tools, atomType: u32, p: Parts)
    ensures var b := Body(t, atomType, p);
            && ParseHeader(b) == Ok(BodyHeader(atomType))
            && ParseTable(b, BodyHeader(atomType)) == Done(Table(t, DataList(p)))
  {
    var ps, h := DataList(p), BodyHeader(atomType);
    var table, data := Flat(DescPrinter(), Table(t, ps)), Flat(Joined(), ps);
    assert Body(t, atomType, p) == PrintHeader(h) + (table + data);
    HeaderRoundTrip(h, table + data);
    TableRoundTrip(PrintHeader(h), Table(t, ps), data);
    BodyShape(t, atomType, p);
  }

  lemma {:induction false} BeforeGrows(ps: seq<seq<byte>>, k: nat, n: nat)
    requires k < n <= |ps|
    ensures Before(ps, k) + |ps[k]| <= Before(ps, n)
    decreases n
  {
    if k < n - 1 { BeforeGrows(ps, k, n - 1); }
  }

  /** The table lists sections 1, 2, ... lying end to end from 272 on. */
  ghost predicate Tiles(ds: seq<Desc>, ps: seq<seq<byte>>) {
    && |ds| == |ps|
    && forall k :: 0 <= k < |ps| ==>
         ds[k].kind == k + 1 && ds[k].off == DATA_START + Before(ps, k) && ds[k].len == |ps[k]|
  }

  lemma TableTiles(t: Tools, ps: seq<seq<byte>>)
    requires |ps| + 1 < U32_LIMIT && DATA_START + Before(ps, |ps|) < U64_LIMIT
    ensures Tiles(Table(t, ps), ps)
  {
    var ds := Table(t, ps);
    forall k | 0 <= k < |ps|
      ensures ds[k].kind == k + 1 && ds[k].off == DATA_START + Before(ps, k) && ds[k].len == |ps[k]|
    {
      BeforeGrows(ps, k, |ps|);
      assert ds[k] == Entry(t, k, Before(ps, k), ps[k]);
    }
  }

  /** The table's sections start at 272, follow each other without gap or overlap and end with the body. */
  lemma SectionsTileTheBody(t: Tools, atomType: u32, p: Parts)
    requires |Body(t, atomType, p)| < U64_LIMIT
    ensures var b := Body(t, atomType, p);
            var ds := Table(t, DataList(p));
            && ds[0].off == DATA_START
            && (forall k :: 0 <= k < 6 ==> ds[k].off + ds[k].len == ds[k + 1].off)
            && ds[6].off + ds[6].len == |b|
  {
    var ps := DataList(p);
    BodyShape(t, atomType, p);
    TableTiles(t, ps);
    forall k | 0 <= k < 6 ensures Before(ps, k + 1) == Before(ps, k) + |ps[k]| {}
  }

  /** A body that holds `ps` end to end after its table. */
  ghost predicate Holds(b: seq<byte>, ds: seq<Desc>, ps: seq<seq<byte>>) {
    && Tiles(ds, ps)
    && DATA_START <= |b| && b[DATA_START..] == Flat(Joined(), ps)
  }

  lemma EntryBytes(b: seq<byte>, ds: seq<Desc>, ps: seq<seq<byte>>, k: nat)
    requires Holds(b, ds, ps) && k < |ps|
    ensures ds[k].off + ds[k].len <= |b|
    ensures b[ds[k].off..ds[k].off + ds[k].len] == ps[k]
  {
    JoinedAt(ps, k);
    SliceOfTail(b, DATA_START, Flat(Joined(), ps), Before(ps, k), |ps[k]|);
  }

  lemma LookupAt(b: seq<byte>, ds: seq<Desc>, ps: seq<seq<byte>>, k: nat, kind: u32)
    requires Holds(b, ds, ps) && k < |ps| && kind == k + 1
    ensures Section(b, ds, kind) == ps[k]
  {
    FindFirst(ds, k);
    EntryBytes(b, ds, ps, k);
  }

  lemma BodyHolds(t: Tools, atomType: u32, p: Parts)
    requires |Body(t, atomType, p)| < U64_LIMIT
    ensures Holds(Body(t, atomType, p), Table(t, DataList(p)), DataList(p))
  {
    BodyShape(t, atomType, p);
    TableTiles(t, DataList(p));
  }

  /** Looking a section up by its kind gives exactly the bytes that were built for it. */
  lemma LookupReturnsWhatWasBuilt(t: Tools, atomType: u32, p: Parts, k: nat)
    requires |Body(t, atomType, p)| < U64_LIMIT && k < 7
    ensures Section(Body(t, atomType, p), Table(t, DataList(p)), k + 1) == DataList(p)[k]
  {
    BodyHolds(t, atomType, p);
    LookupAt(Body(t, atomType, p), Table(t, DataList(p)), DataList(p), k, k + 1);
  }

  lemma SliceOfTail(b: seq<byte>, n: nat, tail: seq<byte>, at: nat, len: nat)
    requires n <= |b| && b[n..] == tail && at + len <= |tail|
    ensures b[n + at..n + at + len] == tail[at..at + len]
  {
    assert b[n..][at..at + len] == b[n + at..n + at + len];
  }

  // ---------------------------------------------------------------------
  // What the sections decode to.
  // ---------------------------------------------------------------------

  /** The bound the format and memory put on a draft: 32-bit counts, and names of less than 2^63 bytes in all. */
  predicate Compact(d: Draft) {
    |d.symbols| + |d.claims| + 2 < U32_LIMIT && S.SerializedSize(AllNames(d)) < 0x8000_0000_0000_0000
  }

  /** Compact, and all names are Rust strings of 32-bit length. */
  predicate WithinFormat(w: World, d: Draft) {
    && Compact(d)
    && (forall s :: s in d.symbols ==> S.Storable(w.lossy, s))
    && (forall i :: 0 <= i < |d.claims| + 2 ==> S.Storable(w.lossy, DefaultName(i)))
  }

  lemma InputsAreStorable(w: World, d: Draft, s: S.Symbol)
    requires WithinFormat(w, d) && s in d.symbols + DefaultNames(|d.claims|)
    ensures S.Storable(w.lossy, s)
  {
    if s !in d.symbols {
      var i :| 0 <= i < |DefaultNames(|d.claims|)| && DefaultNames(|d.claims|)[i] == s;
      assert s == DefaultName(i);
    }
  }

  lemma NamesAreStorable(w: World, d: Draft)
    requires WithinFormat(w, d)
    ensures var names := AllNames(d);
            0 < |names| < U32_LIMIT && Distinct(names) && forall s :: s in names ==> S.Storable(w.lossy, s)
  {
    var all := d.symbols + DefaultNames(|d.claims|);
    S.InternRun(all);
    FirstsContents(all);
    forall s | s in Firsts(all) ensures S.Storable(w.lossy, s) {
      FirstsMember(all, s);
      InputsAreStorable(w, d, s);
    }
    FirstsMember(all, all[|d.symbols|]);
  }

  lemma SymbolsDecode(w: World, d: Draft)
    requires WithinFormat(w, d)
    ensures DecodeSymbols(w, S.PrintSection(AllNames(d))) == Ok(Mapped(w.nfc, AllNames(d)))
  {
    NamesAreStorable(w, d);
    var names := AllNames(d);
    S.PrintingInverts(w.lossy);
    CountedRoundTrip(S.Printing(), S.Reading(w.lossy), S.Fitting(w.lossy), names, []);
    assert S.PrintSection(names) + [] == S.PrintSection(names);
    assert |S.PrintSection(names)| >= 4;
  }

  lemma RecordsWellFormed(claims: seq<ClaimData>)
    requires Accepted(claims)
    ensures forall r :: r in Records(claims) ==> C.WellFormed(r)
  {
    forall r | r in Records(claims) ensures C.WellFormed(r) {
      var i :| 0 <= i < |claims| && Records(claims)[i] == r;
      assert claims[i] in claims;
    }
  }

  /** The printed claims parse back exactly while their number is within the reader's limit. */
  lemma PrintedClaimsParse(records: seq<C.ClaimRecord>)
    requires |records| < U32_LIMIT && forall r :: r in records ==> C.WellFormed(r)
    ensures C.ParseSection(C.PrintSection(records))
         == if |records| <= C.MAX_CLAIMS_PER_SECTION then Ok(records) else Err(ExtractionFailed)
  {
    if |records| <= C.MAX_CLAIMS_PER_SECTION {
      C.SectionRoundTrip(records, []);
      assert C.PrintSection(records) + [] == C.PrintSection(records);
    } else {
      C.CurrentHeader(|records|, C.PrintRecords(records, true));
      CountRoundTrip(|records|);
    }
  }

  lemma EmptyEvidenceDecodes()
    ensures DecodeEvidence(E.PrintSection([])) == Ok([])
  {
    E.SectionExact([], []);
    assert E.PrintSection([]) + [] == E.PrintSection([]);
    assert |E.PrintSection([])| >= 4;
  }

  lemma MetaDecodes(t: Tools, trustLevel: u16, domainMask: u64)
    ensures DecodeMeta(M.PrintSection(MetaFields(t, trustLevel, domainMask)))
         == Ok(M.Digest(Some(t.trustBits(trustLevel)), None))
  {
    var fs := MetaFields(t, trustLevel, domainMask);
    M.SectionExact(fs, []);
    assert M.PrintSection(fs) + [] == M.PrintSection(fs);
    assert |M.PrintSection(fs)| >= 4;
    assert fs[..1][..0] == [] && fs[..1] == [fs[0]];
    assert M.AbsorbAll([]) == M.Digest(None, None);
    assert M.AbsorbAll(fs[..1]) == M.Absorb(M.AbsorbAll([]), fs[0]);
  }

  /** The content a built payload stands for. */
  function DirectContent(w: World, t: Tools, d: Draft, invariants: seq<byte>): Content {
    Content(d.atomType, 0, U64_MAX, Mapped(w.nfc, AllNames(d)), Records(d.claims), invariants, [],
            M.Digest(Some(t.trustBits(d.trustLevel)), None))
  }

  /** What a caller can check before building: will the payload get an id? */
  predicate Identifiable(w: World, claims: seq<ClaimData>) {
    && |claims| <= C.MAX_CLAIMS_PER_SECTION
    && (forall c :: c in claims ==> c.subj < U32_LIMIT)
    && w.invariants(NoInvariants()).Ok?
  }

  lemma NarrowRecords(claims: seq<ClaimData>)
    requires Accepted(claims)
    ensures (forall r :: r in Records(claims) ==> Narrow(r)) <==> (forall c :: c in claims ==> c.subj < U32_LIMIT)
  {
    forall i | 0 <= i < |claims| ensures Records(claims)[i].subject == claims[i].subj {
      assert claims[i] in claims && Typed(claims[i]).Some?;
    }
    if forall r :: r in Records(claims) ==> Narrow(r) {
      forall c | c in claims ensures c.subj < U32_LIMIT {
        var i :| 0 <= i < |claims| && claims[i] == c;
        assert Records(claims)[i] in Records(claims);
      }
    }
    if forall c :: c in claims ==> c.subj < U32_LIMIT {
      forall r | r in Records(claims) ensures Narrow(r) {
        var i :| 0 <= i < |claims| && Records(claims)[i] == r;
        assert claims[i] in claims;
      }
    }
  }

  lemma ClaimsDecode(claims: seq<ClaimData>)
    requires Accepted(claims) && |claims| < U32_LIMIT
    ensures var r := DecodeClaims(C.PrintSection(Records(claims)));
            && (r.Ok? <==> |claims| <= C.MAX_CLAIMS_PER_SECTION && forall c :: c in claims ==> c.subj < U32_LIMIT)
            && (r.Ok? ==> r.value == Records(claims))
  {
    RecordsWellFormed(claims);
    PrintedClaimsParse(Records(claims));
    NarrowRecords(claims);
    assert |C.PrintSection(Records(claims))| >= 4;
  }

  lemma DecodeTogether(w: World, h: Header, p: Parts, names: seq<seq<byte>>, digest: M.Digest)
    requires DecodeSymbols(w, p.symbols) == Ok(names) && DecodeEvidence(p.evidence) == Ok([])
    requires DecodeMeta(p.meta) == Ok(digest)
    ensures var r := Decode(w, h, p.symbols, p.claims, p.invariants, p.evidence, p.meta);
            var claims, invariants := DecodeClaims(p.claims), DecodeInvariants(w, p.invariants);
            && (r.Ok? <==> claims.Ok? && invariants.Ok?)
            && (r.Ok? ==> r.value == Content(h.atomType, h.validFrom, h.validTo, names, claims.value, invariants.value,
                                             [], digest))
  {}

  /** The five sections, as built, decode to the direct content; and exactly when the draft is identifiable. */
  lemma BuiltSectionsDecode(w: World, t: Tools, d: Draft)
    requires Accepted(d.claims) && WithinFormat(w, d)
    ensures var p := Build(t, d);
            var r := Decode(w, BodyHeader(d.atomType), p.symbols, p.claims, p.invariants, p.evidence, p.meta);
            && (r.Ok? <==> Identifiable(w, d.claims))
            && (r.Ok? ==> r.value == DirectContent(w, t, d, w.invariants(NoInvariants()).value))
  {
    SymbolsDecode(w, d);
    ClaimsDecode(d.claims);
    assert DecodeInvariants(w, NoInvariants()) == w.invariants(NoInvariants()) by { assert |NoInvariants()| == 32; }
    EmptyEvidenceDecodes();
    MetaDecodes(t, d.trustLevel, d.domainMask);
    DecodeTogether(w, BodyHeader(d.atomType), Build(t, d), Mapped(w.nfc, AllNames(d)),
                   M.Digest(Some(t.trustBits(d.trustLevel)), None));
  }

  lemma ContentFromSections(w: World, b: seq<byte>, h: Header, ds: seq<Desc>, p: Parts)
    requires ParseHeader(b) == Ok(h) && ParseTable(b, h) == Done(ds) && Holds(b, ds, DataList(p))
    ensures ContentOf(w, b) == match Decode(w, h, p.symbols, p.claims, p.invariants, p.evidence, p.meta)
                               case Err(e) => Fails(e)
                               case Ok(c) => Done(c)
  {
    LookupAt(b, ds, DataList(p), 0, SYMBOLS);
    LookupAt(b, ds, DataList(p), 2, CLAIMS);
    LookupAt(b, ds, DataList(p), 3, INVARIANTS);
    LookupAt(b, ds, DataList(p), 5, EVIDENCE);
    LookupAt(b, ds, DataList(p), 6, META);
  }

  /** The content of a built body is what its sections decode to. */
  lemma BodyContent(w: World, t: Tools, atomType: u32, p: Parts)
    requires |Body(t, atomType, p)| < U64_LIMIT
    ensures ContentOf(w, Body(t, atomType, p)) ==
            match Decode(w, BodyHeader(atomType), p.symbols, p.claims, p.invariants, p.evidence, p.meta)
            case Err(e) => Fails(e)
            case Ok(c) => Done(c)
  {
    BodyParses(t, atomType, p);
    BodyHolds(t, atomType, p);
    ContentFromSections(w, Body(t, atomType, p), BodyHeader(atomType), Table(t, DataList(p)), p);
  }

  lemma {:induction false} FlatBound<T>(enc: Printer<T>, xs: seq<T>, limit: nat)
    requires forall x :: x in xs ==> |enc(x)| <= limit
    ensures |Flat(enc, xs)| <= |xs| * limit
  {
    if xs == [] {
      assert Flat(enc, xs) == [];
    } else {
      var n := |xs| - 1;
      FlatBound(enc, xs[1..], limit);
      assert |enc(xs[0])| <= limit && |xs[1..]| == n;
      assert (n + 1) * limit == n * limit + limit;
    }
  }

  /** A typed scalar takes at most 21 bytes. */
  lemma ClaimsAreShort(claims: seq<ClaimData>)
    requires Accepted(claims)
    ensures |C.PrintSection(Records(claims))| <= 8 + |claims| * 21
  {
    forall r | r in Records(claims) ensures |C.RecordPrinter(true)(r)| <= 21 {
      var i :| 0 <= i < |claims| && Records(claims)[i] == r;
      assert claims[i] in claims;
    }
    FlatBound(C.RecordPrinter(true), Records(claims), 21);
  }

  lemma PartsLength(t: Tools, atomType: u32, p: Parts)
    ensures |Body(t, atomType, p)|
         == DATA_START + |p.symbols| + |p.claims| + |p.invariants| + |p.evidence| + |p.meta|
  {
    BodyShape(t, atomType, p);
    var ps := DataList(p);
    assert Before(ps, 3) == |p.symbols| + |p.claims|;
    assert Before(ps, 6) == Before(ps, 3) + |p.invariants| + |p.evidence|;
  }

  lemma MetaIsShort(t: Tools, trustLevel: u16, domainMask: u64)
    ensures |M.PrintSection(MetaFields(t, trustLevel, domainMask))| <= 20
  {
    FlatBound(M.Printing(), MetaFields(t, trustLevel, domainMask), 8);
  }

  /** A compact draft gives a payload whose offsets fit 64 bits. */
  lemma BuiltBodyIsShort(t: Tools, d: Draft)
    requires Accepted(d.claims) && Compact(d)
    ensures |BuiltBody(t, d)| < U64_LIMIT
  {
    PartsLength(t, d.atomType, Build(t, d));
    S.PrintedSize(AllNames(d));
    ClaimsAreShort(d.claims);
    MetaIsShort(t, d.trustLevel, d.domainMask);
    assert |E.PrintSection([])| == 4 && |NoInvariants()| == 32;
  }

  /** Extraction from a built payload gives the direct content, exactly when the draft is identifiable. */
  lemma BuiltContent(w: World, t: Tools, d: Draft)
    requires Accepted(d.claims) && WithinFormat(w, d)
    ensures var c := ContentOf(w, BuiltBody(t, d));
            && (c.Done? <==> Identifiable(w, d.claims))
            && (c.Done? ==> c.value == DirectContent(w, t, d, w.invariants(NoInvariants()).value))
  {
    BuiltBodyIsShort(t, d);
    BodyContent(w, t, d.atomType, Build(t, d));
    BuiltSectionsDecode(w, t, d);
  }

  /** A built payload has an id exactly when its draft is identifiable. */
  lemma BuiltPayloadHasId(w: World, t: Tools, d: Draft)
    requires Accepted(d.claims) && WithinFormat(w, d)
    ensures AtomId(w, BuiltBody(t, d)).Done? <==> Identifiable(w, d.claims)
  {
    BuiltContent(w, t, d);
    HasIdIffExtracts(w, BuiltBody(t, d));
  }

  lemma HasIdIffExtracts(w: World, b: seq<byte>)
    ensures AtomId(w, b).Done? <==> ContentOf(w, b).Done?
  {}

  /** And then it is the hash of the form built directly. */
  lemma BuiltPayloadIdIs(w: World, t: Tools, d: Draft, inv: seq<byte>)
    requires Accepted(d.claims) && WithinFormat(w, d) && Identifiable(w, d.claims)
    requires w.invariants(NoInvariants()) == Ok(inv)
    ensures AtomId(w, BuiltBody(t, d)) == Done(IdOfContent(w, DirectContent(w, t, d, inv)))
  {
    BuiltContent(w, t, d);
  }

  /**
   The id of a built payload is the hash of the form built directly from the draft.
   It exists exactly when every subject fits 32 bits and the claims number at most a
   million (and the invariants library accepts an empty section).
   */
  lemma BuiltPayloadId(w: World, t: Tools, d: Draft)
    requires Accepted(d.claims) && WithinFormat(w, d)
    ensures var id := AtomId(w, BuiltBody(t, d));
            && (id.Done? <==> Identifiable(w, d.claims))
            && (id.Done? ==> id.value == IdOfContent(w, DirectContent(w, t, d, w.invariants(NoInvariants()).value)))
  {
    BuiltPayloadHasId(w, t, d);
    if Identifiable(w, d.claims) { BuiltPayloadIdIs(w, t, d, w.invariants(NoInvariants()).value); }
  }

  lemma PermutedContent(w: World, t: Tools, d: Draft, permuted: seq<ClaimData>, inv: seq<byte>)
    requires Permutation(d.claims, permuted)
    ensures IdOfContent(w, DirectContent(w, t, d, inv))
         == IdOfContent(w, DirectContent(w, t, d.(claims := permuted), inv))
  {
    assert |multiset(d.claims)| == |multiset(permuted)|;
    MappedPermutes(Record, d.claims, permuted);
    SameIds(w, DirectContent(w, t, d, inv), DirectContent(w, t, d.(claims := permuted), inv));
  }

  lemma PermutedDraft(w: World, d: Draft, permuted: seq<ClaimData>)
    requires Accepted(d.claims) && WithinFormat(w, d) && Permutation(d.claims, permuted)
    ensures Accepted(permuted) && WithinFormat(w, d.(claims := permuted))
    ensures Identifiable(w, permuted) <==> Identifiable(w, d.claims)
  {
    SameElements(d.claims, permuted);
    assert |multiset(d.claims)| == |multiset(permuted)|;
  }

  /** Permuting the input claims never changes the id. */
  lemma ClaimOrderDoesNotChangeId(w: World, t: Tools, d: Draft, permuted: seq<ClaimData>)
    requires Accepted(d.claims) && WithinFormat(w, d) && Permutation(d.claims, permuted)
    ensures var i, j := AtomId(w, BuiltBody(t, d)), AtomId(w, BuiltBody(t, d.(claims := permuted)));
            i.Done? == j.Done? && (i.Done? ==> i == j)
  {
    var e := d.(claims := permuted);
    PermutedDraft(w, d, permuted);
    BuiltPayloadHasId(w, t, d);
    BuiltPayloadHasId(w, t, e);
    if Identifiable(w, d.claims) {
      var inv := w.invariants(NoInvariants()).value;
      BuiltPayloadIdIs(w, t, d, inv);
      BuiltPayloadIdIs(w, t, e, inv);
      PermutedContent(w, t, d, permuted, inv);
    }
  }

  // Ordinary drafts satisfy the preconditions above.

  lemma {:induction false} DigitsAreFew(n: nat)
    ensures |Digits(n)| <= n + 1
  {
    if n < 10 {
    } else {
      DigitsAreFew(n / 10);
    }
  }

  lemma {:induction false} SizeBound(names: seq<S.Symbol>)
    requires forall s :: s in names ==> |s| < U32_LIMIT
    ensures S.SerializedSize(names) <= 4 + |names| * (U32_LIMIT + 8)
  {
    if names == [] {
      assert S.SerializedSize(names) == 4;
    } else {
      SizeBound(names[..|names| - 1]);
    }
  }

  /** Up to 2^30 names and claims, with names of 32-bit length, are always compact. */
  lemma OrdinaryDraftsAreCompact(d: Draft)
    requires |d.symbols| + |d.claims| + 2 <= 0x4000_0000 && forall s :: s in d.symbols ==> |s| < U32_LIMIT
    ensures Compact(d)
  {
    var all := d.symbols + DefaultNames(|d.claims|);
    S.InternRun(all);
    forall s | s in AllNames(d) ensures |s| < U32_LIMIT {
      FirstsMember(all, s);
      if s !in d.symbols {
        var i :| 0 <= i < |DefaultNames(|d.claims|)| && DefaultNames(|d.claims|)[i] == s;
        DigitsAreFew(i);
      }
    }
    SizeBound(AllNames(d));
  }

  /** The draft of a single claim qualifies wherever lossy decoding keeps valid names. */
  lemma SomeDraftQualifies(w: World)
    requires forall s :: w.lossy(s) == s
    ensures exists d: Draft :: d.claims != [] && Accepted(d.claims) && WithinFormat(w, d)
  {
    var d := Draft(2, [], [ClaimData(7, 1, 3, 42, 0)], 5000, 0);
    OrdinaryDraftsAreCompact(d);
    forall i | 0 <= i < |d.claims| + 2 ensures S.Storable(w.lossy, DefaultName(i)) { DigitsAreFew(i); }
    assert Typed(ClaimData(7, 1, 3, 42, 0)).Some?;
    assert Accepted(d.claims) && WithinFormat(w, d);
  }

  // ---------------------------------------------------------------------
  // The builder.
  // ---------------------------------------------------------------------

  method BuildAtomPayload(t: Tools, atomType: u32, symbols: seq<S.Symbol>, claims: seq<ClaimData>,
                          trustLevel: u16, domainMask: u64) returns (r: Option<seq<byte>>)
    ensures r == if Accepted(claims) then Some(BuiltBody(t, Draft(atomType, symbols, claims, trustLevel, domainMask)))
                 else None
  {
    var symbolsBytes := BuildSymbols(symbols, |claims|);
    var records := BuildClaims(claims);
    if records.None? {
      return None;
    }
    var claimsSection := new C.ClaimsSection();
    claimsSection.claims := records.value;
    var claimsBytes := claimsSection.ToBytes();
    var evidenceSection := new E.EvidenceSection();
    var evidenceBytes := evidenceSection.ToBytes();
    var metaSection := new M.MetaSection();
    var fields := MetaFields(t, trustLevel, domainMask);
    metaSection.AddField(fields[0]);
    metaSection.AddField(fields[1]);
    assert metaSection.fields == fields;
    var metaBytes := metaSection.ToBytes();
    var p := Parts(symbolsBytes, claimsBytes, NoInvariants(), evidenceBytes, metaBytes);
    var body := WriteBody(t, atomType, p);
    r := Some(body);
  }

  /** Intern the given names, then the default ones. */
  method BuildSymbols(symbols: seq<S.Symbol>, claimCount: nat) returns (bytes: seq<byte>)
    ensures bytes == S.PrintSection(Names(symbols, claimCount))
  {
    var section := new S.SymbolsSection();
    var all := symbols + DefaultNames(claimCount);
    for i := 0 to |all|
      invariant section.Value() == S.InternAll(S.EMPTY, all[..i])
    {
      assert all[..i + 1][..i] == all[..i];
      var id := section.Intern(all[i]);
    }
    assert all[..|all|] == all;
    bytes := section.ToBytes();
  }

  /** Type every claim; the first that cannot be typed fails the build. */
  method BuildClaims(claims: seq<ClaimData>) returns (r: Option<seq<C.ClaimRecord>>)
    ensures r == if Accepted(claims) then Some(Records(claims)) else None
  {
    var records: seq<C.ClaimRecord> := [];
    for i := 0 to |claims|
      invariant records == Records(claims[..i])
      invariant forall j :: 0 <= j < i ==> Typed(claims[j]).Some?
    {
      var record := Typed(claims[i]);
      if record.None? {
        assert claims[i] in claims;
        return None;
      }
      MappedStep(Record, claims, i);
      records := records + [record.value];
    }
    assert claims[..|claims|] == claims;
    r := Some(records);
  }

  /** Compute the offsets with a running total, then append header, descriptors and data. */
  method WriteBody(t: Tools, atomType: u32, p: Parts) returns (body: seq<byte>)
    ensures body == Body(t, atomType, p)
  {
    var ps := DataList(p);
    var table := WriteTable(t, ps);
    body := AppendAll(DescPrinter(), PrintHeader(BodyHeader(atomType)), table);
    body := AppendAll(Joined(), body, ps);
  }

  lemma TableStep(t: Tools, ps: seq<seq<byte>>, k: nat)
    requires k < |ps| && |ps| + 1 < U32_LIMIT
    ensures Table(t, ps)[..k + 1] == Table(t, ps)[..k] + [Entry(t, k, Before(ps, k), ps[k])]
  {}

  method WriteTable(t: Tools, ps: seq<seq<byte>>) returns (table: seq<Desc>)
    requires |ps| + 1 < U32_LIMIT
    ensures table == Table(t, ps)
  {
    table := [];
    var currentOff := DATA_START;
    for k := 0 to |ps|
      invariant currentOff == DATA_START + Before(ps, k)
      invariant table == Table(t, ps)[..k]
    {
      TableStep(t, ps, k);
      table := table + [Entry(t, k, currentOff - DATA_START, ps[k])];
      currentOff := currentOff + |ps[k]|;
    }
  }

  // ---------------------------------------------------------------------
  // The exporter.
  // ---------------------------------------------------------------------

  /** A claim as exported; qualifiers are never filled in. */
  datatype ClaimExport = ClaimExport(subject: u64, pred: u64, objectTag: byte, objectValue: u64)

  /** `as i64` and back: the two's complement reading of eight bytes. */
  function AsSigned(v: u64): int {
    if v < 0x8000_0000_0000_0000 then v else v - U64_LIMIT
  }

  function AsUnsigned(v: int): u64
    requires -0x8000_0000_0000_0000 <= v < 0x8000_0000_0000_0000
  {
    if v >= 0 then v else v + U64_LIMIT
  }

  function Word(s: seq<byte>): (v: u64)
    requires |s| == 8
  {
    FromLeRoundTrip(s);
    WordSizes();
    FromLe(s)
  }

  function HalfWord(s: seq<byte>): (v: u64)
    requires |s| == 4
    ensures v < U32_LIMIT
  {
    FromLeRoundTrip(s);
    WordSizes();
    FromLe(s)
  }

  /** The exported scalar; a value of the wrong length is refused. */
  function ExportValue(tag: C.ObjTag, v: seq<byte>): Option<u64> {
    match tag
    case NULL => Some(0)
    case BOOL => Some(if v == [] then 0 else v[0])
    case I64 => if |v| == 8 then Some(AsUnsigned(AsSigned(Word(v)))) else None
    case U64 | F64 | NODENUM => if |v| == 8 then Some(Word(v)) else None
    case BYTES => if |v| >= 4 then Some(HalfWord(v[..4])) else None
    case SYM => if |v| == 4 then Some(HalfWord(v)) else None
    case REF => if |v| == 32 then Some(Word(v[..8])) else None
  }

  function ExportClaim(r: C.ClaimRecord): Option<ClaimExport> {
    var v := ExportValue(r.tag, r.value);
    if v.None? then None else Some(ClaimExport(r.subject, r.pred, r.tag.ToU8(), v.value))
  }

  function ExportClaims(rs: seq<C.ClaimRecord>): Option<seq<ClaimExport>> {
    if rs == [] then Some([])
    else
      var c, cs := ExportClaim(rs[0]), ExportClaims(rs[1..]);
      if c.None? || cs.None? then None else Some([c.value] + cs.value)
  }

  function ExportSection(s: seq<byte>): Option<seq<ClaimExport>> {
    var records := C.ParseSection(s);
    if records.Err? then None else ExportClaims(records.value)
  }

  /** The end of a section in 64-bit arithmetic; release builds wrap around. */
  function WrappedEnd(d: Desc): nat {
    if d.off + d.len < U64_LIMIT then d.off + d.len else d.off + d.len - U64_LIMIT
  }

  /**
   What one table entry does to the claims found so far; None stands for every reported
   error. Out-of-range sections are skipped, unless their end wraps around to within the
   body: then the slice or index expressions that follow can fail.
   */
  function VisitSection(b: seq<byte>, d: Desc, found: seq<ClaimExport>): Outcome<Option<seq<ClaimExport>>> {
    if !(SYMBOLS <= d.kind <= META) then Done(None)
    else if WrappedEnd(d) > |b| then Done(Some(found))
    else if d.kind == CLAIMS then
      if d.off + d.len > |b| then Panics else Done(ExportSection(b[d.off..d.off + d.len]))
    else if d.kind == META && d.len >= 14 && d.off + 14 > |b| then Panics
    else Done(Some(found))
  }

  /** The walk over the whole table: every CLAIMS section replaces the claims found before. */
  function VisitAll(b: seq<byte>, ds: seq<Desc>): Outcome<Option<seq<ClaimExport>>> {
    if ds == [] then Done(Some([]))
    else
      var before := VisitAll(b, ds[..|ds| - 1]);
      if before.Done? && before.value.Some? then VisitSection(b, ds[|ds| - 1], before.value.value) else before
  }

  predicate KnownAtomType(t: u32) {
    1 <= t <= 13
  }

  /** The claims of `atom_export_from_store`; None stands for every reported error. */
  function Export(b: seq<byte>): Outcome<Option<seq<ClaimExport>>> {
    match ParseHeader(b)
    case Err(_) => Done(None)
    case Ok(h) =>
      if !KnownAtomType(h.atomType) then Done(None)
      else
        match ParseTable(b, h)
        case Fails(_) => Done(None)
        case Panics => Panics
        case Done(ds) => VisitAll(b, ds)
  }

  /** What the exporter shows of an authored claim: NULL has no value. */
  function Shown(c: ClaimData): ClaimExport {
    ClaimExport(c.subj, c.pred, c.objTag, if c.objTag == 0 then 0 else c.objVal)
  }

  /** Typing a scalar and exporting it gives the scalar back. */
  lemma ScalarSurvives(c: ClaimData)
    requires Typed(c).Some?
    ensures ExportClaim(Record(c)) == Some(Shown(c))
  {
    C.TagBijection(C.ObjTag.FromU8(c.objTag).value, c.objTag);
    WordRoundTrip(8, c.objVal, U64_LIMIT);
    if c.objVal < U32_LIMIT { WordRoundTrip(4, c.objVal, U32_LIMIT); }
  }

  lemma {:induction false} ExportsOneByOne(rs: seq<C.ClaimRecord>, es: seq<ClaimExport>)
    requires |rs| == |es| && forall i :: 0 <= i < |rs| ==> ExportClaim(rs[i]) == Some(es[i])
    ensures ExportClaims(rs) == Some(es)
  {
    if rs == [] {
    } else {
      ExportsOneByOne(rs[1..], es[1..]);
      assert es == [es[0]] + es[1..];
    }
  }

  lemma ScalarsSurvive(claims: seq<ClaimData>)
    requires Accepted(claims)
    ensures ExportClaims(Records(claims)) == Some(Mapped(Shown, claims))
  {
    forall i | 0 <= i < |claims| ensures ExportClaim(Records(claims)[i]) == Some(Mapped(Shown, claims)[i]) {
      assert claims[i] in claims;
      ScalarSurvives(claims[i]);
    }
    ExportsOneByOne(Records(claims), Mapped(Shown, claims));
  }

  /** Only the third entry of a built table has claims. */
  lemma VisitEntry(b: seq<byte>, ds: seq<Desc>, ps: seq<seq<byte>>, k: nat, found: seq<ClaimExport>)
    requires Holds(b, ds, ps) && |ps| == 7 && k < 7
    ensures VisitSection(b, ds[k], found) == Done(if k != 2 then Some(found) else ExportSection(ps[2]))
  {
    EntryBytes(b, ds, ps, k);
  }

  lemma {:induction false} WalkFindsTheClaims(b: seq<byte>, ds: seq<Desc>, ps: seq<seq<byte>>, n: nat)
    requires Holds(b, ds, ps) && |ps| == 7 && n <= 7
    ensures VisitAll(b, ds[..n]) == Done(if n <= 2 then Some([]) else ExportSection(ps[2]))
  {
    if n == 0 {
    } else {
      WalkFindsTheClaims(b, ds, ps, n - 1);
      assert ds[..n][..n - 1] == ds[..n - 1];
      var before := VisitAll(b, ds[..n - 1]);
      if before.value.Some? { VisitEntry(b, ds, ps, n - 1, before.value.value); }
    }
  }

  lemma ExportWalksTheTable(t: Tools, atomType: u32, p: Parts)
    requires KnownAtomType(atomType) && |Body(t, atomType, p)| < U64_LIMIT
    ensures Export(Body(t, atomType, p))
         == Done(ExportSection(p.claims))
  {
    var ps := DataList(p);
    BodyParses(t, atomType, p);
    BodyHolds(t, atomType, p);
    WalkFindsTheClaims(Body(t, atomType, p), Table(t, ps), ps, 7);
    assert Table(t, ps)[..7] == Table(t, ps);
  }

  /**
   Exporting a built payload returns the authored claims in order, up to the qualifier
   mask and the value of NULL claims, exactly when there are at most a million of them;
   subjects of any 64-bit size survive.
   */
  lemma ClaimsSurviveExport(t: Tools, d: Draft)
    requires KnownAtomType(d.atomType) && Accepted(d.claims) && Compact(d)
    ensures Export(BuiltBody(t, d))
         == Done(if |d.claims| <= C.MAX_CLAIMS_PER_SECTION then Some(Mapped(Shown, d.claims)) else None)
  {
    BuiltBodyIsShort(t, d);
    ExportWalksTheTable(t, d.atomType, Build(t, d));
    RecordsWellFormed(d.claims);
    PrintedClaimsParse(Records(d.claims));
    ScalarsSurvive(d.claims);
  }

  /** The exporter's loop over the section table. */
  method ExportAtom(b: seq<byte>) returns (r: Outcome<Option<seq<ClaimExport>>>)
    ensures r == Export(b)
  {
    var header := ParseHeader(b);
    if header.Err? || !KnownAtomType(header.value.atomType) {
      return Done(None);
    }
    var table := ReadTable(b, header.value);
    if !table.Done? {
      return if table.Panics? then Panics else Done(None);
    }
    var ds := table.value;
    var claims: seq<ClaimExport> := [];
    for i := 0 to |ds|
      invariant VisitAll(b, ds[..i]) == Done(Some(claims))
    {
      assert ds[..i + 1][..i] == ds[..i];
      var visited := VisitSection(b, ds[i], claims);
      if !visited.Done? || visited.value.None? {
        VisitAllFails(b, ds, i + 1);
        return visited;
      }
      claims := visited.value.value;
    }
    assert ds[..|ds|] == ds;
    r := Done(Some(claims));
  }

  /** A walk that has failed stays so. */
  lemma {:induction false} VisitAllFails(b: seq<byte>, ds: seq<Desc>, n: nat)
    requires n <= |ds|
    requires var r := VisitAll(b, ds[..n]); !(r.Done? && r.value.Some?)
    ensures VisitAll(b, ds) == VisitAll(b, ds[..n])
    decreases |ds| - n
  {
    if n < |ds| {
      assert ds[..n + 1][..n] == ds[..n];
      VisitAllFails(b, ds, n + 1);
    } else {
      assert ds[..n] == ds;
    }
  }
}
