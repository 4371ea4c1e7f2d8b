/**
 What stands where in a built payload, byte by byte, and what the exporter makes of the
 bytes it finds.
 */
module BodyLayout {
  import opened Bytes
  import opened Results
  import opened Codecs
  import opened FirstSeen
  import opened Decimal
  import opened Payload
  import opened Builder
  import C = Claims
  import S = Symbols
  import E = Evidence
  import M = Meta

  // ---------------------------------------------------------------------
  // The sections.
  // ---------------------------------------------------------------------

  /** The bytes that a scalar of this tag is stored as. */
  function Stored(tag: byte, scalar: u64): seq<byte> {
    if tag == 0 then [] else if tag == 1 then [scalar % 256] else if tag == 6 then Le(4, scalar) else Le(8, scalar)
  }

  /** The record of a claim. */
  predicate TypesTo(c: ClaimData, r: C.ClaimRecord) {
    && r.subject == c.subj && r.pred == c.pred && r.tag.ToU8() == c.objTag
    && r.value == Stored(c.objTag, c.objVal)
  }

  /**
   A claim can be built exactly if its predicate fits 32 bits and its tag is a known one other
   than BYTES and REF, with 0 or 1 for BOOL and 32 bits for SYM.
   */
  lemma TypedMeans(c: ClaimData)
    ensures Typed(c).Some? <==>
      && c.pred < 0x1_0000_0000 && c.objTag in {0, 1, 2, 3, 4, 6, 8}
      && (c.objTag == 1 ==> c.objVal <= 1) && (c.objTag == 6 ==> c.objVal < 0x1_0000_0000)
    ensures Typed(c).Some? ==> TypesTo(c, Typed(c).value)
  {}

  /** The names given, then one default name per claim and at least two, each kept where it first appears. */
  lemma NamesMean(d: Draft)
    requires |d.symbols| + |d.claims| + 2 <= 0x1_0000_0000
    ensures AllNames(d) == Firsts(d.symbols + seq(if |d.claims| < 2 then 2 else |d.claims|,
                                                  i requires 0 <= i => [115, 121, 109, 95] + Digits(i)))
  {
    S.InternRun(d.symbols + DefaultNames(|d.claims|));
    assert DefaultNames(|d.claims|) == seq(if |d.claims| < 2 then 2 else |d.claims|,
                                           i requires 0 <= i => [115, 121, 109, 95] + Digits(i));
  }

  /** A V2 section of these claims: magic, count, records without gaps. */
  ghost predicate ClaimsStand(s: seq<byte>, claims: seq<ClaimData>, cs: seq<C.ClaimRecord>) {
    && |cs| == |claims| && (forall i :: 0 <= i < |cs| ==> TypesTo(claims[i], cs[i]))
    && At(s, 0, [0x43, 0x4C, 0x4D, 0x32]) && At(s, 4, Len32(|claims|))
    && |s| == 8 + Offset(C.RecordSize(true), cs, |cs|)
    && forall i :: 0 <= i < |cs| ==> C.RecordAt(s, 8, cs, true, i)
  }

  lemma ClaimsAreBuilt(claims: seq<ClaimData>)
    requires Accepted(claims) && |claims| < 0x1_0000_0000
    ensures ClaimsStand(C.PrintSection(Records(claims)), claims, Records(claims))
  {
    var cs := Records(claims);
    forall i | 0 <= i < |cs| ensures TypesTo(claims[i], cs[i]) {
      assert claims[i] in claims;
      TypedMeans(claims[i]);
    }
    C.SectionBytes(cs);
    var s := C.PrintSection(cs);
    assert s[4..8] == Len32(|claims|);
  }

  /** "1VNI", version 0, three zero words, and 32 twice: an INVARIANTS section of its header alone. */
  const INVARIANTS_HEADER: seq<byte> :=
    [0x31, 0x56, 0x4E, 0x49] + [0, 0, 0, 0] + [0, 0, 0, 0] + [0, 0, 0, 0] +
    [32, 0, 0, 0, 0, 0, 0, 0] + [32, 0, 0, 0, 0, 0, 0, 0]

  lemma InvariantsAreBuilt()
    ensures NoInvariants() == INVARIANTS_HEADER
  {
    SmallWord(32);
    ZeroWord();
    MagicWord();
  }

  lemma MagicWord()
    ensures Le(4, 0x494E5631) == [0x31, 0x56, 0x4E, 0x49]
  {
    LeOne(0x49);
    assert Le(2, 0x494E) == [0x4E] + Le(1, 0x49);
    assert Le(3, 0x494E56) == [0x56] + Le(2, 0x494E);
    assert Le(4, 0x494E5631) == [0x31] + Le(3, 0x494E56);
  }

  lemma ZeroWord()
    ensures Le(4, 0) == [0, 0, 0, 0]
  {
    LeOne(0);
    assert Le(2, 0) == [0, 0];
    assert Le(3, 0) == [0, 0, 0];
  }

  lemma SmallWord(v: byte)
    ensures Le(8, v) == [v, 0, 0, 0, 0, 0, 0, 0]
  {
    ZeroWord();
    assert Le(5, 0) == [0, 0, 0, 0, 0];
    assert Le(6, 0) == [0, 0, 0, 0, 0, 0];
    assert Le(7, 0) == [0, 0, 0, 0, 0, 0, 0];
  }

  /** Two fields: trust under kind 1 as f32 bits, and the low 32 bits of the domain mask under kind 2. */
  function MetaBytes(t: Tools, trustLevel: u16, domainMask: u64): seq<byte> {
    Le(4, 2) + (Le(2, 1) + (Le(2, 1) + Le(4, t.trustBits(trustLevel)))) +
    (Le(2, 2) + (Le(2, 0) + Le(4, domainMask % 0x1_0000_0000)))
  }

  lemma MetaIsBuilt(t: Tools, trustLevel: u16, domainMask: u64)
    ensures M.PrintSection(MetaFields(t, trustLevel, domainMask)) == MetaBytes(t, trustLevel, domainMask)
  {
    var f, g := M.MetaField(1, 1, t.trustBits(trustLevel)), M.MetaField(2, 0, domainMask % 0x1_0000_0000);
    assert MetaFields(t, trustLevel, domainMask) == [f] + ([g] + []);
    FlatCons(M.Printing(), f, [g] + []);
    FlatCons(M.Printing(), g, []);
    M.FieldBytes(f);
    M.FieldBytes(g);
    assert Flat(M.Printing(), []) == [];
    assert M.ThreeWords(g) + [] == M.ThreeWords(g);
  }

  // ---------------------------------------------------------------------
  // The body.
  // ---------------------------------------------------------------------

  /** Section number `k` of the table, of kind k + 1, lies at `at`; its entry names place, length and checksum. */
  ghost predicate SectionAt(t: Tools, b: seq<byte>, k: nat, at: nat, s: seq<byte>) {
    && k + 1 < U32_LIMIT && at < U64_LIMIT && |s| < U64_LIMIT && At(b, at, s)
    && DescAt(b, 48 + 32 * k, Desc(k + 1, 0, at, |s|, t.crc(s), 0))
  }

  /** "MOTA", version 1, no flags, times 0, 0 and 2^64 - 1, the type, seven sections, their table at 48. */
  ghost predicate FrontIs(b: seq<byte>, atomType: u32) {
    && At(b, 0, Le(4, 0x41544F4D)) && At(b, 4, Le(2, 1)) && At(b, 6, Le(2, 0)) && At(b, 8, Le(8, 0))
    && At(b, 16, Le(8, 0)) && At(b, 24, Le(8, 0xFFFF_FFFF_FFFF_FFFF)) && At(b, 32, Le(4, atomType))
    && At(b, 36, Le(4, 7)) && At(b, 40, Le(8, 48))
  }

  ghost predicate SectionsAt(t: Tools, b: seq<byte>, starts: seq<nat>, ps: seq<seq<byte>>) {
    |starts| == |ps| && forall k :: 0 <= k < |ps| ==> SectionAt(t, b, k, starts[k], ps[k])
  }

  /** Front, table, and the sections one after the other from 272 to the end. */
  ghost predicate BodyIs(t: Tools, b: seq<byte>, atomType: u32, starts: seq<nat>, ps: seq<seq<byte>>) {
    && FrontIs(b, atomType) && SectionsAt(t, b, starts, ps)
    && |ps| == 7 && starts[0] == 272 && starts[6] + |ps[6]| == |b|
    && forall k :: 0 < k < 7 ==> starts[k] == starts[k - 1] + |ps[k - 1]|
  }

  lemma FrontIsBuilt(t: Tools, atomType: u32, p: Parts)
    ensures FrontIs(Body(t, atomType, p), atomType)
  {
    var b, h := Body(t, atomType, p), BodyHeader(atomType);
    var rest := Flat(DescPrinter(), Table(t, DataList(p))) + Flat(Joined(), DataList(p));
    assert b == PrintHeader(h) + rest;
    AtBefore(PrintHeader(h), rest, 0, PrintHeader(h));
    PrintedHeaderAt(b, h);
  }

  lemma TableEntryAt(ds: seq<Desc>, k: nat)
    requires k < |ds|
    ensures At(Flat(DescPrinter(), ds), 32 * k, PrintDesc(ds[k]))
  {
    var size := (d: Desc) => 32;
    FlatAt(DescPrinter(), size, ds);
    OffsetConst(size, 32, ds, k);
    assert ElementAt(Flat(DescPrinter(), ds), 0, DescPrinter(), size, ds, k);
  }

  lemma EntryAt(head: seq<byte>, table: seq<byte>, data: seq<byte>, at: nat, d: Desc)
    requires At(table, at, PrintDesc(d))
    ensures DescAt(head + (table + data), |head| + at, d)
  {
    Surrounded(head, table, data, at, PrintDesc(d));
    PrintedDescAt(head + (table + data), |head| + at, d);
  }

  lemma EntryIsBuilt(t: Tools, atomType: u32, p: Parts, k: nat)
    requires k < 7
    ensures DescAt(Body(t, atomType, p), 48 + 32 * k, Table(t, DataList(p))[k])
  {
    BodyJoin(t, atomType, p);
    TableEntryAt(Table(t, DataList(p)), k);
    EntryAt(PrintHeader(BodyHeader(atomType)), Flat(DescPrinter(), Table(t, DataList(p))), Flat(Joined(), DataList(p)),
            32 * k, Table(t, DataList(p))[k]);
  }

  lemma BodyJoin(t: Tools, atomType: u32, p: Parts)
    ensures Body(t, atomType, p) ==
            PrintHeader(BodyHeader(atomType)) +
            (Flat(DescPrinter(), Table(t, DataList(p))) + Flat(Joined(), DataList(p)))
  {
    Assoc(PrintHeader(BodyHeader(atomType)), Flat(DescPrinter(), Table(t, DataList(p))), Flat(Joined(), DataList(p)));
  }

  lemma Assoc(a: seq<byte>, b: seq<byte>, c: seq<byte>)
    ensures a + b + c == a + (b + c)
  {}

  lemma EntryIs(t: Tools, ps: seq<seq<byte>>, k: nat, at: nat, s: seq<byte>)
    requires k < |ps| < 8 && s == ps[k] && at == 272 + Before(ps, k) && at < U64_LIMIT && |s| < U64_LIMIT
    ensures Table(t, ps)[k] == Desc(k + 1, 0, at, |s|, t.crc(s), 0)
  {}

  lemma DataIsBuilt(t: Tools, atomType: u32, p: Parts, k: nat)
    requires k < 7 && |Body(t, atomType, p)| < U64_LIMIT
    ensures var at, s := 272 + Before(DataList(p), k), DataList(p)[k];
            at + |s| < U64_LIMIT && At(Body(t, atomType, p), at, s)
  {
    BodyHolds(t, atomType, p);
    EntryBytes(Body(t, atomType, p), Table(t, DataList(p)), DataList(p), k);
  }

  lemma SectionIsBuilt(t: Tools, atomType: u32, p: Parts, k: nat)
    requires k < 7 && |Body(t, atomType, p)| < U64_LIMIT
    ensures SectionAt(t, Body(t, atomType, p), k, 272 + Before(DataList(p), k), DataList(p)[k])
  {
    DataIsBuilt(t, atomType, p, k);
    EntryIsBuilt(t, atomType, p, k);
    EntryIs(t, DataList(p), k, 272 + Before(DataList(p), k), DataList(p)[k]);
  }

  lemma SectionsAreBuilt(t: Tools, atomType: u32, p: Parts, starts: seq<nat>)
    requires |Body(t, atomType, p)| < U64_LIMIT && starts == StartsOf(DataList(p))
    ensures SectionsAt(t, Body(t, atomType, p), starts, DataList(p))
  {
    forall k | 0 <= k < 7 ensures SectionAt(t, Body(t, atomType, p), k, starts[k], DataList(p)[k]) {
      SectionIsBuilt(t, atomType, p, k);
    }
  }

  lemma BodyLength(t: Tools, atomType: u32, p: Parts)
    ensures |Body(t, atomType, p)| == 272 + Before(DataList(p), 7)
  {
    BodyShape(t, atomType, p);
  }

  lemma BodyIsBuilt(t: Tools, atomType: u32, p: Parts) returns (starts: seq<nat>)
    requires |Body(t, atomType, p)| < U64_LIMIT
    ensures BodyIs(t, Body(t, atomType, p), atomType, starts, DataList(p))
  {
    starts := StartsOf(DataList(p));
    FrontIsBuilt(t, atomType, p);
    BodyLength(t, atomType, p);
    SectionsAreBuilt(t, atomType, p, starts);
    StartsRun(DataList(p));
  }

  function StartsOf(ps: seq<seq<byte>>): (starts: seq<nat>)
    requires |ps| == 7
    ensures |starts| == 7 && forall k :: 0 <= k < 7 ==> starts[k] == 272 + Before(ps, k)
  {
    seq(7, k requires 0 <= k < 7 => 272 + Before(ps, k))
  }

  lemma StartsRun(ps: seq<seq<byte>>)
    requires |ps| == 7
    ensures var starts := StartsOf(ps);
      && starts[0] == 272 && starts[6] + |ps[6]| == 272 + Before(ps, 7)
      && forall k :: 0 < k < 7 ==> starts[k] == starts[k - 1] + |ps[k - 1]|
  {
    var starts := StartsOf(ps);
    forall k | 0 < k < 7 ensures starts[k] == starts[k - 1] + |ps[k - 1]| {
      assert Before(ps, k) == Before(ps, k - 1) + |ps[k - 1]|;
    }
    assert Before(ps, 7) == Before(ps, 6) + |ps[6]|;
  }

  /** A SYMBOLS section of these names. */
  ghost predicate NamesStand(s: seq<byte>, names: seq<S.Symbol>) {
    && At(s, 0, Len32(|names|)) && |s| == 4 + Offset(S.RoundedSize(), names, |names|)
    && forall i :: 0 <= i < |names| ==> S.StringStandsAt(s, names, i)
  }

  /**
   The payload of an accepted draft, from its bytes alone: the fixed front, the table with
   offsets, lengths and checksums, the names, the typed claims, and the fixed sections.
   */
  lemma PayloadMeans(t: Tools, d: Draft)
    requires Accepted(d.claims) && Compact(d)
    ensures exists starts, symbols, claims, records ::
      && BodyIs(t, BuiltBody(t, d), d.atomType, starts,
                [symbols, [], claims, INVARIANTS_HEADER, [], [0, 0, 0, 0], MetaBytes(t, d.trustLevel, d.domainMask)])
      && NamesStand(symbols, AllNames(d)) && ClaimsStand(claims, d.claims, records)
  {
    var p := Build(t, d);
    BuiltBodyIsShort(t, d);
    var starts := BodyIsBuilt(t, d.atomType, p);
    S.SectionBytes(AllNames(d));
    ClaimsAreBuilt(d.claims);
    FixedParts(t, d);
    assert NamesStand(p.symbols, AllNames(d));
  }

  lemma FixedParts(t: Tools, d: Draft)
    ensures DataList(Build(t, d)) ==
            [S.PrintSection(AllNames(d)), [], C.PrintSection(Records(d.claims)), INVARIANTS_HEADER, [], [0, 0, 0, 0],
             MetaBytes(t, d.trustLevel, d.domainMask)]
  {
    InvariantsAreBuilt();
    MetaIsBuilt(t, d.trustLevel, d.domainMask);
    ZeroWord();
    assert E.PrintSection([]) == [0, 0, 0, 0] by { assert Flat(E.Printing(), []) == []; }
  }

  // ---------------------------------------------------------------------
  // The exporter.
  // ---------------------------------------------------------------------

  /** How a stored value is shown, by its tag; nothing is shown for a value of the wrong length. */
  ghost predicate Shows(tag: byte, v: seq<byte>, shown: Option<u64>) {
    && (tag == 0 ==> shown == Some(0))
    && (tag == 1 ==> shown == Some(if v == [] then 0 else v[0]))
    && (tag in {2, 3, 4, 8} ==> if |v| == 8 then shown.Some? && shown.value == FromLe(v) else shown == None)
    && (tag == 5 ==> if |v| >= 4 then shown.Some? && shown.value == FromLe(v[..4]) else shown == None)
    && (tag == 6 ==> if |v| == 4 then shown.Some? && shown.value == FromLe(v) else shown == None)
    && (tag == 7 ==> if |v| == 32 then shown.Some? && shown.value == FromLe(v[..8]) else shown == None)
  }

  lemma ExportedValueMeans(tag: C.ObjTag, v: seq<byte>)
    ensures Shows(tag.ToU8(), v, ExportValue(tag, v))
  {}

  ghost predicate ShownAs(r: C.ClaimRecord, e: ClaimExport) {
    && e.subject == r.subject && e.pred == r.pred && e.objectTag == r.tag.ToU8()
    && Shows(r.tag.ToU8(), r.value, Some(e.objectValue))
  }

  lemma ExportedClaimMeans(r: C.ClaimRecord)
    ensures ExportClaim(r).Some? ==> ShownAs(r, ExportClaim(r).value)
    ensures ExportClaim(r).None? ==> Shows(r.tag.ToU8(), r.value, None)
  {
    ExportedValueMeans(r.tag, r.value);
  }

  /** All claims of a section are shown, in order, or the first that cannot be shown fails the export. */
  lemma {:induction false} ExportedClaimsMean(rs: seq<C.ClaimRecord>)
    ensures ExportClaims(rs).Some? ==>
      var es := ExportClaims(rs).value; |es| == |rs| && forall i :: 0 <= i < |rs| ==> ShownAs(rs[i], es[i])
    ensures ExportClaims(rs).None? ==> exists i :: 0 <= i < |rs| && Shows(rs[i].tag.ToU8(), rs[i].value, None)
  {
    if rs == [] {
    } else {
      ExportedClaimMeans(rs[0]);
      ExportedClaimsMean(rs[1..]);
      if ExportClaim(rs[0]).Some? && ExportClaims(rs[1..]).None? {
        var i :| 0 <= i < |rs[1..]| && Shows(rs[1..][i].tag.ToU8(), rs[1..][i].value, None);
        assert rs[i + 1] == rs[1..][i];
      }
    }
  }

  /** A section of claims that lies in the body. */
  predicate HasClaims(b: seq<byte>, d: Desc) {
    d.kind == 3 && d.off + d.len <= |b|
  }

  /** What such a section exports to. */
  function ClaimsIn(b: seq<byte>, d: Desc): Option<seq<ClaimExport>> {
    if HasClaims(b, d) then ExportSection(b[d.off..d.off + d.len]) else None
  }

  /** No end of a section wraps around. */
  predicate Bounded(ds: seq<Desc>) {
    forall d :: d in ds ==> d.off + d.len < 0x1_0000_0000_0000_0000
  }

  ghost predicate NoClaims(b: seq<byte>, ds: seq<Desc>) {
    forall d :: d in ds ==> !HasClaims(b, d)
  }

  /** `cs` is what entry `i` exports to, and no later CLAIMS section lies in the body. */
  ghost predicate WinsAt(b: seq<byte>, ds: seq<Desc>, i: int, cs: seq<ClaimExport>) {
    0 <= i < |ds| && ClaimsIn(b, ds[i]) == Some(cs) && NoClaims(b, ds[i + 1..])
  }

  /** The claims of the last CLAIMS section that lies in the body; none without one. */
  ghost predicate LastClaims(b: seq<byte>, ds: seq<Desc>, cs: seq<ClaimExport>) {
    (cs == [] && NoClaims(b, ds)) || exists i :: WinsAt(b, ds, i, cs)
  }

  /** The entry has a known kind, and its claims can be exported if it is a CLAIMS section in the body. */
  predicate Exports(b: seq<byte>, d: Desc) {
    1 <= d.kind <= 7 && (HasClaims(b, d) ==> ClaimsIn(b, d).Some?)
  }

  ghost predicate AllExport(b: seq<byte>, ds: seq<Desc>) {
    forall d :: d in ds ==> Exports(b, d)
  }

  lemma VisitMeans(b: seq<byte>, d: Desc, found: seq<ClaimExport>)
    requires d.off + d.len < 0x1_0000_0000_0000_0000
    ensures VisitSection(b, d, found) ==
            Done(if !(1 <= d.kind <= 7) then None else if HasClaims(b, d) then ClaimsIn(b, d) else Some(found))
  {}

  /**
   With wrap-around a section whose end comes out within the body can abort the walk: a CLAIMS
   section always does, a META section of 14 bytes or more if those 14 bytes leave the body.
   */
  lemma PanicMeans(b: seq<byte>, d: Desc, found: seq<ClaimExport>)
    requires |b| < 0x1_0000_0000_0000_0000
    ensures VisitSection(b, d, found).Panics? <==>
      && d.off + d.len >= 0x1_0000_0000_0000_0000 && d.off + d.len - 0x1_0000_0000_0000_0000 <= |b|
      && (d.kind == 3 || (d.kind == 7 && d.len >= 14 && d.off + 14 > |b|))
  {}

  /** Without wrap-around the walk fails exactly on a foreign kind or bad claims, and else the last section wins. */
  lemma {:induction false} WalkMeans(b: seq<byte>, ds: seq<Desc>)
    requires Bounded(ds)
    ensures VisitAll(b, ds).Done? && (VisitAll(b, ds).value.Some? <==> AllExport(b, ds))
    ensures VisitAll(b, ds).value.Some? ==> LastClaims(b, ds, VisitAll(b, ds).value.value)
  {
    if ds == [] {
    } else {
      var init, last := ds[..|ds| - 1], ds[|ds| - 1];
      assert last in ds;
      WalkMeans(b, init);
      AllExportSnoc(b, init, last);
      var before := VisitAll(b, init).value;
      if before.Some? {
        VisitMeans(b, last, before.value);
        if HasClaims(b, last) {
          if ClaimsIn(b, last).Some? { LastWins(b, init, last, ClaimsIn(b, last).value); }
        } else {
          LastSnoc(b, init, last, before.value);
        }
      }
      assert ds == init + [last];
    }
  }

  lemma AllExportSnoc(b: seq<byte>, init: seq<Desc>, last: Desc)
    ensures AllExport(b, init + [last]) <==> AllExport(b, init) && Exports(b, last)
  {
    var ds := init + [last];
    assert last == ds[|init|];
    forall d ensures d in ds <==> d in init || d == last {}
  }

  lemma LastSnoc(b: seq<byte>, init: seq<Desc>, last: Desc, cs: seq<ClaimExport>)
    requires LastClaims(b, init, cs) && !HasClaims(b, last)
    ensures LastClaims(b, init + [last], cs)
  {
    if i :| WinsAt(b, init, i, cs) {
      assert (init + [last])[i + 1..] == init[i + 1..] + [last];
      assert WinsAt(b, init + [last], i, cs);
    }
  }

  lemma LastWins(b: seq<byte>, init: seq<Desc>, last: Desc, cs: seq<ClaimExport>)
    requires ClaimsIn(b, last) == Some(cs)
    ensures LastClaims(b, init + [last], cs)
  {
    assert (init + [last])[|init| + 1..] == [];
    assert WinsAt(b, init + [last], |init|, cs);
  }

  /** Of a body with a readable table the claims are exported exactly if its type is from 1 to 13. */
  lemma ExportMeans(b: seq<byte>, h: Header, ds: seq<Desc>)
    requires ParseHeader(b) == Ok(h) && ParseTable(b, h) == Done(ds)
    ensures At(b, 32, Le(4, h.atomType))
    ensures Export(b) == if 1 <= h.atomType <= 13 then VisitAll(b, ds) else Done(None)
  {
    HeaderMeans(b);
  }
}
