/**
 The CSV form of atoms: one row per claim, atom-level cells repeated. The parser groups rows
 back into atoms; on canonical atoms it inverts the printer, whatever the order of the rows.
 */
module CsvAtoms {
  import opened Bytes
  import opened Results
  import opened FirstSeen
  import opened Sorting
  import opened CsvGroups
  import opened CsvBlocks
  import Claims

  type AtomKind(==, !new)

  /** A row of cells; the CSV text between printer and parser is left to the `csv` library. */
  datatype Row = Row(
    id: Option<string>, kind: Option<string>,
    subject: Option<u64>, pred: Option<u64>, tag: Option<string>, value: Option<u64>, qualifiers: Option<string>,
    createdAt: Option<u64>, trust: Option<nat>, domains: Option<u64>, source: Option<u32>,
    payload: Option<string>, evidence: Option<string>,
    evidenceAtom: Option<string>, evidenceKind: Option<string>, evidenceOffset: Option<u64>,
    evidenceLength: Option<u64>, evidenceTrust: Option<nat>)

  /** String, number and JSON conversions. */
  datatype Library = Library(
    trim: string -> string,
    readKind: string -> Option<AtomKind>, kindLabel: AtomKind -> string,
    readByte: string -> Option<byte>, showByte: byte -> string, tagName: string -> Option<Claims.ObjTag>,
    readQualifiers: string -> Option<Qualifiers>, showQualifiers: Qualifiers -> string,
    readEvidence: string -> Option<seq<Evidence>>, showEvidence: seq<Evidence> -> string,
    sectionLabel: string -> Option<string>)

  predicate Clean(lib: Library, s: string) {
    lib.trim(s) == s != ""
  }

  /** Trimming is idempotent, and what is printed is read back and needs no trimming. */
  ghost predicate Lawful(lib: Library) {
    && (forall s :: lib.trim(lib.trim(s)) == lib.trim(s))
    && (forall t :: Clean(lib, lib.kindLabel(t)) && lib.readKind(lib.kindLabel(t)) == Some(t))
    && (forall b: byte :: Clean(lib, lib.showByte(b)) && lib.readByte(lib.showByte(b)) == Some(b))
    && (forall q :: Clean(lib, lib.showQualifiers(q)) && lib.readQualifiers(lib.showQualifiers(q)) == Some(q))
    && (forall e :: Clean(lib, lib.showEvidence(e)) && lib.readEvidence(lib.showEvidence(e)) == Some(e))
  }

  // ---------------------------------------------------------------------
  // Reading one row.
  // ---------------------------------------------------------------------

  /** `normalize_optional_string`. */
  function Norm(lib: Library, s: Option<string>): Option<string> {
    if s.None? || lib.trim(s.value) == "" then None else Some(lib.trim(s.value))
  }

  function Need<T>(cell: Option<T>, why: Problem): Read<T> {
    if cell.None? then Bad(why) else Good(cell.value)
  }

  function ReadKindCell(lib: Library, cell: Option<string>): Read<AtomKind> {
    var raw :- Need(Norm(lib, cell), MissingType);
    Need(lib.readKind(raw), UnknownType)
  }

  /** A blank tag means U64; otherwise a number or a name. */
  function ReadTag(lib: Library, cell: Option<string>): Read<byte> {
    var raw := Norm(lib, cell);
    if raw.None? then Good(Claims.ObjTag.U64.ToU8())
    else
      var number := lib.readByte(raw.value);
      var tag :- Need(if number.Some? then Claims.ObjTag.FromU8(number.value) else lib.tagName(raw.value), BadTag);
      Good(tag.ToU8())
  }

  function ReadQualifiers(lib: Library, cell: Option<string>): Read<Option<Qualifiers>> {
    var raw := Norm(lib, cell);
    if raw.None? then Good(None)
    else
      var q :- Need(lib.readQualifiers(raw.value), BadQualifiers);
      Good(Some(q))
  }

  function ReadEvidence(lib: Library, cell: Option<string>): Read<seq<Evidence>> {
    var raw := Norm(lib, cell);
    if raw.None? then Good([]) else Need(lib.readEvidence(raw.value), BadEvidence)
  }

  /** The evidence of the five separate cells. */
  function ReadEvidenceCells(lib: Library, row: Row): Read<seq<Evidence>> {
    var atom := Norm(lib, row.evidenceAtom);
    if atom.None? then Good([])
    else
      var name := if row.evidenceKind.Some? then row.evidenceKind.value else "EVIDENCE";
      var kind :- Need(lib.sectionLabel(name), BadSectionKind);
      var offset :- Need(row.evidenceOffset, MissingOffset);
      var length :- Need(row.evidenceLength, MissingLength);
      var trust :- Need(row.evidenceTrust, MissingTrust);
      Good([Evidence(atom.value, kind, offset, length, trust)])
  }

  function ReadMetadata(row: Row): MetadataCells {
    match (row.createdAt, row.trust, row.domains, row.source)
    case (None, None, None, None) => Absent
    case (Some(c), Some(t), Some(d), Some(s)) => Given(Metadata(c, t, d, s))
    case _ => Incomplete
  }

  function ReadRow(lib: Library, row: Row): Read<Entry> {
    var kind :- ReadKindCell(lib, row.kind);
    var subject :- Need(row.subject, MissingSubject);
    var pred :- Need(row.pred, MissingPredicate);
    var value :- Need(row.value, MissingValue);
    var tag :- ReadTag(lib, row.tag);
    var qualifiers :- ReadQualifiers(lib, row.qualifiers);
    var evidence :- ReadEvidence(lib, row.evidence);
    var more :- ReadEvidenceCells(lib, row);
    Good(Entry(Norm(lib, row.id), lib.kindLabel(kind), Claim(subject, pred, tag, value, qualifiers),
               if more == [] then evidence else evidence + more, ReadMetadata(row), Norm(lib, row.payload)))
  }

  function Reader(lib: Library): Row -> Read<Entry> {
    row => ReadRow(lib, row)
  }

  // ---------------------------------------------------------------------
  // The parser.
  // ---------------------------------------------------------------------

  datatype Parsed = Atoms(atoms: seq<Atom>) | BadRow(index: nat, why: Problem) | Disappeared(key: string)

  function Parse(lib: Library, rows: seq<Row>): Parsed {
    ScanTabulates(Reader(lib), rows);
    match Scan(Reader(lib), rows)
    case Stopped(i, why) => BadRow(i, why)
    case Going(t) => Atoms(CsvGroups.Atoms(t))
  }

  /** One row's evidence joins its group, each reference once. */
  method AddEvidence(present: seq<Evidence>, more: seq<Evidence>) returns (all: seq<Evidence>)
    ensures all == InsertAll(present, more)
  {
    all := present;
    for i := 0 to |more|
      invariant all == InsertAll(present, more[..i])
    {
      assert more[..i + 1][..i] == more[..i];
      if more[i] !in all { all := all + [more[i]]; }
    }
    assert more[..|more|] == more;
  }

  method MergeRow(g: Atom, e: Entry) returns (r: Read<Atom>)
    ensures r == Join(g, e)
  {
    if g.kind != e.kind { return Bad(TypeConflict); }
    var merged := g;
    if g.payload.Some? {
      if e.payload.Some? && g.payload != e.payload { return Bad(PayloadConflict); }
    } else {
      merged := merged.(payload := e.payload);
    }
    match e.metadata {
      case Absent =>
      case Incomplete => return Bad(IncompleteMetadata);
      case Given(m) =>
        if g.metadata.Some? {
          if g.metadata.value != m { return Bad(MetadataConflict); }
        } else {
          merged := merged.(metadata := Some(m));
        }
    }
    if e.claim !in merged.claims { merged := merged.(claims := merged.claims + [e.claim]); }
    var evidence := AddEvidence(g.evidence, e.evidence);
    return Good(merged.(evidence := evidence));
  }

  /** One round of the parser's loop, on the order and the map of groups. */
  method TakeRow(lib: Library, row: Row, index: nat, order: seq<string>, grouped: map<string, Atom>)
      returns (problem: Option<Problem>, order': seq<string>, grouped': map<string, Atom>)
    ensures ScanRow(Reader(lib), Table(order, grouped), row, index) ==
            if problem.Some? then Stopped(index, problem.value) else Going(Table(order', grouped'))
  {
    order', grouped' := order, grouped;
    var read := ReadRow(lib, row);
    if read.Bad? { return Some(read.why), order', grouped'; }
    var e := read.value;
    var key := RowKey(e, index);
    var g := NewGroup(e);
    if key in grouped { g := grouped[key]; } else { order' := order + [key]; }
    var merged := MergeRow(g, e);
    if merged.Bad? { return Some(merged.why), order', grouped'; }
    return None, order', grouped[key := merged.value];
  }

  method ParseCsvRows(lib: Library, rows: seq<Row>) returns (r: Parsed)
    ensures r == Parse(lib, rows) && !r.Disappeared?
  {
    var order: seq<string>, grouped: map<string, Atom> := [], map[];
    for i := 0 to |rows|
      invariant Scan(Reader(lib), rows[..i]) == Going(Table(order, grouped))
    {
      assert rows[..i + 1][..i] == rows[..i];
      var problem, order', grouped' := TakeRow(lib, rows[i], i, order, grouped);
      if problem.Some? {
        StoppedEarly(Reader(lib), rows, i + 1);
        return BadRow(i, problem.value);
      }
      order, grouped := order', grouped';
    }
    assert rows[..|rows|] == rows;
    ScanTabulates(Reader(lib), rows);
    FirstsContents(Keys(Entries(Reader(lib), rows)));
    r := Collect(order, grouped);
  }

  lemma {:induction false} StoppedEarly<R>(read: R -> Read<Entry>, rows: seq<R>, n: nat)
    requires n <= |rows| && Scan(read, rows[..n]).Stopped?
    ensures Scan(read, rows) == Scan(read, rows[..n])
  {
    if n == |rows| {
      assert rows[..n] == rows;
    } else {
      var init := rows[..|rows| - 1];
      assert init[..n] == rows[..n];
      StoppedEarly(read, init, n);
    }
  }

  /** The final loop takes each group out of the map; no group has disappeared. */
  method Collect(order: seq<string>, grouped: map<string, Atom>) returns (r: Parsed)
    requires Distinct(order) && Covers(Table(order, grouped))
    ensures r == Atoms(CsvGroups.Atoms(Table(order, grouped)))
  {
    var atoms: seq<Atom>, left := [], grouped;
    for i := 0 to |order|
      invariant atoms == CsvGroups.Atoms(Table(order, grouped))[..i]
      invariant forall j :: i <= j < |order| ==> order[j] in left && left[order[j]] == grouped[order[j]]
    {
      var key := order[i];
      if key !in left { return Disappeared(key); }
      atoms := atoms + [left[key]];
      left := left - {key};
    }
    return Atoms(atoms);
  }

  // ---------------------------------------------------------------------
  // The printer.
  // ---------------------------------------------------------------------

  function EvidenceCell(lib: Library, a: Atom): Option<string> {
    if a.evidence == [] then None else Some(lib.showEvidence(a.evidence))
  }

  /** An atom without claims gets a row without claim cells, which the parser refuses. */
  function BareRow(lib: Library, a: Atom): Row {
    var m := a.metadata;
    Row(a.id, Some(a.kind), None, None, None, None, None,
        if m.Some? then Some(m.value.createdAt) else None, if m.Some? then Some(m.value.trust) else None,
        if m.Some? then Some(m.value.domains) else None, if m.Some? then Some(m.value.source) else None,
        a.payload, EvidenceCell(lib, a), None, None, None, None, None)
  }

  function ClaimRow(lib: Library, a: Atom, c: Claim): Row {
    BareRow(lib, a).(subject := Some(c.subject), pred := Some(c.pred), tag := Some(lib.showByte(c.tag)),
                     value := Some(c.value),
                     qualifiers := if c.qualifiers.Some? then Some(lib.showQualifiers(c.qualifiers.value)) else None)
  }

  function RowsOf(lib: Library, a: Atom): seq<Row> {
    if a.claims == [] then [BareRow(lib, a)]
    else seq(|a.claims|, i requires 0 <= i < |a.claims| => ClaimRow(lib, a, a.claims[i]))
  }

  function Written(lib: Library, atoms: seq<Atom>): seq<Row> {
    if atoms == [] then [] else Written(lib, atoms[..|atoms| - 1]) + RowsOf(lib, atoms[|atoms| - 1])
  }

  /** One round of the printer's outer loop. */
  method WriteAtom(lib: Library, a: Atom) returns (rows: seq<Row>)
    ensures rows == RowsOf(lib, a)
  {
    if a.claims == [] { return [BareRow(lib, a)]; }
    rows := [];
    for j := 0 to |a.claims|
      invariant rows == RowsOf(lib, a)[..j]
    {
      rows := rows + [ClaimRow(lib, a, a.claims[j])];
    }
  }

  method WriteCsvAtoms(lib: Library, atoms: seq<Atom>) returns (rows: seq<Row>)
    ensures rows == Written(lib, atoms)
  {
    rows := [];
    for i := 0 to |atoms|
      invariant rows == Written(lib, atoms[..i])
    {
      assert atoms[..i + 1][..i] == atoms[..i];
      var more := WriteAtom(lib, atoms[i]);
      rows := rows + more;
    }
    assert atoms[..|atoms|] == atoms;
  }

  /** What the `csv` library does to text cells on the way: they come back trimmed, or empty if blank. */
  function Delivered(lib: Library, row: Row): Row {
    row.(id := Norm(lib, row.id), kind := Norm(lib, row.kind), tag := Norm(lib, row.tag),
         qualifiers := Norm(lib, row.qualifiers), payload := Norm(lib, row.payload),
         evidence := Norm(lib, row.evidence),
         evidenceAtom := Norm(lib, row.evidenceAtom), evidenceKind := Norm(lib, row.evidenceKind))
  }

  // ---------------------------------------------------------------------
  // Reading a written row.
  // ---------------------------------------------------------------------

  lemma NormTwice(lib: Library, s: Option<string>)
    requires Lawful(lib)
    ensures Norm(lib, Norm(lib, s)) == Norm(lib, s)
    ensures s.Some? && Clean(lib, s.value) ==> Norm(lib, s) == s
  {}

  /** The type cell is a label the parser knows, up to blanks and case. */
  predicate ReadableKind(lib: Library, a: Atom) {
    ReadKindCell(lib, Some(a.kind)).Good?
  }

  /** What the parser makes of the atom-level cells. */
  function Head(lib: Library, a: Atom, c: Claim): Entry
    requires ReadableKind(lib, a)
  {
    Entry(Norm(lib, a.id), lib.kindLabel(ReadKindCell(lib, Some(a.kind)).value), c, a.evidence,
          if a.metadata.Some? then Given(a.metadata.value) else Absent, Norm(lib, a.payload))
  }

  lemma CellsRead(lib: Library, a: Atom, c: Claim)
    requires Lawful(lib)
    ensures var row := ClaimRow(lib, a, c);
            && ReadEvidence(lib, Norm(lib, row.evidence)) == Good(a.evidence)
            && ReadTag(lib, Norm(lib, row.tag)) ==
               (if Claims.ObjTag.FromU8(c.tag).Some? then Good(c.tag) else Bad(BadTag))
            && ReadQualifiers(lib, Norm(lib, row.qualifiers)) == Good(c.qualifiers)
  {
    NormTwice(lib, EvidenceCell(lib, a));
    NormTwice(lib, Some(lib.showByte(c.tag)));
    if c.qualifiers.Some? { NormTwice(lib, Some(lib.showQualifiers(c.qualifiers.value))); }
  }

  lemma ClaimRowReads(lib: Library, a: Atom, c: Claim)
    requires Lawful(lib)
    ensures var r := ReadRow(lib, Delivered(lib, ClaimRow(lib, a, c)));
            && (r.Good? <==> ReadableKind(lib, a) && Claims.ObjTag.FromU8(c.tag).Some?)
            && (r.Good? ==> r.value == Head(lib, a, c))
  {
    NormTwice(lib, a.id);
    NormTwice(lib, Some(a.kind));
    NormTwice(lib, a.payload);
    CellsRead(lib, a, c);
  }

  lemma BareRowIsRefused(lib: Library, a: Atom)
    ensures ReadRow(lib, Delivered(lib, BareRow(lib, a))).Bad?
  {}

  // ---------------------------------------------------------------------
  // One atom.
  // ---------------------------------------------------------------------

  /** Reading a row after its way through the CSV text. */
  function Through(lib: Library): Row -> Read<Entry> {
    row => ReadRow(lib, Delivered(lib, row))
  }

  /** The labels the printer gives to the known types. */
  predicate KnownLabel(lib: Library, s: string) {
    lib.readKind(s).Some? && lib.kindLabel(lib.readKind(s).value) == s
  }

  /** The atoms that survive: all of it can be checked before writing. */
  predicate CanonicalAtom(lib: Library, a: Atom) {
    && Norm(lib, a.id) == a.id && Norm(lib, a.payload) == a.payload && KnownLabel(lib, a.kind)
    && a.claims != [] && Distinct(a.claims) && Distinct(a.evidence)
    && ValidTags(a.claims)
  }

  lemma KindSurvives(lib: Library, a: Atom)
    requires Lawful(lib)
    ensures KnownLabel(lib, a.kind) <==>
        ReadableKind(lib, a) && lib.kindLabel(ReadKindCell(lib, Some(a.kind)).value) == a.kind
  {}

  /** All tags are among the nine. */
  predicate ValidTags(claims: seq<Claim>) {
    forall c :: c in claims ==> Claims.ObjTag.FromU8(c.tag).Some?
  }

  lemma TagsOneByOne(claims: seq<Claim>)
    ensures ValidTags(claims) <==> forall i :: 0 <= i < |claims| ==> Claims.ObjTag.FromU8(claims[i].tag).Some?
  {}

  lemma ClaimRowsRead(lib: Library, a: Atom)
    requires Lawful(lib) && a.claims != []
    ensures var rows := RowsOf(lib, a);
            forall i :: 0 <= i < |rows| ==>
              && (Through(lib)(rows[i]).Good? <==> ReadableKind(lib, a) && Claims.ObjTag.FromU8(a.claims[i].tag).Some?)
              && (Through(lib)(rows[i]).Good? ==> Through(lib)(rows[i]).value == Head(lib, a, a.claims[i]))
  {
    forall i | 0 <= i < |a.claims|
      ensures var r := Through(lib)(RowsOf(lib, a)[i]);
              && (r.Good? <==> ReadableKind(lib, a) && Claims.ObjTag.FromU8(a.claims[i].tag).Some?)
              && (r.Good? ==> r.value == Head(lib, a, a.claims[i])) {
      ClaimRowReads(lib, a, a.claims[i]);
    }
  }

  lemma AtomRowsRead(lib: Library, a: Atom)
    requires Lawful(lib)
    ensures Readable(Through(lib), RowsOf(lib, a)) <==> a.claims != [] && ReadableKind(lib, a) && ValidTags(a.claims)
    ensures Readable(Through(lib), RowsOf(lib, a)) ==>
      EntriesOf(Through(lib), RowsOf(lib, a)) == Repeated(Head(lib, a, a.claims[0]), a.claims)
  {
    var rows := RowsOf(lib, a);
    if a.claims == [] {
      BareRowIsRefused(lib, a);
      assert !Through(lib)(rows[0]).Good?;
    } else {
      ClaimRowsRead(lib, a);
      TagsOneByOne(a.claims);
      if Readable(Through(lib), rows) { assert Through(lib)(rows[0]).Good?; }
    }
  }

  ghost predicate RowsYield(lib: Library, a: Atom) {
    Readable(Through(lib), RowsOf(lib, a)) && Group(EntriesOf(Through(lib), RowsOf(lib, a))) == Good(a)
  }

  /** The rows of an atom group to the atom exactly if it is canonical. */
  lemma AtomRoundTrip(lib: Library, a: Atom)
    requires Lawful(lib)
    ensures RowsOf(lib, a) != []
    ensures RowsYield(lib, a) <==> CanonicalAtom(lib, a)
  {
    AtomRowsRead(lib, a);
    KindSurvives(lib, a);
    if Readable(Through(lib), RowsOf(lib, a)) {
      var head := Head(lib, a, a.claims[0]);
      RepeatedGroups(head, a.claims);
      FirstsContents(a.claims);
      FirstsContents(a.evidence);
      if Distinct(a.claims) { FirstsOfDistinct(a.claims); }
      if Distinct(a.evidence) { FirstsOfDistinct(a.evidence); }
    }
  }

  // ---------------------------------------------------------------------
  // Several atoms.
  // ---------------------------------------------------------------------

  function IdOf(): Row -> string {
    (row: Row) => if row.id.Some? then row.id.value else ""
  }

  function DeliveredAll(lib: Library, rows: seq<Row>): seq<Row> {
    seq(|rows|, i requires 0 <= i < |rows| => Delivered(lib, rows[i]))
  }

  lemma DeliveredScan(lib: Library, rows: seq<Row>)
    ensures Scan(Reader(lib), DeliveredAll(lib, rows)) == Scan(Through(lib), rows)
  {
    var rows' := DeliveredAll(lib, rows);
    forall i | 0 <= i < |rows| ensures Reader(lib)(rows'[i]) == Through(lib)(rows[i]) {
      assert rows'[i] == Delivered(lib, rows[i]);
    }
    SameScan(Reader(lib), rows', Through(lib), rows);
  }

  ghost predicate CanonicalAtoms(lib: Library, atoms: seq<Atom>) {
    HaveIds(atoms) && Distinct(Ids(atoms)) && forall a :: a in atoms ==> CanonicalAtom(lib, a)
  }

  /** `rows` are the rows of the atoms, interleaved: each atom's rows are there in their order, and no others. */
  ghost predicate Interleaves(lib: Library, atoms: seq<Atom>, rows: seq<Row>)
    requires HaveIds(atoms)
  {
    && (forall i :: 0 <= i < |rows| ==> IdOf()(rows[i]) in Ids(atoms))
    && (forall a :: a in atoms ==> With(IdOf(), rows, a.id.value) == RowsOf(lib, a))
  }

  lemma InterleavedRowsAreIdentified(lib: Library, atoms: seq<Atom>, rows: seq<Row>)
    requires Lawful(lib) && HaveIds(atoms) && Interleaves(lib, atoms, rows)
    requires forall a :: a in atoms ==> Norm(lib, a.id) == a.id && Readable(Through(lib), RowsOf(lib, a))
    ensures Identified(Through(lib), IdOf(), rows)
  {
    forall i | 0 <= i < |rows|
      ensures Through(lib)(rows[i]).Good? && Through(lib)(rows[i]).value.id == Some(IdOf()(rows[i])) {
      WithContains(IdOf(), rows, i);
      var j :| 0 <= j < |atoms| && Ids(atoms)[j] == IdOf()(rows[i]);
      var a := atoms[j];
      assert a in atoms;
      AtomRowsRead(lib, a);
      var n :| 0 <= n < |RowsOf(lib, a)| && RowsOf(lib, a)[n] == rows[i];
      ClaimRowReads(lib, a, a.claims[n]);
    }
  }

  /**
   Any interleaving of the written rows that keeps each atom's own order parses to the same
   atoms, in the order of their first rows.
   */
  lemma InterleavedRowsParse(lib: Library, atoms: seq<Atom>, rows: seq<Row>)
    requires Lawful(lib) && CanonicalAtoms(lib, atoms) && Interleaves(lib, atoms, rows)
    ensures var r := Parse(lib, DeliveredAll(lib, rows));
            && r.Atoms? && HaveIds(r.atoms)
            && Ids(r.atoms) == Firsts(Mapped(IdOf(), rows))
            && (forall a :: a in r.atoms <==> a in atoms)
  {
    forall a | a in atoms ensures RowsYield(lib, a) && RowsOf(lib, a) != [] { AtomRoundTrip(lib, a); }
    InterleavedRowsAreIdentified(lib, atoms, rows);
    forall a | a in atoms ensures Yields(Through(lib), IdOf(), rows, a) {}
    GroupedByFirstRow(Through(lib), IdOf(), rows, atoms);
    DeliveredScan(lib, rows);
  }

  lemma RowIds(lib: Library, a: Atom)
    requires a.id.Some?
    ensures |RowsOf(lib, a)| > 0
    ensures forall i :: 0 <= i < |RowsOf(lib, a)| ==> IdOf()(RowsOf(lib, a)[i]) == a.id.value
  {}

  lemma FirstRowsSnoc(before: seq<Row>, more: seq<Row>, ids: seq<string>, id: string)
    requires Firsts(Mapped(IdOf(), before)) == ids && id !in ids
    requires more != [] && forall i :: 0 <= i < |more| ==> IdOf()(more[i]) == id
    ensures Firsts(Mapped(IdOf(), before + more)) == ids + [id]
  {
    assert Mapped(IdOf(), before + more) == Mapped(IdOf(), before) + Mapped(IdOf(), more);
    FirstsMember(Mapped(IdOf(), before), id);
    FirstsUniform(Mapped(IdOf(), before), Mapped(IdOf(), more), id);
  }

  /** The printed rows are one such interleaving, with the atoms in their own order. */
  lemma {:induction false} WrittenInterleaves(lib: Library, atoms: seq<Atom>)
    requires HaveIds(atoms) && Distinct(Ids(atoms))
    ensures Interleaves(lib, atoms, Written(lib, atoms))
    ensures Firsts(Mapped(IdOf(), Written(lib, atoms))) == Ids(atoms)
  {
    if atoms == [] {
    } else {
      var init, last := atoms[..|atoms| - 1], atoms[|atoms| - 1];
      assert atoms == init + [last];
      assert HaveIds(init);
      assert Ids(atoms) == Ids(init) + [last.id.value];
      DistinctInit(Ids(init), last.id.value);
      WrittenInterleaves(lib, init);
      RowIds(lib, last);
      WrittenSnocInterleaves(lib, init, last, Written(lib, init));
      FirstRowsSnoc(Written(lib, init), RowsOf(lib, last), Ids(init), last.id.value);
    }
  }

  lemma WrittenSnocInterleaves(lib: Library, init: seq<Atom>, last: Atom, before: seq<Row>)
    requires HaveIds(init) && last.id.Some? && last.id.value !in Ids(init) && Interleaves(lib, init, before)
    ensures HaveIds(init + [last]) && Interleaves(lib, init + [last], before + RowsOf(lib, last))
  {
    var id, more, atoms := last.id.value, RowsOf(lib, last), init + [last];
    RowIds(lib, last);
    assert Ids(atoms) == Ids(init) + [id];
    forall a | a in atoms ensures With(IdOf(), before + more, a.id.value) == RowsOf(lib, a) {
      WithAppend(IdOf(), before, more, a.id.value);
      WithUniform(IdOf(), more, id, a.id.value);
      if a in init {
        var j :| 0 <= j < |init| && init[j] == a;
        assert Ids(init)[j] == a.id.value;
      } else {
        AbsentIdHasNoRows(before, id);
      }
    }
  }

  lemma {:induction false} AbsentIdHasNoRows(rows: seq<Row>, id: string)
    requires forall i :: 0 <= i < |rows| ==> IdOf()(rows[i]) != id
    ensures With(IdOf(), rows, id) == []
  {
    if rows == [] {
    } else {
      AbsentIdHasNoRows(rows[..|rows| - 1], id);
    }
  }

  // ---------------------------------------------------------------------
  // The round trip.
  // ---------------------------------------------------------------------

  /** The blocks of rows of the atoms. */
  function BlocksOf(lib: Library, atoms: seq<Atom>): seq<seq<Row>> {
    seq(|atoms|, j requires 0 <= j < |atoms| => RowsOf(lib, atoms[j]))
  }

  lemma {:induction false} WrittenIsJoined(lib: Library, atoms: seq<Atom>)
    ensures Written(lib, atoms) == Joined(BlocksOf(lib, atoms))
  {
    if atoms == [] {
    } else {
      WrittenIsJoined(lib, atoms[..|atoms| - 1]);
      assert BlocksOf(lib, atoms)[..|atoms| - 1] == BlocksOf(lib, atoms[..|atoms| - 1]);
    }
  }

  /** How many rows are written before atom `j`. */
  function RowsBefore(atoms: seq<Atom>, j: nat): nat
    requires j <= |atoms|
  {
    if j == 0 then 0
    else RowsBefore(atoms, j - 1) + (if atoms[j - 1].claims == [] then 1 else |atoms[j - 1].claims|)
  }

  lemma {:induction false} RowsBeforeIsStart(lib: Library, atoms: seq<Atom>, j: nat)
    requires j <= |atoms|
    ensures RowsBefore(atoms, j) == Start(BlocksOf(lib, atoms), j)
  {
    if j == 0 {
      assert BlocksOf(lib, atoms)[..0] == [];
    } else {
      RowsBeforeIsStart(lib, atoms, j - 1);
      StartNext(BlocksOf(lib, atoms), j - 1);
    }
  }

  /** An atom's id, or the key its first row gets by position. */
  function KeysOf(atoms: seq<Atom>): seq<string> {
    seq(|atoms|, j requires 0 <= j < |atoms| => BlockKey(atoms[j].id, RowsBefore(atoms, j)))
  }

  /** What a caller can check before writing: each atom canonical, no shared keys, one claim where there is no id. */
  ghost predicate Restorable(lib: Library, atoms: seq<Atom>) {
    && (forall a :: a in atoms ==> CanonicalAtom(lib, a))
    && (forall a :: a in atoms && a.id.None? ==> |a.claims| == 1)
    && Distinct(KeysOf(atoms))
  }

  /** With ids, that is what the interleaving theorem asks for. */
  lemma CanonicalAtomsAreRestorable(lib: Library, atoms: seq<Atom>)
    requires HaveIds(atoms)
    ensures CanonicalAtoms(lib, atoms) <==> Restorable(lib, atoms)
  {
    assert KeysOf(atoms) == Ids(atoms);
    forall a | a in atoms ensures a.id.Some? {
      var j :| 0 <= j < |atoms| && atoms[j] == a;
    }
  }

  /** The keyed blocks of readable atoms with clean ids. */
  ghost predicate Prepared(lib: Library, atoms: seq<Atom>) {
    forall a :: a in atoms ==> Norm(lib, a.id) == a.id && Readable(Through(lib), RowsOf(lib, a))
  }

  lemma PreparedIsReadable(lib: Library, atoms: seq<Atom>)
    requires Prepared(lib, atoms)
    ensures AllReadable(Through(lib), BlocksOf(lib, atoms))
  {
    forall j | 0 <= j < |atoms| ensures Readable(Through(lib), BlocksOf(lib, atoms)[j]) {
      assert atoms[j] in atoms;
    }
  }

  ghost function KeyedOf(lib: Library, atoms: seq<Atom>): seq<seq<Keyed>>
    requires Prepared(lib, atoms)
  {
    PreparedIsReadable(lib, atoms);
    KeyedBlocks(Through(lib), BlocksOf(lib, atoms))
  }

  lemma AtomBlock(lib: Library, a: Atom, start: nat)
    requires Lawful(lib) && Norm(lib, a.id) == a.id && Readable(Through(lib), RowsOf(lib, a))
    ensures var b := KeyedBlock(Through(lib), RowsOf(lib, a), start);
            && b != [] && |b| == |a.claims| && PrintedBlock(b, a.id, start)
            && EntriesIn(b) == EntriesOf(Through(lib), RowsOf(lib, a))
  {
    AtomRowsRead(lib, a);
    RepeatedBlock(Through(lib), RowsOf(lib, a), Head(lib, a, a.claims[0]), a.claims, start);
  }

  lemma RepeatedBlock(read: Row -> Read<Entry>, rows: seq<Row>, head: Entry, claims: seq<Claim>, start: nat)
    requires Readable(read, rows) && EntriesOf(read, rows) == Repeated(head, claims)
    ensures var b := KeyedBlock(read, rows, start);
            |b| == |claims| && PrintedBlock(b, head.id, start) && EntriesIn(b) == EntriesOf(read, rows)
  {
    var b := KeyedBlock(read, rows, start);
    assert |rows| == |claims|;
    forall i | 0 <= i < |rows| ensures b[i].entry.id == head.id && b[i].key == BlockKey(head.id, start + i) {
      assert EntriesOf(read, rows)[i] == head.(claim := claims[i]);
    }
  }

  lemma KeyedFacts(lib: Library, atoms: seq<Atom>)
    requires Lawful(lib) && Prepared(lib, atoms)
    ensures var bs := KeyedOf(lib, atoms);
            && Printed(bs, AtomIds(atoms))
            && (forall j :: 0 <= j < |bs| ==> bs[j] != [] && |bs[j]| == |atoms[j].claims|)
            && (forall j :: 0 <= j < |bs| ==> EntriesIn(bs[j]) == EntriesOf(Through(lib), RowsOf(lib, atoms[j])))
            && (forall j :: 0 <= j < |bs| ==> Start(bs, j) == RowsBefore(atoms, j))
  {
    var bs, parts := KeyedOf(lib, atoms), BlocksOf(lib, atoms);
    forall j | 0 <= j < |bs|
      ensures Start(bs, j) == Start(parts, j) == RowsBefore(atoms, j)
      ensures bs[j] != [] && |bs[j]| == |atoms[j].claims| && PrintedBlock(bs[j], atoms[j].id, Start(bs, j))
      ensures EntriesIn(bs[j]) == EntriesOf(Through(lib), RowsOf(lib, atoms[j])) {
      assert atoms[j] in atoms;
      SameStarts(parts, bs, j);
      RowsBeforeIsStart(lib, atoms, j);
      AtomBlock(lib, atoms[j], Start(parts, j));
    }
  }

  lemma WrittenEntries(lib: Library, atoms: seq<Atom>)
    requires Prepared(lib, atoms)
    ensures Readable(Through(lib), Written(lib, atoms))
    ensures Entries(Through(lib), Written(lib, atoms)) == Joined(KeyedOf(lib, atoms))
  {
    PreparedIsReadable(lib, atoms);
    WrittenIsJoined(lib, atoms);
    EntriesInBlocks(Through(lib), BlocksOf(lib, atoms));
  }

  /** Keys apart for the blocks is keys apart for the atoms. */
  lemma KeysAgree(lib: Library, atoms: seq<Atom>)
    requires Lawful(lib) && Prepared(lib, atoms)
    ensures KeysApart(KeyedOf(lib, atoms), AtomIds(atoms)) <==>
            Distinct(KeysOf(atoms)) && forall a :: a in atoms && a.id.None? ==> |a.claims| == 1
  {
    KeyedFacts(lib, atoms);
    assert BlockKeys(KeyedOf(lib, atoms), AtomIds(atoms)) == KeysOf(atoms);
    forall a | a in atoms ensures exists j :: 0 <= j < |atoms| && atoms[j] == a {}
  }

  lemma BlockYields(lib: Library, a: Atom, b: seq<Keyed>)
    requires Lawful(lib) && b != [] && Readable(Through(lib), RowsOf(lib, a))
    requires EntriesIn(b) == EntriesOf(Through(lib), RowsOf(lib, a))
    ensures Group(EntriesIn(b)) == Good(a) <==> CanonicalAtom(lib, a)
  {
    AtomRoundTrip(lib, a);
  }

  lemma YieldsForEach(lib: Library, atoms: seq<Atom>, bs: seq<seq<Keyed>>)
    requires |bs| == |atoms| && forall j :: 0 <= j < |bs| ==> bs[j] != []
    requires forall j :: 0 <= j < |bs| ==> (Group(EntriesIn(bs[j])) == Good(atoms[j]) <==> CanonicalAtom(lib, atoms[j]))
    ensures BlocksYield(bs, atoms) <==> forall a :: a in atoms ==> CanonicalAtom(lib, a)
  {
    if BlocksYield(bs, atoms) {
      forall a | a in atoms ensures CanonicalAtom(lib, a) {
        var j :| 0 <= j < |atoms| && atoms[j] == a;
      }
    }
    if forall a :: a in atoms ==> CanonicalAtom(lib, a) {
      forall j | 0 <= j < |bs| ensures Group(EntriesIn(bs[j])) == Good(atoms[j]) {
        assert atoms[j] in atoms;
      }
    }
  }

  lemma YieldsAgree(lib: Library, atoms: seq<Atom>)
    requires Lawful(lib) && Prepared(lib, atoms)
    ensures BlocksYield(KeyedOf(lib, atoms), atoms) <==> forall a :: a in atoms ==> CanonicalAtom(lib, a)
  {
    KeyedFacts(lib, atoms);
    var bs := KeyedOf(lib, atoms);
    forall j | 0 <= j < |bs| ensures Group(EntriesIn(bs[j])) == Good(atoms[j]) <==> CanonicalAtom(lib, atoms[j]) {
      assert atoms[j] in atoms;
      BlockYields(lib, atoms[j], bs[j]);
    }
    YieldsForEach(lib, atoms, bs);
  }

  lemma RestorableIsPrepared(lib: Library, atoms: seq<Atom>)
    requires Lawful(lib) && Restorable(lib, atoms)
    ensures Prepared(lib, atoms)
  {
    forall a | a in atoms ensures Norm(lib, a.id) == a.id && Readable(Through(lib), RowsOf(lib, a)) {
      AtomRoundTrip(lib, a);
    }
  }

  lemma RestorableAtomsRoundTrip(lib: Library, atoms: seq<Atom>)
    requires Lawful(lib) && Restorable(lib, atoms)
    ensures Parse(lib, DeliveredAll(lib, Written(lib, atoms))) == Parsed.Atoms(atoms)
  {
    RestorableIsPrepared(lib, atoms);
    KeyedFacts(lib, atoms);
    KeysAgree(lib, atoms);
    YieldsAgree(lib, atoms);
    WrittenEntries(lib, atoms);
    ApartBlocksAllGroup(KeyedOf(lib, atoms), atoms);
    DeliveredScan(lib, Written(lib, atoms));
    ScanTabulates(Through(lib), Written(lib, atoms));
    ApartBlocksComeBack(KeyedOf(lib, atoms), atoms, Scan(Through(lib), Written(lib, atoms)).table);
  }

  /** The ids of parsed atoms are trimmed. */
  lemma ScannedIdIsClean(lib: Library, rows: seq<Row>, k: string)
    requires Lawful(lib) && Readable(Through(lib), rows) && Groups(Entries(Through(lib), rows), k)
    ensures var id := Group(Rows(Entries(Through(lib), rows), k)).value.id; Norm(lib, id) == id
  {
    var part := Rows(Entries(Through(lib), rows), k);
    GroupKeepsId(part);
    assert part[0] in part;
    RowsComeFromRows(Through(lib), rows, k, part[0]);
    var i :| 0 <= i < |rows| && Through(lib)(rows[i]) == Good(part[0]);
    ReadIdIsNormal(lib, Delivered(lib, rows[i]));
    NormTwice(lib, Delivered(lib, rows[i]).id);
  }

  lemma ReadIdIsNormal(lib: Library, row: Row)
    ensures ReadRow(lib, row).Good? ==> ReadRow(lib, row).value.id == Norm(lib, row.id)
  {}

  lemma ScannedIsPrepared(lib: Library, atoms: seq<Atom>, t: Table)
    requires Lawful(lib) && Readable(Through(lib), Written(lib, atoms))
    requires Describes(t, Entries(Through(lib), Written(lib, atoms))) && Covers(t) && CsvGroups.Atoms(t) == atoms
    ensures Prepared(lib, atoms)
  {
    var rows := Written(lib, atoms);
    WrittenIsJoined(lib, atoms);
    ReadableParts(Through(lib), BlocksOf(lib, atoms));
    forall a | a in atoms ensures Norm(lib, a.id) == a.id && Readable(Through(lib), RowsOf(lib, a)) {
      var j :| 0 <= j < |atoms| && atoms[j] == a;
      assert Readable(Through(lib), BlocksOf(lib, atoms)[j]);
      FirstsMember(Keys(Entries(Through(lib), rows)), t.order[j]);
      assert Holds(t, Entries(Through(lib), rows), t.order[j]);
      ScannedIdIsClean(lib, rows, t.order[j]);
    }
  }

  lemma ScannedComesBack(bs: seq<seq<Keyed>>, atoms: seq<Atom>, t: Table)
    requires Describes(t, Joined(bs)) && Covers(t) && CsvGroups.Atoms(t) == atoms && |bs| == |atoms|
    requires forall j :: 0 <= j < |bs| ==> bs[j] != [] && |bs[j]| == |atoms[j].claims|
    ensures ComesBack(bs, atoms, t)
  {
    forall j | 0 <= j < |bs| ensures Holds(t, Joined(bs), t.order[j]) && t.groups[t.order[j]] == atoms[j] {
      FirstsMember(Keys(Joined(bs)), t.order[j]);
    }
  }

  lemma BackAndApartYields(bs: seq<seq<Keyed>>, atoms: seq<Atom>, t: Table)
    requires Printed(bs, AtomIds(atoms)) && KeysApart(bs, AtomIds(atoms)) && ComesBack(bs, atoms, t)
    ensures BlocksYield(bs, atoms)
  {
    BlocksApart(bs, AtomIds(atoms));
    forall j | 0 <= j < |bs| ensures Group(EntriesIn(bs[j])) == Good(atoms[j]) {
      assert Holds(t, Joined(bs), t.order[j]);
    }
  }

  lemma RoundTripMeansRestorable(lib: Library, atoms: seq<Atom>)
    requires Lawful(lib) && Parse(lib, DeliveredAll(lib, Written(lib, atoms))) == Parsed.Atoms(atoms)
    ensures Restorable(lib, atoms)
  {
    DeliveredScan(lib, Written(lib, atoms));
    ScanTabulates(Through(lib), Written(lib, atoms));
    var t := Scan(Through(lib), Written(lib, atoms)).table;
    ScannedIsPrepared(lib, atoms, t);
    KeyedFacts(lib, atoms);
    WrittenEntries(lib, atoms);
    var bs := KeyedOf(lib, atoms);
    ScannedComesBack(bs, atoms, t);
    ReturnedKeysAreApart(bs, atoms, t);
    BackAndApartYields(bs, atoms, t);
    KeysAgree(lib, atoms);
    YieldsAgree(lib, atoms);
  }

  /**
   Writing atoms and parsing the rows gives them back, in order, exactly if every atom is
   canonical, no two share a key, and each atom without id has one claim.
   */
  lemma CsvRoundTripIff(lib: Library, atoms: seq<Atom>)
    requires Lawful(lib)
    ensures Parse(lib, DeliveredAll(lib, Written(lib, atoms))) == Parsed.Atoms(atoms) <==> Restorable(lib, atoms)
  {
    if Restorable(lib, atoms) {
      RestorableAtomsRoundTrip(lib, atoms);
    }
    if Parse(lib, DeliveredAll(lib, Written(lib, atoms))) == Parsed.Atoms(atoms) {
      RoundTripMeansRestorable(lib, atoms);
    }
  }
}
