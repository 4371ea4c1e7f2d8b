/**
 The CSV rows cell by cell: what a row says and why it is refused, what the rows of a group
 amount to, and what the printer puts into each cell.
 */
module CsvCells {
  import opened Bytes
  import opened Results
  import opened FirstSeen
  import opened CsvGroups
  import opened CsvAtoms
  import Decimal

  // ---------------------------------------------------------------------
  // One row.
  // ---------------------------------------------------------------------

  /** Nothing but blanks stands in the cell. */
  predicate Blank(lib: Library, cell: Option<string>) {
    cell.None? || lib.trim(cell.value) == ""
  }

  /** The text of a cell that is not blank. */
  function Text(lib: Library, cell: Option<string>): string
    requires !Blank(lib, cell)
  {
    lib.trim(cell.value)
  }

  function TextIfAny(lib: Library, cell: Option<string>): Option<string> {
    if Blank(lib, cell) then None else Some(Text(lib, cell))
  }

  /** The name of an evidence section, if the cell gives none. */
  function EvidenceName(row: Row): string {
    match row.evidenceKind case None => "EVIDENCE" case Some(name) => name
  }

  /** The tag cell holds a number of a tag, or else a name of one. */
  predicate ReadableTag(lib: Library, cell: Option<string>) {
    Blank(lib, cell) ||
    match lib.readByte(Text(lib, cell)) case Some(n) => n <= 8 case None => lib.tagName(Text(lib, cell)).Some?
  }

  /** What is wrong with a row. */
  predicate Faulty(lib: Library, row: Row, why: Problem) {
    match why
    case MissingType => Blank(lib, row.kind)
    case UnknownType => !Blank(lib, row.kind) && lib.readKind(Text(lib, row.kind)).None?
    case MissingSubject => row.subject.None?
    case MissingPredicate => row.pred.None?
    case MissingValue => row.value.None?
    case BadTag => !ReadableTag(lib, row.tag)
    case BadQualifiers => !Blank(lib, row.qualifiers) && lib.readQualifiers(Text(lib, row.qualifiers)).None?
    case BadEvidence => !Blank(lib, row.evidence) && lib.readEvidence(Text(lib, row.evidence)).None?
    case BadSectionKind => !Blank(lib, row.evidenceAtom) && lib.sectionLabel(EvidenceName(row)).None?
    case MissingOffset => !Blank(lib, row.evidenceAtom) && row.evidenceOffset.None?
    case MissingLength => !Blank(lib, row.evidenceAtom) && row.evidenceLength.None?
    case MissingTrust => !Blank(lib, row.evidenceAtom) && row.evidenceTrust.None?
    case _ => false
  }

  /** The order in which the problems of a row are looked for. */
  function Rank(why: Problem): nat {
    match why
    case MissingType => 0 case UnknownType => 1 case MissingSubject => 2 case MissingPredicate => 3
    case MissingValue => 4 case BadTag => 5 case BadQualifiers => 6 case BadEvidence => 7
    case BadSectionKind => 8 case MissingOffset => 9 case MissingLength => 10 case MissingTrust => 11
    case _ => 12
  }

  ghost predicate FirstProblem(lib: Library, row: Row, why: Problem) {
    Faulty(lib, row, why) && forall other :: Rank(other) < Rank(why) ==> !Faulty(lib, row, other)
  }

  /** The claim that a row states: a blank tag stands for U64, number 3. */
  predicate ClaimStated(lib: Library, row: Row, c: Claim) {
    && row.subject == Some(c.subject) && row.pred == Some(c.pred) && row.value == Some(c.value)
    && (Blank(lib, row.tag) ==> c.tag == 3)
    && (!Blank(lib, row.tag) ==>
          match lib.readByte(Text(lib, row.tag))
          case Some(n) => c.tag == n
          case None => lib.tagName(Text(lib, row.tag)).Some? && c.tag == lib.tagName(Text(lib, row.tag)).value.ToU8())
    && (if Blank(lib, row.qualifiers) then c.qualifiers == None
        else c.qualifiers.Some? && c.qualifiers == lib.readQualifiers(Text(lib, row.qualifiers)))
  }

  /** First the references of the JSON cell, then the one of the five separate cells. */
  predicate EvidenceStated(lib: Library, row: Row, evidence: seq<Evidence>) {
    var table := if Blank(lib, row.evidence) then Some([]) else lib.readEvidence(Text(lib, row.evidence));
    table.Some? &&
    if Blank(lib, row.evidenceAtom) then evidence == table.value
    else
      && lib.sectionLabel(EvidenceName(row)).Some? && row.evidenceOffset.Some? && row.evidenceLength.Some?
      && row.evidenceTrust.Some?
      && evidence == table.value + [
           Evidence(Text(lib, row.evidenceAtom), lib.sectionLabel(EvidenceName(row)).value,
                    row.evidenceOffset.value, row.evidenceLength.value, row.evidenceTrust.value)]
  }

  predicate MetadataStated(row: Row, m: MetadataCells) {
    var given := [row.createdAt.Some?, row.trust.Some?, row.domains.Some?, row.source.Some?];
    if false !in given then
      m == Given(Metadata(row.createdAt.value, row.trust.value, row.domains.value, row.source.value))
    else m == if true in given then Incomplete else Absent
  }

  predicate Stated(lib: Library, row: Row, e: Entry) {
    && !Blank(lib, row.kind) && lib.readKind(Text(lib, row.kind)).Some?
    && e.kind == lib.kindLabel(lib.readKind(Text(lib, row.kind)).value)
    && ClaimStated(lib, row, e.claim) && EvidenceStated(lib, row, e.evidence) && MetadataStated(row, e.metadata)
    && e.id == TextIfAny(lib, row.id) && e.payload == TextIfAny(lib, row.payload)
  }

  lemma TagMeans(lib: Library, cell: Option<string>)
    ensures ReadTag(lib, cell).Bad? ==> ReadTag(lib, cell) == Bad(BadTag) && !ReadableTag(lib, cell)
    ensures ReadTag(lib, cell).Good? ==> ReadableTag(lib, cell)
    ensures ReadTag(lib, cell).Good? && Blank(lib, cell) ==> ReadTag(lib, cell).value == 3
    ensures ReadTag(lib, cell).Good? && !Blank(lib, cell) ==>
      match lib.readByte(Text(lib, cell))
      case Some(n) => ReadTag(lib, cell).value == n
      case None => ReadTag(lib, cell).value == lib.tagName(Text(lib, cell)).value.ToU8()
  {}

  lemma KindMeans(lib: Library, row: Row)
    ensures var r := ReadKindCell(lib, row.kind);
      && (r.Bad? ==> Faulty(lib, row, r.why))
      && (r.Bad? ==> r.why == MissingType || (r.why == UnknownType && !Faulty(lib, row, MissingType)))
      && (r.Good? ==> !Faulty(lib, row, MissingType) && !Faulty(lib, row, UnknownType)
                      && r.value == lib.readKind(Text(lib, row.kind)).value)
  {}

  lemma QualifiersMean(lib: Library, row: Row)
    ensures var r := ReadQualifiers(lib, row.qualifiers);
      && (r.Bad? ==> r.why == BadQualifiers) && (r.Bad? <==> Faulty(lib, row, BadQualifiers))
      && (r.Good? ==> if Blank(lib, row.qualifiers) then r.value == None
                      else r.value.Some? && r.value == lib.readQualifiers(Text(lib, row.qualifiers)))
  {}

  lemma EvidenceMeans(lib: Library, row: Row)
    ensures var r := ReadEvidence(lib, row.evidence);
      && (r.Bad? ==> r.why == BadEvidence) && (r.Bad? <==> Faulty(lib, row, BadEvidence))
      && (r.Good? ==> if Blank(lib, row.evidence) then r.value == []
                      else lib.readEvidence(Text(lib, row.evidence)) == Some(r.value))
  {}

  predicate EvidenceProblem(why: Problem) {
    8 <= Rank(why) <= 11
  }

  lemma EvidenceCellsMean(lib: Library, row: Row)
    ensures var r := ReadEvidenceCells(lib, row);
      && (r.Bad? ==> EvidenceProblem(r.why) && Faulty(lib, row, r.why))
      && (r.Bad? ==> forall other :: 8 <= Rank(other) < Rank(r.why) ==> !Faulty(lib, row, other))
      && (r.Good? ==> forall other :: EvidenceProblem(other) ==> !Faulty(lib, row, other))
      && (r.Good? ==>
            if Blank(lib, row.evidenceAtom) then r.value == []
            else r.value == [Evidence(Text(lib, row.evidenceAtom), lib.sectionLabel(EvidenceName(row)).value,
                                      row.evidenceOffset.value, row.evidenceLength.value, row.evidenceTrust.value)])
  {}

  lemma MetadataMeans(row: Row)
    ensures MetadataStated(row, ReadMetadata(row))
  {}

  lemma RowIsStated(lib: Library, row: Row)
    requires ReadRow(lib, row).Good?
    ensures Stated(lib, row, ReadRow(lib, row).value)
  {
    TagMeans(lib, row.tag);
    KindMeans(lib, row);
    QualifiersMean(lib, row);
    EvidenceMeans(lib, row);
    EvidenceCellsMean(lib, row);
    MetadataMeans(row);
  }

  lemma FaultsOfGoodRow(lib: Library, row: Row, why: Problem)
    requires ReadRow(lib, row).Good?
    ensures !Faulty(lib, row, why)
  {
    TagMeans(lib, row.tag);
    KindMeans(lib, row);
    QualifiersMean(lib, row);
    EvidenceMeans(lib, row);
    EvidenceCellsMean(lib, row);
  }

  lemma FirstOfBadRow(lib: Library, row: Row, other: Problem)
    requires ReadRow(lib, row).Bad?
    ensures Faulty(lib, row, ReadRow(lib, row).why)
    ensures Rank(other) < Rank(ReadRow(lib, row).why) ==> !Faulty(lib, row, other)
  {
    TagMeans(lib, row.tag);
    KindMeans(lib, row);
    QualifiersMean(lib, row);
    EvidenceMeans(lib, row);
    EvidenceCellsMean(lib, row);
  }

  /** A row is refused for its first problem; a row without problems says what its cells state. */
  lemma RowMeans(lib: Library, row: Row)
    ensures ReadRow(lib, row).Good? ==> Stated(lib, row, ReadRow(lib, row).value)
    ensures ReadRow(lib, row).Good? ==> forall why :: !Faulty(lib, row, why)
    ensures ReadRow(lib, row).Bad? ==> FirstProblem(lib, row, ReadRow(lib, row).why)
  {
    if ReadRow(lib, row).Good? {
      RowIsStated(lib, row);
      forall why ensures !Faulty(lib, row, why) { FaultsOfGoodRow(lib, row, why); }
    } else {
      forall other ensures Rank(other) < Rank(ReadRow(lib, row).why) ==> !Faulty(lib, row, other) {
        FirstOfBadRow(lib, row, other);
      }
      FirstOfBadRow(lib, row, MissingType);
    }
  }

  // ---------------------------------------------------------------------
  // One group.
  // ---------------------------------------------------------------------

  function AllClaims(es: seq<Entry>): seq<Claim> {
    seq(|es|, i requires 0 <= i < |es| => es[i].claim)
  }

  function AllEvidence(es: seq<Entry>): seq<Evidence> {
    if es == [] then [] else AllEvidence(es[..|es| - 1]) + es[|es| - 1].evidence
  }

  predicate PayloadAgrees(es: seq<Entry>, p: Option<string>) {
    && (forall e :: e in es && e.payload.Some? ==> e.payload == p)
    && (p.Some? ==> exists e :: e in es && e.payload == p)
  }

  predicate MetadataAgrees(es: seq<Entry>, m: Option<Metadata>) {
    && (forall e :: e in es ==> e.metadata == Absent || (m.Some? && e.metadata == Given(m.value)))
    && (m.Some? ==> exists e :: e in es && e.metadata == Given(m.value))
  }

  /** The atom that rows amount to: what they all say, and each claim and reference once, as first seen. */
  predicate Amounts(es: seq<Entry>, g: Atom) {
    && (forall e :: e in es ==> e.kind == g.kind)
    && PayloadAgrees(es, g.payload) && MetadataAgrees(es, g.metadata)
    && g.claims == Firsts(AllClaims(es)) && g.evidence == Firsts(AllEvidence(es))
  }

  /** Two rows that no atom can hold together, or one that none can hold. */
  predicate Clash(a: Entry, b: Entry) {
    || a.kind != b.kind || a.metadata == Incomplete
    || (a.payload.Some? && b.payload.Some? && a.payload != b.payload)
    || (a.metadata.Given? && b.metadata.Given? && a.metadata != b.metadata)
  }

  lemma {:induction false} FirstsInsertAll<T>(s: seq<T>, more: seq<T>)
    ensures InsertAll(Firsts(s), more) == Firsts(s + more)
  {
    if more == [] {
      assert s + more == s;
    } else {
      var init, last := more[..|more| - 1], more[|more| - 1];
      FirstsInsertAll(s, init);
      FirstsSnoc(s + init, last);
      assert s + more == s + init + [last];
    }
  }

  lemma JoinClashes(es: seq<Entry>, g: Atom, e: Entry)
    requires Amounts(es, g) && (es == [] ==> g.kind == e.kind) && Join(g, e).Bad?
    ensures exists a :: a in es + [e] && (Clash(a, e) || Clash(e, a))
  {
    assert (es + [e])[|es|] == e;
    if g.kind != e.kind {
      assert es[0] in es + [e] && Clash(es[0], e);
    } else if g.payload.Some? && e.payload.Some? && g.payload != e.payload {
      var a :| a in es && a.payload == g.payload;
      assert a in es + [e] && Clash(a, e);
    } else if e.metadata == Incomplete {
      assert e in es + [e] && Clash(e, e);
    } else {
      var a :| a in es && a.metadata == Given(g.metadata.value);
      assert a in es + [e] && Clash(a, e);
    }
  }

  /** A row that does not clash joins, and then the group amounts to one row more. */
  lemma JoinMeans(es: seq<Entry>, g: Atom, e: Entry)
    requires Amounts(es, g) && (es == [] ==> g.kind == e.kind)
    ensures Join(g, e).Good? ==> Amounts(es + [e], Join(g, e).value) && Join(g, e).value.id == g.id
    ensures Join(g, e).Bad? ==> exists a :: a in es + [e] && (Clash(a, e) || Clash(e, a))
  {
    assert (es + [e])[..|es|] == es && (es + [e])[|es|] == e;
    if Join(g, e).Bad? {
      JoinClashes(es, g, e);
    } else {
      AgreementStays(es, g, e);
      assert AllClaims(es + [e]) == AllClaims(es) + [e.claim];
      FirstsSnoc(AllClaims(es), e.claim);
      FirstsInsertAll(AllEvidence(es), e.evidence);
    }
  }

  lemma AgreementStays(es: seq<Entry>, g: Atom, e: Entry)
    requires PayloadAgrees(es, g.payload) && MetadataAgrees(es, g.metadata) && Join(g, e).Good?
    ensures var j := Join(g, e).value; PayloadAgrees(es + [e], j.payload) && MetadataAgrees(es + [e], j.metadata)
  {
    assert (es + [e])[|es|] == e;
    forall a ensures a in es + [e] <==> a in es || a == e {}
  }

  lemma {:induction false} GroupMeans(es: seq<Entry>)
    requires es != []
    ensures Group(es).Good? ==> Amounts(es, Group(es).value) && Group(es).value.id == es[0].id
    ensures Group(es).Bad? ==> exists a, b :: a in es && b in es && Clash(a, b)
  {
    var init, last := es[..|es| - 1], es[|es| - 1];
    assert es == init + [last];
    if init == [] {
      JoinMeans([], NewGroup(last), last);
      assert [] + [last] == [last];
    } else {
      GroupMeans(init);
      if Group(init).Good? { JoinMeans(init, Group(init).value, last); }
    }
  }

  lemma AmountsMeansNoClash(es: seq<Entry>, g: Atom)
    requires Amounts(es, g)
    ensures forall a, b :: a in es && b in es ==> !Clash(a, b)
  {}

  // ---------------------------------------------------------------------
  // Keys and stops.
  // ---------------------------------------------------------------------

  lemma {:induction false} DecimalTextMeans(n: nat)
    ensures |DecimalText(n)| == |Decimal.Digits(n)|
    ensures forall i :: 0 <= i < |DecimalText(n)| ==> DecimalText(n)[i] as int == Decimal.Digits(n)[i]
  {
    if n < 10 {
    } else {
      DecimalTextMeans(n / 10);
    }
  }

  /** A refused table names its first row that cannot be read or that clashes with its group. */
  lemma {:induction false} StopMeans<R(!new)>(read: R -> Read<Entry>, rows: seq<R>, i: nat, why: Problem)
    requires Scan(read, rows) == Stopped(i, why)
    ensures i < |rows| && Scan(read, rows[..i]).Going?
    ensures read(rows[i]) == Bad(why) || (read(rows[i]).Good? && Scan(read, rows[..i + 1]) == Stopped(i, why))
  {
    var n := |rows| - 1;
    ScanSnoc(read, rows);
    if Scan(read, rows[..n]).Stopped? {
      StopMeans(read, rows[..n], i, why);
      assert rows[..n][..i] == rows[..i] && rows[..n][..i + 1] == rows[..i + 1];
    } else {
      assert rows[..n + 1] == rows;
    }
  }

  // ---------------------------------------------------------------------
  // The written cells.
  // ---------------------------------------------------------------------

  /** The atom-level cells are the same in each row of an atom; the five separate evidence cells stay empty. */
  predicate HeadWritten(lib: Library, a: Atom, row: Row) {
    && row.id == a.id && row.kind == Some(a.kind) && row.payload == a.payload
    && row.evidence == (if a.evidence == [] then None else Some(lib.showEvidence(a.evidence)))
    && (a.metadata.None? ==> (row.createdAt, row.trust, row.domains, row.source) == (None, None, None, None))
    && (a.metadata.Some? ==>
          (row.createdAt, row.trust, row.domains, row.source) ==
          (Some(a.metadata.value.createdAt), Some(a.metadata.value.trust), Some(a.metadata.value.domains),
           Some(a.metadata.value.source)))
    && row.evidenceAtom == None && row.evidenceKind == None && row.evidenceOffset == None
    && row.evidenceLength == None && row.evidenceTrust == None
  }

  predicate ClaimWritten(lib: Library, c: Claim, row: Row) {
    && row.subject == Some(c.subject) && row.pred == Some(c.pred) && row.value == Some(c.value)
    && row.tag == Some(lib.showByte(c.tag))
    && row.qualifiers == (if c.qualifiers == None then None else Some(lib.showQualifiers(c.qualifiers.value)))
  }

  predicate NoClaimWritten(row: Row) {
    (row.subject, row.pred, row.tag, row.value, row.qualifiers) == (None, None, None, None, None)
  }

  /** This is row `i` of the atom. */
  predicate RowWritten(lib: Library, a: Atom, i: nat, row: Row)
    requires i < RowCount(a)
  {
    HeadWritten(lib, a, row) && if a.claims == [] then NoClaimWritten(row) else ClaimWritten(lib, a.claims[i], row)
  }

  /** One row for each claim, and one for an atom without claims. */
  function RowCount(a: Atom): nat {
    if |a.claims| == 0 then 1 else |a.claims|
  }

  lemma AtomIsWritten(lib: Library, a: Atom, i: nat)
    requires i < RowCount(a)
    ensures |RowsOf(lib, a)| == RowCount(a) && RowWritten(lib, a, i, RowsOf(lib, a)[i])
  {}

  /** Row `i` of atom `j` of the written rows, counted from the rows of the atoms before it. */
  lemma {:induction false} WrittenMeans(lib: Library, atoms: seq<Atom>, j: nat, i: nat)
    requires j < |atoms| && i < RowCount(atoms[j])
    ensures RowsBefore(atoms, j) + i < |Written(lib, atoms)| == RowsBefore(atoms, |atoms|)
    ensures RowWritten(lib, atoms[j], i, Written(lib, atoms)[RowsBefore(atoms, j) + i])
  {
    var init, last := atoms[..|atoms| - 1], atoms[|atoms| - 1];
    assert atoms == init + [last];
    WrittenLength(lib, init);
    WrittenLength(lib, atoms);
    RowsBeforeInit(init, last, j);
    if j < |init| {
      WrittenMeans(lib, init, j, i);
    } else {
      AtomIsWritten(lib, last, i);
    }
  }

  lemma {:induction false} WrittenLength(lib: Library, atoms: seq<Atom>)
    ensures |Written(lib, atoms)| == RowsBefore(atoms, |atoms|)
  {
    if atoms == [] {
    } else {
      var init, last := atoms[..|atoms| - 1], atoms[|atoms| - 1];
      assert atoms == init + [last];
      WrittenLength(lib, init);
      RowsBeforeInit(init, last, |init|);
    }
  }

  lemma {:induction false} RowsBeforeInit(init: seq<Atom>, last: Atom, j: nat)
    requires j <= |init|
    ensures RowsBefore(init + [last], j) == RowsBefore(init, j)
  {
    if j == 0 {
    } else {
      RowsBeforeInit(init, last, j - 1);
    }
  }
}
