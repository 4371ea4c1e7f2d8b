/**
 Grouping CSV rows into atoms: rows with the same key make one atom, groups appear in the
 order of their first row, and repeated claims and evidence are kept once.
 */
module CsvGroups {
  import opened Bytes
  import opened Results
  import opened FirstSeen
  import opened Sorting

  type Qualifiers(==, !new)

  datatype Claim = Claim(subject: u64, pred: u64, tag: byte, value: u64, qualifiers: Option<Qualifiers>)
  datatype Evidence = Evidence(atom: string, kind: string, offset: u64, length: u64, trust: nat)
  datatype Metadata = Metadata(createdAt: u64, trust: nat, domains: u64, source: u32)
  datatype Atom = Atom(
    id: Option<string>, kind: string, claims: seq<Claim>, evidence: seq<Evidence>,
    metadata: Option<Metadata>, payload: Option<string>)

  datatype MetadataCells = Absent | Given(metadata: Metadata) | Incomplete

  /** What one readable row says. */
  datatype Entry = Entry(
    id: Option<string>, kind: string, claim: Claim, evidence: seq<Evidence>,
    metadata: MetadataCells, payload: Option<string>)

  datatype Problem =
    | MissingType | UnknownType | MissingSubject | MissingPredicate | MissingValue
    | BadTag | BadQualifiers | BadEvidence | BadSectionKind | MissingOffset | MissingLength | MissingTrust
    | TypeConflict | PayloadConflict | IncompleteMetadata | MetadataConflict

  datatype Read<+T> = Good(value: T) | Bad(why: Problem) {

    predicate IsFailure() {
      Bad?
    }

    function PropagateFailure<U>(): Read<U>
      requires Bad?
    {
      Bad(why)
    }

    function Extract(): T
      requires Good?
    {
      value
    }
  }

  // ---------------------------------------------------------------------
  // One group.
  // ---------------------------------------------------------------------

  function Insert<T(==)>(s: seq<T>, x: T): seq<T> {
    if x in s then s else s + [x]
  }

  function InsertAll<T(==)>(s: seq<T>, xs: seq<T>): seq<T> {
    if xs == [] then s else Insert(InsertAll(s, xs[..|xs| - 1]), xs[|xs| - 1])
  }

  /** The atom a new group starts with. */
  function NewGroup(e: Entry): Atom {
    Atom(e.id, e.kind, [], [], None, None)
  }

  function MergePayload(present: Option<string>, given: Option<string>): Read<Option<string>> {
    if present.None? then Good(given)
    else if given.Some? && given != present then Bad(PayloadConflict) else Good(present)
  }

  function MergeMetadata(present: Option<Metadata>, cells: MetadataCells): Read<Option<Metadata>> {
    match cells
    case Absent => Good(present)
    case Incomplete => Bad(IncompleteMetadata)
    case Given(m) => if present.Some? && present.value != m then Bad(MetadataConflict) else Good(Some(m))
  }

  /** One row joins its group. */
  function Join(g: Atom, e: Entry): Read<Atom> {
    if g.kind != e.kind then Bad(TypeConflict)
    else
      match MergePayload(g.payload, e.payload)
      case Bad(why) => Bad(why)
      case Good(payload) =>
        match MergeMetadata(g.metadata, e.metadata)
        case Bad(why) => Bad(why)
        case Good(metadata) =>
          Good(g.(payload := payload, metadata := metadata,
                  claims := Insert(g.claims, e.claim), evidence := InsertAll(g.evidence, e.evidence)))
  }

  /** All rows of one group, in order. */
  function Group(es: seq<Entry>): Read<Atom>
    requires es != []
  {
    if |es| == 1 then Join(NewGroup(es[0]), es[0])
    else
      match Group(es[..|es| - 1])
      case Bad(why) => Bad(why)
      case Good(g) => Join(g, es[|es| - 1])
  }

  lemma GroupSnoc(es: seq<Entry>, e: Entry)
    requires es != []
    ensures Group(es + [e]) == match Group(es) case Bad(why) => Bad(why) case Good(g) => Join(g, e)
  {
    assert (es + [e])[..|es|] == es;
  }

  lemma {:induction false} GroupKeepsId(es: seq<Entry>)
    requires es != [] && Group(es).Good?
    ensures Group(es).value.id == es[0].id
  {
    if |es| <= 1 {
    } else {
      GroupKeepsId(es[..|es| - 1]);
    }
  }

  // ---------------------------------------------------------------------
  // All groups.
  // ---------------------------------------------------------------------

  datatype Keyed = Keyed(key: string, entry: Entry)

  /** First-seen order and the groups under their keys. */
  datatype Table = Table(order: seq<string>, groups: map<string, Atom>)

  /** The group a row joins. */
  function Target(t: Table, x: Keyed): Atom {
    if x.key in t.groups then t.groups[x.key] else NewGroup(x.entry)
  }

  function AddRow(t: Table, x: Keyed): Read<Table> {
    var order := if x.key in t.groups then t.order else t.order + [x.key];
    match Join(Target(t, x), x.entry)
    case Bad(why) => Bad(why)
    case Good(g) => Good(Table(order, t.groups[x.key := g]))
  }

  function Tabulate(xs: seq<Keyed>): Read<Table> {
    if xs == [] then Good(Table([], map[]))
    else
      match Tabulate(xs[..|xs| - 1])
      case Bad(why) => Bad(why)
      case Good(t) => AddRow(t, xs[|xs| - 1])
  }

  predicate Covers(t: Table) {
    forall k :: k in t.order ==> k in t.groups
  }

  function Atoms(t: Table): seq<Atom>
    requires Covers(t)
  {
    seq(|t.order|, i requires 0 <= i < |t.order| => t.groups[t.order[i]])
  }

  // ---------------------------------------------------------------------
  // What the table means.
  // ---------------------------------------------------------------------

  function Keys(xs: seq<Keyed>): seq<string> {
    seq(|xs|, i requires 0 <= i < |xs| => xs[i].key)
  }

  /** The rows under one key, in order. */
  function Rows(xs: seq<Keyed>, k: string): seq<Entry> {
    if xs == [] then []
    else
      var before, last := Rows(xs[..|xs| - 1], k), xs[|xs| - 1];
      if last.key == k then before + [last.entry] else before
  }

  lemma RowsSnoc(xs: seq<Keyed>, x: Keyed, k: string)
    ensures Rows(xs + [x], k) == if x.key == k then Rows(xs, k) + [x.entry] else Rows(xs, k)
  {
    assert (xs + [x])[..|xs|] == xs;
  }

  lemma {:induction false} RowsExist(xs: seq<Keyed>, k: string)
    ensures Rows(xs, k) != [] <==> k in Keys(xs)
  {
    if xs == [] {
    } else {
      var init, last := xs[..|xs| - 1], xs[|xs| - 1];
      RowsExist(init, k);
      assert Keys(xs) == Keys(init) + [last.key];
    }
  }

  /** Rows under key `k` group without conflict. */
  predicate Groups(xs: seq<Keyed>, k: string) {
    var rows := Rows(xs, k); rows != [] && Group(rows).Good?
  }

  ghost predicate AllGroup(xs: seq<Keyed>) {
    forall k :: k in Keys(xs) ==> Groups(xs, k)
  }

  predicate Holds(t: Table, xs: seq<Keyed>, k: string) {
    k in t.groups && Groups(xs, k) && Good(t.groups[k]) == Group(Rows(xs, k))
  }

  /** The table holds, in first-seen order, the group of each key's rows. */
  ghost predicate Describes(t: Table, xs: seq<Keyed>) {
    && t.order == Firsts(Keys(xs))
    && (forall k :: k in t.groups <==> k in Keys(xs))
    && (forall k :: k in t.groups ==> Holds(t, xs, k))
  }

  lemma JoinedGroup(t: Table, xs: seq<Keyed>, x: Keyed)
    requires Describes(t, xs)
    ensures Rows(xs + [x], x.key) != []
    ensures Group(Rows(xs + [x], x.key)) == Join(Target(t, x), x.entry)
  {
    RowsSnoc(xs, x, x.key);
    RowsExist(xs, x.key);
    if x.key in t.groups { GroupSnoc(Rows(xs, x.key), x.entry); }
  }

  lemma KeysSnoc(xs: seq<Keyed>, x: Keyed)
    ensures Keys(xs + [x]) == Keys(xs) + [x.key]
    ensures Firsts(Keys(xs + [x])) == if x.key in Keys(xs) then Firsts(Keys(xs)) else Firsts(Keys(xs)) + [x.key]
    ensures forall k :: k in Keys(xs + [x]) <==> k in Keys(xs) || k == x.key
  {
    assert Keys(xs + [x]) == Keys(xs) + [x.key];
    FirstsSnoc(Keys(xs), x.key);
    FirstsMember(Keys(xs), x.key);
  }

  lemma PutDescribes(t: Table, t': Table, xs: seq<Keyed>, x: Keyed)
    requires Describes(t, xs) && Holds(t', xs + [x], x.key)
    requires t'.order == if x.key in t.groups then t.order else t.order + [x.key]
    requires forall k :: k in t'.groups <==> k in t.groups || k == x.key
    requires forall k :: k in t.groups && k != x.key ==> t'.groups[k] == t.groups[k]
    ensures Describes(t', xs + [x])
  {
    KeysSnoc(xs, x);
    forall k | k in t'.groups ensures Holds(t', xs + [x], k) {
      if k != x.key { HoldsStill(t, t', xs, x, k); }
    }
  }

  lemma HoldsStill(t: Table, t': Table, xs: seq<Keyed>, x: Keyed, k: string)
    requires Holds(t, xs, k) && k != x.key && k in t'.groups && t'.groups[k] == t.groups[k]
    ensures Holds(t', xs + [x], k)
  {
    RowsSnoc(xs, x, k);
  }

  lemma AddRowDescribes(t: Table, xs: seq<Keyed>, x: Keyed)
    requires Describes(t, xs)
    ensures AddRow(t, x).Good? <==> Groups(xs + [x], x.key)
    ensures AddRow(t, x).Good? ==> Describes(AddRow(t, x).value, xs + [x])
  {
    JoinedGroup(t, xs, x);
    var joined := Join(Target(t, x), x.entry);
    if joined.Good? { PutDescribes(t, AddRow(t, x).value, xs, x); }
  }

  lemma AllGroupSnoc(xs: seq<Keyed>, x: Keyed)
    ensures AllGroup(xs + [x]) ==> Groups(xs + [x], x.key)
    ensures AllGroup(xs) && Groups(xs + [x], x.key) ==> AllGroup(xs + [x])
    ensures AllGroup(xs + [x]) ==> AllGroup(xs)
  {
    var ys := xs + [x];
    assert Keys(ys) == Keys(xs) + [x.key];
    assert x.key in Keys(ys) by { assert Keys(ys)[|xs|] == x.key; }
    forall k ensures Rows(ys, k) == if x.key == k then Rows(xs, k) + [x.entry] else Rows(xs, k) {
      RowsSnoc(xs, x, k);
    }
    if AllGroup(ys) {
      forall k | k in Keys(xs) ensures Groups(xs, k) {
        RowsExist(xs, k);
        assert Groups(ys, k);
        if k == x.key { GroupSnoc(Rows(xs, k), x.entry); }
      }
    }
  }

  /** Tabulating succeeds exactly if every key's rows agree, and then the table describes the rows. */
  lemma {:induction false} TabulateDescribes(xs: seq<Keyed>)
    ensures Tabulate(xs).Good? <==> AllGroup(xs)
    ensures Tabulate(xs).Good? ==> Describes(Tabulate(xs).value, xs)
  {
    if xs == [] {
    } else {
      var init, last := xs[..|xs| - 1], xs[|xs| - 1];
      assert xs == init + [last];
      TabulateDescribes(init);
      AllGroupSnoc(init, last);
      if Tabulate(init).Good? { AddRowDescribes(Tabulate(init).value, init, last); }
    }
  }

  lemma TableCovers(t: Table, xs: seq<Keyed>)
    requires Describes(t, xs)
    ensures Covers(t)
  {
    FirstsContents(Keys(xs));
  }

  /**
   When the rows under each key are the same, however they are interleaved, the same groups
   result; only their order follows the first rows.
   */
  lemma InterleavingKeepsGroups(xs: seq<Keyed>, ys: seq<Keyed>)
    requires forall k :: Rows(xs, k) == Rows(ys, k)
    ensures Tabulate(xs).Good? <==> Tabulate(ys).Good?
    ensures Tabulate(xs).Good? ==> Tabulate(xs).value.groups == Tabulate(ys).value.groups
    ensures Tabulate(ys).Good? ==> Tabulate(ys).value.order == Firsts(Keys(ys))
  {
    TabulateDescribes(xs);
    TabulateDescribes(ys);
    forall k ensures k in Keys(xs) <==> k in Keys(ys) {
      RowsExist(xs, k);
      RowsExist(ys, k);
    }
    forall k ensures Groups(xs, k) == Groups(ys, k) {}
    if Tabulate(xs).Good? {
      var t, u := Tabulate(xs).value, Tabulate(ys).value;
      forall k | k in t.groups ensures t.groups[k] == u.groups[k] {
        assert Holds(t, xs, k) && Holds(u, ys, k);
      }
    }
  }

  // ---------------------------------------------------------------------
  // Reading rows one after the other.
  // ---------------------------------------------------------------------

  datatype Scanned = Going(table: Table) | Stopped(index: nat, why: Problem)

  /** Rows without an id are groups of their own. */
  function RowKey(e: Entry, index: nat): string {
    if e.id.Some? then e.id.value else "__row_" + DecimalText(index)
  }

  function DecimalText(n: nat): string {
    if n < 10 then [(48 + n) as char] else DecimalText(n / 10) + [(48 + n % 10) as char]
  }

  function ScanRow<R>(read: R -> Read<Entry>, t: Table, row: R, index: nat): Scanned {
    match read(row)
    case Bad(why) => Stopped(index, why)
    case Good(e) =>
      match AddRow(t, Keyed(RowKey(e, index), e))
      case Bad(why) => Stopped(index, why)
      case Good(t') => Going(t')
  }

  /** The table after `rows`, or the first row that stops the scan. */
  function Scan<R>(read: R -> Read<Entry>, rows: seq<R>): Scanned {
    if rows == [] then Going(Table([], map[]))
    else
      match Scan(read, rows[..|rows| - 1])
      case Stopped(i, why) => Stopped(i, why)
      case Going(t) => ScanRow(read, t, rows[|rows| - 1], |rows| - 1)
  }

  lemma ScanSnoc<R>(read: R -> Read<Entry>, rows: seq<R>)
    requires rows != []
    ensures var n := |rows| - 1;
            var before := Scan(read, rows[..n]);
            Scan(read, rows) == if before.Going? then ScanRow(read, before.table, rows[n], n) else before
  {}

  /** The scan depends on what the rows are read as, and on nothing else. */
  lemma {:induction false} SameScan<R, S>(read: R -> Read<Entry>, rows: seq<R>, read': S -> Read<Entry>, rows': seq<S>)
    requires |rows| == |rows'| && forall i :: 0 <= i < |rows| ==> read(rows[i]) == read'(rows'[i])
    ensures Scan(read, rows) == Scan(read', rows')
  {
    if rows == [] {
    } else {
      var n := |rows| - 1;
      SameScan(read, rows[..n], read', rows'[..n]);
      ScanSnoc(read, rows);
      ScanSnoc(read', rows');
      var before := Scan(read, rows[..n]);
    }
  }

  predicate Readable<R(!new)>(read: R -> Read<Entry>, rows: seq<R>) {
    forall i :: 0 <= i < |rows| ==> read(rows[i]).Good?
  }

  function Entries<R(!new)>(read: R -> Read<Entry>, rows: seq<R>): seq<Keyed>
    requires Readable(read, rows)
  {
    seq(|rows|, i requires 0 <= i < |rows| => Keyed(RowKey(read(rows[i]).value, i), read(rows[i]).value))
  }

  /** A scan gets through exactly if every row is readable and every group agrees. */
  lemma {:induction false} ScanTabulates<R(!new)>(read: R -> Read<Entry>, rows: seq<R>)
    ensures Scan(read, rows).Going? <==> Readable(read, rows) && AllGroup(Entries(read, rows))
    ensures Scan(read, rows).Going? ==>
        Describes(Scan(read, rows).table, Entries(read, rows)) && Covers(Scan(read, rows).table)
  {
    if rows == [] {
    } else {
      var init, last := rows[..|rows| - 1], rows[|rows| - 1];
      ScanTabulates(read, init);
      assert rows == init + [last];
      if Readable(read, rows) {
        assert forall i :: 0 <= i < |init| ==> init[i] == rows[i];
        assert read(rows[|rows| - 1]).Good?;
        var x := Keyed(RowKey(read(last).value, |init|), read(last).value);
        assert Entries(read, rows) == Entries(read, init) + [x];
        AllGroupSnoc(Entries(read, init), x);
        if Scan(read, init).Going? {
          AddRowDescribes(Scan(read, init).table, Entries(read, init), x);
        }
      } else if read(last).Good? {
        assert !Readable(read, init);
      }
      if Scan(read, rows).Going? { TableCovers(Scan(read, rows).table, Entries(read, rows)); }
    }
  }

  // ---------------------------------------------------------------------
  // One atom written as rows that differ in their claim only.
  // ---------------------------------------------------------------------

  function Repeated(head: Entry, claims: seq<Claim>): seq<Entry> {
    seq(|claims|, i requires 0 <= i < |claims| => head.(claim := claims[i]))
  }

  lemma {:induction false} InsertAllPresent<T>(s: seq<T>, xs: seq<T>)
    requires forall x :: x in xs ==> x in s
    ensures InsertAll(s, xs) == s
  {
    if xs == [] {
    } else {
      InsertAllPresent(s, xs[..|xs| - 1]);
    }
  }

  lemma {:induction false} InsertAllIsFirsts<T>(xs: seq<T>)
    ensures InsertAll([], xs) == Firsts(xs)
  {
    if xs == [] {
    } else {
      InsertAllIsFirsts(xs[..|xs| - 1]);
    }
  }

  lemma EvidenceStays<T>(xs: seq<T>)
    ensures InsertAll([], xs) == Firsts(xs) && InsertAll(Firsts(xs), xs) == Firsts(xs)
  {
    InsertAllIsFirsts(xs);
    FirstsContents(xs);
    InsertAllPresent(Firsts(xs), xs);
  }

  function GroupOf(head: Entry, claims: seq<Claim>): Atom {
    Atom(head.id, head.kind, Firsts(claims), Firsts(head.evidence),
         if head.metadata.Given? then Some(head.metadata.metadata) else None, head.payload)
  }

  lemma JoinRepeated(head: Entry, claims: seq<Claim>, c: Claim)
    requires !head.metadata.Incomplete?
    ensures Join(GroupOf(head, claims), head.(claim := c)) == Good(GroupOf(head, claims + [c]))
  {
    FirstsSnoc(claims, c);
    EvidenceStays(head.evidence);
  }

  lemma JoinFirst(head: Entry, c: Claim)
    requires !head.metadata.Incomplete?
    ensures Join(NewGroup(head.(claim := c)), head.(claim := c)) == Good(GroupOf(head, [c]))
  {
    FirstsSnoc([], c);
    assert [] + [c] == [c];
    EvidenceStays(head.evidence);
  }

  /** Repeating the same atom-level cells in every row does no harm. */
  lemma {:induction false} RepeatedGroups(head: Entry, claims: seq<Claim>)
    requires claims != [] && !head.metadata.Incomplete?
    ensures Group(Repeated(head, claims)) == Good(GroupOf(head, claims))
  {
    var init, last := claims[..|claims| - 1], claims[|claims| - 1];
    assert claims == init + [last];
    if init == [] {
      JoinFirst(head, last);
    } else {
      RepeatedGroups(head, init);
      assert Repeated(head, claims) == Repeated(head, init) + [head.(claim := last)];
      GroupSnoc(Repeated(head, init), head.(claim := last));
      JoinRepeated(head, init, last);
    }
  }

  // ---------------------------------------------------------------------
  // Rows of several atoms, interleaved.
  // ---------------------------------------------------------------------

  function EntriesOf<R(!new)>(read: R -> Read<Entry>, rows: seq<R>): seq<Entry>
    requires Readable(read, rows)
  {
    seq(|rows|, i requires 0 <= i < |rows| => read(rows[i]).value)
  }

  /** The rows with one id, in order. */
  function With<R>(idOf: R -> string, rows: seq<R>, id: string): seq<R> {
    if rows == [] then []
    else
      var before, last := With(idOf, rows[..|rows| - 1], id), rows[|rows| - 1];
      if idOf(last) == id then before + [last] else before
  }

  lemma {:induction false} WithContains<R(!new)>(idOf: R -> string, rows: seq<R>, i: nat)
    requires i < |rows|
    ensures rows[i] in With(idOf, rows, idOf(rows[i]))
  {
    if i < |rows| - 1 { WithContains(idOf, rows[..|rows| - 1], i); }
  }

  lemma {:induction false} WithAppend<R>(idOf: R -> string, xs: seq<R>, ys: seq<R>, id: string)
    ensures With(idOf, xs + ys, id) == With(idOf, xs, id) + With(idOf, ys, id)
  {
    if ys == [] {
      assert xs + ys == xs;
    } else {
      var init := ys[..|ys| - 1];
      WithAppend(idOf, xs, init, id);
      assert (xs + ys)[..|xs + ys| - 1] == xs + init;
    }
  }

  /** Rows of one atom only. */
  lemma {:induction false} WithUniform<R(!new)>(idOf: R -> string, rows: seq<R>, own: string, id: string)
    requires forall i :: 0 <= i < |rows| ==> idOf(rows[i]) == own
    ensures With(idOf, rows, id) == if id == own then rows else []
  {
    if rows == [] {
    } else {
      var init := rows[..|rows| - 1];
      WithUniform(idOf, init, own, id);
      assert rows == init + [rows[|rows| - 1]];
    }
  }

  lemma {:induction false} FirstsUniform(ids: seq<string>, more: seq<string>, own: string)
    requires more != [] && forall i :: 0 <= i < |more| ==> more[i] == own
    requires own !in ids
    ensures Firsts(ids + more) == Firsts(ids) + [own]
  {
    var init := more[..|more| - 1];
    assert ids + more == (ids + init) + [own];
    FirstsSnoc(ids + init, own);
    FirstsMember(ids, own);
    if init == [] {
      assert ids + init == ids;
    } else {
      FirstsUniform(ids, init, own);
    }
  }

  /** An entry under a key comes from a row. */
  lemma {:induction false} RowsComeFromRows<R(!new)>(read: R -> Read<Entry>, rows: seq<R>, k: string, e: Entry)
    requires Readable(read, rows) && e in Rows(Entries(read, rows), k)
    ensures exists i :: 0 <= i < |rows| && read(rows[i]) == Good(e)
  {
    var init, last := rows[..|rows| - 1], rows[|rows| - 1];
    assert rows == init + [last];
    assert forall i :: 0 <= i < |init| ==> init[i] == rows[i];
    assert read(rows[|rows| - 1]).Good?;
    var x := Keyed(RowKey(read(last).value, |init|), read(last).value);
    assert Entries(read, rows) == Entries(read, init) + [x];
    RowsSnoc(Entries(read, init), x, k);
    if e in Rows(Entries(read, init), k) {
      RowsComeFromRows(read, init, k, e);
      var i :| 0 <= i < |init| && read(init[i]) == Good(e);
      assert read(rows[i]) == Good(e);
    }
  }

  /** Every row is readable and says its id. */
  ghost predicate Identified<R(!new)>(read: R -> Read<Entry>, idOf: R -> string, rows: seq<R>) {
    forall i :: 0 <= i < |rows| ==> read(rows[i]).Good? && read(rows[i]).value.id == Some(idOf(rows[i]))
  }

  lemma IdentifiedKeys<R(!new)>(read: R -> Read<Entry>, idOf: R -> string, rows: seq<R>)
    requires Identified(read, idOf, rows)
    ensures Readable(read, rows) && Keys(Entries(read, rows)) == Mapped(idOf, rows)
  {}

  lemma {:induction false} RowsAreWith<R(!new)>(read: R -> Read<Entry>, idOf: R -> string, rows: seq<R>, id: string)
    requires Identified(read, idOf, rows)
    ensures Readable(read, rows) && Identified(read, idOf, With(idOf, rows, id)) && Readable(read, With(idOf, rows, id))
    ensures Rows(Entries(read, rows), id) == EntriesOf(read, With(idOf, rows, id))
  {
    if rows == [] {
    } else {
      var init, last := rows[..|rows| - 1], rows[|rows| - 1];
      assert rows == init + [last];
      assert forall i :: 0 <= i < |init| ==> init[i] == rows[i];
      RowsAreWith(read, idOf, init, id);
      assert read(rows[|rows| - 1]).Good?;
      var x := Keyed(RowKey(read(last).value, |init|), read(last).value);
      assert Entries(read, rows) == Entries(read, init) + [x];
      RowsSnoc(Entries(read, init), x, id);
      if idOf(last) == id {
        assert With(idOf, rows, id) == With(idOf, init, id) + [last];
      }
    }
  }

  predicate HaveIds(atoms: seq<Atom>) {
    forall j :: 0 <= j < |atoms| ==> atoms[j].id.Some?
  }

  function Ids(atoms: seq<Atom>): seq<string>
    requires HaveIds(atoms)
  {
    seq(|atoms|, j requires 0 <= j < |atoms| => atoms[j].id.value)
  }

  /** The rows under an atom's id group to that atom. */
  ghost predicate Yields<R(!new)>(read: R -> Read<Entry>, idOf: R -> string, rows: seq<R>, a: Atom) {
    && a.id.Some?
    && var part := With(idOf, rows, a.id.value);
       part != [] && Readable(read, part) && Group(EntriesOf(read, part)) == Good(a)
  }

  /** `a` is the group of the rows under its id. */
  predicate IsGroup(xs: seq<Keyed>, a: Atom) {
    a.id.Some? && Groups(xs, a.id.value) && Group(Rows(xs, a.id.value)) == Good(a)
  }

  predicate HasId(atoms: seq<Atom>, k: string) {
    exists a :: a in atoms && a.id == Some(k)
  }

  ghost predicate AreGroups(xs: seq<Keyed>, atoms: seq<Atom>) {
    && (forall a :: a in atoms ==> IsGroup(xs, a))
    && (forall k :: k in Keys(xs) ==> HasId(atoms, k))
  }

  lemma HeldAtom(t: Table, xs: seq<Keyed>, atoms: seq<Atom>, k: string)
    requires AreGroups(xs, atoms) && Holds(t, xs, k) && k in Keys(xs)
    ensures t.groups[k] in atoms && t.groups[k].id == Some(k)
  {
    assert HasId(atoms, k);
    var a :| a in atoms && a.id == Some(k);
    assert IsGroup(xs, a);
  }

  lemma AtomIsHeld(t: Table, xs: seq<Keyed>, a: Atom)
    requires IsGroup(xs, a) && Describes(t, xs)
    ensures a.id.value in t.order && a.id.value in t.groups && t.groups[a.id.value] == a
  {
    var k := a.id.value;
    RowsExist(xs, k);
    FirstsMember(Keys(xs), k);
    assert Holds(t, xs, k);
  }

  /** The table holds exactly these atoms, ordered by first row. */
  lemma TableIsAtoms(t: Table, xs: seq<Keyed>, atoms: seq<Atom>)
    requires Describes(t, xs) && AreGroups(xs, atoms)
    ensures Covers(t) && HaveIds(Atoms(t)) && Ids(Atoms(t)) == Firsts(Keys(xs))
    ensures forall a :: a in Atoms(t) <==> a in atoms
  {
    TableCovers(t, xs);
    forall i | 0 <= i < |t.order| ensures Atoms(t)[i] in atoms && Atoms(t)[i].id == Some(t.order[i]) {
      var k := t.order[i];
      FirstsMember(Keys(xs), k);
      HeldAtom(t, xs, atoms, k);
    }
    forall a | a in atoms ensures a in Atoms(t) {
      AtomIsHeld(t, xs, a);
      var i :| 0 <= i < |t.order| && t.order[i] == a.id.value;
      assert Atoms(t)[i] == a;
    }
  }

  lemma GroupsAllGroup(xs: seq<Keyed>, atoms: seq<Atom>)
    requires AreGroups(xs, atoms)
    ensures AllGroup(xs)
  {
    forall k | k in Keys(xs) ensures Groups(xs, k) {
      assert HasId(atoms, k);
      var a :| a in atoms && a.id == Some(k);
      assert IsGroup(xs, a);
    }
  }

  lemma YieldedAtomsAreGroups<R(!new)>(read: R -> Read<Entry>, idOf: R -> string, rows: seq<R>, atoms: seq<Atom>)
    requires Identified(read, idOf, rows) && HaveIds(atoms) && Readable(read, rows)
    requires forall i :: 0 <= i < |rows| ==> idOf(rows[i]) in Ids(atoms)
    requires forall a :: a in atoms ==> Yields(read, idOf, rows, a)
    ensures AreGroups(Entries(read, rows), atoms)
  {
    var xs := Entries(read, rows);
    IdentifiedKeys(read, idOf, rows);
    forall a | a in atoms ensures IsGroup(xs, a) {
      assert Yields(read, idOf, rows, a);
      RowsAreWith(read, idOf, rows, a.id.value);
    }
    forall k | k in Keys(xs) ensures HasId(atoms, k) {
      var j :| 0 <= j < |atoms| && Ids(atoms)[j] == k;
      assert atoms[j] in atoms;
    }
  }

  /**
   If every row has an atom's id and the rows of each atom group to it, the scan gives
   exactly these atoms, ordered by first row.
   */
  lemma {:induction false} GroupedByFirstRow<R(!new)>(read: R -> Read<Entry>, idOf: R -> string, rows: seq<R>,
      atoms: seq<Atom>)
    requires Identified(read, idOf, rows) && HaveIds(atoms)
    requires forall i :: 0 <= i < |rows| ==> idOf(rows[i]) in Ids(atoms)
    requires forall a :: a in atoms ==> Yields(read, idOf, rows, a)
    ensures var r := Scan(read, rows);
            && r.Going? && Covers(r.table) && HaveIds(Atoms(r.table))
            && Ids(Atoms(r.table)) == Firsts(Mapped(idOf, rows))
            && (forall a :: a in Atoms(r.table) <==> a in atoms)
  {
    IdentifiedKeys(read, idOf, rows);
    var xs := Entries(read, rows);
    YieldedAtomsAreGroups(read, idOf, rows, atoms);
    GroupsAllGroup(xs, atoms);
    ScanTabulates(read, rows);
    TableIsAtoms(Scan(read, rows).table, xs, atoms);
  }
}
