/**
 The SYMBOLS section: string interning and its padded codec.

 A string is modelled by its UTF-8 bytes. `lossy` stands for
 `String::from_utf8_lossy`, which leaves valid UTF-8 as it is.
 */
module Symbols {
  import opened Bytes
  import opened Results
  import opened Codecs
  import opened FirstSeen

  type Symbol = seq<byte>

  /** The value of a section: both of its tables. */
  datatype Table = Table(ids: map<Symbol, nat>, names: seq<Symbol>)

  /** The two tables are inverse to each other. */
  ghost predicate Bijection(t: Table) {
    && (forall i :: 0 <= i < |t.names| ==> t.names[i] in t.ids && t.ids[t.names[i]] == i)
    && (forall s :: s in t.ids ==> t.ids[s] < |t.names| && t.names[t.ids[s]] == s)
  }

  /** The table after interning `s`, and the id handed out. Ids are truncated to 32 bits. */
  function Interned(t: Table, s: Symbol): (Table, nat) {
    if s in t.ids then (t, t.ids[s])
    else
      var id := Truncate32(|t.names|);
      (Table(t.ids[s := id], t.names + [s]), id)
  }

  function InternAll(t: Table, ss: seq<Symbol>): Table {
    if ss == [] then t else Interned(InternAll(t, ss[..|ss| - 1]), ss[|ss| - 1]).0
  }

  const EMPTY := Table(map[], [])

  lemma InternKeepsBijection(t: Table, s: Symbol)
    requires Bijection(t) && |t.names| < U32_LIMIT
    ensures var (t', id) := Interned(t, s);
            Bijection(t') && id < |t'.names| && t'.names[id] == s && t.names <= t'.names
  {
    var t' := Interned(t, s).0;
    if s !in t.ids {
      forall i | 0 <= i < |t'.names| ensures t'.names[i] in t'.ids && t'.ids[t'.names[i]] == i {
        if i < |t.names| { assert t.names[i] in t.ids; }
      }
    }
  }

  /** After any run of `intern` the names are the distinct inputs in first-seen order. */
  lemma {:induction false} InternRun(ss: seq<Symbol>)
    requires |ss| <= U32_LIMIT
    ensures Bijection(InternAll(EMPTY, ss))
    ensures InternAll(EMPTY, ss).names == Firsts(ss)
    ensures |Firsts(ss)| <= |ss|
  {
    if ss == [] {
    } else {
      var init, last := ss[..|ss| - 1], ss[|ss| - 1];
      InternRun(init);
      InternKeepsBijection(InternAll(EMPTY, init), last);
    }
  }

  /** Ids are stable: what was handed out is still found after any further interning. */
  lemma {:induction false} IdsAreStable(ss: seq<Symbol>, more: seq<Symbol>, s: Symbol)
    requires |ss| + |more| <= U32_LIMIT && s in Firsts(ss)
    ensures var id := IndexOf(Firsts(ss), s);
            var t := InternAll(EMPTY, ss + more);
            s in t.ids && t.ids[s] == id && id < |t.names| && t.names[id] == s
  {
    if more == [] {
      InternRun(ss);
      assert ss + more == ss;
    } else {
      var init, last := more[..|more| - 1], more[|more| - 1];
      IdsAreStable(ss, init, s);
      assert (ss + more)[..|ss + more| - 1] == ss + init;
      InternRun(ss + init);
      InternKeepsBijection(InternAll(EMPTY, ss + init), last);
    }
  }

  // ---------------------------------------------------------------------
  // Codec.
  // ---------------------------------------------------------------------

  /** Zero bytes needed to reach a multiple of four. */
  function Padding(n: nat): (p: nat)
    ensures p < 4 && (n + p) % 4 == 0
  {
    (4 - n % 4) % 4
  }

  function Zeros(n: nat): (s: seq<byte>)
    ensures |s| == n
  {
    seq(n, i => 0)
  }

  function Print(s: Symbol): (r: seq<byte>)
    ensures |r| == 4 + |s| + Padding(|s|)
  {
    Blob(s) + Zeros(Padding(|s|))
  }

  /** The cursor may step over the end of the buffer when the last padding is missing. */
  function Parse(lossy: Symbol -> Symbol, b: seq<byte>): Result<(Symbol, nat)> {
    if |b| < 4 then Err(BufferTooSmall)
    else
      var len := FromLe(b[..4]);
      if 4 + len > |b| then Err(BufferTooSmall)
      else Ok((lossy(b[4..4 + len]), 4 + len + Padding(len)))
  }

  function Printing(): Printer<Symbol> { (s: Symbol) => Print(s) }

  function Reading(lossy: Symbol -> Symbol): Reader<Symbol> { (b: seq<byte>) => Parse(lossy, b) }

  /** A string the format can hold: valid UTF-8 with a 32-bit length. */
  predicate Storable(lossy: Symbol -> Symbol, s: Symbol) {
    lossy(s) == s && |s| < U32_LIMIT
  }

  ghost function Fitting(lossy: Symbol -> Symbol): Symbol -> bool { (s: Symbol) => Storable(lossy, s) }

  /** Reading needs the length and the string, but not the padding. */
  lemma ParsesUnpadded(lossy: Symbol -> Symbol, s: Symbol, rest: seq<byte>)
    requires Storable(lossy, s)
    ensures Parse(lossy, Blob(s) + rest) == Ok((s, |Print(s)|))
  {
    var b := Blob(s) + rest;
    assert b[..4] == Len32(|s|) && b[4..4 + |s|] == s;
    CountRoundTrip(|s|);
  }

  /** Nothing shorter will do. */
  lemma RejectsCutString(lossy: Symbol -> Symbol, s: Symbol, p: seq<byte>)
    requires Storable(lossy, s) && p < Blob(s)
    ensures Parse(lossy, p) == Err(BufferTooSmall)
  {
    if |p| >= 4 {
      assert p[..4] == Blob(s)[..4] == Len32(|s|);
      CountRoundTrip(|s|);
    }
  }

  lemma PrintingInverts(lossy: Symbol -> Symbol)
    ensures Inverts(Printing(), Reading(lossy), Fitting(lossy))
  {
    forall s, rest | Storable(lossy, s) ensures Parse(lossy, Print(s) + rest) == Ok((s, |Print(s)|)) {
      assert Print(s) + rest == Blob(s) + (Zeros(Padding(|s|)) + rest);
      ParsesUnpadded(lossy, s, Zeros(Padding(|s|)) + rest);
    }
  }

  /** `SymbolsSection::to_bytes`. */
  function PrintSection(names: seq<Symbol>): seq<byte> {
    PrintCounted(Printing(), names)
  }

  /** The names `SymbolsSection::from_bytes` reads. */
  function ParseNames(lossy: Symbol -> Symbol, b: seq<byte>): Result<seq<Symbol>> {
    ReadCounted(Reading(lossy), b)
  }

  /** The map it fills: for a repeated string the last id wins. */
  function LastIds(names: seq<Symbol>): map<Symbol, nat> {
    if names == [] then map[]
    else LastIds(names[..|names| - 1])[names[|names| - 1] := Truncate32(|names| - 1)]
  }

  /** `SymbolsSection::from_bytes`. */
  function ParseSection(lossy: Symbol -> Symbol, b: seq<byte>): Result<Table> {
    match ParseNames(lossy, b)
    case Err(e) => Err(e)
    case Ok(names) => Ok(Table(LastIds(names), names))
  }

  /** Size of one record. */
  function RecordSize(s: Symbol): nat {
    4 + |s| + Padding(|s|)
  }

  function SerializedSize(names: seq<Symbol>): nat {
    if names == [] then 4 else SerializedSize(names[..|names| - 1]) + RecordSize(names[|names| - 1])
  }

  lemma SumIsAligned(m: nat, n: nat)
    requires m % 4 == 0 && n % 4 == 0
    ensures (m + n) % 4 == 0
  {}

  lemma {:induction false} SizeIsAligned(names: seq<Symbol>)
    ensures SerializedSize(names) % 4 == 0
  {
    if names == [] {
    } else {
      var init, last := names[..|names| - 1], names[|names| - 1];
      SizeIsAligned(init);
      assert (|last| + Padding(|last|)) % 4 == 0;
      SumIsAligned(SerializedSize(init), RecordSize(last));
    }
  }

  /** The printed length is the announced one, a multiple of four. */
  lemma {:induction false} PrintedSize(names: seq<Symbol>)
    ensures |PrintSection(names)| == SerializedSize(names)
    ensures |PrintSection(names)| % 4 == 0
  {
    SizeIsAligned(names);
    if names == [] {
    } else {
      var init, last := names[..|names| - 1], names[|names| - 1];
      PrintedSize(init);
      FlatAppend(Printing(), init, last);
      assert names == init + [last];
    }
  }

  lemma LastIdsSnoc(names: seq<Symbol>, s: Symbol)
    ensures LastIds(names + [s]) == LastIds(names)[s := Truncate32(|names|)]
  {
    assert (names + [s])[..|names|] == names;
  }

  lemma {:induction false} LastIdsPointBack(names: seq<Symbol>)
    requires |names| <= U32_LIMIT
    ensures forall s :: s in LastIds(names) <==> s in names
    ensures forall s :: s in LastIds(names) ==> LastIds(names)[s] < |names| && names[LastIds(names)[s]] == s
  {
    if names == [] {
    } else {
      var init, last := names[..|names| - 1], names[|names| - 1];
      LastIdsPointBack(init);
      assert names == init + [last];
    }
  }

  /** For a repeated string the last of its positions is found. */
  lemma {:induction false} LastPositionWins(names: seq<Symbol>, s: Symbol)
    requires |names| <= U32_LIMIT && s in names
    ensures s in LastIds(names)
    ensures var id := LastIds(names)[s];
            id < |names| && names[id] == s && forall j :: id < j < |names| ==> names[j] != s
  {
    var init, last := names[..|names| - 1], names[|names| - 1];
    assert names == init + [last];
    if s != last {
      LastPositionWins(init, s);
    }
  }

  /** The map read from a section inverts the vector exactly when no string is repeated. */
  lemma LastIdsOfDistinct(names: seq<Symbol>)
    requires |names| <= U32_LIMIT
    ensures Bijection(Table(LastIds(names), names)) <==> Distinct(names)
  {
    LastIdsPointBack(names);
    var ids := LastIds(names);
    if Distinct(names) {
      forall i | 0 <= i < |names| ensures names[i] in ids && ids[names[i]] == i {
        assert names[i] in names;
      }
    }
  }

  /** The map is the one that reading the names back gives. Interned tables and parsed ones are so. */
  ghost predicate Readback(t: Table) {
    |t.names| <= U32_LIMIT && t.ids == LastIds(t.names)
  }

  lemma ParsedIsReadback(lossy: Symbol -> Symbol, b: seq<byte>)
    ensures ParseSection(lossy, b).Ok? ==> Readback(ParseSection(lossy, b).value)
  {
    if |b| >= 4 {
      FromLeRoundTrip(b[..4]);
      WordSizes();
    }
  }

  lemma BijectionIsDistinct(t: Table)
    requires Bijection(t) && |t.names| <= U32_LIMIT
    ensures Distinct(t.names) && LastIds(t.names) == t.ids && Readback(t)
  {
    LastIdsPointBack(t.names);
    var ids := LastIds(t.names);
    forall i, j | 0 <= i < j < |t.names| ensures t.names[i] != t.names[j] {
      assert t.ids[t.names[i]] == i && t.ids[t.names[j]] == j;
    }
    forall s | s in ids ensures s in t.ids && ids[s] == t.ids[s] {
      assert t.ids[t.names[ids[s]]] == ids[s];
    }
    forall s | s in t.ids ensures s in ids {
      assert t.names[t.ids[s]] == s;
    }
  }

  /** Parsing a print restores both tables, whatever bytes follow. */
  lemma SectionRoundTrip(lossy: Symbol -> Symbol, t: Table, rest: seq<byte>)
    requires Bijection(t) && |t.names| < U32_LIMIT
    requires forall s :: s in t.names ==> Storable(lossy, s)
    ensures ParseSection(lossy, PrintSection(t.names) + rest) == Ok(t)
  {
    PrintingInverts(lossy);
    CountedRoundTrip(Printing(), Reading(lossy), Fitting(lossy), t.names, rest);
    BijectionIsDistinct(t);
  }

  /** Padding after the last string, the only part that may be missing. */
  function FinalPadding(names: seq<Symbol>): nat {
    if names == [] then 0 else Padding(|names[|names| - 1]|)
  }

  lemma FlatOne(names: seq<Symbol>)
    requires names != []
    ensures Flat(Printing(), names) == Blob(names[0]) + (Zeros(Padding(|names[0]|)) + Flat(Printing(), names[1..]))
    ensures |Blob(names[0])| == 4 + |names[0]|
  {}

  /** Cut within the string of the first record. */
  lemma CutInFirst(lossy: Symbol -> Symbol, names: seq<Symbol>, p: seq<byte>)
    requires names != [] && Storable(lossy, names[0]) && p <= Flat(Printing(), names) && |p| < |Blob(names[0])|
    ensures ReadMany(Reading(lossy), p, |names|) == Err(BufferTooSmall)
  {
    FlatOne(names);
    var blob := Blob(names[0]);
    assert p == Flat(Printing(), names)[..|p|] == blob[..|p|];
    RejectsCutString(lossy, names[0], p);
  }

  /** What follows the first record, when its string is whole. */
  lemma RestOfCut(blob: seq<byte>, zeros: seq<byte>, after: seq<byte>, p: seq<byte>, q: seq<byte>)
    requires p <= blob + (zeros + after) && |p| >= |blob| && q == Drop(p, |blob| + |zeros|)
    ensures p == blob + p[|blob|..] && q <= after
    ensures |q| == if |p| < |blob| + |zeros| then 0 else |p| - (|blob| + |zeros|)
  {
    assert p[..|blob|] == blob;
    if |p| > |blob| + |zeros| { assert q == p[|blob| + |zeros|..]; }
  }

  lemma ReadOneMore<T>(dec: Reader<T>, p: seq<byte>, n: nat, x: T, used: nat)
    requires n > 0 && dec(p) == Ok((x, used))
    ensures ReadMany(dec, p, n) ==
            match ReadMany(dec, Drop(p, used), n - 1) case Err(e) => Err(e) case Ok(rest) => Ok([x] + rest)
  {}

  /** Cut behind the string of the first record: the record is still read. */
  lemma ReadsCutRecord(lossy: Symbol -> Symbol, s: Symbol, p: seq<byte>)
    requires Storable(lossy, s) && |p| >= |Blob(s)| && p == Blob(s) + p[|Blob(s)|..]
    ensures Reading(lossy)(p) == Ok((s, |Print(s)|))
  {
    ParsesUnpadded(lossy, s, p[|Blob(s)|..]);
  }

  lemma CutBehindFirst(lossy: Symbol -> Symbol, names: seq<Symbol>, p: seq<byte>, q: seq<byte>)
    requires names != [] && Storable(lossy, names[0]) && p <= Flat(Printing(), names) && |p| >= |Blob(names[0])|
    requires q == Drop(p, |Print(names[0])|)
    ensures q <= Flat(Printing(), names[1..])
    ensures |q| == if |p| < |Print(names[0])| then 0 else |p| - |Print(names[0])|
    ensures Reading(lossy)(p) == Ok((names[0], |Print(names[0])|))
  {
    FlatOne(names);
    RestOfCut(Blob(names[0]), Zeros(Padding(|names[0]|)), Flat(Printing(), names[1..]), p, q);
    ReadsCutRecord(lossy, names[0], p);
  }

  lemma {:induction false} CutRecords(lossy: Symbol -> Symbol, names: seq<Symbol>, p: seq<byte>)
    requires forall s :: s in names ==> Storable(lossy, s)
    requires p <= Flat(Printing(), names)
    ensures |p| + FinalPadding(names) >= |Flat(Printing(), names)|
            ==> ReadMany(Reading(lossy), p, |names|) == Ok(names)
    ensures |p| + FinalPadding(names) < |Flat(Printing(), names)|
            ==> ReadMany(Reading(lossy), p, |names|) == Err(BufferTooSmall)
    decreases |names|
  {
    if names == [] {
    } else {
      var s, tail := names[0], names[1..];
      assert names == [s] + tail;
      FlatOne(names);
      if |p| < |Blob(s)| {
        CutInFirst(lossy, names, p);
      } else {
        var q := Drop(p, |Print(s)|);
        CutBehindFirst(lossy, names, p, q);
        ReadOneMore(Reading(lossy), p, |names|, s, |Print(s)|);
        CutRecords(lossy, tail, q);
      }
    }
  }

  /** A strict prefix of a print is accepted exactly when it only cuts padding after the last string. */
  lemma PrefixAcceptance(lossy: Symbol -> Symbol, names: seq<Symbol>, p: seq<byte>)
    requires |names| < U32_LIMIT && forall s :: s in names ==> Storable(lossy, s)
    requires p < PrintSection(names)
    ensures ParseNames(lossy, p).Ok? <==> |p| >= |PrintSection(names)| - FinalPadding(names)
    ensures ParseNames(lossy, p).Ok? ==> ParseNames(lossy, p).value == names
  {
    var body := Flat(Printing(), names);
    assert PrintSection(names) == Len32(|names|) + body;
    if |p| >= 4 {
      assert p[..4] == (Len32(|names|) + body)[..4] == Len32(|names|);
      assert p[4..] <= body;
      CountRoundTrip(|names|);
      CutRecords(lossy, names, p[4..]);
    }
  }

  // ---------------------------------------------------------------------
  // Where the strings stand.
  // ---------------------------------------------------------------------

  /** Bytes before string `i` in the body of a section: a length, the string and zeros up to a multiple of four each. */
  function StringPos(b: seq<byte>, i: nat): nat {
    if i == 0 then 0
    else
      var p := StringPos(b, i - 1);
      if p + 4 <= |b| then p + 4 + FromLe(b[p..p + 4]) + (4 - FromLe(b[p..p + 4]) % 4) % 4 else p
  }

  /** `name` is what lossy decoding makes of the string whose length stands at `p`. */
  ghost predicate DecodedAt(lossy: Symbol -> Symbol, b: seq<byte>, p: nat, name: Symbol) {
    p + 4 <= |b| && p + 4 + FromLe(b[p..p + 4]) <= |b| && name == lossy(b[p + 4..p + 4 + FromLe(b[p..p + 4])])
  }

  ghost predicate NameAt(lossy: Symbol -> Symbol, b: seq<byte>, names: seq<Symbol>, i: nat)
    requires i < |names|
  {
    DecodedAt(lossy, b, StringPos(b, i), names[i])
  }

  lemma ParseMeans(lossy: Symbol -> Symbol, b: seq<byte>, p: nat)
    ensures var r := Parse(lossy, Drop(b, p));
            && (r.Ok? <==> p + 4 <= |b| && p + 4 + FromLe(b[p..p + 4]) <= |b|)
            && (r.Ok? ==>
                  var n := FromLe(b[p..p + 4]);
                  r.value == (lossy(b[p + 4..p + 4 + n]), 4 + n + (4 - n % 4) % 4))
  {
    if p + 4 <= |b| {
      assert Drop(b, p)[..4] == b[p..p + 4];
      var n := FromLe(b[p..p + 4]);
      if p + 4 + n <= |b| { assert Drop(b, p)[4..4 + n] == b[p + 4..p + 4 + n]; }
    }
  }

  lemma PosFollows(lossy: Symbol -> Symbol, b: seq<byte>, j: nat)
    ensures var r := Parse(lossy, Drop(b, StringPos(b, j)));
            r.Ok? ==> StringPos(b, j + 1) == StringPos(b, j) + r.value.1
  {
    ParseMeans(lossy, b, StringPos(b, j));
  }

  lemma StringsAreFollowed(lossy: Symbol -> Symbol, b: seq<byte>, names: seq<Symbol>, i: nat)
    requires ReadMany(Reading(lossy), b, |names|) == Ok(names) && i < |names|
    ensures Cursor(Reading(lossy), b, i) == StringPos(b, i)
  {
    var dec, pos := Reading(lossy), (j: nat) => StringPos(b, j);
    forall j | 0 <= j < i ensures dec(Drop(b, Cursor(dec, b, j))).Ok? {
      ReadManyAt(dec, b, |names|, names, j);
    }
    forall j: nat ensures dec(Drop(b, pos(j))).Ok? ==> pos(j + 1) == pos(j) + dec(Drop(b, pos(j))).value.1 {
      PosFollows(lossy, b, j);
    }
    CursorIs(dec, b, pos, i);
  }

  lemma ParsedIsDecoded(lossy: Symbol -> Symbol, b: seq<byte>, p: nat, name: Symbol)
    requires Parse(lossy, Drop(b, p)).Ok? && Parse(lossy, Drop(b, p)).value.0 == name
    ensures DecodedAt(lossy, b, p, name)
  {
    ParseMeans(lossy, b, p);
  }

  lemma StringStands(lossy: Symbol -> Symbol, b: seq<byte>, names: seq<Symbol>, i: nat)
    requires ReadMany(Reading(lossy), b, |names|) == Ok(names) && i < |names|
    ensures NameAt(lossy, b, names, i)
  {
    StringsAreFollowed(lossy, b, names, i);
    ReadManyAt(Reading(lossy), b, |names|, names, i);
    ParsedIsDecoded(lossy, b, Cursor(Reading(lossy), b, i), names[i]);
  }

  /** The names of an accepted section are its strings, decoded, in order; the count comes first. */
  lemma SectionStrings(lossy: Symbol -> Symbol, b: seq<byte>)
    requires ParseNames(lossy, b).Ok?
    ensures var names := ParseNames(lossy, b).value;
            && |b| >= 4 && |names| == FromLe(b[..4])
            && forall i :: 0 <= i < |names| ==> NameAt(lossy, b[4..], names, i)
  {
    var names := ParseNames(lossy, b).value;
    forall i | 0 <= i < |names| ensures NameAt(lossy, b[4..], names, i) {
      StringStands(lossy, b[4..], names, i);
    }
  }

  /** The printed record: length, string, zeros up to a multiple of four. */
  lemma RecordBytes(s: Symbol)
    ensures var n := |s|;
            Print(s) == Len32(n) + s + seq((4 - n % 4) % 4, i => 0)
  {
    assert Padding(|s|) == (4 - |s| % 4) % 4;
  }

  /** What the record of a string takes. */
  function RoundedSize(): Symbol -> nat {
    (s: Symbol) => 4 + |s| + (4 - |s| % 4) % 4
  }

  /** A stored string: its length, itself, and zeros up to a multiple of four. */
  ghost predicate StringAt(b: seq<byte>, at: nat, s: Symbol) {
    At(b, at, Len32(|s|) + s + seq((4 - |s| % 4) % 4, i => 0))
  }

  ghost predicate StringStandsAt(b: seq<byte>, names: seq<Symbol>, i: nat)
    requires i < |names|
  {
    StringAt(b, 4 + Offset(RoundedSize(), names, i), names[i])
  }

  lemma PrintedStringAt(b: seq<byte>, at: nat, s: Symbol)
    requires At(b, at, Print(s))
    ensures StringAt(b, at, s)
  {
    RecordBytes(s);
  }

  lemma StringsStand(b: seq<byte>, names: seq<Symbol>)
    requires ElementsAt(b, 4, Printing(), RoundedSize(), names)
    ensures forall i :: 0 <= i < |names| ==> StringStandsAt(b, names, i)
  {
    forall i | 0 <= i < |names| ensures StringStandsAt(b, names, i) {
      assert ElementAt(b, 4, Printing(), RoundedSize(), names, i);
      PrintedStringAt(b, 4 + Offset(RoundedSize(), names, i), names[i]);
    }
  }

  lemma PrintsRounded(s: Symbol)
    ensures |Printing()(s)| == RoundedSize()(s)
  {
    RecordBytes(s);
  }

  /** The printed section: count, strings. */
  lemma SectionBytes(names: seq<Symbol>)
    ensures var b := PrintSection(names);
            && At(b, 0, Len32(|names|)) && |b| == 4 + Offset(RoundedSize(), names, |names|)
            && forall i :: 0 <= i < |names| ==> StringStandsAt(b, names, i)
  {
    forall s | s in names ensures |Printing()(s)| == RoundedSize()(s) { PrintsRounded(s); }
    CountedAlone(Printing(), RoundedSize(), names);
    StringsStand(PrintSection(names), names);
  }

  // ---------------------------------------------------------------------
  // The section object.
  // ---------------------------------------------------------------------

  class SymbolsSection {
    var stringToSym: map<Symbol, nat>
    var symToString: seq<Symbol>

    function Value(): Table
      reads this
    {
      Table(stringToSym, symToString)
    }

    constructor ()
      ensures Value() == EMPTY
    {
      stringToSym := map[];
      symToString := [];
    }

    method Intern(s: Symbol) returns (id: nat)
      modifies this
      ensures (Value(), id) == Interned(old(Value()), s)
      ensures old(Bijection(Value()) && |symToString| < U32_LIMIT) ==>
        && Bijection(Value()) && old(symToString) <= symToString
        && id < |symToString| && symToString[id] == s
    {
      if Bijection(Value()) && |symToString| < U32_LIMIT { InternKeepsBijection(Value(), s); }
      if s in stringToSym {
        return stringToSym[s];
      }
      id := Truncate32(|symToString|);
      stringToSym := stringToSym[s := id];
      symToString := symToString + [s];
    }

    /** The string of an id: it is found under that id, or under a later one if it is repeated. */
    method Get(id: nat) returns (s: Option<Symbol>)
      ensures Bijection(Value()) ==> (s.Some? <==> exists t :: t in stringToSym && stringToSym[t] == id)
      ensures Bijection(Value()) && s.Some? ==> s.value in stringToSym && stringToSym[s.value] == id
      ensures Readback(Value()) && s.Some? ==> s.value in stringToSym && id <= stringToSym[s.value]
    {
      if id < |symToString| {
        s := Some(symToString[id]);
        if Readback(Value()) { LastPositionWins(symToString, symToString[id]); }
      } else {
        s := None;
      }
    }

    /** A string is found exactly if the section has it, and then at its last position. */
    method Find(s: Symbol) returns (id: Option<nat>)
      ensures Readback(Value()) ==> (id.Some? <==> s in symToString)
      ensures Readback(Value()) && id.Some? ==>
        && id.value < |symToString| && symToString[id.value] == s
        && forall j :: id.value < j < |symToString| ==> symToString[j] != s
    {
      id := if s in stringToSym then Some(stringToSym[s]) else None;
      if Readback(Value()) {
        LastIdsPointBack(symToString);
        if s in symToString { LastPositionWins(symToString, s); }
      }
    }

    method ToBytes() returns (bytes: seq<byte>)
      ensures bytes == PrintSection(symToString)
      ensures |bytes| == SerializedSize(symToString)
    {
      bytes := AppendAll(Printing(), Len32(|symToString|), symToString);
      PrintedSize(symToString);
    }
  }

  /** `from_bytes`: the cursor loop fills the map and the vector together. */
  method SectionFromBytes(lossy: Symbol -> Symbol, bytes: seq<byte>) returns (r: Result<Table>)
    ensures r == ParseSection(lossy, bytes)
  {
    if |bytes| < 4 {
      return Err(BufferTooSmall);
    }
    var count := FromLe(bytes[..4]);
    var names, ids := ReadNames(Reading(lossy), bytes, count);
    r := if names.Ok? then Ok(Table(ids, names.value)) else Err(names.error);
  }

  /** Give `s` the next id and append it. */
  method Push(ids: map<Symbol, nat>, names: seq<Symbol>, s: Symbol)
    returns (ids': map<Symbol, nat>, names': seq<Symbol>)
    requires ids == LastIds(names)
    ensures names' == names + [s] && ids' == LastIds(names')
  {
    LastIdsSnoc(names, s);
    ids', names' := ids[s := Truncate32(|names|)], names + [s];
  }

  /** The cursor loop: it fills the map and the vector together. */
  method ReadNames(dec: Reader<Symbol>, bytes: seq<byte>, count: nat)
    returns (r: Result<seq<Symbol>>, ids: map<Symbol, nat>)
    ensures r == ReadMany(dec, Drop(bytes, 4), count)
    ensures r.Ok? ==> ids == LastIds(r.value)
  {
    ids := map[];
    var names: seq<Symbol> := [];
    var offset := 4;
    ghost var whole := ReadMany(dec, Drop(bytes, 4), count);
    ContinueStart(whole);
    for i := 0 to count
      invariant ids == LastIds(names)
      invariant whole == Continue(names, ReadMany(dec, Drop(bytes, offset), count - i))
    {
      var record := dec(Drop(bytes, offset));
      if record.Err? {
        return Err(record.error), ids;
      }
      ContinueStep(dec, names, Drop(bytes, offset), count - i);
      DropTwice(bytes, offset, record.value.1);
      ids, names := Push(ids, names, record.value.0);
      offset := offset + record.value.1;
    }
    assert names + [] == names;
    r := Ok(names);
  }
}
