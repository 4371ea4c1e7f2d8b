/**
 The canonical form of an atom: the normalised, length-prefixed serialisation
 whose hash is the atom's identity.
 */
module Canonical {
  import opened Bytes
  import opened Codecs
  import opened Sorting

  datatype CanonicalClaim = CanonicalClaim(subject: u32, pred: u32, tag: byte, value: seq<byte>, mask: u32)

  datatype CanonicalEdge = CanonicalEdge(edgeType: u32, target: u64, weight: u32)

  /** The value of a canonical form. Strings are their UTF-8 bytes. */
  datatype Form = Form(
    atomType: u32,
    validFrom: u64,
    validTo: u64,
    symbols: seq<seq<byte>>,
    claims: seq<CanonicalClaim>,
    invariants: seq<byte>,
    evidence: seq<seq<byte>>,
    trust: u32,
    version: seq<byte>,
    tags: seq<seq<byte>>,
    edges: seq<CanonicalEdge>)

  function EmptyForm(atomType: u32): Form {
    Form(atomType, 0, 0, [], [], [], [], 0, [], [], [])
  }

  // ---------------------------------------------------------------------
  // Orders.
  // ---------------------------------------------------------------------

  /** Subject, predicate, tag, value; the qualifier mask does not take part. */
  predicate ClaimLe(a: CanonicalClaim, b: CanonicalClaim) {
    if a.subject != b.subject then a.subject < b.subject
    else if a.pred != b.pred then a.pred < b.pred
    else if a.tag != b.tag then a.tag < b.tag
    else LexLe(a.value, b.value)
  }

  predicate EdgeLe(a: CanonicalEdge, b: CanonicalEdge) {
    if a.edgeType != b.edgeType then a.edgeType < b.edgeType
    else if a.target != b.target then a.target < b.target
    else a.weight <= b.weight
  }

  lemma ClaimPreorder()
    ensures TotalPreorder(ClaimLe)
  {
    forall a, b ensures ClaimLe(a, b) || ClaimLe(b, a) { LexTotal(a.value, b.value); }
    forall a, b, c | ClaimLe(a, b) && ClaimLe(b, c) ensures ClaimLe(a, c) {
      if LexLe(a.value, b.value) && LexLe(b.value, c.value) { LexTransitive(a.value, b.value, c.value); }
    }
  }

  /** Two claims tie exactly when they differ at most in their masks. */
  lemma ClaimTies(a: CanonicalClaim, b: CanonicalClaim)
    ensures ClaimLe(a, b) && ClaimLe(b, a) <==> a == b.(mask := a.mask)
  {
    if ClaimLe(a, b) && ClaimLe(b, a) {
      LexAntisymmetric(a.value, b.value);
    } else {
      LexTotal(a.value, b.value);
    }
  }

  lemma EdgePreorder(edges: seq<CanonicalEdge>)
    ensures TotalPreorder(EdgeLe) && NoTies(EdgeLe, edges)
  {}

  /** With masks zero, as extraction leaves them, no two different claims tie. */
  lemma ZeroMasksDoNotTie(claims: seq<CanonicalClaim>)
    requires forall c :: c in claims ==> c.mask == 0
    ensures NoTies(ClaimLe, claims)
  {
    forall x, y | x in claims && y in claims && ClaimLe(x, y) && ClaimLe(y, x) ensures x == y {
      ClaimTies(x, y);
    }
  }

  // ---------------------------------------------------------------------
  // Serialisation.
  // ---------------------------------------------------------------------

  function PrintClaim(c: CanonicalClaim): seq<byte> {
    Le(4, c.subject) + (Le(4, c.pred) + ([c.tag] + (Blob(c.value) + Le(4, c.mask))))
  }

  function PrintEdge(e: CanonicalEdge): (s: seq<byte>)
    ensures |s| == 16
  {
    Le(4, e.edgeType) + (Le(8, e.target) + Le(4, e.weight))
  }

  function Claims(): Printer<CanonicalClaim> { (c: CanonicalClaim) => PrintClaim(c) }

  function Edges(): Printer<CanonicalEdge> { (e: CanonicalEdge) => PrintEdge(e) }

  function Strings(): Printer<seq<byte>> { (s: seq<byte>) => Blob(s) }

  function Digests(): Printer<seq<byte>> { (h: seq<byte>) => h }

  // The form from a given field to its end.

  function FromEdges(f: Form): seq<byte> { PrintCounted(Edges(), f.edges) }

  function FromTags(f: Form): seq<byte> { PrintCounted(Strings(), f.tags) + FromEdges(f) }

  function FromTrust(f: Form): seq<byte> { Le(4, f.trust) + (Blob(f.version) + FromTags(f)) }

  function FromEvidence(f: Form): seq<byte> { PrintCounted(Digests(), f.evidence) + FromTrust(f) }

  function FromInvariants(f: Form): seq<byte> { Blob(f.invariants) + FromEvidence(f) }

  function FromClaims(f: Form): seq<byte> { PrintCounted(Claims(), f.claims) + FromInvariants(f) }

  function FromSymbols(f: Form): seq<byte> { PrintCounted(Strings(), f.symbols) + FromClaims(f) }

  /** `CanonicalForm::to_bytes`. */
  function FormBytes(f: Form): seq<byte> {
    Le(4, f.atomType) + (Le(8, f.validFrom) + (Le(8, f.validTo) + FromSymbols(f)))
  }

  /** `CanonicalForm::normalize`. */
  function Normal(f: Form): Form {
    f.(claims := Sort(ClaimLe, f.claims),
       evidence := Sort(LexLe, f.evidence),
       tags := Sort(LexLe, f.tags),
       edges := Sort(EdgeLe, f.edges))
  }

  // ---------------------------------------------------------------------
  // The serialisation is injective.
  // ---------------------------------------------------------------------

  /** An encoding after which anything may follow and still be told apart. */
  ghost predicate SelfDelimiting<T(!new)>(enc: Printer<T>, ok: T -> bool) {
    forall x, y, r, s :: ok(x) && ok(y) && enc(x) + r == enc(y) + s ==> x == y && r == s
  }

  /** Equal concatenations whose first parts have equal length agree part by part. */
  lemma CutAt(a: seq<byte>, b: seq<byte>, r: seq<byte>, s: seq<byte>)
    requires |a| == |b| && a + r == b + s
    ensures a == b && r == s
  {
    Seam(a, r);
    Seam(b, s);
  }

  lemma WordCut(w: nat, limit: nat, v: nat, u: nat, r: seq<byte>, s: seq<byte>)
    requires (w, limit) == (4, U32_LIMIT) || (w, limit) == (8, U64_LIMIT)
    requires v < limit && u < limit
    requires Le(w, v) + r == Le(w, u) + s
    ensures v == u && r == s
  {
    CutAt(Le(w, v), Le(w, u), r, s);
    WordRoundTrip(w, v, limit);
    WordRoundTrip(w, u, limit);
  }

  lemma BlobCut(a: seq<byte>, b: seq<byte>, r: seq<byte>, s: seq<byte>)
    requires |a| < U32_LIMIT && |b| < U32_LIMIT
    requires Blob(a) + r == Blob(b) + s
    ensures a == b && r == s
  {
    assert Blob(a) + r == Len32(|a|) + (a + r) && Blob(b) + s == Len32(|b|) + (b + s);
    WordCut(4, U32_LIMIT, |a|, |b|, a + r, b + s);
    CutAt(a, b, r, s);
  }

  lemma {:induction false} FlatCut<T(!new)>(enc: Printer<T>, ok: T -> bool, xs: seq<T>, ys: seq<T>, r: seq<byte>,
                                         s: seq<byte>)
    requires SelfDelimiting(enc, ok)
    requires |xs| == |ys| && (forall x :: x in xs ==> ok(x)) && (forall y :: y in ys ==> ok(y))
    requires Flat(enc, xs) + r == Flat(enc, ys) + s
    ensures xs == ys && r == s
  {
    if xs == [] {
      assert Flat(enc, xs) + r == r && Flat(enc, ys) + s == s;
    } else {
      var tx, ty := Flat(enc, xs[1..]) + r, Flat(enc, ys[1..]) + s;
      assert Flat(enc, xs) + r == enc(xs[0]) + tx && Flat(enc, ys) + s == enc(ys[0]) + ty;
      FlatCut(enc, ok, xs[1..], ys[1..], r, s);
      assert xs == [xs[0]] + xs[1..] && ys == [ys[0]] + ys[1..];
    }
  }

  lemma CountedCut<T(!new)>(enc: Printer<T>, ok: T -> bool, xs: seq<T>, ys: seq<T>, r: seq<byte>, s: seq<byte>)
    requires SelfDelimiting(enc, ok)
    requires |xs| < U32_LIMIT && |ys| < U32_LIMIT
    requires (forall x :: x in xs ==> ok(x)) && (forall y :: y in ys ==> ok(y))
    requires PrintCounted(enc, xs) + r == PrintCounted(enc, ys) + s
    ensures xs == ys && r == s
  {
    assert PrintCounted(enc, xs) + r == Len32(|xs|) + (Flat(enc, xs) + r);
    assert PrintCounted(enc, ys) + s == Len32(|ys|) + (Flat(enc, ys) + s);
    WordCut(4, U32_LIMIT, |xs|, |ys|, Flat(enc, xs) + r, Flat(enc, ys) + s);
    FlatCut(enc, ok, xs, ys, r, s);
  }

  /** A length the 32-bit prefixes can express. */
  predicate Short<T>(s: seq<T>) {
    |s| < U32_LIMIT
  }

  ghost function ShortString(): seq<byte> -> bool { (s: seq<byte>) => Short(s) }

  ghost function ShortClaim(): CanonicalClaim -> bool { (c: CanonicalClaim) => Short(c.value) }

  ghost function AnyEdge(): CanonicalEdge -> bool { (e: CanonicalEdge) => true }

  ghost function IsDigest(): seq<byte> -> bool { (h: seq<byte>) => |h| == 32 }

  lemma ClaimCut(c: CanonicalClaim, d: CanonicalClaim, r: seq<byte>, s: seq<byte>)
    requires Short(c.value) && Short(d.value)
    requires PrintClaim(c) + r == PrintClaim(d) + s
    ensures c == d && r == s
  {
    var c4, d4 := Le(4, c.mask) + r, Le(4, d.mask) + s;
    var c3, d3 := Blob(c.value) + c4, Blob(d.value) + d4;
    var c2, d2 := [c.tag] + c3, [d.tag] + d3;
    var c1, d1 := Le(4, c.pred) + c2, Le(4, d.pred) + d2;
    assert PrintClaim(c) + r == Le(4, c.subject) + c1;
    assert PrintClaim(d) + s == Le(4, d.subject) + d1;
    WordCut(4, U32_LIMIT, c.subject, d.subject, c1, d1);
    WordCut(4, U32_LIMIT, c.pred, d.pred, c2, d2);
    CutAt([c.tag], [d.tag], c3, d3);
    BlobCut(c.value, d.value, c4, d4);
    WordCut(4, U32_LIMIT, c.mask, d.mask, r, s);
  }

  lemma EdgeCut(e: CanonicalEdge, d: CanonicalEdge, r: seq<byte>, s: seq<byte>)
    requires PrintEdge(e) + r == PrintEdge(d) + s
    ensures e == d && r == s
  {
    var e2, d2 := Le(4, e.weight) + r, Le(4, d.weight) + s;
    var e1, d1 := Le(8, e.target) + e2, Le(8, d.target) + d2;
    assert PrintEdge(e) + r == Le(4, e.edgeType) + e1;
    assert PrintEdge(d) + s == Le(4, d.edgeType) + d1;
    WordCut(4, U32_LIMIT, e.edgeType, d.edgeType, e1, d1);
    WordCut(8, U64_LIMIT, e.target, d.target, e2, d2);
    WordCut(4, U32_LIMIT, e.weight, d.weight, r, s);
  }

  lemma StringsCut(a: seq<seq<byte>>, b: seq<seq<byte>>, r: seq<byte>, s: seq<byte>)
    requires Short(a) && Short(b) && (forall x :: x in a ==> Short(x)) && (forall y :: y in b ==> Short(y))
    requires PrintCounted(Strings(), a) + r == PrintCounted(Strings(), b) + s
    ensures a == b && r == s
  {
    forall x: seq<byte>, y: seq<byte>, r: seq<byte>, s: seq<byte> | Short(x) && Short(y) && Blob(x) + r == Blob(y) + s
      ensures x == y && r == s { BlobCut(x, y, r, s); }
    CountedCut(Strings(), ShortString(), a, b, r, s);
  }

  lemma ClaimsCut(a: seq<CanonicalClaim>, b: seq<CanonicalClaim>, r: seq<byte>, s: seq<byte>)
    requires Short(a) && Short(b) && (forall x :: x in a ==> Short(x.value)) && (forall y :: y in b ==> Short(y.value))
    requires PrintCounted(Claims(), a) + r == PrintCounted(Claims(), b) + s
    ensures a == b && r == s
  {
    forall c: CanonicalClaim, d: CanonicalClaim, r, s
      | Short(c.value) && Short(d.value) && PrintClaim(c) + r == PrintClaim(d) + s
      ensures c == d && r == s { ClaimCut(c, d, r, s); }
    CountedCut(Claims(), ShortClaim(), a, b, r, s);
  }

  lemma EdgesCut(a: seq<CanonicalEdge>, b: seq<CanonicalEdge>)
    requires Short(a) && Short(b) && PrintCounted(Edges(), a) == PrintCounted(Edges(), b)
    ensures a == b
  {
    forall e: CanonicalEdge, d: CanonicalEdge, r, s | PrintEdge(e) + r == PrintEdge(d) + s
      ensures e == d && r == s { EdgeCut(e, d, r, s); }
    assert PrintCounted(Edges(), a) + [] == PrintCounted(Edges(), a);
    assert PrintCounted(Edges(), b) + [] == PrintCounted(Edges(), b);
    CountedCut(Edges(), AnyEdge(), a, b, [], []);
  }

  lemma DigestsCut(a: seq<seq<byte>>, b: seq<seq<byte>>, r: seq<byte>, s: seq<byte>)
    requires Short(a) && Short(b) && (forall x :: x in a ==> |x| == 32) && (forall y :: y in b ==> |y| == 32)
    requires PrintCounted(Digests(), a) + r == PrintCounted(Digests(), b) + s
    ensures a == b && r == s
  {
    forall x: seq<byte>, y: seq<byte>, r: seq<byte>, s: seq<byte> | |x| == |y| == 32 && x + r == y + s
      ensures x == y && r == s { CutAt(x, y, r, s); }
    CountedCut(Digests(), IsDigest(), a, b, r, s);
  }

  /** Every length fits its 32-bit prefix and every evidence hash has 32 bytes. */
  ghost predicate Encodable(f: Form) {
    && Short(f.symbols) && (forall s :: s in f.symbols ==> Short(s))
    && Short(f.claims) && (forall c :: c in f.claims ==> Short(c.value))
    && Short(f.invariants)
    && Short(f.evidence) && (forall h :: h in f.evidence ==> |h| == 32)
    && Short(f.version)
    && Short(f.tags) && (forall t :: t in f.tags ==> Short(t))
    && Short(f.edges)
  }

  lemma TagsOnInjective(f: Form, g: Form)
    requires Encodable(f) && Encodable(g) && FromTags(f) == FromTags(g)
    ensures f.tags == g.tags && f.edges == g.edges
  {
    StringsCut(f.tags, g.tags, FromEdges(f), FromEdges(g));
    EdgesCut(f.edges, g.edges);
  }

  lemma InvariantsOnInjective(f: Form, g: Form)
    requires Encodable(f) && Encodable(g) && FromInvariants(f) == FromInvariants(g)
    ensures f.invariants == g.invariants && f.evidence == g.evidence
    ensures f.trust == g.trust && f.version == g.version
    ensures FromTags(f) == FromTags(g)
  {
    BlobCut(f.invariants, g.invariants, FromEvidence(f), FromEvidence(g));
    DigestsCut(f.evidence, g.evidence, FromTrust(f), FromTrust(g));
    WordCut(4, U32_LIMIT, f.trust, g.trust, Blob(f.version) + FromTags(f), Blob(g.version) + FromTags(g));
    BlobCut(f.version, g.version, FromTags(f), FromTags(g));
  }

  lemma SymbolsAndClaimsInjective(f: Form, g: Form)
    requires Encodable(f) && Encodable(g) && FromSymbols(f) == FromSymbols(g)
    ensures f.symbols == g.symbols && f.claims == g.claims
    ensures FromInvariants(f) == FromInvariants(g)
  {
    StringsCut(f.symbols, g.symbols, FromClaims(f), FromClaims(g));
    ClaimsCut(f.claims, g.claims, FromInvariants(f), FromInvariants(g));
  }

  lemma ScalarsInjective(f: Form, g: Form)
    requires FormBytes(f) == FormBytes(g)
    ensures f.atomType == g.atomType && f.validFrom == g.validFrom && f.validTo == g.validTo
    ensures FromSymbols(f) == FromSymbols(g)
  {
    var f2, g2 := Le(8, f.validTo) + FromSymbols(f), Le(8, g.validTo) + FromSymbols(g);
    WordCut(4, U32_LIMIT, f.atomType, g.atomType, Le(8, f.validFrom) + f2, Le(8, g.validFrom) + g2);
    WordCut(8, U64_LIMIT, f.validFrom, g.validFrom, f2, g2);
    WordCut(8, U64_LIMIT, f.validTo, g.validTo, FromSymbols(f), FromSymbols(g));
  }

  /** Different forms have different bytes. */
  lemma FormBytesInjective(f: Form, g: Form)
    requires Encodable(f) && Encodable(g)
    ensures FormBytes(f) == FormBytes(g) <==> f == g
  {
    if FormBytes(f) == FormBytes(g) {
      ScalarsInjective(f, g);
      SymbolsAndClaimsInjective(f, g);
      InvariantsOnInjective(f, g);
      TagsOnInjective(f, g);
    }
  }

  // ---------------------------------------------------------------------
  // What the canonical bytes mean.
  // ---------------------------------------------------------------------

  function CanonicalBytes(f: Form): seq<byte> {
    FormBytes(Normal(f))
  }

  /** Equal scalars, symbols, invariants and version; the four lists equal as multisets. */
  ghost predicate SameContent(f: Form, g: Form) {
    && f.atomType == g.atomType && f.validFrom == g.validFrom && f.validTo == g.validTo
    && f.symbols == g.symbols
    && f.invariants == g.invariants
    && f.trust == g.trust && f.version == g.version
    && Permutation(f.claims, g.claims)
    && Permutation(f.evidence, g.evidence)
    && Permutation(f.tags, g.tags)
    && Permutation(f.edges, g.edges)
  }

  lemma NormalKeepsContent(f: Form)
    ensures SameContent(Normal(f), f)
    ensures Encodable(f) ==> Encodable(Normal(f))
  {
    SortPermutes(ClaimLe, f.claims);
    SortPermutes(LexLe, f.evidence);
    SortPermutes(LexLe, f.tags);
    SortPermutes(EdgeLe, f.edges);
    SameElements(Normal(f).claims, f.claims);
    SameElements(Normal(f).evidence, f.evidence);
    SameElements(Normal(f).tags, f.tags);
  }

  lemma NormalCharacterisesContent(f: Form, g: Form)
    requires NoTies(ClaimLe, f.claims)
    ensures Normal(f) == Normal(g) <==> SameContent(f, g)
  {
    ClaimPreorder();
    LexPreorder();
    EdgePreorder(f.edges);
    LexNoTies(f.evidence);
    LexNoTies(f.tags);
    SortCharacterisesContents(ClaimLe, f.claims, g.claims);
    SortCharacterisesContents(LexLe, f.evidence, g.evidence);
    SortCharacterisesContents(LexLe, f.tags, g.tags);
    SortCharacterisesContents(EdgeLe, f.edges, g.edges);
  }

  /** Canonical bytes are equal exactly when the logical contents are. */
  lemma CanonicalBytesCharacteriseContent(f: Form, g: Form)
    requires Encodable(f) && Encodable(g)
    requires NoTies(ClaimLe, f.claims)
    ensures CanonicalBytes(f) == CanonicalBytes(g) <==> SameContent(f, g)
  {
    NormalKeepsContent(f);
    NormalKeepsContent(g);
    FormBytesInjective(Normal(f), Normal(g));
    NormalCharacterisesContent(f, g);
  }

  /** The claim order of a form is invisible exactly when no two claims differ only in their masks. */
  lemma ClaimOrderInvisibleIffNoTies(f: Form)
    requires Encodable(f)
    ensures (forall cs :: Permutation(f.claims, cs) ==> CanonicalBytes(f.(claims := cs)) == CanonicalBytes(f))
       <==> NoTies(ClaimLe, f.claims)
  {
    ClaimPreorder();
    forall cs | Permutation(f.claims, cs)
      ensures CanonicalBytes(f.(claims := cs)) == CanonicalBytes(f) <==> Sort(ClaimLe, cs) == Sort(ClaimLe, f.claims)
    {
      var g := f.(claims := cs);
      SameElements(f.claims, cs);
      assert |multiset(f.claims)| == |multiset(cs)|;
      NormalKeepsContent(f);
      NormalKeepsContent(g);
      FormBytesInjective(Normal(f), Normal(g));
    }
    SortBlindIffNoTies(ClaimLe, f.claims);
  }

  // ---------------------------------------------------------------------
  // The order of the normal form, key by key.
  // ---------------------------------------------------------------------

  /** Subject first, then predicate, tag and value. */
  ghost predicate ClaimKeysInOrder(a: CanonicalClaim, b: CanonicalClaim) {
    || a.subject < b.subject
    || (a.subject == b.subject && a.pred < b.pred)
    || (a.subject == b.subject && a.pred == b.pred && a.tag < b.tag)
    || (a.subject == b.subject && a.pred == b.pred && a.tag == b.tag && FirstDifferenceLess(a.value, b.value))
  }

  /** Edge type first, then target and weight. */
  predicate EdgeKeysInOrder(a: CanonicalEdge, b: CanonicalEdge) {
    || a.edgeType < b.edgeType
    || (a.edgeType == b.edgeType && a.target < b.target)
    || (a.edgeType == b.edgeType && a.target == b.target && a.weight <= b.weight)
  }

  ghost predicate InOrder(n: Form) {
    && (forall i, j :: 0 <= i < j < |n.claims| ==> ClaimKeysInOrder(n.claims[i], n.claims[j]))
    && (forall i, j :: 0 <= i < j < |n.evidence| ==> FirstDifferenceLess(n.evidence[i], n.evidence[j]))
    && (forall i, j :: 0 <= i < j < |n.tags| ==> FirstDifferenceLess(n.tags[i], n.tags[j]))
    && (forall i, j :: 0 <= i < j < |n.edges| ==> EdgeKeysInOrder(n.edges[i], n.edges[j]))
  }

  /** The normal form has the same content, with the four lists in order. */
  lemma NormalFormIsOrdered(f: Form)
    ensures InOrder(Normal(f)) && SameContent(Normal(f), f)
  {
    NormalKeepsContent(f);
    ClaimPreorder();
    LexPreorder();
    EdgePreorder(f.edges);
    SortSorted(ClaimLe, f.claims);
    SortSorted(LexLe, f.evidence);
    SortSorted(LexLe, f.tags);
    SortSorted(EdgeLe, f.edges);
    var n := Normal(f);
    forall i, j | 0 <= i < j < |n.claims| ensures ClaimKeysInOrder(n.claims[i], n.claims[j]) {
      LexMeans(n.claims[i].value, n.claims[j].value);
    }
    forall i, j | 0 <= i < j < |n.evidence| ensures FirstDifferenceLess(n.evidence[i], n.evidence[j]) {
      LexMeans(n.evidence[i], n.evidence[j]);
    }
    forall i, j | 0 <= i < j < |n.tags| ensures FirstDifferenceLess(n.tags[i], n.tags[j]) {
      LexMeans(n.tags[i], n.tags[j]);
    }
  }

  // ---------------------------------------------------------------------
  // Where every field stands in the serialised form.
  // ---------------------------------------------------------------------

  function StringSize(): seq<byte> -> nat { (s: seq<byte>) => 4 + |s| }

  function DigestSize(): seq<byte> -> nat { (h: seq<byte>) => |h| }

  function ClaimSize(): CanonicalClaim -> nat { (c: CanonicalClaim) => 17 + |c.value| }

  function EdgeSize(): CanonicalEdge -> nat { (e: CanonicalEdge) => 16 }

  // Positions of the counts and lengths.

  function ClaimsPos(f: Form): nat { 24 + Offset(StringSize(), f.symbols, |f.symbols|) }

  function InvariantsPos(f: Form): nat { ClaimsPos(f) + 4 + Offset(ClaimSize(), f.claims, |f.claims|) }

  function EvidencePos(f: Form): nat { InvariantsPos(f) + 4 + |f.invariants| }

  function TrustPos(f: Form): nat { EvidencePos(f) + 4 + Offset(DigestSize(), f.evidence, |f.evidence|) }

  function TagsPos(f: Form): nat { TrustPos(f) + 4 + 4 + |f.version| }

  function EdgesPos(f: Form): nat { TagsPos(f) + 4 + Offset(StringSize(), f.tags, |f.tags|) }

  function EndPos(f: Form): nat { EdgesPos(f) + 4 + 16 * |f.edges| }

  /** A length-prefixed string. */
  ghost predicate StringAt(b: seq<byte>, at: nat, s: seq<byte>) {
    At(b, at, Len32(|s|)) && At(b, at + 4, s)
  }

  ghost predicate ClaimAt(b: seq<byte>, at: nat, c: CanonicalClaim) {
    && At(b, at, Le(4, c.subject)) && At(b, at + 4, Le(4, c.pred)) && At(b, at + 8, [c.tag])
    && At(b, at + 9, Len32(|c.value|)) && At(b, at + 13, c.value) && At(b, at + 13 + |c.value|, Le(4, c.mask))
  }

  ghost predicate EdgeAt(b: seq<byte>, at: nat, e: CanonicalEdge) {
    At(b, at, Le(4, e.edgeType)) && At(b, at + 4, Le(8, e.target)) && At(b, at + 12, Le(4, e.weight))
  }

  // Element `i` of a list whose elements start at `at`.

  ghost predicate StringEntry(b: seq<byte>, at: nat, ss: seq<seq<byte>>, i: nat)
    requires i < |ss|
  {
    StringAt(b, at + Offset(StringSize(), ss, i), ss[i])
  }

  ghost predicate ClaimEntry(b: seq<byte>, at: nat, cs: seq<CanonicalClaim>, i: nat)
    requires i < |cs|
  {
    ClaimAt(b, at + Offset(ClaimSize(), cs, i), cs[i])
  }

  ghost predicate DigestEntry(b: seq<byte>, at: nat, hs: seq<seq<byte>>, i: nat)
    requires i < |hs|
  {
    At(b, at + Offset(DigestSize(), hs, i), hs[i])
  }

  ghost predicate EdgeEntry(b: seq<byte>, at: nat, es: seq<CanonicalEdge>, i: nat)
    requires i < |es|
  {
    EdgeAt(b, at + 16 * i, es[i])
  }

  ghost predicate StringsAt(b: seq<byte>, at: nat, ss: seq<seq<byte>>) {
    forall i :: 0 <= i < |ss| ==> StringEntry(b, at, ss, i)
  }

  ghost predicate ClaimsAt(b: seq<byte>, at: nat, cs: seq<CanonicalClaim>) {
    forall i :: 0 <= i < |cs| ==> ClaimEntry(b, at, cs, i)
  }

  ghost predicate DigestsAt(b: seq<byte>, at: nat, hs: seq<seq<byte>>) {
    forall i :: 0 <= i < |hs| ==> DigestEntry(b, at, hs, i)
  }

  ghost predicate EdgesAt(b: seq<byte>, at: nat, es: seq<CanonicalEdge>) {
    forall i :: 0 <= i < |es| ==> EdgeEntry(b, at, es, i)
  }

  ghost predicate HeadLaid(b: seq<byte>, f: Form) {
    At(b, 0, Le(4, f.atomType)) && At(b, 4, Le(8, f.validFrom)) && At(b, 12, Le(8, f.validTo))
  }

  ghost predicate SymbolsLaid(b: seq<byte>, f: Form) {
    At(b, 20, Len32(|f.symbols|)) && StringsAt(b, 24, f.symbols)
  }

  ghost predicate ClaimsLaid(b: seq<byte>, f: Form) {
    At(b, ClaimsPos(f), Len32(|f.claims|)) && ClaimsAt(b, ClaimsPos(f) + 4, f.claims)
  }

  ghost predicate EvidenceLaid(b: seq<byte>, f: Form) {
    At(b, EvidencePos(f), Len32(|f.evidence|)) && DigestsAt(b, EvidencePos(f) + 4, f.evidence)
  }

  ghost predicate TagsLaid(b: seq<byte>, f: Form) {
    At(b, TagsPos(f), Len32(|f.tags|)) && StringsAt(b, TagsPos(f) + 4, f.tags)
  }

  ghost predicate EdgesLaid(b: seq<byte>, f: Form) {
    At(b, EdgesPos(f), Len32(|f.edges|)) && EdgesAt(b, EdgesPos(f) + 4, f.edges)
  }

  /** The bytes of a form, field by field, from the first byte to the last. */
  ghost predicate LaidOut(b: seq<byte>, f: Form) {
    && |b| == EndPos(f)
    && HeadLaid(b, f) && SymbolsLaid(b, f) && ClaimsLaid(b, f) && StringAt(b, InvariantsPos(f), f.invariants)
    && EvidenceLaid(b, f) && At(b, TrustPos(f), Le(4, f.trust)) && StringAt(b, TrustPos(f) + 4, f.version)
    && TagsLaid(b, f) && EdgesLaid(b, f)
  }

  lemma BlobAt(b: seq<byte>, at: nat, s: seq<byte>)
    requires At(b, at, Blob(s))
    ensures StringAt(b, at, s)
  {
    AtInside(b, at, Blob(s), 0, Len32(|s|));
    AtInside(b, at, Blob(s), 4, s);
  }

  lemma PrintedClaimAt(b: seq<byte>, at: nat, c: CanonicalClaim)
    requires At(b, at, PrintClaim(c))
    ensures ClaimAt(b, at, c)
  {
    var p := PrintClaim(c);
    assert p == Le(4, c.subject) + Le(4, c.pred) + [c.tag] + Len32(|c.value|) + c.value + Le(4, c.mask);
    AtInside(b, at, p, 0, Le(4, c.subject));
    AtInside(b, at, p, 4, Le(4, c.pred));
    AtInside(b, at, p, 8, [c.tag]);
    AtInside(b, at, p, 9, Len32(|c.value|));
    AtInside(b, at, p, 13, c.value);
    AtInside(b, at, p, 13 + |c.value|, Le(4, c.mask));
  }

  lemma PrintedEdgeAt(b: seq<byte>, at: nat, e: CanonicalEdge)
    requires At(b, at, PrintEdge(e))
    ensures EdgeAt(b, at, e)
  {
    AtInside(b, at, PrintEdge(e), 0, Le(4, e.edgeType));
    AtInside(b, at, PrintEdge(e), 4, Le(8, e.target));
    AtInside(b, at, PrintEdge(e), 12, Le(4, e.weight));
  }

  lemma StringEntries(b: seq<byte>, at: nat, ss: seq<seq<byte>>)
    requires ElementsAt(b, at, Strings(), StringSize(), ss)
    ensures StringsAt(b, at, ss)
  {
    forall i | 0 <= i < |ss| ensures StringEntry(b, at, ss, i) {
      assert ElementAt(b, at, Strings(), StringSize(), ss, i);
      BlobAt(b, at + Offset(StringSize(), ss, i), ss[i]);
    }
  }

  lemma ClaimEntries(b: seq<byte>, at: nat, cs: seq<CanonicalClaim>)
    requires ElementsAt(b, at, Claims(), ClaimSize(), cs)
    ensures ClaimsAt(b, at, cs)
  {
    forall i | 0 <= i < |cs| ensures ClaimEntry(b, at, cs, i) {
      assert ElementAt(b, at, Claims(), ClaimSize(), cs, i);
      PrintedClaimAt(b, at + Offset(ClaimSize(), cs, i), cs[i]);
    }
  }

  lemma DigestEntries(b: seq<byte>, at: nat, hs: seq<seq<byte>>)
    requires ElementsAt(b, at, Digests(), DigestSize(), hs)
    ensures DigestsAt(b, at, hs)
  {
    forall i | 0 <= i < |hs| ensures DigestEntry(b, at, hs, i) {
      assert ElementAt(b, at, Digests(), DigestSize(), hs, i);
    }
  }

  lemma {:induction false} EdgeOffset(es: seq<CanonicalEdge>, i: nat)
    requires i <= |es|
    ensures Offset(EdgeSize(), es, i) == 16 * i
  {
    if i == 0 {
    } else {
      EdgeOffset(es, i - 1);
    }
  }

  lemma EdgeEntries(b: seq<byte>, at: nat, es: seq<CanonicalEdge>)
    requires ElementsAt(b, at, Edges(), EdgeSize(), es)
    ensures EdgesAt(b, at, es)
  {
    forall i | 0 <= i < |es| ensures EdgeEntry(b, at, es, i) {
      assert ElementAt(b, at, Edges(), EdgeSize(), es, i);
      EdgeOffset(es, i);
      PrintedEdgeAt(b, at + 16 * i, es[i]);
    }
  }

  // Each field behind `pre` and before `rest`.

  lemma EdgesPlaced(f: Form, pre: seq<byte>, rest: seq<byte>)
    requires |pre| == EdgesPos(f)
    ensures EdgesLaid(pre + (PrintCounted(Edges(), f.edges) + rest), f)
    ensures |pre + PrintCounted(Edges(), f.edges)| == EndPos(f)
  {
    CountedAt(Edges(), EdgeSize(), f.edges, pre, rest);
    EdgeOffset(f.edges, |f.edges|);
    EdgeEntries(pre + (PrintCounted(Edges(), f.edges) + rest), EdgesPos(f) + 4, f.edges);
  }

  lemma StringsPlaced(ss: seq<seq<byte>>, pre: seq<byte>, rest: seq<byte>)
    ensures var b := pre + (PrintCounted(Strings(), ss) + rest);
            && At(b, |pre|, Len32(|ss|))
            && StringsAt(b, |pre| + 4, ss)
    ensures |pre + PrintCounted(Strings(), ss)| == |pre| + 4 + Offset(StringSize(), ss, |ss|)
  {
    CountedAt(Strings(), StringSize(), ss, pre, rest);
    StringEntries(pre + (PrintCounted(Strings(), ss) + rest), |pre| + 4, ss);
  }

  lemma EvidencePlaced(f: Form, pre: seq<byte>, rest: seq<byte>)
    requires |pre| == EvidencePos(f)
    ensures EvidenceLaid(pre + (PrintCounted(Digests(), f.evidence) + rest), f)
    ensures |pre + PrintCounted(Digests(), f.evidence)| == TrustPos(f)
  {
    CountedAt(Digests(), DigestSize(), f.evidence, pre, rest);
    DigestEntries(pre + (PrintCounted(Digests(), f.evidence) + rest), EvidencePos(f) + 4, f.evidence);
  }

  lemma ClaimsPlaced(f: Form, pre: seq<byte>, rest: seq<byte>)
    requires |pre| == ClaimsPos(f)
    ensures ClaimsLaid(pre + (PrintCounted(Claims(), f.claims) + rest), f)
    ensures |pre + PrintCounted(Claims(), f.claims)| == InvariantsPos(f)
  {
    CountedAt(Claims(), ClaimSize(), f.claims, pre, rest);
    ClaimEntries(pre + (PrintCounted(Claims(), f.claims) + rest), ClaimsPos(f) + 4, f.claims);
  }

  lemma BlobPlaced(s: seq<byte>, pre: seq<byte>, rest: seq<byte>)
    ensures StringAt(pre + (Blob(s) + rest), |pre|, s)
  {
    Surrounded(pre, Blob(s), rest, 0, Blob(s));
    BlobAt(pre + (Blob(s) + rest), |pre|, s);
  }

  lemma HeadPlaced(f: Form, head: seq<byte>, rest: seq<byte>)
    requires head == Le(4, f.atomType) + Le(8, f.validFrom) + Le(8, f.validTo)
    ensures HeadLaid(head + rest, f)
  {
    AtBefore(head, rest, 0, Le(4, f.atomType));
    AtBefore(head, rest, 4, Le(8, f.validFrom));
    AtBefore(head, rest, 12, Le(8, f.validTo));
  }

  lemma Regroup(pre: seq<byte>, x: seq<byte>, rest: seq<byte>)
    ensures pre + (x + rest) == (pre + x) + rest
  {}

  lemma HeadGroup(a: seq<byte>, b: seq<byte>, c: seq<byte>, rest: seq<byte>)
    ensures a + (b + (c + rest)) == (a + b + c) + rest
  {}

  /** `b` is `pre` followed by what is printed from the edges on, and so on down to the symbols. */
  lemma FromEdgesLaid(f: Form, b: seq<byte>, pre: seq<byte>)
    requires |pre| == EdgesPos(f) && b == pre + FromEdges(f)
    ensures EdgesLaid(b, f) && |b| == EndPos(f)
  {
    EdgesPlaced(f, pre, []);
    assert PrintCounted(Edges(), f.edges) + [] == FromEdges(f);
  }

  lemma FromTagsLaid(f: Form, b: seq<byte>, pre: seq<byte>, rest: seq<byte>)
    requires |pre| == TagsPos(f) && rest == FromEdges(f) && b == pre + (PrintCounted(Strings(), f.tags) + rest)
    ensures TagsLaid(b, f) && EdgesLaid(b, f) && |b| == EndPos(f)
  {
    StringsPlaced(f.tags, pre, rest);
    Regroup(pre, PrintCounted(Strings(), f.tags), rest);
    FromEdgesLaid(f, b, pre + PrintCounted(Strings(), f.tags));
  }

  lemma FromTrustLaid(f: Form, b: seq<byte>, pre: seq<byte>, rest: seq<byte>)
    requires |pre| == TrustPos(f) && rest == FromTags(f) && b == pre + (Le(4, f.trust) + (Blob(f.version) + rest))
    ensures At(b, TrustPos(f), Le(4, f.trust)) && StringAt(b, TrustPos(f) + 4, f.version)
    ensures TagsLaid(b, f) && EdgesLaid(b, f) && |b| == EndPos(f)
  {
    var trust := Le(4, f.trust);
    TrustPlaced(trust, f.version, pre, rest, b);
    FromTagsLaid(f, b, pre + trust + Blob(f.version), FromEdges(f));
  }

  lemma TrustPlaced(trust: seq<byte>, version: seq<byte>, pre: seq<byte>, rest: seq<byte>, b: seq<byte>)
    requires b == pre + (trust + (Blob(version) + rest))
    ensures At(b, |pre|, trust) && StringAt(b, |pre| + |trust|, version)
    ensures b == (pre + trust + Blob(version)) + rest
  {
    Surrounded(pre, trust, Blob(version) + rest, 0, trust);
    Regroup(pre, trust, Blob(version) + rest);
    BlobPlaced(version, pre + trust, rest);
    Regroup(pre + trust, Blob(version), rest);
  }

  lemma FromEvidenceLaid(f: Form, b: seq<byte>, pre: seq<byte>, rest: seq<byte>)
    requires |pre| == EvidencePos(f) && rest == FromTrust(f) && b == pre + (PrintCounted(Digests(), f.evidence) + rest)
    ensures EvidenceLaid(b, f) && At(b, TrustPos(f), Le(4, f.trust)) && StringAt(b, TrustPos(f) + 4, f.version)
    ensures TagsLaid(b, f) && EdgesLaid(b, f) && |b| == EndPos(f)
  {
    EvidencePlaced(f, pre, rest);
    Regroup(pre, PrintCounted(Digests(), f.evidence), rest);
    FromTrustLaid(f, b, pre + PrintCounted(Digests(), f.evidence), FromTags(f));
  }

  /** What is laid behind the claims. */
  ghost predicate TailLaid(b: seq<byte>, f: Form) {
    && StringAt(b, InvariantsPos(f), f.invariants) && EvidenceLaid(b, f)
    && At(b, TrustPos(f), Le(4, f.trust)) && StringAt(b, TrustPos(f) + 4, f.version)
    && TagsLaid(b, f) && EdgesLaid(b, f) && |b| == EndPos(f)
  }

  lemma FromInvariantsLaid(f: Form, b: seq<byte>, pre: seq<byte>, rest: seq<byte>)
    requires |pre| == InvariantsPos(f) && rest == FromEvidence(f) && b == pre + (Blob(f.invariants) + rest)
    ensures TailLaid(b, f)
  {
    BlobPlaced(f.invariants, pre, rest);
    Regroup(pre, Blob(f.invariants), rest);
    FromEvidenceLaid(f, b, pre + Blob(f.invariants), FromTrust(f));
  }

  lemma FromClaimsLaid(f: Form, b: seq<byte>, pre: seq<byte>, rest: seq<byte>)
    requires |pre| == ClaimsPos(f) && rest == FromInvariants(f) && b == pre + (PrintCounted(Claims(), f.claims) + rest)
    ensures ClaimsLaid(b, f) && TailLaid(b, f)
  {
    ClaimsPlaced(f, pre, rest);
    Regroup(pre, PrintCounted(Claims(), f.claims), rest);
    FromInvariantsLaid(f, b, pre + PrintCounted(Claims(), f.claims), FromEvidence(f));
  }

  lemma FromSymbolsLaid(f: Form, b: seq<byte>, pre: seq<byte>, rest: seq<byte>)
    requires |pre| == 20 && rest == FromClaims(f) && b == pre + (PrintCounted(Strings(), f.symbols) + rest)
    ensures SymbolsLaid(b, f) && ClaimsLaid(b, f) && TailLaid(b, f)
  {
    StringsPlaced(f.symbols, pre, rest);
    Regroup(pre, PrintCounted(Strings(), f.symbols), rest);
    FromClaimsLaid(f, b, pre + PrintCounted(Strings(), f.symbols), FromInvariants(f));
  }

  /** The serialised form has every field in its place. */
  lemma FormIsLaidOut(f: Form)
    ensures LaidOut(FormBytes(f), f)
  {
    var head := Le(4, f.atomType) + Le(8, f.validFrom) + Le(8, f.validTo);
    HeadGroup(Le(4, f.atomType), Le(8, f.validFrom), Le(8, f.validTo), FromSymbols(f));
    HeadPlaced(f, head, FromSymbols(f));
    FromSymbolsLaid(f, FormBytes(f), head, FromClaims(f));
  }

  // ---------------------------------------------------------------------
  // The form object.
  // ---------------------------------------------------------------------

  lemma AfterInvariants(buf: seq<byte>, f: Form)
    ensures buf + FromInvariants(f) == (buf + Blob(f.invariants)) + FromEvidence(f)
  {}

  lemma AfterVersion(buf: seq<byte>, f: Form)
    ensures buf + FromTrust(f) == (buf + Le(4, f.trust) + Blob(f.version)) + FromTags(f)
  {}

  class CanonicalForm {
    var atomType: u32
    var validFrom: u64
    var validTo: u64
    var symbols: seq<seq<byte>>
    var claims: seq<CanonicalClaim>
    var invariants: seq<byte>
    var evidence: seq<seq<byte>>
    var trust: u32
    var version: seq<byte>
    var tags: seq<seq<byte>>
    var edges: seq<CanonicalEdge>

    function Value(): Form
      reads this
    {
      Form(atomType, validFrom, validTo, symbols, claims, invariants, evidence, trust, version, tags, edges)
    }

    constructor (atomType: u32)
      ensures Value() == EmptyForm(atomType)
    {
      this.atomType := atomType;
      validFrom, validTo, trust := 0, 0, 0;
      symbols, claims, evidence, tags, edges := [], [], [], [], [];
      invariants, version := [], [];
    }

    /** Sorts the four lists in place. */
    method Normalize()
      modifies this
      ensures Value() == Normal(old(Value()))
      ensures SameContent(Value(), old(Value())) && InOrder(Value())
    {
      NormalFormIsOrdered(Value());
      claims := Sort(ClaimLe, claims);
      evidence := Sort(LexLe, evidence);
      tags := Sort(LexLe, tags);
      edges := Sort(EdgeLe, edges);
    }

    method ToBytes() returns (buf: seq<byte>)
      ensures buf == FormBytes(Value())
      ensures LaidOut(buf, Value())
    {
      buf := AppendFields();
      FormIsLaidOut(Value());
    }

    method AppendFields() returns (buf: seq<byte>)
      ensures buf == FormBytes(Value())
    {
      ghost var f := Value();
      buf := Le(4, atomType);
      buf := buf + Le(8, validFrom);
      buf := buf + Le(8, validTo);
      assert buf + FromSymbols(f) == FormBytes(f);
      buf := AppendCounted(Strings(), buf, symbols, FromClaims(f));
      buf := AppendCounted(Claims(), buf, claims, FromInvariants(f));
      AfterInvariants(buf, f);
      buf := buf + Blob(invariants);
      buf := AppendCounted(Digests(), buf, evidence, FromTrust(f));
      AfterVersion(buf, f);
      buf := buf + Le(4, trust) + Blob(version);
      buf := AppendCounted(Strings(), buf, tags, FromEdges(f));
      buf := AppendCounted(Edges(), buf, edges, []);
      assert FromEdges(f) + [] == FromEdges(f) && buf + [] == buf;
    }
  }

  /** Append a count and its records; `rest` is what the caller still has to append. */
  method AppendCounted<T>(enc: Printer<T>, head: seq<byte>, xs: seq<T>, ghost rest: seq<byte>) returns (buf: seq<byte>)
    ensures buf == head + PrintCounted(enc, xs)
    ensures buf + rest == head + (PrintCounted(enc, xs) + rest)
  {
    buf := AppendAll(enc, head + Len32(|xs|), xs);
    assert buf == head + PrintCounted(enc, xs);
  }
}
