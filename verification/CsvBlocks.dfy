/**
 Rows printed atom after atom: each atom has a block of consecutive rows, and a row without id
 has a key made of its position. When do the groups of the rows give the atoms back?
 */
module CsvBlocks {
  import opened Results
  import opened FirstSeen
  import opened CsvGroups

  // ---------------------------------------------------------------------
  // Blocks end to end.
  // ---------------------------------------------------------------------

  function Joined<R>(parts: seq<seq<R>>): seq<R> {
    if parts == [] then [] else Joined(parts[..|parts| - 1]) + parts[|parts| - 1]
  }

  /** Position of the first row of block `j`. */
  function Start<R>(parts: seq<seq<R>>, j: nat): nat
    requires j <= |parts|
  {
    |Joined(parts[..j])|
  }

  lemma JoinedSnoc<R>(init: seq<seq<R>>, last: seq<R>)
    ensures Joined(init + [last]) == Joined(init) + last
  {
    assert (init + [last])[..|init|] == init;
  }

  lemma StartNext<R>(parts: seq<seq<R>>, j: nat)
    requires j < |parts|
    ensures Start(parts, j + 1) == Start(parts, j) + |parts[j]|
  {
    assert parts[..j + 1] == parts[..j] + [parts[j]];
    JoinedSnoc(parts[..j], parts[j]);
  }

  lemma {:induction false} StartsGrow<R>(parts: seq<seq<R>>, j: nat, k: nat)
    requires j < k <= |parts|
    ensures Start(parts, j) + |parts[j]| <= Start(parts, k)
  {
    StartNext(parts, k - 1);
    if j < k - 1 { StartsGrow(parts, j, k - 1); }
  }

  lemma {:induction false} JoinedAt<R>(parts: seq<seq<R>>, j: nat, i: nat)
    requires j < |parts| && i < |parts[j]|
    ensures Start(parts, j) + i < |Joined(parts)| && Joined(parts)[Start(parts, j) + i] == parts[j][i]
  {
    var init := parts[..|parts| - 1];
    if j < |init| {
      JoinedAt(init, j, i);
      assert init[..j] == parts[..j];
    }
  }

  lemma {:induction false} BlockOf<R>(parts: seq<seq<R>>, r: nat) returns (j: nat, i: nat)
    requires r < |Joined(parts)|
    ensures j < |parts| && i < |parts[j]| && r == Start(parts, j) + i && Joined(parts)[r] == parts[j][i]
  {
    var init := parts[..|parts| - 1];
    if r < |Joined(init)| {
      j, i := BlockOf(init, r);
      assert init[..j] == parts[..j];
    } else {
      j, i := |init|, r - |Joined(init)|;
    }
  }

  // ---------------------------------------------------------------------
  // Counting.
  // ---------------------------------------------------------------------

  function Sum(ns: seq<nat>): nat {
    if ns == [] then 0 else Sum(ns[..|ns| - 1]) + ns[|ns| - 1]
  }

  lemma {:induction false} SumsForceEqual(small: seq<nat>, large: seq<nat>)
    requires |small| == |large| && forall i :: 0 <= i < |small| ==> small[i] <= large[i]
    ensures Sum(small) <= Sum(large)
    ensures Sum(small) == Sum(large) ==> small == large
  {
    if small == [] {
    } else {
      var n := |small| - 1;
      SumsForceEqual(small[..n], large[..n]);
      assert small == small[..n] + [small[n]] && large == large[..n] + [large[n]];
    }
  }

  function Lengths<R>(parts: seq<seq<R>>): seq<nat> {
    seq(|parts|, j requires 0 <= j < |parts| => |parts[j]|)
  }

  lemma {:induction false} JoinedLength<R>(parts: seq<seq<R>>)
    ensures |Joined(parts)| == Sum(Lengths(parts))
  {
    if parts == [] {
    } else {
      var init := parts[..|parts| - 1];
      JoinedLength(init);
      assert Lengths(parts)[..|init|] == Lengths(init);
    }
  }

  /** How many rows each of the keys has. */
  function RowCounts(xs: seq<Keyed>, ks: seq<string>): seq<nat> {
    seq(|ks|, i requires 0 <= i < |ks| => |Rows(xs, ks[i])|)
  }

  lemma {:induction false} SumWithOneMore(before: seq<nat>, after: seq<nat>, ks: seq<string>, k: string)
    requires |before| == |after| == |ks| && Distinct(ks)
    requires forall i :: 0 <= i < |ks| ==> after[i] == before[i] + (if ks[i] == k then 1 else 0)
    ensures Sum(after) == Sum(before) + (if k in ks then 1 else 0)
  {
    if ks == [] {
    } else {
      var n := |ks| - 1;
      SumWithOneMore(before[..n], after[..n], ks[..n], k);
      assert ks == ks[..n] + [ks[n]];
    }
  }

  lemma OneMoreRow(xs: seq<Keyed>, x: Keyed, ks: seq<string>)
    requires Distinct(ks)
    ensures Sum(RowCounts(xs + [x], ks)) == Sum(RowCounts(xs, ks)) + (if x.key in ks then 1 else 0)
  {
    var before, after := RowCounts(xs, ks), RowCounts(xs + [x], ks);
    forall i | 0 <= i < |ks| ensures after[i] == before[i] + (if ks[i] == x.key then 1 else 0) {
      RowsSnoc(xs, x, ks[i]);
    }
    SumWithOneMore(before, after, ks, x.key);
  }

  /** Every row is under one of the keys, so the groups have as many rows as there are. */
  lemma {:induction false} AllRowsAreCounted(xs: seq<Keyed>, ks: seq<string>)
    requires Distinct(ks) && forall k :: k in Keys(xs) ==> k in ks
    ensures Sum(RowCounts(xs, ks)) == |xs|
  {
    if xs == [] {
      NothingToCount(ks);
    } else {
      var init, last := xs[..|xs| - 1], xs[|xs| - 1];
      assert xs == init + [last];
      KeysSnoc(init, last);
      AllRowsAreCounted(init, ks);
      OneMoreRow(init, last, ks);
    }
  }

  lemma {:induction false} NothingToCount(ks: seq<string>)
    ensures Sum(RowCounts([], ks)) == 0
  {
    if ks == [] {
    } else {
      NothingToCount(ks[..|ks| - 1]);
      assert RowCounts([], ks)[..|ks| - 1] == RowCounts([], ks[..|ks| - 1]);
    }
  }

  lemma Assoc<T>(a: seq<T>, b: seq<T>, c: seq<T>)
    ensures a + (b + c) == (a + b) + c
  {}

  lemma {:induction false} RowsAppend(xs: seq<Keyed>, ys: seq<Keyed>, k: string)
    ensures Rows(xs + ys, k) == Rows(xs, k) + Rows(ys, k)
  {
    if ys == [] {
      assert xs + ys == xs;
    } else {
      var init, last := ys[..|ys| - 1], ys[|ys| - 1];
      RowsAppend(xs, init, k);
      assert ys == init + [last];
      Assoc(xs, init, [last]);
      RowsSnoc(xs + init, last, k);
      RowsSnoc(init, last, k);
      Assoc(Rows(xs, k), Rows(init, k), [last.entry]);
    }
  }

  function EntriesIn(xs: seq<Keyed>): seq<Entry> {
    seq(|xs|, i requires 0 <= i < |xs| => xs[i].entry)
  }

  /** All of these rows are under the key. */
  predicate Uniform(xs: seq<Keyed>, k: string) {
    forall i :: 0 <= i < |xs| ==> xs[i].key == k
  }

  lemma {:induction false} UniformRows(xs: seq<Keyed>, own: string, k: string)
    requires Uniform(xs, own)
    ensures Rows(xs, k) == if k == own then EntriesIn(xs) else []
  {
    if xs == [] {
    } else {
      var init, last := xs[..|xs| - 1], xs[|xs| - 1];
      UniformRows(init, own, k);
      assert xs == init + [last];
      RowsSnoc(init, last, k);
    }
  }

  lemma CountInThree(left: seq<Keyed>, mid: seq<Keyed>, right: seq<Keyed>, k: string)
    ensures |Rows(left + (mid + right), k)| == |Rows(left, k)| + |Rows(mid, k)| + |Rows(right, k)|
  {
    RowsAppend(left, mid + right, k);
    RowsAppend(mid, right, k);
  }

  lemma RowIsFound(xs: seq<Keyed>, i: nat)
    requires i < |xs|
    ensures |Rows(xs, xs[i].key)| > 0
  {
    assert Keys(xs)[i] == xs[i].key;
    RowsExist(xs, xs[i].key);
  }

  lemma NoRows(xs: seq<Keyed>, k: string)
    requires forall i :: 0 <= i < |xs| ==> xs[i].key != k
    ensures Rows(xs, k) == []
  {
    RowsExist(xs, k);
  }

  lemma MoreThanMiddle(left: seq<Keyed>, mid: seq<Keyed>, right: seq<Keyed>, k: string)
    requires Uniform(mid, k) && (|Rows(left, k)| > 0 || |Rows(right, k)| > 0)
    ensures |Rows(left + (mid + right), k)| > |mid|
  {
    CountInThree(left, mid, right, k);
    UniformRows(mid, k, k);
  }

  /** A block of rows under a key, and one more row under it elsewhere. */
  lemma OneMoreElsewhere(xs: seq<Keyed>, a: nat, n: nat, k: string, i: nat)
    requires a + n <= |xs| && Uniform(xs[a..a + n], k)
    requires i < |xs| && !(a <= i < a + n) && xs[i].key == k
    ensures |Rows(xs, k)| > n
  {
    var left, mid, right := xs[..a], xs[a..a + n], xs[a + n..];
    if i < a { RowIsFound(left, i); } else { RowIsFound(right, i - (a + n)); }
    MoreThanMiddle(left, mid, right, k);
    assert xs == left + (mid + right);
  }

  /** A single row under a key. */
  lemma AloneUnderKey(xs: seq<Keyed>, f: nat)
    requires f < |xs| && forall i :: 0 <= i < |xs| && i != f ==> xs[i].key != xs[f].key
    ensures |Rows(xs, xs[f].key)| == 1
  {
    var k := xs[f].key;
    var left, mid, right := xs[..f], [xs[f]], xs[f + 1..];
    assert xs == left + (mid + right);
    CountInThree(left, mid, right, k);
    UniformRows(mid, k, k);
    NoRows(left, k);
    NoRows(right, k);
  }

  // ---------------------------------------------------------------------
  // Blocks with keys of their own.
  // ---------------------------------------------------------------------

  lemma DistinctInit(ids: seq<string>, last: string)
    requires Distinct(ids + [last])
    ensures Distinct(ids) && last !in ids
  {
    var all := ids + [last];
    assert all[|ids|] == last;
    forall i | 0 <= i < |ids| ensures ids[i] != last { assert all[i] == ids[i]; }
    forall i, j | 0 <= i < j < |ids| ensures ids[i] != ids[j] { assert all[i] == ids[i] && all[j] == ids[j]; }
  }

  /** The keys come in the order of the blocks, and each block is a group. */
  ghost predicate BlocksGroup(bs: seq<seq<Keyed>>, ks: seq<string>) {
    && |bs| == |ks| && Firsts(Keys(Joined(bs))) == ks
    && forall j :: 0 <= j < |bs| ==> Rows(Joined(bs), ks[j]) == EntriesIn(bs[j])
  }

  lemma BlocksGroupSnoc(bs: seq<seq<Keyed>>, ks: seq<string>, block: seq<Keyed>, k: string)
    requires BlocksGroup(bs, ks) && k !in ks && block != [] && Uniform(block, k)
    ensures BlocksGroup(bs + [block], ks + [k])
  {
    var xs, bs', ks' := Joined(bs), bs + [block], ks + [k];
    JoinedSnoc(bs, block);
    LastBlock(xs, block, ks, k);
    forall j | 0 <= j < |bs'| ensures Rows(xs + block, ks'[j]) == EntriesIn(bs'[j]) {
      if j < |bs| {
        assert ks[j] in ks;
        OtherBlock(xs, block, k, ks[j]);
      }
    }
  }

  /** Blocks under different keys are the groups, in their own order. */
  lemma {:induction false} BlocksAreGroups(bs: seq<seq<Keyed>>, ks: seq<string>)
    requires |bs| == |ks| && Distinct(ks) && forall j :: 0 <= j < |bs| ==> bs[j] != [] && Uniform(bs[j], ks[j])
    ensures BlocksGroup(bs, ks)
  {
    if bs == [] {
      assert ks == [];
    } else {
      var n := |bs| - 1;
      assert ks == ks[..n] + [ks[n]] && bs == bs[..n] + [bs[n]];
      DistinctInit(ks[..n], ks[n]);
      BlocksAreGroups(bs[..n], ks[..n]);
      BlocksGroupSnoc(bs[..n], ks[..n], bs[n], ks[n]);
    }
  }

  lemma OtherBlock(xs: seq<Keyed>, block: seq<Keyed>, own: string, k: string)
    requires Uniform(block, own) && k != own
    ensures Rows(xs + block, k) == Rows(xs, k)
  {
    RowsAppend(xs, block, k);
    UniformRows(block, own, k);
  }

  lemma LastBlock(xs: seq<Keyed>, block: seq<Keyed>, ks: seq<string>, k: string)
    requires Firsts(Keys(xs)) == ks && k !in ks && block != [] && Uniform(block, k)
    ensures Firsts(Keys(xs + block)) == ks + [k] && Rows(xs + block, k) == EntriesIn(block)
  {
    FirstsMember(Keys(xs), k);
    assert Keys(xs + block) == Keys(xs) + Keys(block);
    FirstsUniform(Keys(xs), Keys(block), k);
    RowsExist(xs, k);
    RowsAppend(xs, block, k);
    UniformRows(block, k, k);
  }

  // ---------------------------------------------------------------------
  // Printed blocks.
  // ---------------------------------------------------------------------

  /** The rows of a block have the block's id, and the keys that belong to them from position `start` on. */
  predicate PrintedBlock(b: seq<Keyed>, id: Option<string>, start: nat) {
    forall i :: 0 <= i < |b| ==> b[i].entry.id == id && b[i].key == BlockKey(id, start + i)
  }

  predicate Printed(bs: seq<seq<Keyed>>, ids: seq<Option<string>>) {
    |bs| == |ids| && forall j :: 0 <= j < |bs| ==> PrintedBlock(bs[j], ids[j], Start(bs, j))
  }

  /** The key of the first row of a block. */
  function BlockKey(id: Option<string>, start: nat): string {
    if id.Some? then id.value else "__row_" + DecimalText(start)
  }

  function BlockKeys(bs: seq<seq<Keyed>>, ids: seq<Option<string>>): seq<string>
    requires |bs| == |ids|
  {
    seq(|bs|, j requires 0 <= j < |bs| => BlockKey(ids[j], Start(bs, j)))
  }

  /** No two blocks share a key, and a block without id is a single row. */
  predicate KeysApart(bs: seq<seq<Keyed>>, ids: seq<Option<string>>)
    requires |bs| == |ids|
  {
    Distinct(BlockKeys(bs, ids)) && forall j :: 0 <= j < |bs| ==> ids[j].Some? || |bs[j]| == 1
  }

  lemma BlockHasOneKey(b: seq<Keyed>, id: Option<string>, start: nat)
    requires PrintedBlock(b, id, start) && (id.Some? || |b| == 1)
    ensures Uniform(b, BlockKey(id, start))
  {}

  lemma BlocksApart(bs: seq<seq<Keyed>>, ids: seq<Option<string>>)
    requires Printed(bs, ids) && KeysApart(bs, ids) && forall j :: 0 <= j < |bs| ==> bs[j] != []
    ensures Firsts(Keys(Joined(bs))) == BlockKeys(bs, ids)
    ensures forall j :: 0 <= j < |bs| ==> Rows(Joined(bs), BlockKeys(bs, ids)[j]) == EntriesIn(bs[j])
  {
    var ks := BlockKeys(bs, ids);
    forall j | 0 <= j < |bs| ensures bs[j] != [] && Uniform(bs[j], ks[j]) {
      BlockHasOneKey(bs[j], ids[j], Start(bs, j));
    }
    BlocksAreGroups(bs, ks);
  }

  lemma {:induction false} DecimalTextInjective(m: nat, n: nat)
    requires DecimalText(m) == DecimalText(n)
    ensures m == n
  {
    var a, b := DecimalText(m), DecimalText(n);
    assert a[|a| - 1] == (48 + m % 10) as char && b[|b| - 1] == (48 + n % 10) as char;
    if m >= 10 && n >= 10 {
      assert a[..|a| - 1] == DecimalText(m / 10) && b[..|b| - 1] == DecimalText(n / 10);
      DecimalTextInjective(m / 10, n / 10);
    } else if m >= 10 {
      DecimalTextNotEmpty(m / 10);
    } else if n >= 10 {
      DecimalTextNotEmpty(n / 10);
    }
  }

  lemma {:induction false} DecimalTextNotEmpty(n: nat)
    ensures DecimalText(n) != []
  {
  }

  lemma RowNamesDiffer(m: nat, n: nat)
    requires "__row_" + DecimalText(m) == "__row_" + DecimalText(n)
    ensures m == n
  {
    var a, b := "__row_" + DecimalText(m), "__row_" + DecimalText(n);
    assert a[6..] == DecimalText(m) && b[6..] == DecimalText(n);
    DecimalTextInjective(m, n);
  }

  // ---------------------------------------------------------------------
  // Atoms that come back have their keys apart.
  // ---------------------------------------------------------------------

  /** The groups of the printed rows are the atoms that were printed. */
  ghost predicate ComesBack(bs: seq<seq<Keyed>>, atoms: seq<Atom>, t: Table) {
    && |bs| == |atoms| == |t.order|
    && Describes(t, Joined(bs))
    && (forall j :: 0 <= j < |bs| ==> bs[j] != [] && |bs[j]| == |atoms[j].claims|)
    && (forall j :: 0 <= j < |bs| ==> Holds(t, Joined(bs), t.order[j]) && t.groups[t.order[j]] == atoms[j])
  }

  function AtomIds(atoms: seq<Atom>): seq<Option<string>> {
    seq(|atoms|, j requires 0 <= j < |atoms| => atoms[j].id)
  }

  lemma {:induction false} GroupClaimsAreRows(es: seq<Entry>)
    requires es != [] && Group(es).Good?
    ensures |Group(es).value.claims| <= |es|
  {
    if |es| <= 1 {
    } else {
      GroupClaimsAreRows(es[..|es| - 1]);
    }
  }

  /** No row is lost to another group: each group has as many rows as its atom's block. */
  lemma GroupsAreAsLarge(bs: seq<seq<Keyed>>, atoms: seq<Atom>, t: Table, p: nat)
    requires ComesBack(bs, atoms, t) && p < |bs|
    ensures |Rows(Joined(bs), t.order[p])| == |bs[p]|
  {
    var xs := Joined(bs);
    FirstsContents(Keys(xs));
    forall j | 0 <= j < |bs| ensures Lengths(bs)[j] <= RowCounts(xs, t.order)[j] {
      assert Holds(t, xs, t.order[j]);
      GroupClaimsAreRows(Rows(xs, t.order[j]));
    }
    JoinedLength(bs);
    AllRowsAreCounted(xs, t.order);
    SumsForceEqual(Lengths(bs), RowCounts(xs, t.order));
    assert Lengths(bs)[p] == RowCounts(xs, t.order)[p];
  }

  lemma {:induction false} RowFound(xs: seq<Keyed>, k: string) returns (f: nat)
    requires Rows(xs, k) != []
    ensures f < |xs| && xs[f].key == k && xs[f].entry == Rows(xs, k)[0]
  {
    var init, last := xs[..|xs| - 1], xs[|xs| - 1];
    if Rows(init, k) != [] {
      f := RowFound(init, k);
    } else {
      f := |xs| - 1;
    }
  }

  /** A group without id began with a row without id. */
  lemma GroupBegins(bs: seq<seq<Keyed>>, atoms: seq<Atom>, t: Table, p: nat) returns (f: nat)
    requires ComesBack(bs, atoms, t) && p < |bs|
    ensures f < |Joined(bs)| && Joined(bs)[f].key == t.order[p] && Joined(bs)[f].entry.id == atoms[p].id
  {
    var xs, k := Joined(bs), t.order[p];
    assert Holds(t, xs, k);
    GroupKeepsId(Rows(xs, k));
    f := RowFound(xs, k);
  }

  /** What position `r` of the printed rows says about itself. */
  lemma PrintedRow(bs: seq<seq<Keyed>>, ids: seq<Option<string>>, r: nat) returns (j: nat)
    requires Printed(bs, ids) && r < |Joined(bs)|
    ensures j < |bs| && Start(bs, j) <= r < Start(bs, j) + |bs[j]|
    ensures Joined(bs)[r].entry.id == ids[j] && Joined(bs)[r].key == BlockKey(ids[j], r)
  {
    var i: nat;
    j, i := BlockOf(bs, r);
  }

  /**
   What the blocks know of the groups: `order` are the group keys, each group has as many rows as
   its block, the key is the id if there is one, and else some row without id has it.
   */
  ghost predicate Sized(bs: seq<seq<Keyed>>, ids: seq<Option<string>>, xs: seq<Keyed>, order: seq<string>) {
    && Printed(bs, ids) && xs == Joined(bs) && |order| == |bs|
    && (forall p :: 0 <= p < |bs| ==> bs[p] != [] && |Rows(xs, order[p])| == |bs[p]|)
    && (forall p :: 0 <= p < |bs| && ids[p].Some? ==> order[p] == ids[p].value)
    && (forall p :: 0 <= p < |bs| && ids[p].None? ==> HasRowWithoutId(xs, order[p]))
  }

  predicate HasRowWithoutId(xs: seq<Keyed>, k: string) {
    exists f :: 0 <= f < |xs| && xs[f].key == k && xs[f].entry.id.None?
  }

  lemma ReturnedAreSized(bs: seq<seq<Keyed>>, atoms: seq<Atom>, t: Table)
    requires Printed(bs, AtomIds(atoms)) && ComesBack(bs, atoms, t)
    ensures Sized(bs, AtomIds(atoms), Joined(bs), t.order)
  {
    var ids, xs := AtomIds(atoms), Joined(bs);
    forall p | 0 <= p < |bs| ensures |Rows(xs, t.order[p])| == |bs[p]| {
      GroupsAreAsLarge(bs, atoms, t, p);
    }
    forall p | 0 <= p < |bs| && ids[p].Some? ensures t.order[p] == ids[p].value {
      var f := GroupBegins(bs, atoms, t, p);
      var j := PrintedRow(bs, ids, f);
    }
    forall p | 0 <= p < |bs| && ids[p].None? ensures HasRowWithoutId(xs, t.order[p]) {
      var f := GroupBegins(bs, atoms, t, p);
    }
  }

  /** The block of an atom with id, seen in the whole. */
  lemma BlockIsUniform(bs: seq<seq<Keyed>>, ids: seq<Option<string>>, p: nat)
    requires Printed(bs, ids) && p < |bs| && ids[p].Some?
    ensures Start(bs, p) + |bs[p]| <= |Joined(bs)|
    ensures Uniform(Joined(bs)[Start(bs, p)..Start(bs, p) + |bs[p]|], ids[p].value)
  {
    StartsGrow(bs, p, |bs|);
    assert bs[..|bs|] == bs;
    var xs, a, n := Joined(bs), Start(bs, p), |bs[p]|;
    assert PrintedBlock(bs[p], ids[p], a);
    forall r | a <= r < a + n ensures xs[r].key == ids[p].value {
      JoinedAt(bs, p, r - a);
    }
  }

  lemma NoOneElse(xs: seq<Keyed>, a: nat, n: nat, k: string, r: nat)
    requires a + n <= |xs| && Uniform(xs[a..a + n], k) && |Rows(xs, k)| == n
    requires r < |xs| && !(a <= r < a + n)
    ensures xs[r].key != k
  {
    if xs[r].key == k { OneMoreElsewhere(xs, a, n, k, r); }
  }

  /** Nobody else uses an atom's id as key. */
  lemma IdIsNotShared(bs: seq<seq<Keyed>>, ids: seq<Option<string>>, xs: seq<Keyed>, order: seq<string>, p: nat, r: nat)
    requires Sized(bs, ids, xs, order) && p < |bs| && ids[p].Some?
    requires r < |xs| && !(Start(bs, p) <= r < Start(bs, p) + |bs[p]|)
    ensures xs[r].key != ids[p].value
  {
    BlockIsUniform(bs, ids, p);
    NoOneElse(xs, Start(bs, p), |bs[p]|, order[p], r);
  }

  /** A row without id shares its key with no other row. */
  lemma RowWithoutIdIsAlone(bs: seq<seq<Keyed>>, ids: seq<Option<string>>, xs: seq<Keyed>, order: seq<string>,
                            f: nat, r: nat)
    requires Sized(bs, ids, xs, order) && f < |xs| && r < |xs| && r != f && xs[f].entry.id.None?
    ensures xs[r].key != xs[f].key
  {
    var j := PrintedRow(bs, ids, f);
    var q := PrintedRow(bs, ids, r);
    if ids[q].Some? {
      InsideHasId(bs, ids, q, f);
      IdIsNotShared(bs, ids, xs, order, q, f);
    } else if xs[r].key == xs[f].key {
      RowNamesDiffer(r, f);
    }
  }

  lemma InsideHasId(bs: seq<seq<Keyed>>, ids: seq<Option<string>>, q: nat, f: nat)
    requires Printed(bs, ids) && q < |bs| && f < |Joined(bs)|
    ensures Start(bs, q) <= f < Start(bs, q) + |bs[q]| ==> Joined(bs)[f].entry.id == ids[q]
  {
    if Start(bs, q) <= f < Start(bs, q) + |bs[q]| {
      JoinedAt(bs, q, f - Start(bs, q));
      assert PrintedBlock(bs[q], ids[q], Start(bs, q));
    }
  }

  lemma WithoutIdIsSingle(bs: seq<seq<Keyed>>, ids: seq<Option<string>>, xs: seq<Keyed>, order: seq<string>, p: nat)
    requires Sized(bs, ids, xs, order) && p < |bs| && ids[p].None?
    ensures |bs[p]| == 1
  {
    assert HasRowWithoutId(xs, order[p]);
    var f :| 0 <= f < |xs| && xs[f].key == order[p] && xs[f].entry.id.None?;
    forall r | 0 <= r < |xs| && r != f ensures xs[r].key != xs[f].key {
      RowWithoutIdIsAlone(bs, ids, xs, order, f, r);
    }
    AloneUnderKey(xs, f);
  }

  /** The first row of a block. */
  lemma FirstOfBlock(bs: seq<seq<Keyed>>, ids: seq<Option<string>>, p: nat)
    requires Printed(bs, ids) && p < |bs| && bs[p] != []
    ensures var a := Start(bs, p);
            a < |Joined(bs)| && Joined(bs)[a].key == BlockKey(ids[p], a) && Joined(bs)[a].entry.id == ids[p]
  {
    JoinedAt(bs, p, 0);
    assert PrintedBlock(bs[p], ids[p], Start(bs, p));
    assert bs[p][0].key == BlockKey(ids[p], Start(bs, p) + 0);
  }

  lemma TwoKeysDiffer(bs: seq<seq<Keyed>>, ids: seq<Option<string>>, xs: seq<Keyed>, order: seq<string>, p: nat, q: nat)
    requires Sized(bs, ids, xs, order) && p < q < |bs|
    ensures BlockKey(ids[p], Start(bs, p)) != BlockKey(ids[q], Start(bs, q))
  {
    StartsGrow(bs, p, q);
    FirstOfBlock(bs, ids, p);
    FirstOfBlock(bs, ids, q);
    if ids[p].None? {
      RowWithoutIdIsAlone(bs, ids, xs, order, Start(bs, p), Start(bs, q));
    } else {
      IdIsNotShared(bs, ids, xs, order, p, Start(bs, q));
    }
  }

  /** If the printed atoms come back, no two of them share a key and those without id had one row. */
  lemma ReturnedKeysAreApart(bs: seq<seq<Keyed>>, atoms: seq<Atom>, t: Table)
    requires Printed(bs, AtomIds(atoms)) && ComesBack(bs, atoms, t)
    ensures KeysApart(bs, AtomIds(atoms))
  {
    var ids, xs := AtomIds(atoms), Joined(bs);
    ReturnedAreSized(bs, atoms, t);
    forall p, q | 0 <= p < q < |bs| ensures BlockKeys(bs, ids)[p] != BlockKeys(bs, ids)[q] {
      TwoKeysDiffer(bs, ids, xs, t.order, p, q);
    }
    forall p | 0 <= p < |bs| ensures ids[p].Some? || |bs[p]| == 1 {
      if ids[p].None? { WithoutIdIsSingle(bs, ids, xs, t.order, p); }
    }
  }

  // ---------------------------------------------------------------------
  // From rows to keyed blocks.
  // ---------------------------------------------------------------------

  ghost predicate AllReadable<R(!new)>(read: R -> Read<Entry>, parts: seq<seq<R>>) {
    forall j :: 0 <= j < |parts| ==> Readable(read, parts[j])
  }

  function KeyedBlock<R(!new)>(read: R -> Read<Entry>, part: seq<R>, start: nat): seq<Keyed>
    requires Readable(read, part)
  {
    seq(|part|, i requires 0 <= i < |part| => Keyed(RowKey(read(part[i]).value, start + i), read(part[i]).value))
  }

  ghost function KeyedBlocks<R(!new)>(read: R -> Read<Entry>, parts: seq<seq<R>>): seq<seq<Keyed>>
    requires AllReadable(read, parts)
  {
    seq(|parts|, j requires 0 <= j < |parts| => KeyedBlock(read, parts[j], Start(parts, j)))
  }

  lemma ReadableParts<R(!new)>(read: R -> Read<Entry>, parts: seq<seq<R>>)
    ensures Readable(read, Joined(parts)) <==> AllReadable(read, parts)
  {
    if AllReadable(read, parts) {
      forall r | 0 <= r < |Joined(parts)| ensures read(Joined(parts)[r]).Good? {
        var j, i := BlockOf(parts, r);
        assert Readable(read, parts[j]);
      }
    }
    if Readable(read, Joined(parts)) {
      forall j, i | 0 <= j < |parts| && 0 <= i < |parts[j]| ensures read(parts[j][i]).Good? {
        JoinedAt(parts, j, i);
        assert read(Joined(parts)[Start(parts, j) + i]).Good?;
      }
    }
  }

  /** Keying the rows and cutting them into blocks commute. */
  lemma {:induction false} EntriesInBlocks<R(!new)>(read: R -> Read<Entry>, parts: seq<seq<R>>)
    requires AllReadable(read, parts)
    ensures Readable(read, Joined(parts)) && Entries(read, Joined(parts)) == Joined(KeyedBlocks(read, parts))
  {
    ReadableParts(read, parts);
    if parts == [] {
    } else {
      var n := |parts| - 1;
      var init := parts[..n];
      assert AllReadable(read, init);
      EntriesInBlocks(read, init);
      assert KeyedBlocks(read, parts)[..n] == KeyedBlocks(read, init) by {
        forall j | 0 <= j < n ensures init[..j] == parts[..j] {}
      }
      assert parts[..n] == init && Start(parts, n) == |Joined(init)|;
      EntriesOfTwo(read, Joined(init), parts[n]);
    }
  }

  lemma EntriesOfTwo<R(!new)>(read: R -> Read<Entry>, before: seq<R>, part: seq<R>)
    requires Readable(read, before) && Readable(read, part)
    ensures Readable(read, before + part)
    ensures Entries(read, before + part) == Entries(read, before) + KeyedBlock(read, part, |before|)
  {
    assert forall i :: 0 <= i < |before + part| ==>
        (before + part)[i] == (if i < |before| then before[i] else part[i - |before|]);
  }

  /** Blocks start where their rows do. */
  lemma {:induction false} SameStarts<R, S>(parts: seq<seq<R>>, others: seq<seq<S>>, j: nat)
    requires |parts| == |others| && j <= |parts| && forall i :: 0 <= i < |parts| ==> |parts[i]| == |others[i]|
    ensures Start(parts, j) == Start(others, j)
  {
    if j == 0 {
    } else {
      SameStarts(parts, others, j - 1);
      StartNext(parts, j - 1);
      StartNext(others, j - 1);
    }
  }

  // ---------------------------------------------------------------------
  // When printed atoms come back.
  // ---------------------------------------------------------------------

  /** Each atom is the group of its block. */
  ghost predicate BlocksYield(bs: seq<seq<Keyed>>, atoms: seq<Atom>) {
    |bs| == |atoms| && forall j :: 0 <= j < |bs| ==> bs[j] != [] && Group(EntriesIn(bs[j])) == Good(atoms[j])
  }

  lemma BlockGroup(bs: seq<seq<Keyed>>, atoms: seq<Atom>, j: nat)
    requires Printed(bs, AtomIds(atoms)) && KeysApart(bs, AtomIds(atoms)) && BlocksYield(bs, atoms) && j < |bs|
    ensures var k := BlockKeys(bs, AtomIds(atoms))[j];
            k in Keys(Joined(bs)) && Groups(Joined(bs), k) && Group(Rows(Joined(bs), k)) == Good(atoms[j])
  {
    BlocksApart(bs, AtomIds(atoms));
    RowsExist(Joined(bs), BlockKeys(bs, AtomIds(atoms))[j]);
  }

  lemma ApartBlocksAllGroup(bs: seq<seq<Keyed>>, atoms: seq<Atom>)
    requires Printed(bs, AtomIds(atoms)) && KeysApart(bs, AtomIds(atoms)) && BlocksYield(bs, atoms)
    ensures AllGroup(Joined(bs))
  {
    var xs, ks := Joined(bs), BlockKeys(bs, AtomIds(atoms));
    BlocksApart(bs, AtomIds(atoms));
    forall k | k in Keys(xs) ensures Groups(xs, k) {
      FirstsMember(Keys(xs), k);
      var j :| 0 <= j < |ks| && ks[j] == k;
      BlockGroup(bs, atoms, j);
    }
  }

  /** The table has one group per atom, and it is the atom. */
  lemma ApartBlocksComeBack(bs: seq<seq<Keyed>>, atoms: seq<Atom>, t: Table)
    requires Printed(bs, AtomIds(atoms)) && KeysApart(bs, AtomIds(atoms)) && BlocksYield(bs, atoms)
    requires Describes(t, Joined(bs))
    ensures Covers(t) && Atoms(t) == atoms
  {
    var ks := BlockKeys(bs, AtomIds(atoms));
    TableCovers(t, Joined(bs));
    BlocksApart(bs, AtomIds(atoms));
    forall j | 0 <= j < |ks| ensures t.groups[ks[j]] == atoms[j] {
      BlockGroup(bs, atoms, j);
      assert Holds(t, Joined(bs), ks[j]);
    }
  }
}
