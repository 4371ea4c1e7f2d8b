/**
 The stable sort used to normalise a canonical form, and what makes its result
 independent of the input order.
 */
module Sorting {
  import opened Bytes

  /** A total preorder: what a Rust `Ord` comparison provides. */
  ghost predicate TotalPreorder<T(!new)>(le: (T, T) -> bool) {
    && (forall x, y :: le(x, y) || le(y, x))
    && (forall x, y, z :: le(x, y) && le(y, z) ==> le(x, z))
  }

  ghost predicate Sorted<T>(le: (T, T) -> bool, s: seq<T>) {
    forall i, j :: 0 <= i < j < |s| ==> le(s[i], s[j])
  }

  /** No two different elements of `s` compare as equal. */
  ghost predicate NoTies<T>(le: (T, T) -> bool, s: seq<T>) {
    forall x, y :: x in s && y in s && le(x, y) && le(y, x) ==> x == y
  }

  ghost predicate Permutation<T>(s: seq<T>, t: seq<T>) {
    multiset(s) == multiset(t)
  }

  /** Put `x` before the first element that is not below it. */
  function Insert<T>(le: (T, T) -> bool, x: T, s: seq<T>): (r: seq<T>) {
    if s == [] || le(x, s[0]) then [x] + s
    else [s[0]] + Insert(le, x, s[1..])
  }

  /** `Vec::sort`: stable, so elements that compare as equal keep their order. */
  function Sort<T>(le: (T, T) -> bool, s: seq<T>): (r: seq<T>) {
    if s == [] then [] else Insert(le, s[0], Sort(le, s[1..]))
  }

  lemma {:induction false} InsertPermutes<T>(le: (T, T) -> bool, x: T, s: seq<T>)
    ensures multiset(Insert(le, x, s)) == multiset{x} + multiset(s)
  {
    if s != [] && !le(x, s[0]) {
      InsertPermutes(le, x, s[1..]);
      assert s == [s[0]] + s[1..];
    }
  }

  lemma {:induction false} SortPermutes<T>(le: (T, T) -> bool, s: seq<T>)
    ensures Permutation(Sort(le, s), s)
    ensures |Sort(le, s)| == |s|
  {
    if s != [] {
      SortPermutes(le, s[1..]);
      InsertPermutes(le, s[0], Sort(le, s[1..]));
      assert s == [s[0]] + s[1..];
    }
    assert |multiset(Sort(le, s))| == |multiset(s)|;
  }

  lemma SameElements<T>(s: seq<T>, t: seq<T>)
    requires Permutation(s, t)
    ensures forall x :: x in s <==> x in t
  {
    forall x ensures x in s <==> x in t {
      assert x in multiset(s) <==> x in multiset(t);
    }
  }

  lemma {:induction false} InsertSorted<T(!new)>(le: (T, T) -> bool, x: T, s: seq<T>)
    requires TotalPreorder(le) && Sorted(le, s)
    ensures Sorted(le, Insert(le, x, s))
  {
    if s == [] {
    } else if le(x, s[0]) {
      forall j | 0 <= j < |s| ensures le(x, s[j]) { assert le(s[0], s[j]) || j == 0; }
    } else {
      InsertSorted(le, x, s[1..]);
      var r := Insert(le, x, s[1..]);
      InsertPermutes(le, x, s[1..]);
      forall j | 0 <= j < |r| ensures le(s[0], r[j]) {
        assert r[j] in multiset(r);
        assert r[j] == x || r[j] in s[1..];
      }
    }
  }

  lemma {:induction false} SortSorted<T(!new)>(le: (T, T) -> bool, s: seq<T>)
    requires TotalPreorder(le)
    ensures Sorted(le, Sort(le, s))
  {
    if s == [] {
    } else {
      SortSorted(le, s[1..]);
      InsertSorted(le, s[0], Sort(le, s[1..]));
    }
  }

  lemma SmallestAgree<T(!new)>(le: (T, T) -> bool, s: seq<T>, t: seq<T>)
    requires TotalPreorder(le) && Sorted(le, s) && Sorted(le, t)
    requires Permutation(s, t) && NoTies(le, s) && s != [] && t != []
    ensures s[0] == t[0]
  {
    SameElements(s, t);
    assert s[0] in t && t[0] in s;
    assert le(s[0], t[0]) && le(t[0], s[0]);
  }

  lemma TailsPermute<T>(s: seq<T>, t: seq<T>)
    requires Permutation(s, t) && s != [] && t != [] && s[0] == t[0]
    ensures Permutation(s[1..], t[1..])
  {
    assert s == [s[0]] + s[1..] && t == [t[0]] + t[1..];
    assert multiset(s[1..]) == multiset(s) - multiset{s[0]};
    assert multiset(t[1..]) == multiset(t) - multiset{t[0]};
  }

  /** Two sorted sequences with the same elements and no ties are the same sequence. */
  lemma {:induction false} SortedUnique<T(!new)>(le: (T, T) -> bool, s: seq<T>, t: seq<T>)
    requires TotalPreorder(le) && Sorted(le, s) && Sorted(le, t)
    requires Permutation(s, t) && NoTies(le, s)
    ensures s == t
  {
    assert |multiset(s)| == |multiset(t)|;
    if s == [] {
    } else {
      SmallestAgree(le, s, t);
      TailsPermute(s, t);
      SortedUnique(le, s[1..], t[1..]);
      assert s == [s[0]] + s[1..] && t == [t[0]] + t[1..];
    }
  }

  /** Without ties, sorting forgets exactly the input order. */
  lemma SortCharacterisesContents<T(!new)>(le: (T, T) -> bool, s: seq<T>, t: seq<T>)
    requires TotalPreorder(le) && NoTies(le, s)
    ensures Sort(le, s) == Sort(le, t) <==> Permutation(s, t)
  {
    SortPermutes(le, s);
    SortPermutes(le, t);
    SortSorted(le, s);
    SortSorted(le, t);
    if Permutation(s, t) {
      SameElements(Sort(le, s), s);
      SortedUnique(le, Sort(le, s), Sort(le, t));
    }
  }

  /** Where `x` goes in `s`. */
  function Slot<T>(le: (T, T) -> bool, x: T, s: seq<T>): (k: nat)
    ensures k <= |s|
  {
    if s == [] || le(x, s[0]) then 0 else 1 + Slot(le, x, s[1..])
  }

  lemma {:induction false} InsertAtSlot<T(!new)>(le: (T, T) -> bool, x: T, y: T, s: seq<T>)
    requires TotalPreorder(le) && le(x, y) && le(y, x)
    ensures Slot(le, x, s) == Slot(le, y, s)
    ensures var k := Slot(le, x, s); Insert(le, x, Insert(le, y, s)) == s[..k] + [x, y] + s[k..]
  {
    assert s != [] ==> (le(x, s[0]) <==> le(y, s[0]));
    if s != [] && !le(x, s[0]) {
      InsertAtSlot(le, x, y, s[1..]);
      var k := Slot(le, x, s[1..]);
      assert Insert(le, y, s) == [s[0]] + Insert(le, y, s[1..]);
      assert s[..k + 1] == [s[0]] + s[1..][..k] && s[k + 1..] == s[1..][k..];
      assert Insert(le, x, Insert(le, y, s)) == [s[0]] + Insert(le, x, Insert(le, y, s[1..]));
    } else {
      assert Insert(le, y, s) == [y] + s;
    }
  }

  lemma TiedPairKeepsItsOrder<T(!new)>(le: (T, T) -> bool, x: T, y: T, rest: seq<T>)
    requires TotalPreorder(le) && le(x, y) && le(y, x)
    ensures var base := Sort(le, rest); var k := Slot(le, x, base);
            Sort(le, [x, y] + rest) == base[..k] + [x, y] + base[k..]
  {
    assert ([x, y] + rest)[1..] == [y] + rest && ([y] + rest)[1..] == rest;
    InsertAtSlot(le, x, y, Sort(le, rest));
  }

  lemma TiedPairIsVisible<T(!new)>(le: (T, T) -> bool, x: T, y: T, rest: seq<T>)
    requires TotalPreorder(le) && le(x, y) && le(y, x) && x != y
    ensures Sort(le, [x, y] + rest) != Sort(le, [y, x] + rest)
  {
    TiedPairKeepsItsOrder(le, x, y, rest);
    TiedPairKeepsItsOrder(le, y, x, rest);
    InsertAtSlot(le, x, y, Sort(le, rest));
    var k := Slot(le, x, Sort(le, rest));
    assert Sort(le, [x, y] + rest)[k] == x && Sort(le, [y, x] + rest)[k] == y;
  }

  lemma PairContents<T>(x: T, y: T, rest: seq<T>)
    ensures multiset([x, y] + rest) == multiset{x} + multiset{y} + multiset(rest)
  {
    assert [x, y] + rest == [x] + ([y] + rest);
  }

  lemma TakeOut<T>(s: seq<T>, x: T) returns (rest: seq<T>)
    requires x in s
    ensures multiset(s) == multiset{x} + multiset(rest)
    ensures forall z :: z in s && z != x ==> z in rest
  {
    rest := RemoveOne(s, x);
  }

  lemma PairToFront<T>(s: seq<T>, x: T, y: T) returns (rest: seq<T>)
    requires x in s && y in s && x != y
    ensures Permutation(s, [x, y] + rest) && Permutation(s, [y, x] + rest)
  {
    var without := TakeOut(s, x);
    rest := TakeOut(without, y);
    PairContents(x, y, rest);
    PairContents(y, x, rest);
  }

  /** With a tie, some reordering of the input is visible in the sorted output. */
  lemma TieIsVisible<T(!new)>(le: (T, T) -> bool, s: seq<T>) returns (t: seq<T>)
    requires TotalPreorder(le) && !NoTies(le, s)
    ensures Permutation(s, t) && Sort(le, t) != Sort(le, s)
  {
    var x, y :| x in s && y in s && le(x, y) && le(y, x) && x != y;
    var rest := PairToFront(s, x, y);
    TiedPairIsVisible(le, x, y, rest);
    t := if Sort(le, [x, y] + rest) != Sort(le, s) then [x, y] + rest else [y, x] + rest;
  }

  /** `s` without the first occurrence of `x`. */
  function RemoveOne<T(==)>(s: seq<T>, x: T): (r: seq<T>)
    requires x in s
    ensures multiset(r) == multiset(s) - multiset{x}
    ensures forall z :: z in s && z != x ==> z in r
  {
    assert s == [s[0]] + s[1..];
    if s[0] == x then s[1..] else [s[0]] + RemoveOne(s[1..], x)
  }

  /** Sorting is blind to the input order exactly when there are no ties. */
  lemma SortBlindIffNoTies<T(!new)>(le: (T, T) -> bool, s: seq<T>)
    requires TotalPreorder(le)
    ensures (forall t :: Permutation(s, t) ==> Sort(le, t) == Sort(le, s)) <==> NoTies(le, s)
  {
    if NoTies(le, s) {
      forall t | Permutation(s, t) ensures Sort(le, t) == Sort(le, s) {
        SortCharacterisesContents(le, s, t);
      }
    } else {
      var t := TieIsVisible(le, s);
    }
  }

  /** `f` applied to every element, in order. */
  function Mapped<T, U>(f: T -> U, s: seq<T>): (r: seq<U>)
    ensures |r| == |s|
    ensures forall i :: 0 <= i < |s| ==> r[i] == f(s[i])
  {
    seq(|s|, i requires 0 <= i < |s| => f(s[i]))
  }

  lemma MappedStep<T, U>(f: T -> U, s: seq<T>, i: nat)
    requires i < |s|
    ensures Mapped(f, s[..i + 1]) == Mapped(f, s[..i]) + [f(s[i])]
  {}

  function Without<T>(s: seq<T>, k: nat): seq<T>
    requires k < |s|
  {
    s[..k] + s[k + 1..]
  }

  lemma WithoutLosesOne<T>(s: seq<T>, k: nat)
    requires k < |s|
    ensures multiset(s) == multiset(Without(s, k)) + multiset{s[k]}
  {
    assert s == s[..k] + [s[k]] + s[k + 1..];
  }

  lemma PermutationWithout<T>(s: seq<T>, t: seq<T>) returns (k: nat)
    requires Permutation(s, t) && s != []
    ensures k < |t| && t[k] == s[0] && Permutation(Without(s, 0), Without(t, k))
  {
    SameElements(s, t);
    assert s[0] in s && s[0] in t;
    k :| 0 <= k < |t| && t[k] == s[0];
    WithoutLosesOne(s, 0);
    WithoutLosesOne(t, k);
    assert multiset(Without(s, 0)) == multiset(s) - multiset{s[0]};
    assert multiset(Without(t, k)) == multiset(t) - multiset{s[0]};
  }

  lemma MappedWithout<T, U>(f: T -> U, t: seq<T>, k: nat)
    requires k < |t|
    ensures Mapped(f, Without(t, k)) == Without(Mapped(f, t), k)
  {}

  /** Mapping a permutation gives a permutation. */
  lemma {:induction false} MappedPermutes<T, U>(f: T -> U, s: seq<T>, t: seq<T>)
    requires Permutation(s, t)
    ensures Permutation(Mapped(f, s), Mapped(f, t))
  {
    assert |multiset(s)| == |multiset(t)|;
    if s == [] {
    } else {
      var k := PermutationWithout(s, t);
      MappedPermutes(f, Without(s, 0), Without(t, k));
      MappedWithout(f, s, 0);
      MappedWithout(f, t, k);
      WithoutLosesOne(Mapped(f, s), 0);
      WithoutLosesOne(Mapped(f, t), k);
    }
  }

  ghost predicate InjectiveOn<T(!new), U>(f: T -> U, s: seq<T>, t: seq<T>) {
    forall x, y :: x in s && y in t && f(x) == f(y) ==> x == y
  }

  /** An injective function gives permutations from permutations only. */
  lemma {:induction false} MappedPermutesBack<T(!new), U>(f: T -> U, s: seq<T>, t: seq<T>)
    requires InjectiveOn(f, s, t) && Permutation(Mapped(f, s), Mapped(f, t))
    ensures Permutation(s, t)
  {
    assert |multiset(Mapped(f, s))| == |multiset(Mapped(f, t))|;
    if s == [] {
      assert t == [];
    } else {
      var k := PermutationWithout(Mapped(f, s), Mapped(f, t));
      assert s[0] in s && t[k] in t;
      MappedWithout(f, s, 0);
      MappedWithout(f, t, k);
      InjectiveWithout(f, s, t, k);
      MappedPermutesBack(f, Without(s, 0), Without(t, k));
      WithoutLosesOne(s, 0);
      WithoutLosesOne(t, k);
    }
  }

  lemma InjectiveWithout<T(!new), U>(f: T -> U, s: seq<T>, t: seq<T>, k: nat)
    requires s != [] && k < |t| && InjectiveOn(f, s, t)
    ensures InjectiveOn(f, Without(s, 0), Without(t, k))
  {
    assert forall x :: x in Without(s, 0) ==> x in s;
    assert forall y :: y in Without(t, k) ==> y in t;
  }

  // ---------------------------------------------------------------------
  // Lexicographic order on byte strings (strings, digests and claim values).
  // ---------------------------------------------------------------------

  predicate LexLe(a: seq<byte>, b: seq<byte>) {
    a == [] || (b != [] && (a[0] < b[0] || (a[0] == b[0] && LexLe(a[1..], b[1..]))))
  }

  lemma {:induction false} LexTotal(a: seq<byte>, b: seq<byte>)
    ensures LexLe(a, b) || LexLe(b, a)
  {
    if a != [] && b != [] { LexTotal(a[1..], b[1..]); }
  }

  lemma {:induction false} LexAntisymmetric(a: seq<byte>, b: seq<byte>)
    requires LexLe(a, b) && LexLe(b, a)
    ensures a == b
  {
    if a == [] {
    } else {
      LexAntisymmetric(a[1..], b[1..]);
      assert a == [a[0]] + a[1..] && b == [b[0]] + b[1..];
    }
  }

  lemma {:induction false} LexTransitive(a: seq<byte>, b: seq<byte>, c: seq<byte>)
    requires LexLe(a, b) && LexLe(b, c)
    ensures LexLe(a, c)
  {
    if a != [] && a[0] == b[0] == c[0] { LexTransitive(a[1..], b[1..], c[1..]); }
  }

  lemma LexPreorder()
    ensures TotalPreorder(LexLe)
  {
    forall a, b ensures LexLe(a, b) || LexLe(b, a) { LexTotal(a, b); }
    forall a, b, c | LexLe(a, b) && LexLe(b, c) ensures LexLe(a, c) { LexTransitive(a, b, c); }
  }

  lemma LexNoTies(s: seq<seq<byte>>)
    ensures NoTies(LexLe, s)
  {
    forall x, y | x in s && y in s && LexLe(x, y) && LexLe(y, x) ensures x == y {
      LexAntisymmetric(x, y);
    }
  }

  /** At the first difference the smaller byte decides; a proper prefix comes first. */
  ghost predicate FirstDifferenceLess(a: seq<byte>, b: seq<byte>) {
    a <= b || exists k :: 0 <= k < |a| && k < |b| && a[..k] == b[..k] && a[k] < b[k]
  }

  lemma {:induction false} LexMeans(a: seq<byte>, b: seq<byte>)
    ensures LexLe(a, b) <==> FirstDifferenceLess(a, b)
  {
    if a == [] || b == [] {
    } else if a[0] != b[0] {
      if a[0] < b[0] { assert a[..0] == b[..0]; }
      HeadNotGreater(a, b);
    } else {
      LexMeans(a[1..], b[1..]);
      LexTail(a, b);
    }
  }

  lemma HeadNotGreater(a: seq<byte>, b: seq<byte>)
    requires a != [] && b != []
    ensures FirstDifferenceLess(a, b) ==> a[0] <= b[0]
  {
    if k: nat :| k < |a| && k < |b| && a[..k] == b[..k] && a[k] < b[k] {
      if k > 0 { assert a[..k][0] == b[..k][0]; }
    }
  }

  lemma LexTail(a: seq<byte>, b: seq<byte>)
    requires a != [] && b != [] && a[0] == b[0]
    ensures FirstDifferenceLess(a, b) <==> FirstDifferenceLess(a[1..], b[1..])
  {
    assert a == [a[0]] + a[1..] && b == [b[0]] + b[1..];
    if k: nat :| k < |a[1..]| && k < |b[1..]| && a[1..][..k] == b[1..][..k] && a[1..][k] < b[1..][k] {
      assert a[..k + 1] == [a[0]] + a[1..][..k] && b[..k + 1] == [b[0]] + b[1..][..k];
      assert a[k + 1] < b[k + 1];
    }
    if k: nat :| k < |a| && k < |b| && a[..k] == b[..k] && a[k] < b[k] {
      assert k > 0;
      assert a[1..][..k - 1] == a[..k][1..] && b[1..][..k - 1] == b[..k][1..];
      assert a[1..][k - 1] < b[1..][k - 1];
    }
  }
}
