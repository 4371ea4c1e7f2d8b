/** Keeping the first occurrence of every element, in order of appearance. */
module FirstSeen {

  predicate Distinct<T(==)>(s: seq<T>) {
    forall i, j :: 0 <= i < j < |s| ==> s[i] != s[j]
  }

  function Firsts<T(==)>(s: seq<T>): (r: seq<T>) {
    if s == [] then []
    else
      var before := Firsts(s[..|s| - 1]);
      if s[|s| - 1] in before then before else before + [s[|s| - 1]]
  }

  /** Position of the first occurrence of `x`. */
  function IndexOf<T(==)>(s: seq<T>, x: T): (i: nat)
    requires x in s
    ensures i < |s| && s[i] == x
    ensures forall j :: 0 <= j < i ==> s[j] != x
  {
    if s[0] == x then 0 else 1 + IndexOf(s[1..], x)
  }

  lemma FirstsSnoc<T>(s: seq<T>, x: T)
    ensures Firsts(s + [x]) == if x in Firsts(s) then Firsts(s) else Firsts(s) + [x]
  {
    assert (s + [x])[..|s|] == s;
  }

  /** Same elements, each once. */
  lemma {:induction false} FirstsContents<T>(s: seq<T>)
    ensures Distinct(Firsts(s))
    ensures forall x :: x in Firsts(s) <==> x in s
  {
    if s == [] {
    } else {
      var init, last := s[..|s| - 1], s[|s| - 1];
      FirstsContents(init);
      assert s == init + [last];
      forall x ensures x in Firsts(s) <==> x in s {}
    }
  }

  lemma FirstsMember<T>(s: seq<T>, x: T)
    ensures x in Firsts(s) <==> x in s
  {
    FirstsContents(s);
  }

  /** Elements stay in the order in which they first appeared. */
  lemma {:induction false} FirstsOrder<T>(s: seq<T>, i: nat, j: nat)
    requires i < j < |Firsts(s)|
    ensures Firsts(s)[i] in s && Firsts(s)[j] in s
    ensures IndexOf(s, Firsts(s)[i]) < IndexOf(s, Firsts(s)[j])
  {
    FirstsContents(s);
    var init, last := s[..|s| - 1], s[|s| - 1];
    FirstsContents(init);
    assert s == init + [last];
    var x, y := Firsts(s)[i], Firsts(s)[j];
    if j < |Firsts(init)| {
      FirstsOrder(init, i, j);
      IndexOfInit(init, last, x);
      IndexOfInit(init, last, y);
    } else {
      assert Firsts(s) == Firsts(init) + [last];
      assert y == last && y !in init;
      assert x == Firsts(init)[i] && x in Firsts(init);
      FirstsMember(init, x);
      IndexOfInit(init, last, x);
    }
  }

  lemma IndexOfInit<T>(s: seq<T>, last: T, x: T)
    requires x in s
    ensures x in s + [last] && IndexOf(s + [last], x) == IndexOf(s, x)
  {
    var i, k := IndexOf(s, x), IndexOf(s + [last], x);
    assert (s + [last])[i] == x;
    assert k < |s| ==> (s + [last])[k] == s[k];
  }

  /** Removing duplicates from a sequence without duplicates does nothing. */
  lemma {:induction false} FirstsOfDistinct<T>(s: seq<T>)
    requires Distinct(s)
    ensures Firsts(s) == s
  {
    if s == [] {
    } else {
      FirstsOfDistinct(s[..|s| - 1]);
      assert s == s[..|s| - 1] + [s[|s| - 1]];
    }
  }
}
