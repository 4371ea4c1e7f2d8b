/** Machine words, little-endian encodings and fixed-width records. */
module Bytes {

  type byte = b: int | 0 <= b < 0x100
  type u16 = n: int | 0 <= n < 0x1_0000
  type u32 = n: int | 0 <= n < 0x1_0000_0000
  type u64 = n: int | 0 <= n < 0x1_0000_0000_0000_0000

  const U32_LIMIT: nat := 0x1_0000_0000
  const U64_LIMIT: nat := 0x1_0000_0000_0000_0000

  /** Number of values a word of `w` bytes can hold. */
  function Pow256(w: nat): (r: nat)
    ensures r >= 1
  {
    if w == 0 then 1 else 256 * Pow256(w - 1)
  }

  lemma WordSizes()
    ensures Pow256(2) == 0x1_0000
    ensures Pow256(4) == U32_LIMIT
    ensures Pow256(8) == U64_LIMIT
  {
    assert Pow256(3) == 256 * Pow256(2);
    assert Pow256(5) == 256 * Pow256(4);
    assert Pow256(7) == 256 * Pow256(6);
  }

  /** The `w` low bytes of `v`, least significant first: what `to_le_bytes` gives. */
  function Le(w: nat, v: nat): (s: seq<byte>)
    ensures |s| == w
  {
    if w == 0 then [] else [v % 256] + Le(w - 1, v / 256)
  }

  function FromLe(s: seq<byte>): (v: nat) {
    if s == [] then 0 else s[0] + 256 * FromLe(s[1..])
  }

  lemma {:induction false} LeRoundTrip(w: nat, v: nat)
    requires v < Pow256(w)
    ensures FromLe(Le(w, v)) == v
  {
    if w == 0 {
    } else {
      LeRoundTrip(w - 1, v / 256);
      assert Le(w, v)[1..] == Le(w - 1, v / 256);
    }
  }

  lemma WordRoundTrip(w: nat, v: nat, limit: nat)
    requires v < limit
    requires (w, limit) == (2, 0x1_0000) || (w, limit) == (4, U32_LIMIT) || (w, limit) == (8, U64_LIMIT)
    ensures FromLe(Le(w, v)) == v
  {
    WordSizes();
    LeRoundTrip(w, v);
  }

  lemma {:induction false} FromLeRoundTrip(s: seq<byte>)
    ensures FromLe(s) < Pow256(|s|)
    ensures Le(|s|, FromLe(s)) == s
  {
    if s == [] {
    } else {
      FromLeRoundTrip(s[1..]);
      assert FromLe(s) % 256 == s[0] && FromLe(s) / 256 == FromLe(s[1..]);
    }
  }

  /** Least significant byte first, for the widths that occur. */
  lemma FromLeMeans(s: seq<byte>)
    ensures |s| == 1 ==> FromLe(s) == s[0]
    ensures |s| == 2 ==> FromLe(s) == s[0] as int + 0x100 * (s[1] as int)
    ensures |s| == 4 ==>
      FromLe(s) == s[0] as int + 0x100 * (s[1] as int) + 0x1_0000 * (s[2] as int) + 0x100_0000 * (s[3] as int)
    ensures |s| == 8 ==> FromLe(s) == FromLe(s[..4]) + 0x1_0000_0000 * FromLe(s[4..])
  {
    if |s| == 2 { FromLeTwo(s); }
    if |s| == 4 { FromLeFour(s); }
    if |s| == 8 {
      FromLeFour(s[..4]);
      FromLeFour(s[4..]);
      FromLeStep(s);
      FromLeStep(s[1..]);
      FromLeStep(s[1..][1..]);
      FromLeStep(s[1..][1..][1..]);
      assert s[1..][1..][1..][1..] == s[4..];
    }
  }

  lemma FromLeStep(s: seq<byte>)
    requires s != []
    ensures FromLe(s) == s[0] as int + 0x100 * FromLe(s[1..])
  {}

  lemma FromLeTwo(s: seq<byte>)
    requires |s| == 2
    ensures FromLe(s) == s[0] as int + 0x100 * (s[1] as int)
  {
    FromLeStep(s);
    FromLeStep(s[1..]);
    assert s[1..][1..] == [];
  }

  lemma FromLeFour(s: seq<byte>)
    requires |s| == 4
    ensures FromLe(s) == s[0] as int + 0x100 * (s[1] as int) + 0x1_0000 * (s[2] as int) + 0x100_0000 * (s[3] as int)
  {
    FromLeStep(s);
    FromLeStep(s[1..]);
    FromLeTwo(s[1..][1..]);
  }

  /** These bytes stand at this position. */
  ghost predicate At(b: seq<byte>, at: nat, piece: seq<byte>) {
    at + |piece| <= |b| && b[at..at + |piece|] == piece
  }

  lemma AtBehind(pre: seq<byte>, b: seq<byte>, at: nat, piece: seq<byte>)
    requires At(b, at, piece)
    ensures At(pre + b, |pre| + at, piece)
  {}

  lemma AtBefore(b: seq<byte>, post: seq<byte>, at: nat, piece: seq<byte>)
    requires At(b, at, piece)
    ensures At(b + post, at, piece)
  {}

  lemma AtInside(b: seq<byte>, at: nat, whole: seq<byte>, inner: nat, piece: seq<byte>)
    requires At(b, at, whole) && At(whole, inner, piece)
    ensures At(b, at + inner, piece)
  {
    var mid := b[at..at + |whole|];
    assert mid[inner..inner + |piece|] == piece;
    forall k | 0 <= k < |piece| ensures b[at + inner + k] == piece[k] {
      assert mid[inner + k] == b[at + inner + k] && mid[inner..inner + |piece|][k] == mid[inner + k];
    }
  }

  lemma AtSplit(b: seq<byte>, at: nat, x: seq<byte>, rest: seq<byte>)
    requires At(b, at, x + rest)
    ensures At(b, at, x) && At(b, at + |x|, rest)
  {
    AtInside(b, at, x + rest, 0, x);
    AtInside(b, at, x + rest, |x|, rest);
  }

  /** Cutting a concatenation at the seam. */
  lemma Seam<T>(a: seq<T>, b: seq<T>)
    ensures (a + b)[..|a|] == a && (a + b)[|a|..] == b
  {}

  /** A length stored in four bytes, truncated as an `as u32` cast does. */
  function Len32(n: nat): (s: seq<byte>)
    ensures |s| == 4
  {
    Le(4, Truncate32(n))
  }

  /** An `as u32` cast. */
  function Truncate32(n: nat): (m: nat)
    ensures m < U32_LIMIT
    ensures n < U32_LIMIT ==> m == n
  {
    if n < U32_LIMIT then n else n % U32_LIMIT
  }

  /** Within 32 bits the stored length is the length. */
  lemma Len32Reads(n: nat)
    requires n < 0x1_0000_0000
    ensures Len32(n) == Le(4, n) && FromLe(Len32(n)) == n
  {
    WordRoundTrip(4, n, U32_LIMIT);
  }

  /** A length-prefixed byte string. */
  function Blob(s: seq<byte>): (r: seq<byte>)
    ensures |r| == 4 + |s|
  {
    Len32(|s|) + s
  }

  // ---------------------------------------------------------------------
  // Fixed-width records: consecutive little-endian words of widths `ws`.
  // ---------------------------------------------------------------------

  function Width(ws: seq<nat>): nat {
    if ws == [] then 0 else ws[0] + Width(ws[1..])
  }

  lemma WidthCons(w: nat, ws: seq<nat>)
    ensures Width([w] + ws) == w + Width(ws)
  {
    assert ([w] + ws)[1..] == ws;
  }

  ghost predicate Fits(ws: seq<nat>, vs: seq<nat>) {
    |vs| == |ws| && forall i :: 0 <= i < |ws| ==> vs[i] < Pow256(ws[i])
  }

  function EncodeWords(ws: seq<nat>, vs: seq<nat>): (s: seq<byte>)
    requires |vs| == |ws|
    ensures |s| == Width(ws)
  {
    if ws == [] then [] else Le(ws[0], vs[0]) + EncodeWords(ws[1..], vs[1..])
  }

  function DecodeWords(ws: seq<nat>, s: seq<byte>): (vs: seq<nat>)
    requires |s| >= Width(ws)
    ensures |vs| == |ws|
  {
    if ws == [] then []
    else [FromLe(s[..ws[0]])] + DecodeWords(ws[1..], s[ws[0]..])
  }

  lemma EncodeCons(w: nat, ws: seq<nat>, v: nat, vs: seq<nat>)
    requires |ws| == |vs|
    ensures EncodeWords([w] + ws, [v] + vs) == Le(w, v) + EncodeWords(ws, vs)
  {
    assert ([w] + ws)[1..] == ws && ([v] + vs)[1..] == vs;
  }

  lemma LeOne(v: byte)
    ensures Le(1, v) == [v]
  {
    assert Le(0, v / 256) == [];
  }

  /** Reading the word that stands at a position of an encoding gives the word. */
  lemma ReadWordAt(b: seq<byte>, at: nat, w: nat, v: nat)
    requires At(b, at, Le(w, v)) && v < Pow256(w)
    ensures FromLe(b[at..at + w]) == v
  {
    LeRoundTrip(w, v);
  }

  lemma {:induction false} WordsRoundTrip(ws: seq<nat>, vs: seq<nat>, rest: seq<byte>)
    requires Fits(ws, vs)
    ensures |EncodeWords(ws, vs) + rest| >= Width(ws)
    ensures DecodeWords(ws, EncodeWords(ws, vs) + rest) == vs
  {
    if ws == [] {
    } else {
      var head, tail := Le(ws[0], vs[0]), EncodeWords(ws[1..], vs[1..]);
      assert EncodeWords(ws, vs) + rest == head + (tail + rest);
      Seam(head, tail + rest);
      LeRoundTrip(ws[0], vs[0]);
      WordsRoundTrip(ws[1..], vs[1..], rest);
    }
  }

  lemma {:induction false} DecodeRoundTrip(ws: seq<nat>, s: seq<byte>)
    requires |s| >= Width(ws)
    ensures Fits(ws, DecodeWords(ws, s))
    ensures EncodeWords(ws, DecodeWords(ws, s)) == s[..Width(ws)]
  {
    if ws == [] {
    } else {
      var w := ws[0];
      DecodeRoundTrip(ws[1..], s[w..]);
      FromLeRoundTrip(s[..w]);
      var vs := DecodeWords(ws, s);
      assert vs[1..] == DecodeWords(ws[1..], s[w..]);
      forall i | 0 <= i < |ws| ensures vs[i] < Pow256(ws[i]) {
        if i > 0 { assert vs[i] == vs[1..][i - 1] && ws[i] == ws[1..][i - 1]; }
      }
      assert s[..Width(ws)] == s[..w] + s[w..][..Width(ws[1..])];
    }
  }

  /** A decoder looks only at the bytes of the record. */
  lemma {:induction false} DecodeLocal(ws: seq<nat>, s: seq<byte>, rest: seq<byte>)
    requires |s| >= Width(ws)
    ensures DecodeWords(ws, s + rest) == DecodeWords(ws, s)
  {
    if ws == [] {
    } else {
      var w := ws[0];
      assert (s + rest)[..w] == s[..w];
      assert (s + rest)[w..] == s[w..] + rest;
      DecodeLocal(ws[1..], s[w..], rest);
    }
  }
}
