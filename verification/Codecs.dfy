/**
 Counted lists of records: printing one record after the other, and reading
 `n` records back with a cursor that moves over the buffer.
 */
module Codecs {
  import opened Bytes
  import opened Results

  /** A printer of one record. */
  type Printer<!T> = T -> seq<byte>

  /** A reader of one record at the front of a buffer: the record and the bytes it used. */
  type Reader<!T> = seq<byte> -> Result<(T, nat)>

  function Flat<T>(enc: Printer<T>, xs: seq<T>): (s: seq<byte>) {
    if xs == [] then [] else enc(xs[0]) + Flat(enc, xs[1..])
  }

  function ReadMany<T>(dec: Reader<T>, b: seq<byte>, n: nat): (r: Result<seq<T>>)
    ensures r.Ok? ==> |r.value| == n
    decreases n
  {
    if n == 0 then Ok([])
    else
      match dec(b)
      case Err(e) => Err(e)
      case Ok((x, used)) =>
        match ReadMany(dec, Drop(b, used), n - 1)
        case Err(e) => Err(e)
        case Ok(xs) => Ok([x] + xs)
  }

  /** The buffer after a cursor step, which may run past its end. */
  function Drop(b: seq<byte>, n: nat): (r: seq<byte>)
    ensures n <= |b| ==> r == b[n..]
  {
    if n <= |b| then b[n..] else []
  }

  /** Reading undoes printing for the records that satisfy `ok`, whatever follows. */
  ghost predicate Inverts<T(!new)>(enc: Printer<T>, dec: Reader<T>, ok: T -> bool) {
    forall x, rest :: ok(x) ==> dec(enc(x) + rest) == Ok((x, |enc(x)|))
  }

  /** Whatever is read satisfies `ok` and reprints to the bytes it was read from. */
  ghost predicate Reprints<T(!new)>(enc: Printer<T>, dec: Reader<T>, ok: T -> bool) {
    forall b :: dec(b).Ok? ==>
      var (x, used) := dec(b).value; ok(x) && used <= |b| && enc(x) == b[..used]
  }

  lemma {:induction false} FlatAppend<T>(enc: Printer<T>, xs: seq<T>, x: T)
    ensures Flat(enc, xs + [x]) == Flat(enc, xs) + enc(x)
  {
    if xs == [] {
      assert xs + [x] == [x] && [x][1..] == [];
      assert Flat(enc, [x]) == enc(x) + Flat(enc, []);
    } else {
      FlatAppend(enc, xs[1..], x);
      assert (xs + [x])[1..] == xs[1..] + [x];
    }
  }

  /** Where element `i` stands among printed elements of the given sizes. */
  function Offset<T>(size: T -> nat, xs: seq<T>, i: nat): nat
    requires i <= |xs|
  {
    if i == 0 then 0 else Offset(size, xs, i - 1) + size(xs[i - 1])
  }

  lemma {:induction false} OffsetCons<T>(size: T -> nat, x: T, xs: seq<T>, i: nat)
    requires i <= |xs|
    ensures Offset(size, [x] + xs, i + 1) == size(x) + Offset(size, xs, i)
  {
    if i == 0 {
      assert Offset(size, [x] + xs, 0) == 0;
    } else {
      OffsetCons(size, x, xs, i - 1);
      assert ([x] + xs)[i] == xs[i - 1];
    }
  }

  /** Printed element `i` stands at its offset from `at`. */
  ghost predicate ElementAt<T>(b: seq<byte>, at: nat, enc: Printer<T>, size: T -> nat, xs: seq<T>, i: nat)
    requires i < |xs|
  {
    At(b, at + Offset(size, xs, i), enc(xs[i]))
  }

  ghost predicate ElementsAt<T>(b: seq<byte>, at: nat, enc: Printer<T>, size: T -> nat, xs: seq<T>) {
    forall i :: 0 <= i < |xs| ==> ElementAt(b, at, enc, size, xs, i)
  }

  /** Printed elements stand at their offsets, and nothing else is printed. */
  lemma {:induction false} FlatAt<T>(enc: Printer<T>, size: T -> nat, xs: seq<T>)
    requires forall x :: x in xs ==> |enc(x)| == size(x)
    ensures |Flat(enc, xs)| == Offset(size, xs, |xs|)
    ensures ElementsAt(Flat(enc, xs), 0, enc, size, xs)
  {
    if xs == [] {
    } else {
      var x, tail := xs[0], xs[1..];
      assert xs == [x] + tail;
      FlatAt(enc, size, tail);
      OffsetCons(size, x, tail, |tail|);
      FlatCons(enc, x, tail);
      forall i | 0 <= i < |xs| ensures ElementAt(Flat(enc, xs), 0, enc, size, xs, i) {
        if i == 0 {
          AtBefore(enc(x), Flat(enc, tail), 0, enc(x));
        } else {
          OffsetCons(size, x, tail, i - 1);
          assert ElementAt(Flat(enc, tail), 0, enc, size, tail, i - 1);
          AtBehind(enc(x), Flat(enc, tail), Offset(size, tail, i - 1), enc(tail[i - 1]));
        }
      }
    }
  }

  /** Count and elements, behind `pre` and before `post`. */
  lemma CountedAt<T>(enc: Printer<T>, size: T -> nat, xs: seq<T>, pre: seq<byte>, post: seq<byte>)
    requires forall x :: x in xs ==> |enc(x)| == size(x)
    ensures var b := pre + (PrintCounted(enc, xs) + post);
            && At(b, |pre|, Len32(|xs|))
            && ElementsAt(b, |pre| + 4, enc, size, xs)
            && |PrintCounted(enc, xs)| == 4 + Offset(size, xs, |xs|)
  {
    FlatAt(enc, size, xs);
    PrefixedAt(Len32(|xs|), Flat(enc, xs), pre, post, 0, []);
    assert pre + (PrintCounted(enc, xs) + post) == pre + ((Len32(|xs|) + Flat(enc, xs)) + post);
    var b, at := pre + (PrintCounted(enc, xs) + post), |pre| + 4;
    forall i | 0 <= i < |xs| ensures ElementAt(b, at, enc, size, xs, i) {
      assert ElementAt(Flat(enc, xs), 0, enc, size, xs, i);
      PrefixedAt(Len32(|xs|), Flat(enc, xs), pre, post, Offset(size, xs, i), enc(xs[i]));
    }
  }

  lemma CountedAlone<T>(enc: Printer<T>, size: T -> nat, xs: seq<T>)
    requires forall x :: x in xs ==> |enc(x)| == size(x)
    ensures var b := PrintCounted(enc, xs);
            At(b, 0, Len32(|xs|)) && ElementsAt(b, 4, enc, size, xs) && |b| == 4 + Offset(size, xs, |xs|)
  {
    CountedAt(enc, size, xs, [], []);
    var b := PrintCounted(enc, xs);
    assert [] + (b + []) == b;
  }

  lemma PrefixedAt(head: seq<byte>, b: seq<byte>, pre: seq<byte>, post: seq<byte>, at: nat, piece: seq<byte>)
    requires At(b, at, piece)
    ensures At(pre + ((head + b) + post), |pre|, head)
    ensures At(pre + ((head + b) + post), |pre| + |head| + at, piece)
  {
    AtBefore(head, b, 0, head);
    Surrounded(pre, head + b, post, 0, head);
    AtBehind(head, b, at, piece);
    Surrounded(pre, head + b, post, |head| + at, piece);
  }

  lemma {:induction false} OffsetConst<T>(size: T -> nat, w: nat, xs: seq<T>, i: nat)
    requires i <= |xs| && forall x :: x in xs ==> size(x) == w
    ensures Offset(size, xs, i) == w * i
  {
    if i == 0 {
    } else {
      OffsetConst(size, w, xs, i - 1);
      assert xs[i - 1] in xs;
      assert w * i == w * (i - 1) + w;
    }
  }

  /** Element `i` of a counted list of fixed-width elements at the front of a buffer. */
  ghost predicate FixedEntry<T>(b: seq<byte>, enc: Printer<T>, w: nat, xs: seq<T>, i: nat)
    requires i < |xs|
  {
    At(b, 4 + w * i, enc(xs[i]))
  }

  lemma FixedEntries<T>(b: seq<byte>, enc: Printer<T>, w: nat, xs: seq<T>)
    requires PrintCounted(enc, xs) <= b && forall x :: x in xs ==> |enc(x)| == w
    ensures At(b, 0, Len32(|xs|)) && forall i :: 0 <= i < |xs| ==> FixedEntry(b, enc, w, xs, i)
  {
    var size := (x: T) => w;
    var rest := b[|PrintCounted(enc, xs)|..];
    assert b == [] + (PrintCounted(enc, xs) + rest);
    CountedAt(enc, size, xs, [], rest);
    forall i | 0 <= i < |xs| ensures FixedEntry(b, enc, w, xs, i) {
      assert ElementAt(b, 4, enc, size, xs, i);
      OffsetConst(size, w, xs, i);
    }
  }

  lemma Surrounded(pre: seq<byte>, b: seq<byte>, post: seq<byte>, at: nat, piece: seq<byte>)
    requires At(b, at, piece)
    ensures At(pre + (b + post), |pre| + at, piece)
  {
    AtBefore(b, post, at, piece);
    AtBehind(pre, b + post, at, piece);
  }

  /** The loop step of every section printer. */
  lemma FlatStep<T>(enc: Printer<T>, xs: seq<T>, i: nat)
    requires i < |xs|
    ensures Flat(enc, xs[..i + 1]) == Flat(enc, xs[..i]) + enc(xs[i])
  {
    FlatAppend(enc, xs[..i], xs[i]);
    assert xs[..i] + [xs[i]] == xs[..i + 1];
  }

  lemma {:induction false} ManyRoundTrip<T(!new)>(enc: Printer<T>, dec: Reader<T>, ok: T -> bool, xs: seq<T>,
      rest: seq<byte>)
    requires Inverts(enc, dec, ok)
    requires forall x :: x in xs ==> ok(x)
    ensures ReadMany(dec, Flat(enc, xs) + rest, |xs|) == Ok(xs)
  {
    if xs == [] {
    } else {
      var head, tail := enc(xs[0]), Flat(enc, xs[1..]);
      assert Flat(enc, xs) + rest == head + (tail + rest);
      Seam(head, tail + rest);
      ManyRoundTrip(enc, dec, ok, xs[1..], rest);
      assert xs == [xs[0]] + xs[1..];
    }
  }

  lemma PrefixJoin(a: seq<byte>, rest: seq<byte>, b: seq<byte>)
    requires |a| <= |b| && a == b[..|a|] && rest <= b[|a|..]
    ensures a + rest <= b
  {
    assert b == a + b[|a|..];
  }

  lemma FlatCons<T>(enc: Printer<T>, x: T, xs: seq<T>)
    ensures Flat(enc, [x] + xs) == enc(x) + Flat(enc, xs)
  {
    assert ([x] + xs)[1..] == xs;
  }

  lemma {:induction false} ManyReprint<T(!new)>(enc: Printer<T>, dec: Reader<T>, ok: T -> bool, b: seq<byte>, n: nat)
    requires Reprints(enc, dec, ok)
    requires ReadMany(dec, b, n).Ok?
    ensures var xs := ReadMany(dec, b, n).value;
            Flat(enc, xs) <= b && forall x :: x in xs ==> ok(x)
  {
    if n == 0 {
    } else {
      var (x, used) := dec(b).value;
      ManyReprint(enc, dec, ok, b[used..], n - 1);
      var more := ReadMany(dec, b[used..], n - 1).value;
      assert ReadMany(dec, b, n).value == [x] + more;
      FlatCons(enc, x, more);
      PrefixJoin(enc(x), Flat(enc, more), b);
    }
  }

  lemma PrintedPrefixIsRead<T(!new)>(enc: Printer<T>, dec: Reader<T>, ok: T -> bool,
                                     xs: seq<T>, b: seq<byte>, rest: seq<byte>)
    requires Inverts(enc, dec, ok)
    requires Flat(enc, xs) <= b && forall x :: x in xs ==> ok(x)
    ensures ReadMany(dec, b + rest, |xs|) == Ok(xs)
  {
    var done := Flat(enc, xs);
    assert b + rest == done + (b[|done|..] + rest);
    ManyRoundTrip(enc, dec, ok, xs, b[|done|..] + rest);
  }

  /** A successful read does not look at what follows it. */
  lemma {:induction false} ManyIgnoresTail<T(!new)>(enc: Printer<T>, dec: Reader<T>, ok: T -> bool,
                                                    b: seq<byte>, n: nat, rest: seq<byte>)
    requires Inverts(enc, dec, ok) && Reprints(enc, dec, ok)
    requires ReadMany(dec, b, n).Ok?
    ensures ReadMany(dec, b + rest, n) == ReadMany(dec, b, n)
  {
    ManyReprint(enc, dec, ok, b, n);
    PrintedPrefixIsRead(enc, dec, ok, ReadMany(dec, b, n).value, b, rest);
  }

  /** Where the cursor stands before element `i`. */
  function Cursor<T>(dec: Reader<T>, b: seq<byte>, i: nat): nat {
    if i == 0 then 0
    else
      var p := Cursor(dec, b, i - 1);
      var r := dec(Drop(b, p));
      if r.Ok? then p + r.value.1 else p
  }

  lemma CursorFirst<T>(dec: Reader<T>, b: seq<byte>, used: nat, i: nat)
    requires dec(b).Ok? && dec(b).value.1 == used
    ensures Cursor(dec, b, i + 1) == used + Cursor(dec, Drop(b, used), i)
    decreases i
  {
    assert Drop(b, 0) == b;
    if i == 0 {
      assert Cursor(dec, b, 0) == 0;
    } else {
      CursorFirst(dec, b, used, i - 1);
      DropTwice(b, used, Cursor(dec, Drop(b, used), i - 1));
    }
  }

  /** Each element was read where the cursor stood. */
  ghost predicate ReadAt<T>(dec: Reader<T>, b: seq<byte>, xs: seq<T>, i: nat)
    requires i < |xs|
  {
    var r := dec(Drop(b, Cursor(dec, b, i)));
    r.Ok? && r.value.0 == xs[i]
  }

  /** The elements `xs` are what reading `n` gives. */
  lemma ReadManyFirst<T>(dec: Reader<T>, b: seq<byte>, n: nat, xs: seq<T>) returns (x: T, used: nat, more: seq<T>)
    requires n > 0 && ReadMany(dec, b, n) == Ok(xs)
    ensures dec(b) == Ok((x, used)) && xs == [x] + more && ReadMany(dec, Drop(b, used), n - 1) == Ok(more)
  {
    x, used := dec(b).value.0, dec(b).value.1;
    more := ReadMany(dec, Drop(b, used), n - 1).value;
  }

  lemma {:induction false} ReadManyAt<T>(dec: Reader<T>, b: seq<byte>, n: nat, xs: seq<T>, i: nat)
    requires ReadMany(dec, b, n) == Ok(xs) && i < n
    ensures ReadAt(dec, b, xs, i)
    decreases n
  {
    var x, used, more := ReadManyFirst(dec, b, n, xs);
    if i == 0 {
      assert Drop(b, 0) == b;
    } else {
      ReadManyAt(dec, Drop(b, used), n - 1, more, i - 1);
      ReadAtBehind(dec, b, x, used, more, i - 1);
    }
  }

  lemma ReadAtBehind<T>(dec: Reader<T>, b: seq<byte>, x: T, used: nat, more: seq<T>, i: nat)
    requires dec(b) == Ok((x, used)) && i < |more| && ReadAt(dec, Drop(b, used), more, i)
    ensures ReadAt(dec, b, [x] + more, i + 1)
  {
    CursorFirst(dec, b, used, i);
    DropTwice(b, used, Cursor(dec, Drop(b, used), i));
  }

  /** Any account of the positions that follows the reader is the cursor. */
  lemma {:induction false} CursorIs<T>(dec: Reader<T>, b: seq<byte>, pos: nat -> nat, i: nat)
    requires pos(0) == 0
    requires forall j: nat :: dec(Drop(b, pos(j))).Ok? ==> pos(j + 1) == pos(j) + dec(Drop(b, pos(j))).value.1
    requires forall j :: 0 <= j < i ==> dec(Drop(b, Cursor(dec, b, j))).Ok?
    ensures Cursor(dec, b, i) == pos(i)
  {
    if i == 0 {
    } else {
      CursorIs(dec, b, pos, i - 1);
      assert dec(Drop(b, Cursor(dec, b, i - 1))).Ok?;
      assert pos(i - 1 + 1) == pos(i);
    }
  }

  // ---------------------------------------------------------------------
  // Sections that are a 32-bit count followed by that many records.
  // ---------------------------------------------------------------------

  function PrintCounted<T>(enc: Printer<T>, xs: seq<T>): seq<byte> {
    Len32(|xs|) + Flat(enc, xs)
  }

  function ReadCounted<T>(dec: Reader<T>, b: seq<byte>): Result<seq<T>> {
    if |b| < 4 then Err(BufferTooSmall) else ReadMany(dec, b[4..], FromLe(b[..4]))
  }

  lemma CountRoundTrip(n: nat)
    requires n < U32_LIMIT
    ensures FromLe(Len32(n)) == n
  {
    WordRoundTrip(4, n, U32_LIMIT);
  }

  lemma CountReprint(b: seq<byte>)
    requires |b| == 4
    ensures FromLe(b) < U32_LIMIT && Len32(FromLe(b)) == b
  {
    FromLeRoundTrip(b);
    WordSizes();
  }

  lemma CountedRoundTrip<T(!new)>(enc: Printer<T>, dec: Reader<T>, ok: T -> bool, xs: seq<T>, rest: seq<byte>)
    requires Inverts(enc, dec, ok)
    requires |xs| < U32_LIMIT && forall x :: x in xs ==> ok(x)
    ensures ReadCounted(dec, PrintCounted(enc, xs) + rest) == Ok(xs)
  {
    assert PrintCounted(enc, xs) + rest == Len32(|xs|) + (Flat(enc, xs) + rest);
    Seam(Len32(|xs|), Flat(enc, xs) + rest);
    CountRoundTrip(|xs|);
    ManyRoundTrip(enc, dec, ok, xs, rest);
  }

  lemma CountedReprint<T(!new)>(enc: Printer<T>, dec: Reader<T>, ok: T -> bool, b: seq<byte>)
    requires Reprints(enc, dec, ok)
    requires ReadCounted(dec, b).Ok?
    ensures PrintCounted(enc, ReadCounted(dec, b).value) <= b
    ensures forall x :: x in ReadCounted(dec, b).value ==> ok(x)
  {
    CountReprint(b[..4]);
    ManyReprint(enc, dec, ok, b[4..], FromLe(b[..4]));
    assert b == b[..4] + b[4..];
  }

  lemma CountedIgnoresTail<T(!new)>(enc: Printer<T>, dec: Reader<T>, ok: T -> bool, b: seq<byte>, rest: seq<byte>)
    requires Inverts(enc, dec, ok) && Reprints(enc, dec, ok)
    requires ReadCounted(dec, b).Ok?
    ensures ReadCounted(dec, b + rest) == ReadCounted(dec, b)
  {
    assert (b + rest)[..4] == b[..4] && (b + rest)[4..] == b[4..] + rest;
    ManyIgnoresTail(enc, dec, ok, b[4..], FromLe(b[..4]), rest);
  }

  lemma CountedPrefixRejected<T(!new)>(enc: Printer<T>, dec: Reader<T>, ok: T -> bool, xs: seq<T>, p: seq<byte>)
    requires Inverts(enc, dec, ok) && Reprints(enc, dec, ok)
    requires |xs| < U32_LIMIT && forall x :: x in xs ==> ok(x)
    requires p < PrintCounted(enc, xs)
    ensures ReadCounted(dec, p).Err?
  {
    if ReadCounted(dec, p).Ok? {
      var whole := PrintCounted(enc, xs);
      assert whole == p + whole[|p|..] && whole + [] == whole;
      CountedIgnoresTail(enc, dec, ok, p, whole[|p|..]);
      CountedRoundTrip(enc, dec, ok, xs, []);
      CountedReprint(enc, dec, ok, p);
    }
  }

  /** A reader that always takes exactly `w` bytes and only fails for lack of them. */
  ghost predicate TakesExactly<T(!new)>(dec: Reader<T>, w: nat) {
    forall b :: if |b| < w then dec(b) == Err(BufferTooSmall) else dec(b).Ok? && dec(b).value.1 == w
  }

  /** For fixed-width records only the buffer length decides. */
  lemma {:induction false} FixedWidthReads<T(!new)>(dec: Reader<T>, w: nat, b: seq<byte>, n: nat)
    requires TakesExactly(dec, w)
    ensures if |b| < n * w then ReadMany(dec, b, n) == Err(BufferTooSmall) else ReadMany(dec, b, n).Ok?
    decreases n
  {
    if n == 0 {
    } else {
      var less: nat := (n - 1) * w;
      assert n * w == less + w;
      if |b| >= w { FixedWidthReads(dec, w, b[w..], n - 1); }
    }
  }

  // ---------------------------------------------------------------------
  // The loops of the section printers and readers.
  // ---------------------------------------------------------------------

  /** Append the printed records to a buffer. */
  method AppendAll<T>(enc: Printer<T>, head: seq<byte>, xs: seq<T>) returns (buf: seq<byte>)
    ensures buf == head + Flat(enc, xs)
  {
    buf := head;
    for i := 0 to |xs|
      invariant buf == head + Flat(enc, xs[..i])
    {
      buf := buf + enc(xs[i]);
      FlatStep(enc, xs, i);
    }
    assert xs[..|xs|] == xs;
  }

  /** Read `count` records from `start` on: one cursor, one growing vector. */
  method ReadAll<T>(dec: Reader<T>, bytes: seq<byte>, start: nat, count: nat) returns (r: Result<seq<T>>)
    ensures r == ReadMany(dec, Drop(bytes, start), count)
  {
    var xs: seq<T> := [];
    var offset := start;
    ContinueStart(ReadMany(dec, Drop(bytes, start), count));
    for i := 0 to count
      invariant ReadMany(dec, Drop(bytes, start), count) == Continue(xs, ReadMany(dec, Drop(bytes, offset), count - i))
    {
      var record := dec(Drop(bytes, offset));
      if record.Err? {
        return Err(record.error);
      }
      ContinueStep(dec, xs, Drop(bytes, offset), count - i);
      DropTwice(bytes, offset, record.value.1);
      xs := xs + [record.value.0];
      offset := offset + record.value.1;
    }
    assert xs + [] == xs;
    r := Ok(xs);
  }

  lemma DropTwice(b: seq<byte>, m: nat, n: nat)
    ensures Drop(Drop(b, m), n) == Drop(b, m + n)
  {
    if m + n <= |b| { assert b[m..][n..] == b[m + n..]; }
  }

  /** The records read so far, followed by what the rest of the buffer gives. */
  ghost function Continue<T>(done: seq<T>, rest: Result<seq<T>>): Result<seq<T>> {
    if rest.Ok? then Ok(done + rest.value) else rest
  }

  lemma ContinueStart<T>(r: Result<seq<T>>)
    ensures Continue([], r) == r
  {
    if r.Ok? { assert [] + r.value == r.value; }
  }

  /** One loop iteration that read `x` keeps the loop's meaning. */
  lemma ContinueStep<T>(dec: Reader<T>, done: seq<T>, b: seq<byte>, n: nat)
    requires n > 0 && dec(b).Ok?
    ensures var (x, used) := dec(b).value;
            Continue(done, ReadMany(dec, b, n)) == Continue(done + [x], ReadMany(dec, Drop(b, used), n - 1))
  {
    var (x, used) := dec(b).value;
    var rest := ReadMany(dec, Drop(b, used), n - 1);
    if rest.Ok? { assert done + ([x] + rest.value) == done + [x] + rest.value; }
  }
}
