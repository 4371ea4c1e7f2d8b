/**
 Documents that state their own length, and the answers bounded by `max_bytes` that use them.

 Writing the length into a document changes its length. The loops that do it stop after a
 fixed number of rounds; here it is proved that they always end at an exact fixed point.
 */
module BoundedOutput {
  import opened Bytes
  import opened Decimal

  /** The value of `emitted_bytes` in a document. */
  datatype Field = Null | Number(n: nat)

  function FieldText(f: Field): seq<byte> {
    match f case Null => [110, 117, 108, 108] case Number(n) => Digits(n)
  }

  /** A serialised document with one or more places for the field: after `head` and before each of `tails`. */
  datatype Template = Template(head: seq<byte>, tails: seq<seq<byte>>)

  function Render(t: Template, f: Field): seq<byte> {
    t.head + Fill(t.tails, FieldText(f))
  }

  function Fill(tails: seq<seq<byte>>, text: seq<byte>): seq<byte> {
    if tails == [] then [] else text + tails[0] + Fill(tails[1..], text)
  }

  function Size(tails: seq<seq<byte>>): nat {
    if tails == [] then 0 else |tails[0]| + Size(tails[1..])
  }

  lemma {:induction false} FillLength(tails: seq<seq<byte>>, text: seq<byte>)
    ensures |Fill(tails, text)| == Size(tails) + |tails| * |text|
  {
    if tails == [] {
    } else {
      FillLength(tails[1..], text);
    }
  }

  /** What the document measures apart from the field. */
  function Fixed(t: Template): nat {
    |t.head| + Size(t.tails)
  }

  lemma RenderLength(t: Template, f: Field)
    ensures |Render(t, f)| == Fixed(t) + |t.tails| * |FieldText(f)|
  {
    FillLength(t.tails, FieldText(f));
  }

  // ---------------------------------------------------------------------
  // The number of digits settles.
  // ---------------------------------------------------------------------

  /** Two numbers 38 apart or less differ by at most one digit. */
  lemma AtMostOneMoreDigit(m: nat, n: nat)
    requires m <= n <= m + 38
    ensures DigitCount(m) <= DigitCount(n) <= DigitCount(m) + 1
  {
    MoreDigits(m, n);
    if n >= 10 {
      if n / 10 <= m {
        MoreDigits(n / 10, m);
      } else {
        assert n < 100 && DigitCount(n / 10) == 1;
      }
    }
  }

  function Pow10(e: nat): nat {
    if e == 0 then 1 else 10 * Pow10(e - 1)
  }

  lemma {:induction false} FewDigits(n: nat, e: nat)
    requires e >= 1 && n < Pow10(e)
    ensures DigitCount(n) <= e
    decreases e
  {
    if n < 10 {
    } else {
      if e > 1 { FewDigits(n / 10, e - 1); }
    }
  }

  /** A machine word has at most twenty digits. */
  lemma WordDigits(n: nat)
    requires n < 0x1_0000_0000_0000_0000
    ensures 1 <= DigitCount(n) <= 20
  {
    assert Pow10(7) == 1_0000000;
    assert Pow10(14) == 1_0000000_0000000;
    assert Pow10(20) == 1_000000_0000000_0000000;
    FewDigits(n, 20);
  }

  /** The length of a document whose field has `width` characters. */
  function LengthAt(c: nat, k: nat, width: nat): nat {
    if k == 1 then c + width else c + 2 * width
  }

  /** Written twice, the length has reached its final number of digits. */
  lemma WidthSettles(c: nat, k: nat, width: nat)
    requires 1 <= k <= 2 && 1 <= width <= 20 && c + 40 < 0x1_0000_0000_0000_0000
    ensures var w1 := DigitCount(LengthAt(c, k, width));
            var w2 := DigitCount(LengthAt(c, k, w1));
            DigitCount(LengthAt(c, k, w2)) == w2
  {
    var lo, hi := LengthAt(c, k, 1), LengthAt(c, k, 20);
    var x1 := LengthAt(c, k, width);
    var w1 := DigitCount(x1);
    WordDigits(x1);
    var x2 := LengthAt(c, k, w1);
    var w2 := DigitCount(x2);
    WordDigits(x2);
    var x3 := LengthAt(c, k, w2);
    AtMostOneMoreDigit(lo, hi);
    MoreDigits(lo, x1); MoreDigits(x1, hi);
    MoreDigits(lo, x2); MoreDigits(x2, hi);
    MoreDigits(lo, x3); MoreDigits(x3, hi);
    if w1 <= w2 { MoreDigits(x2, x3); } else { MoreDigits(x3, x2); }
  }

  // ---------------------------------------------------------------------
  // The loops.
  // ---------------------------------------------------------------------

  /** A document the loops are used on: the field occurs once or twice, and lengths fit a machine word. */
  predicate Admissible(t: Template) {
    1 <= |t.tails| <= 2 && Fixed(t) + 40 < 0x1_0000_0000_0000_0000
  }

  predicate ValidField(f: Field) {
    f.Number? ==> f.n < 0x1_0000_0000_0000_0000
  }

  function Measured(t: Template, f: Field): Field {
    Number(|Render(t, f)|)
  }

  /** The field tells the true length. */
  predicate Exact(t: Template, f: Field) {
    f == Measured(t, f)
  }

  /** The length reached from `start`. */
  function Settled(t: Template, start: Field): Field {
    Measured(t, Measured(t, Measured(t, start)))
  }

  lemma MeasuredLength(t: Template, f: Field)
    requires Admissible(t)
    ensures Measured(t, f).n == LengthAt(Fixed(t), |t.tails|, |FieldText(f)|)
  {
    RenderLength(t, f);
  }

  lemma FieldWidth(f: Field)
    requires ValidField(f)
    ensures 1 <= |FieldText(f)| <= 20
  {
    if f.Number? { WordDigits(f.n); }
  }

  /** Three rounds reach an exact length, from null or from any number. */
  lemma SettledIsExact(t: Template, start: Field)
    requires Admissible(t) && ValidField(start)
    ensures Exact(t, Settled(t, start))
  {
    var a := Measured(t, start);
    var b := Measured(t, a);
    var c := Measured(t, b);
    FieldWidth(start);
    MeasuredLength(t, start);
    MeasuredLength(t, a);
    MeasuredLength(t, b);
    MeasuredLength(t, c);
    WidthSettles(Fixed(t), |t.tails|, |FieldText(start)|);
  }

  /** Two rounds are not always enough. */
  lemma TwoRoundsAreNotEnough()
    ensures exists t: Template :: Admissible(t) && !Exact(t, Measured(t, Measured(t, Null)))
  {
    var t := Template(seq(96, i => 32), [[]]);
    RenderLength(t, Null);
    RenderLength(t, Number(100));
    RenderLength(t, Number(99));
    assert Measured(t, Null) == Number(100) && DigitCount(100) == 3;
    assert Measured(t, Number(100)) == Number(99) && DigitCount(99) == 2;
    assert Measured(t, Number(99)) == Number(98);
  }

  /** The exact length need not be unique; the loops speak of the one they reach. */
  lemma ExactLengthIsNotUnique()
    ensures exists t: Template :: Admissible(t) && Exact(t, Number(99)) && Exact(t, Number(100))
  {
    var t := Template(seq(97, i => 32), [[]]);
    RenderLength(t, Number(100));
    RenderLength(t, Number(99));
    assert DigitCount(100) == 3 && DigitCount(99) == 2;
    assert Measured(t, Number(100)) == Number(100) && Measured(t, Number(99)) == Number(99);
    assert Exact(t, Number(99)) && Exact(t, Number(100));
  }

  /** The four-round loop of `answer_pack_json` and `mcp_answer_result`. */
  method Settle(t: Template, start: Field) returns (f: Field)
    requires Admissible(t) && ValidField(start)
    ensures f == Settled(t, start) && Exact(t, f)
  {
    SettledIsExact(t, start);
    f := start;
    for i := 0 to 4
      invariant f == (if i == 0 then start else if i == 1 then Measured(t, start)
                      else if i == 2 then Measured(t, Measured(t, start)) else Settled(t, start))
    {
      var emitted := |Render(t, f)|;
      if f == Number(emitted) { return; }
      f := Number(emitted);
    }
  }

  // ---------------------------------------------------------------------
  // The bounded answer of the command line.
  // ---------------------------------------------------------------------

  datatype Format = Json | Yaml | Table

  /**
   What an answer serialises to. `minimal` is the pretty-printed or YAML form of the reduced
   document, `bounded` and `framed` are the compact forms of the two reduced documents of the
   MCP server; all three depend on the length they replace. `full` is the compact form of
   the whole answer, whose own `emitted_bytes` starts as `emitted`.
   */
  datatype Answer = Answer(
    maxBytes: u32, emitted: Field, full: Template, bounded: nat -> Template, framed: nat -> Template,
    cliFull: Format -> seq<byte>, minimal: (Format, nat) -> Template)

  predicate HasOneField(t: Template) {
    |t.tails| == 1 && Fixed(t) + 40 < U64_LIMIT
  }

  ghost predicate ValidAnswer(a: Answer) {
    && ValidField(a.emitted) && HasOneField(a.full)
    && (forall n :: HasOneField(a.bounded(n)))
    && (forall n :: HasOneField(a.framed(n)))
    && (forall format, n :: HasOneField(a.minimal(format, n)))
  }

  datatype CliError = FormatRequired | BudgetTooSmall

  datatype CliResult = Printed(text: seq<byte>) | Refused(why: CliError)

  /** The loop runs up to eight rounds, returns from within, and fails when it leaves. */
  method SerializeBoundedAnswer(a: Answer, format: Format) returns (r: CliResult)
    requires ValidAnswer(a)
    ensures format == Table ==> r == Refused(FormatRequired)
    ensures format != Table && |a.cliFull(format)| <= a.maxBytes ==> r == Printed(a.cliFull(format))
    ensures format != Table && |a.cliFull(format)| > a.maxBytes ==>
      var t := a.minimal(format, |a.cliFull(format)|);
      var reached := Settled(t, Null);
      && Exact(t, reached)
      && r == (if reached.n <= a.maxBytes then Printed(Render(t, reached)) else Refused(BudgetTooSmall))
  {
    if format == Table { return Refused(FormatRequired); }
    var full := a.cliFull(format);
    if |full| <= a.maxBytes { return Printed(full); }
    var t := a.minimal(format, |full|);
    assert HasOneField(t);
    SettledIsExact(t, Null);
    var f := Null;
    for i := 0 to 8
      invariant i <= 3
      invariant f == (if i == 0 then Null else if i == 1 then Measured(t, Null)
                      else if i == 2 then Measured(t, Measured(t, Null)) else Settled(t, Null))
    {
      var encoded := Render(t, f);
      if f == Number(|encoded|) {
        if |encoded| <= a.maxBytes { return Printed(encoded); }
        break;
      }
      f := Number(|encoded|);
    }
    return Refused(BudgetTooSmall);
  }

  // ---------------------------------------------------------------------
  // The bounded answer of the MCP server.
  // ---------------------------------------------------------------------

  /** `answer_pack_json`: the document, and the field it carries. */
  function AnswerPack(a: Answer): (Template, Field) {
    var original := |Render(a.full, a.emitted)|;
    if original <= a.maxBytes then (a.full, a.emitted)
    else (a.bounded(original), Settled(a.bounded(original), a.emitted))
  }

  method AnswerPackJson(a: Answer) returns (t: Template, f: Field)
    requires ValidAnswer(a)
    ensures (t, f) == AnswerPack(a) && HasOneField(t) && ValidField(f)
    ensures |Render(a.full, a.emitted)| <= a.maxBytes ==> t == a.full && f == a.emitted
    ensures |Render(a.full, a.emitted)| > a.maxBytes ==>
      t == a.bounded(|Render(a.full, a.emitted)|) && Exact(t, f) && f == Settled(t, a.emitted)
  {
    var original := |Render(a.full, a.emitted)|;
    if original <= a.maxBytes { return a.full, a.emitted; }
    t := a.bounded(original);
    assert HasOneField(t);
    f := Settle(t, a.emitted);
    SettledFits(t, a.emitted);
  }

  lemma SettledFits(t: Template, start: Field)
    requires Admissible(t) && ValidField(start)
    ensures ValidField(Settled(t, start))
  {
    var a := Measured(t, start);
    var b := Measured(t, a);
    FieldWidth(start);
    MeasuredLength(t, start);
    MeasuredLength(t, a);
    MeasuredLength(t, b);
    WordDigits(a.n);
    WordDigits(b.n);
  }

  /** `mcp_text_result`: the document, as an escaped JSON string, twice. */
  datatype Frame = Frame(head: seq<byte>, mid: seq<byte>, tail: seq<byte>, escape: byte -> seq<byte>)

  function Escaped(fr: Frame, text: seq<byte>): seq<byte> {
    if text == [] then [] else fr.escape(text[0]) + Escaped(fr, text[1..])
  }

  function TextResult(fr: Frame, text: seq<byte>): seq<byte> {
    fr.head + Escaped(fr, text) + fr.mid + Escaped(fr, text) + fr.tail
  }

  /** JSON escaping leaves digits and letters alone. */
  ghost predicate EscapesOnlyOthers(fr: Frame) {
    forall b :: 48 <= b < 58 || b in [110, 117, 108] ==> fr.escape(b) == [b]
  }

  /** The response as a document of its own: the field occurs twice. */
  function Response(fr: Frame, t: Template): Template
    requires |t.tails| == 1
  {
    var before, after := Escaped(fr, t.head), Escaped(fr, t.tails[0]);
    Template(fr.head + before, [after + fr.mid + before, after + fr.tail])
  }

  lemma {:induction false} EscapedAppend(fr: Frame, a: seq<byte>, b: seq<byte>)
    ensures Escaped(fr, a + b) == Escaped(fr, a) + Escaped(fr, b)
  {
    if a == [] {
      assert a + b == b;
    } else {
      assert (a + b)[1..] == a[1..] + b;
      EscapedAppend(fr, a[1..], b);
    }
  }

  lemma {:induction false} EscapedPlain(fr: Frame, text: seq<byte>)
    requires forall b :: b in text ==> fr.escape(b) == [b]
    ensures Escaped(fr, text) == text
  {
    if text == [] {
    } else {
      EscapedPlain(fr, text[1..]);
    }
  }

  lemma {:induction false} DigitsAreDigits(n: nat)
    ensures forall b :: b in Digits(n) ==> 48 <= b < 58
  {
    if n < 10 {
    } else {
      DigitsAreDigits(n / 10);
    }
  }

  lemma FieldIsPlain(fr: Frame, f: Field)
    requires EscapesOnlyOthers(fr)
    ensures Escaped(fr, FieldText(f)) == FieldText(f)
  {
    if f.Number? { DigitsAreDigits(f.n); }
    EscapedPlain(fr, FieldText(f));
  }

  lemma Regroup(h: seq<byte>, a: seq<byte>, w: seq<byte>, b: seq<byte>, m: seq<byte>, t: seq<byte>)
    ensures h + (a + (w + b)) + m + (a + (w + b)) + t == (h + a) + (w + (b + m + a) + (w + (b + t)))
  {}

  lemma RenderOne(t: Template, f: Field)
    requires |t.tails| == 1
    ensures Render(t, f) == t.head + (FieldText(f) + t.tails[0])
  {
    assert Fill(t.tails[1..], FieldText(f)) == [];
  }

  lemma RenderTwo(head: seq<byte>, x: seq<byte>, y: seq<byte>, f: Field)
    ensures Render(Template(head, [x, y]), f) == head + (FieldText(f) + x + (FieldText(f) + y))
  {
    var w := FieldText(f);
    assert [x, y][1..] == [y] && [y][1..] == [];
    assert Fill([y], w) == w + y;
  }

  /** Framing a document is rendering the response template. */
  lemma TextResultIsResponse(fr: Frame, t: Template, f: Field)
    requires EscapesOnlyOthers(fr) && |t.tails| == 1
    ensures TextResult(fr, Render(t, f)) == Render(Response(fr, t), f)
  {
    var w, before, after := FieldText(f), Escaped(fr, t.head), Escaped(fr, t.tails[0]);
    RenderOne(t, f);
    EscapedAppend(fr, t.head, w + t.tails[0]);
    EscapedAppend(fr, w, t.tails[0]);
    FieldIsPlain(fr, f);
    Regroup(fr.head, before, w, after, fr.mid, fr.tail);
    RenderTwo(fr.head + before, after + fr.mid + before, after + fr.tail, f);
  }

  ghost predicate Frames(fr: Frame, t: Template) {
    HasOneField(t) && Fixed(Response(fr, t)) + 40 < U64_LIMIT
  }

  /** One of the two loops of `mcp_answer_result`: each round writes the field and frames the document again. */
  method SettleResponse(fr: Frame, t: Template, start: Field) returns (response: seq<byte>)
    requires EscapesOnlyOthers(fr) && Frames(fr, t) && ValidField(start)
    ensures var f := Settled(Response(fr, t), start);
            response == TextResult(fr, Render(t, f)) && f == Number(|response|)
  {
    ghost var whole := Response(fr, t);
    SettledIsExact(whole, start);
    var f := start;
    response := TextResult(fr, Render(t, f));
    TextResultIsResponse(fr, t, f);
    for i := 0 to 4
      invariant response == TextResult(fr, Render(t, f)) == Render(whole, f)
      invariant f == (if i == 0 then start else if i == 1 then Measured(whole, start)
                      else if i == 2 then Measured(whole, Measured(whole, start)) else Settled(whole, start))
    {
      var emitted := |response|;
      if f == Number(emitted) { return; }
      f := Number(emitted);
      response := TextResult(fr, Render(t, f));
      TextResultIsResponse(fr, t, f);
    }
  }

  const BUDGET_ERROR: string :=
    "{\"error\":{\"code\":-32000,\"message\":\"Output budget exceeded; " +
    "response id omitted to preserve the configured byte limit\"},\"id\":null,\"jsonrpc\":\"2.0\"}"
  const COMPACT_ERROR: string :=
    "{\"error\":{\"code\":-32000,\"message\":\"Output budget exceeded\"},\"id\":null,\"jsonrpc\":\"2.0\"}"

  function Ascii(s: string): (r: seq<byte>)
    ensures |r| == |s|
  {
    seq(|s|, i requires 0 <= i < |s| => s[i] as int % 256)
  }

  /** `mcp_budget_error`. */
  function BudgetError(maxBytes: nat): seq<byte> {
    if |BUDGET_ERROR| <= maxBytes then Ascii(BUDGET_ERROR) else Ascii(COMPACT_ERROR)
  }

  /** The response carries this document, which states the length of the whole response. */
  ghost predicate Carries(fr: Frame, response: seq<byte>, t: Template) {
    HasOneField(t) && response == TextResult(fr, Render(t, Number(|response|)))
  }

  /** Head, escaped document, middle, escaped document again, tail. */
  lemma TextResultMeans(fr: Frame, text: seq<byte>)
    ensures var r, n := TextResult(fr, text), |Escaped(fr, text)|;
            var second := |fr.head| + n + |fr.mid|;
            && At(r, 0, fr.head) && At(r, |fr.head|, Escaped(fr, text)) && At(r, |fr.head| + n, fr.mid)
            && At(r, second, Escaped(fr, text)) && At(r, second + n, fr.tail) && |r| == second + n + |fr.tail|
  {
    FivePieces(fr.head, Escaped(fr, text), fr.mid, Escaped(fr, text), fr.tail);
  }

  lemma FivePieces(a: seq<byte>, b: seq<byte>, c: seq<byte>, d: seq<byte>, e: seq<byte>)
    ensures var r, n := a + b + c + d + e, |a| + |b| + |c|;
            && At(r, 0, a) && At(r, |a|, b) && At(r, |a| + |b|, c) && At(r, n, d) && At(r, n + |d|, e)
  {}

  /** The response the first loop reaches, and the one the second loop reaches when that is too long. */
  function FirstResponse(a: Answer, fr: Frame): seq<byte>
    requires |AnswerPack(a).0.tails| == 1
  {
    var (t, f) := AnswerPack(a);
    TextResult(fr, Render(t, Settled(Response(fr, t), f)))
  }

  function SecondResponse(a: Answer, fr: Frame, original: nat): seq<byte>
    requires |a.framed(original).tails| == 1
  {
    var t := a.framed(original);
    TextResult(fr, Render(t, Settled(Response(fr, t), Null)))
  }

  /**
   `mcp_answer_result`. Within `max_bytes` whenever that is at least 86, so for every
   accepted contract (2048 and up); any response but an error states its true length; and
   the error is only given when both documents the loops reach are too long.
   */
  method McpAnswerResult(a: Answer, fr: Frame) returns (r: seq<byte>)
    requires ValidAnswer(a) && EscapesOnlyOthers(fr)
    requires Frames(fr, a.full) && (forall n :: Frames(fr, a.bounded(n))) && (forall n :: Frames(fr, a.framed(n)))
    ensures |r| <= a.maxBytes || (a.maxBytes < 86 && r == Ascii(COMPACT_ERROR))
    ensures |AnswerPack(a).0.tails| == 1
    ensures var whole, first := |Render(a.full, a.emitted)|, FirstResponse(a, fr);
      && (if whole <= a.maxBytes then Carries(fr, first, a.full) else Carries(fr, first, a.bounded(whole)))
      && if |first| <= a.maxBytes then r == first
         else
           && |a.framed(|first|).tails| == 1
           && var second := SecondResponse(a, fr, |first|);
              && Carries(fr, second, a.framed(|first|))
              && r == (if |second| <= a.maxBytes then second
                       else if 145 <= a.maxBytes then Ascii(BUDGET_ERROR) else Ascii(COMPACT_ERROR))
  {
    assert |COMPACT_ERROR| == 86;
    var t, f := AnswerPackJson(a);
    assert Frames(fr, a.full);
    r := SettleResponse(fr, t, f);
    if |r| <= a.maxBytes { return; }
    var reduced := a.framed(|r|);
    assert Frames(fr, reduced);
    r := SettleResponse(fr, reduced, Null);
    if |r| <= a.maxBytes { return; }
    return BudgetError(a.maxBytes);
  }
}
