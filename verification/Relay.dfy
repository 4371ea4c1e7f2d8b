/**
 The live-owner relay: a stdio proxy attached to the process that owns the base.

 Proxy and owner run concurrently and talk over two byte streams. The model is a
 state machine over their steps; its runs are compared with the stdio loop the
 owner itself would have run on the same input.
 */
module Relay {
  import opened Bytes
  import opened Codecs
  import opened Results
  import opened LineReader

  /** The state behind the owner's mutex. */
  type Store(!new)

  /** A parsed JSON request. */
  type Json(!new)

  /** The owner's library functions and request handlers; nothing is assumed about them here. */
  datatype Owner = Owner(
    utf8: seq<byte> -> bool,
    parse: seq<byte> -> Option<Json>,              // serde_json::from_str, on UTF-8
    hasId: Json -> bool,
    hasMethod: Json -> bool,                       // "method" is present and a string
    handle: (Store, Json) -> (Store, seq<byte>),   // the store after the request, the serialised response
    parseError: seq<byte>,
    notUtf8: seq<byte> -> seq<byte>,
    tooLarge: seq<byte>)

  // ---------------------------------------------------------------------
  // One request.
  // ---------------------------------------------------------------------

  /** `serde_json::from_slice`: it refuses what is not UTF-8. */
  function FromSlice(o: Owner, line: seq<byte>): Option<Json> {
    if o.utf8(line) then o.parse(line) else None
  }

  /** `mcp_request_expects_response`: the proxy's decision, from the raw bytes. */
  predicate ExpectsResponse(o: Owner, line: seq<byte>) {
    var request := FromSlice(o, line);
    request.None? || !(!o.hasId(request.value) && o.hasMethod(request.value))
  }

  /** `process_mcp_request`: section 4.1 of the JSON-RPC 2.0 Specification silences notifications. */
  function ProcessRequest(o: Owner, s: Store, line: seq<byte>): (Store, Option<seq<byte>>) {
    match o.parse(line)
    case None => (s, Some(o.parseError))
    case Some(request) =>
      var isNotification := !o.hasId(request) && o.hasMethod(request);
      var (s', response) := o.handle(s, request);
      (s', if isNotification then None else Some(response))
  }

  /** What an owner loop does with one line. */
  function Serve(o: Owner, s: Store, line: InputLine): (Store, Option<seq<byte>>) {
    match line
    case Eof => (s, None)
    case TooLarge => (s, Some(o.tooLarge))
    case Line(b) => if o.utf8(b) then ProcessRequest(o, s, b) else (s, Some(o.notUtf8(b)))
  }

  /** The bytes one line adds to the output. */
  function Reply(o: Owner, s: Store, line: InputLine): seq<byte> {
    var r := Serve(o, s, line).1;
    if r.None? then [] else Framed(r.value)
  }

  /** Proxy and owner always agree on whether a line is answered. */
  lemma ReplyDecisionAgrees(o: Owner, s: Store, b: seq<byte>)
    ensures ExpectsResponse(o, b) <==> Serve(o, s, Line(b)).1.Some?
    ensures !ExpectsResponse(o, b) ==> Reply(o, s, Line(b)) == []
  {}

  // ---------------------------------------------------------------------
  // The direct loop.
  // ---------------------------------------------------------------------

  /** Store and output after the stdio loop has run over `lines`. */
  function Direct(o: Owner, s: Store, lines: seq<InputLine>): (Store, seq<byte>) {
    if lines == [] then (s, [])
    else
      var (s1, out) := Direct(o, s, lines[..|lines| - 1]);
      (Serve(o, s1, lines[|lines| - 1]).0, out + Reply(o, s1, lines[|lines| - 1]))
  }

  lemma DirectSnoc(o: Owner, s: Store, lines: seq<InputLine>, line: InputLine)
    ensures var (s1, out) := Direct(o, s, lines);
            Direct(o, s, lines + [line]) == (Serve(o, s1, line).0, out + Reply(o, s1, line))
  {
    assert (lines + [line])[..|lines|] == lines;
  }

  // ---------------------------------------------------------------------
  // What serving means, in terms of the parser and the request handler.
  // ---------------------------------------------------------------------

  /** The answer to a line in the store `s`: an error text, a handler's response, or nothing for a notification. */
  function AnswerTo(o: Owner, s: Store, line: InputLine): Option<seq<byte>> {
    if line.Eof? then None
    else if line.TooLarge? then Some(o.tooLarge)
    else if !o.utf8(line.bytes) then Some(o.notUtf8(line.bytes))
    else if o.parse(line.bytes).None? then Some(o.parseError)
    else
      var j := o.parse(line.bytes).value;
      if !o.hasId(j) && o.hasMethod(j) then None else Some(o.handle(s, j).1)
  }

  /** The requests among the lines. */
  function Requests(o: Owner, lines: seq<InputLine>): seq<Json> {
    if lines == [] then []
    else
      var init, last := Requests(o, lines[..|lines| - 1]), lines[|lines| - 1];
      if last.Line? && o.utf8(last.bytes) && o.parse(last.bytes).Some? then init + [o.parse(last.bytes).value] else init
  }

  /** The store after the handler has run on all requests, in order. */
  function Handled(o: Owner, s: Store, requests: seq<Json>): Store {
    if requests == [] then s
    else o.handle(Handled(o, s, requests[..|requests| - 1]), requests[|requests| - 1]).0
  }

  /** The answers to the lines, each in the store that the requests before it leave. */
  function Answers(o: Owner, s: Store, lines: seq<InputLine>): seq<seq<byte>> {
    if lines == [] then []
    else
      var init := lines[..|lines| - 1];
      var answer := AnswerTo(o, Handled(o, s, Requests(o, init)), lines[|lines| - 1]);
      if answer.None? then Answers(o, s, init) else Answers(o, s, init) + [answer.value]
  }

  /** A request is handled on the store it meets and leaves the handler's store; anything else leaves the store. */
  lemma ServeMeans(o: Owner, s: Store, line: InputLine)
    ensures Serve(o, s, line).1 == AnswerTo(o, s, line)
    ensures line.Line? && o.utf8(line.bytes) && o.parse(line.bytes).Some? ==>
              Serve(o, s, line).0 == o.handle(s, o.parse(line.bytes).value).0
    ensures !(line.Line? && o.utf8(line.bytes) && o.parse(line.bytes).Some?) ==> Serve(o, s, line).0 == s
  {}

  /** Over a whole input: the handler's store after all requests, and the framed answers. */
  lemma {:induction false} DirectMeans(o: Owner, s: Store, lines: seq<InputLine>)
    ensures Direct(o, s, lines) == (Handled(o, s, Requests(o, lines)), Frame(Answers(o, s, lines)))
  {
    if lines == [] {
      assert Frame([]) == [];
    } else {
      var init, last := lines[..|lines| - 1], lines[|lines| - 1];
      DirectMeans(o, s, init);
      assert lines == init + [last];
      DirectSnoc(o, s, init, last);
      var s1 := Handled(o, s, Requests(o, init));
      ServeMeans(o, s1, last);
      RequestsSnoc(o, s, init, last);
      AnswersSnoc(o, s, init, last);
    }
  }

  lemma RequestsSnoc(o: Owner, s: Store, lines: seq<InputLine>, line: InputLine)
    ensures Handled(o, s, Requests(o, lines + [line])) == Serve(o, Handled(o, s, Requests(o, lines)), line).0
  {
    var rs := Requests(o, lines);
    assert (lines + [line])[..|lines|] == lines;
    ServeMeans(o, Handled(o, s, rs), line);
    if line.Line? && o.utf8(line.bytes) && o.parse(line.bytes).Some? {
      assert (rs + [o.parse(line.bytes).value])[..|rs|] == rs;
    }
  }

  lemma AnswersSnoc(o: Owner, s: Store, lines: seq<InputLine>, line: InputLine)
    ensures Frame(Answers(o, s, lines + [line])) ==
            Frame(Answers(o, s, lines)) + Reply(o, Handled(o, s, Requests(o, lines)), line)
  {
    assert (lines + [line])[..|lines|] == lines;
    var s1 := Handled(o, s, Requests(o, lines));
    ServeMeans(o, s1, line);
    var answer := AnswerTo(o, s1, line);
    if answer.Some? {
      FlatAppend(Framing(), Answers(o, s, lines), answer.value);
    } else {
      assert Frame(Answers(o, s, lines)) + [] == Frame(Answers(o, s, lines));
    }
  }

  class OwnerState {
    var store: Store

    constructor (s: Store)
      ensures store == s
    {
      store := s;
    }
  }

  /**
   The stdio loop of `cmd_serve` and the loop of `handle_control_connection`: read a line,
   process it under the mutex, write the response if there is one.
   */
  method ServeStream(o: Owner, reader: BufReader, state: OwnerState) returns (out: seq<byte>)
    modifies reader, state
    ensures (state.store, out) == Direct(o, old(state.store), Lines(old(reader.rest)))
    ensures state.store == Handled(o, old(state.store), Requests(o, Lines(old(reader.rest))))
    ensures out == Frame(Answers(o, old(state.store), Lines(old(reader.rest))))
  {
    DirectMeans(o, state.store, Lines(reader.rest));
    out := [];
    ghost var start := state.store;
    ghost var all, done: seq<InputLine> := Lines(reader.rest), [];
    while true
      invariant all == done + Lines(reader.rest)
      invariant (state.store, out) == Direct(o, start, done)
      decreases |reader.rest|
    {
      LinesUnfold(done, reader.rest);
      var line, peak := ReadBoundedLine(reader);
      if line.Eof? {
        return;
      }
      DirectSnoc(o, start, done, line);
      out := out + Reply(o, state.store, line);
      state.store := Serve(o, state.store, line).0;
      done := done + [line];
    }
  }

  lemma LinesUnfold(done: seq<InputLine>, stream: seq<byte>)
    ensures done + Lines(stream) ==
            if stream == [] then done else (done + [NextLine(stream)]) + Lines(AfterLine(stream))
  {}

  // ---------------------------------------------------------------------
  // The relay as a state machine.
  // ---------------------------------------------------------------------

  datatype Mode = Reading | Waiting | Finished | Failed

  /**
   A proxy, the owner behind it, and the bytes in flight between them. `consumed` and
   `served` record history: the lines the proxy has read, and the store the owner
   had when it processed each forwarded line.
   */
  datatype Conversation = Conversation(
    input: seq<byte>, toOwner: seq<byte>, fromOwner: seq<byte>, stdout: seq<byte>, mode: Mode,
    store: Store, consumed: seq<InputLine>, served: seq<Store>)

  function Start(input: seq<byte>, s: Store): Conversation {
    Conversation(input, [], [], [], Reading, s, [], [])
  }

  predicate HasLine(stream: seq<byte>) {
    LineEnd(stream) < |stream|
  }

  datatype Step = ProxyReads | ProxyReceives | OwnerServes | OthersAct(store: Store)

  /** Each step waits until a whole line is there for it. */
  predicate Enabled(c: Conversation, step: Step) {
    match step
    case ProxyReads => c.mode == Reading
    case ProxyReceives => c.mode == Waiting && HasLine(c.fromOwner)
    case OwnerServes => HasLine(c.toOwner)
    case OthersAct(_) => true
  }

  function Take(o: Owner, c: Conversation, step: Step): Conversation
    requires Enabled(c, step)
  {
    match step
    case ProxyReads => ProxyRead(o, c)
    case ProxyReceives =>
      (match NextLine(c.fromOwner)
       case Line(r) => c.(fromOwner := AfterLine(c.fromOwner), stdout := c.stdout + Framed(r), mode := Reading)
       case _ => c.(fromOwner := AfterLine(c.fromOwner), mode := Failed))
    case OwnerServes =>
      var line := NextLine(c.toOwner);
      c.(toOwner := AfterLine(c.toOwner), fromOwner := c.fromOwner + Reply(o, c.store, line),
         store := Serve(o, c.store, line).0, served := c.served + [c.store])
    case OthersAct(s) => c.(store := s)
  }

  /** One turn of the loop of `run_stdio_control_proxy` up to the point where it waits. */
  function ProxyRead(o: Owner, c: Conversation): Conversation {
    var line := NextLine(c.input);
    var next := c.(input := AfterLine(c.input), consumed := c.consumed + [line]);
    match line
    case Eof => c.(mode := Finished)
    case TooLarge => next.(stdout := c.stdout + Framed(o.tooLarge))
    case Line(b) => next.(toOwner := c.toOwner + Framed(b), mode := if ExpectsResponse(o, b) then Waiting else Reading)
  }

  /** A run: every step enabled where it is taken. */
  ghost predicate IsRun(o: Owner, c: Conversation, steps: seq<Step>)
    decreases |steps|
  {
    steps == [] || (Enabled(c, steps[0]) && IsRun(o, Take(o, c, steps[0]), steps[1..]))
  }

  ghost function After(o: Owner, c: Conversation, steps: seq<Step>): Conversation
    requires IsRun(o, c, steps)
    decreases |steps|
  {
    if steps == [] then c else After(o, Take(o, c, steps[0]), steps[1..])
  }

  /** Serialised JSON has no newline. */
  ghost predicate OneLineReplies(o: Owner) {
    forall s, b :: Serve(o, s, Line(b)).1.Some? ==> NoNewline(Serve(o, s, Line(b)).1.value)
  }

  // ---------------------------------------------------------------------
  // What the proxy's output must be.
  // ---------------------------------------------------------------------

  /** The lines of `lines` that the proxy forwards. */
  function Forwarded(lines: seq<InputLine>): seq<seq<byte>> {
    if lines == [] then []
    else
      var init, last := lines[..|lines| - 1], lines[|lines| - 1];
      if last.Line? then Forwarded(init) + [last.bytes] else Forwarded(init)
  }

  /**
   The output owed for `lines` when the owner had the stores `served` while it processed
   the forwarded ones, one by one and in order. A line not yet processed owes nothing yet.
   */
  function Owed(o: Owner, lines: seq<InputLine>, served: seq<Store>): seq<byte> {
    if lines == [] then []
    else
      var init, last := lines[..|lines| - 1], lines[|lines| - 1];
      var k, before := |Forwarded(init)|, Owed(o, init, served);
      match last
      case Eof => before
      case TooLarge => before + Framed(o.tooLarge)
      case Line(_) => if k < |served| then before + Reply(o, served[k], last) else before
  }

  lemma ForwardedSnoc(lines: seq<InputLine>, line: InputLine)
    ensures Forwarded(lines + [line]) == if line.Line? then Forwarded(lines) + [line.bytes] else Forwarded(lines)
  {
    assert (lines + [line])[..|lines|] == lines;
  }

  lemma OwedSnoc(o: Owner, lines: seq<InputLine>, line: InputLine, served: seq<Store>)
    ensures Owed(o, lines + [line], served) ==
      match line
      case Eof => Owed(o, lines, served)
      case TooLarge => Owed(o, lines, served) + Framed(o.tooLarge)
      case Line(_) =>
        if |Forwarded(lines)| < |served| then Owed(o, lines, served) + Reply(o, served[|Forwarded(lines)|], line)
        else Owed(o, lines, served)
  {
    assert (lines + [line])[..|lines|] == lines;
  }

  /** Stores beyond the forwarded lines play no role. */
  lemma {:induction false} OwedLocal(o: Owner, lines: seq<InputLine>, served: seq<Store>, s: Store)
    requires |Forwarded(lines)| <= |served|
    ensures Owed(o, lines, served + [s]) == Owed(o, lines, served)
  {
    if lines == [] {
    } else {
      var init := lines[..|lines| - 1];
      OwedLocal(o, init, served, s);
    }
  }

  /** Processing a notification adds nothing. */
  lemma {:induction false} OwedSilent(o: Owner, lines: seq<InputLine>, served: seq<Store>, s: Store)
    requires |served| < |Forwarded(lines)| && !ExpectsResponse(o, Forwarded(lines)[|served|])
    ensures Owed(o, lines, served + [s]) == Owed(o, lines, served)
  {
    var init, last := lines[..|lines| - 1], lines[|lines| - 1];
    assert lines == init + [last];
    ForwardedSnoc(init, last);
    if |served| < |Forwarded(init)| {
      OwedSilent(o, init, served, s);
    } else {
      OwedLocal(o, init, served, s);
      ReplyDecisionAgrees(o, s, last.bytes);
    }
  }

  // ---------------------------------------------------------------------
  // The invariant of every interleaving.
  // ---------------------------------------------------------------------

  function Init(lines: seq<InputLine>): seq<InputLine>
    requires lines != []
  {
    lines[..|lines| - 1]
  }

  function Last(lines: seq<InputLine>): InputLine
    requires lines != []
  {
    lines[|lines| - 1]
  }

  /** Forwarded lines the owner has not processed. */
  function Pending(c: Conversation): seq<seq<byte>> {
    var all := Forwarded(c.consumed);
    if |c.served| <= |all| then all[|c.served|..] else []
  }

  /** Does the last consumed line wait for a reply? */
  predicate AwaitsLast(o: Owner, lines: seq<InputLine>) {
    lines != [] && Last(lines).Line? && ExpectsResponse(o, Last(lines).bytes)
  }

  ghost predicate Silent(o: Owner, ms: seq<seq<byte>>) {
    forall m :: m in ms ==> !ExpectsResponse(o, m)
  }

  /** A reply the proxy refuses to read. */
  predicate TooLong(o: Owner, s: Store, line: InputLine) {
    var r := Serve(o, s, line).1; line.Line? && r.Some? && |r.value| > MAX_LINE
  }

  ghost predicate Inv(o: Owner, c: Conversation) {
    && |c.served| <= |Forwarded(c.consumed)|
    && c.toOwner == Frame(Pending(c))
    && (forall m :: m in Forwarded(c.consumed) ==> Frameable(m))
    && (match c.mode
        case Waiting =>
          && AwaitsLast(o, c.consumed)
          && c.stdout == Owed(o, Init(c.consumed), c.served)
          && (if Pending(c) == []
              then c.served != [] && c.fromOwner == Reply(o, c.served[|c.served| - 1], Last(c.consumed))
              else Silent(o, Pending(c)[..|Pending(c)| - 1]) && c.fromOwner == [])
        case Failed =>
          && AwaitsLast(o, c.consumed) && Pending(c) == [] && c.fromOwner == []
          && c.stdout == Owed(o, Init(c.consumed), c.served)
          && c.served != [] && TooLong(o, c.served[|c.served| - 1], Last(c.consumed))
        case _ => Silent(o, Pending(c)) && c.fromOwner == [] && c.stdout == Owed(o, c.consumed, c.served))
  }

  lemma PendingIsServable(o: Owner, c: Conversation)
    requires Inv(o, c)
    ensures HasLine(c.toOwner) <==> Pending(c) != []
    ensures Pending(c) != [] ==>
      NextLine(c.toOwner) == Line(Pending(c)[0]) && AfterLine(c.toOwner) == Frame(Pending(c)[1..])
  {
    var p := Pending(c);
    if p == [] {
      assert c.toOwner == [];
    } else {
      assert c.toOwner == Framed(p[0]) + Frame(p[1..]);
      assert p[0] in Forwarded(c.consumed);
      FramedReadsBack(p[0], Frame(p[1..]));
      assert LineEnd(c.toOwner) < |c.toOwner| by { assert c.toOwner[|p[0]|] == NEWLINE; }
    }
  }

  lemma ReadLineKeepsInv(o: Owner, c: Conversation)
    requires Inv(o, c) && c.mode == Reading && NextLine(c.input).Line?
    ensures Inv(o, ProxyRead(o, c))
  {
    var line, c' := NextLine(c.input), ProxyRead(o, c);
    ForwardedSnoc(c.consumed, line);
    OwedSnoc(o, c.consumed, line, c.served);
    assert Frameable(line.bytes);
    FlatAppend(Framing(), Pending(c), line.bytes);
    assert Init(c'.consumed) == c.consumed;
    assert Pending(c') == Pending(c) + [line.bytes];
    assert Pending(c')[..|Pending(c')| - 1] == Pending(c);
  }

  lemma ReadTooLargeKeepsInv(o: Owner, c: Conversation)
    requires Inv(o, c) && c.mode == Reading && NextLine(c.input).TooLarge?
    ensures Inv(o, ProxyRead(o, c))
  {
    ForwardedSnoc(c.consumed, TooLarge);
    OwedSnoc(o, c.consumed, TooLarge, c.served);
    assert Pending(ProxyRead(o, c)) == Pending(c);
  }

  lemma ReadKeepsInv(o: Owner, c: Conversation)
    requires Inv(o, c) && c.mode == Reading
    ensures Inv(o, ProxyRead(o, c))
  {
    match NextLine(c.input) {
      case Eof =>
      case TooLarge => ReadTooLargeKeepsInv(o, c);
      case Line(_) => ReadLineKeepsInv(o, c);
    }
  }

  /** While the proxy waits, the line it waits for is the last one forwarded. */
  lemma LastIsForwarded(o: Owner, lines: seq<InputLine>)
    requires AwaitsLast(o, lines)
    ensures Forwarded(lines) == Forwarded(Init(lines)) + [Last(lines).bytes]
  {
    assert lines == Init(lines) + [Last(lines)];
    ForwardedSnoc(Init(lines), Last(lines));
  }

  /** A framed reply without newline reads back as one line. */
  lemma FramedReplyReads(r: seq<byte>)
    requires NoNewline(r)
    ensures NextLine(Framed(r)) == (if |r| <= MAX_LINE then Line(r) else TooLarge)
    ensures HasLine(Framed(r)) && AfterLine(Framed(r)) == []
  {
    assert Framed(r) + [] == Framed(r);
    FramedReadsBack(r, []);
    assert Framed(r)[|r|] == NEWLINE;
  }

  /** The reply in flight is the owner's answer to the last line read. */
  lemma ReplyInFlight(o: Owner, c: Conversation) returns (r: seq<byte>)
    requires Inv(o, c) && OneLineReplies(o) && c.mode == Waiting && c.fromOwner != []
    ensures c.served != [] && Pending(c) == []
    ensures Serve(o, c.served[|c.served| - 1], Last(c.consumed)).1 == Some(r)
    ensures NextLine(c.fromOwner) == (if |r| <= MAX_LINE then Line(r) else TooLarge)
    ensures HasLine(c.fromOwner) && AfterLine(c.fromOwner) == []
    ensures c.stdout + Framed(r) == Owed(o, c.consumed, c.served)
  {
    var line, s := Last(c.consumed), c.served[|c.served| - 1];
    LastIsForwarded(o, c.consumed);
    ReplyDecisionAgrees(o, s, line.bytes);
    r := Serve(o, s, line).1.value;
    assert c.fromOwner == Framed(r);
    FramedReplyReads(r);
    assert c.consumed == Init(c.consumed) + [line];
    OwedSnoc(o, Init(c.consumed), line, c.served);
  }

  /** What receiving does, in terms of the reply in flight. */
  lemma Received(o: Owner, c: Conversation) returns (r: seq<byte>)
    requires Inv(o, c) && OneLineReplies(o) && Enabled(c, ProxyReceives)
    ensures c.served != [] && Pending(c) == []
    ensures Serve(o, c.served[|c.served| - 1], Last(c.consumed)).1 == Some(r)
    ensures c.stdout + Framed(r) == Owed(o, c.consumed, c.served)
    ensures Take(o, c, ProxyReceives) ==
            if |r| <= MAX_LINE then c.(fromOwner := [], stdout := c.stdout + Framed(r), mode := Reading)
            else c.(fromOwner := [], mode := Failed)
  {
    r := ReplyInFlight(o, c);
  }

  lemma ReceivedKeepsInv(o: Owner, c: Conversation, r: seq<byte>)
    requires Inv(o, c) && c.mode == Waiting && Pending(c) == []
    requires Serve(o, c.served[|c.served| - 1], Last(c.consumed)).1 == Some(r)
    ensures |r| <= MAX_LINE && c.stdout + Framed(r) == Owed(o, c.consumed, c.served) ==>
              Inv(o, c.(fromOwner := [], stdout := c.stdout + Framed(r), mode := Reading))
    ensures |r| > MAX_LINE ==> Inv(o, c.(fromOwner := [], mode := Failed))
  {}

  lemma ReceiveKeepsInv(o: Owner, c: Conversation)
    requires Inv(o, c) && OneLineReplies(o) && Enabled(c, ProxyReceives)
    ensures Inv(o, Take(o, c, ProxyReceives))
  {
    var r := Received(o, c);
    ReceivedKeepsInv(o, c, r);
  }

  lemma ServeSilentKeepsInv(o: Owner, c: Conversation)
    requires Inv(o, c) && Enabled(c, OwnerServes) && Pending(c) != [] && !ExpectsResponse(o, Pending(c)[0])
    ensures Inv(o, Take(o, c, OwnerServes))
  {
    PendingIsServable(o, c);
    var c', p := Take(o, c, OwnerServes), Pending(c);
    assert p[0] == Forwarded(c.consumed)[|c.served|];
    assert Pending(c') == p[1..];
    ReplyDecisionAgrees(o, c.store, p[0]);
    assert c.fromOwner + [] == c.fromOwner;
    if c.mode == Waiting {
      LastIsForwarded(o, c.consumed);
      assert p[|p| - 1] == Last(c.consumed).bytes;
      OwedSilent(o, Init(c.consumed), c.served, c.store);
      assert p[1..][..|p[1..]| - 1] == p[..|p| - 1][1..];
    } else {
      OwedSilent(o, c.consumed, c.served, c.store);
    }
  }

  lemma HeadIsSilent(o: Owner, ms: seq<seq<byte>>)
    requires ms != [] && Silent(o, ms[..|ms| - 1])
    ensures |ms| > 1 ==> !ExpectsResponse(o, ms[0])
  {
    if |ms| > 1 { assert ms[0] == ms[..|ms| - 1][0]; }
  }

  lemma ServeAwaitedKeepsInv(o: Owner, c: Conversation)
    requires Inv(o, c) && Enabled(c, OwnerServes) && Pending(c) != [] && ExpectsResponse(o, Pending(c)[0])
    ensures Inv(o, Take(o, c, OwnerServes))
  {
    PendingIsServable(o, c);
    var c', p := Take(o, c, OwnerServes), Pending(c);
    assert c.mode == Waiting;
    HeadIsSilent(o, p);
    LastIsForwarded(o, c.consumed);
    OwedLocal(o, Init(c.consumed), c.served, c.store);
    assert Pending(c') == [];
    assert c'.fromOwner == Reply(o, c.store, Line(p[0]));
  }

  lemma StepKeepsInv(o: Owner, c: Conversation, step: Step)
    requires Inv(o, c) && OneLineReplies(o) && Enabled(c, step)
    ensures Inv(o, Take(o, c, step))
  {
    match step
    case ProxyReads => ReadKeepsInv(o, c);
    case ProxyReceives => ReceiveKeepsInv(o, c);
    case OwnerServes =>
      PendingIsServable(o, c);
      if ExpectsResponse(o, Pending(c)[0]) { ServeAwaitedKeepsInv(o, c); } else { ServeSilentKeepsInv(o, c); }
    case OthersAct(s) => assert Pending(c.(store := s)) == Pending(c);
  }

  /** What is consumed and what is left always make up the input. */
  ghost predicate Consumes(c: Conversation, all: seq<InputLine>) {
    && c.consumed + Lines(c.input) == all
    && (c.mode == Finished ==> c.input == [])
  }

  lemma StepKeepsConsumes(o: Owner, c: Conversation, step: Step, all: seq<InputLine>)
    requires Consumes(c, all) && Enabled(c, step)
    ensures Consumes(Take(o, c, step), all)
  {
    LinesUnfold(c.consumed, c.input);
  }

  lemma {:induction false} RunKeepsInv(o: Owner, c: Conversation, steps: seq<Step>, all: seq<InputLine>)
    requires OneLineReplies(o) && IsRun(o, c, steps)
    requires Inv(o, c) && Consumes(c, all)
    ensures Inv(o, After(o, c, steps)) && Consumes(After(o, c, steps), all)
    decreases |steps|
  {
    if steps == [] {
    } else {
      StepKeepsInv(o, c, steps[0]);
      StepKeepsConsumes(o, c, steps[0], all);
      RunKeepsInv(o, Take(o, c, steps[0]), steps[1..], all);
    }
  }

  lemma StartIsGood(o: Owner, input: seq<byte>, s: Store)
    ensures Inv(o, Start(input, s)) && Consumes(Start(input, s), Lines(input))
  {
    assert [] + Lines(input) == Lines(input);
  }

  /**
   Whatever other clients do to the store in between: the proxy reads its input line by
   line, and its output is the concatenation of what is owed for the lines read, each reply
   computed by the owner from the very line it answers. At most the reply to the last line
   is outstanding.
   */
  lemma NoReplyIsMismatched(o: Owner, input: seq<byte>, s: Store, steps: seq<Step>)
    requires OneLineReplies(o) && IsRun(o, Start(input, s), steps)
    ensures var c := After(o, Start(input, s), steps);
            && c.consumed <= Lines(input)
            && (c.mode == Finished ==> c.consumed == Lines(input))
            && (c.mode in {Reading, Finished} ==> c.stdout == Owed(o, c.consumed, c.served))
            && (c.mode in {Waiting, Failed} ==> c.consumed != [] && c.stdout == Owed(o, Init(c.consumed), c.served))
            && |c.served| <= |Forwarded(c.consumed)|
  {
    StartIsGood(o, input, s);
    RunKeepsInv(o, Start(input, s), steps, Lines(input));
    var c := After(o, Start(input, s), steps);
    if c.mode == Finished { assert c.consumed + [] == c.consumed; }
  }

  // ---------------------------------------------------------------------
  // No deadlock, no infinite run.
  // ---------------------------------------------------------------------

  /** Neither the proxy nor the owner can move. */
  predicate Stuck(c: Conversation) {
    !Enabled(c, ProxyReads) && !Enabled(c, ProxyReceives) && !Enabled(c, OwnerServes)
  }

  lemma ReplyIsReady(o: Owner, c: Conversation)
    requires Inv(o, c)
    ensures c.mode == Waiting && Pending(c) == [] ==> HasLine(c.fromOwner)
  {
    if c.mode == Waiting && Pending(c) == [] {
      var line, s := Last(c.consumed), c.served[|c.served| - 1];
      ReplyDecisionAgrees(o, s, line.bytes);
      assert c.fromOwner[|Serve(o, s, line).1.value|] == NEWLINE;
    }
  }

  /** Proxy and owner only stop when the proxy has returned and the owner has processed everything. */
  lemma StuckMeansDone(o: Owner, c: Conversation)
    requires Inv(o, c) && Stuck(c)
    ensures c.mode in {Finished, Failed} && Pending(c) == []
  {
    PendingIsServable(o, c);
    ReplyIsReady(o, c);
  }

  function Rank(mode: Mode): nat {
    match mode case Waiting => 2 case Reading => 1 case _ => 0
  }

  /** Work left: input to read, lines to process, a reply to receive. */
  function Work(c: Conversation): nat {
    4 * |c.input| + 2 * |Pending(c)| + Rank(c.mode)
  }

  lemma ReadReducesWork(o: Owner, c: Conversation)
    requires Inv(o, c) && c.mode == Reading
    ensures Work(ProxyRead(o, c)) < Work(c)
  {
    ForwardedSnoc(c.consumed, NextLine(c.input));
  }

  lemma ServeReducesWork(o: Owner, c: Conversation)
    requires Inv(o, c) && Enabled(c, OwnerServes)
    ensures Work(Take(o, c, OwnerServes)) < Work(c)
  {
    PendingIsServable(o, c);
  }

  /** Every step of the proxy or the owner reduces the work. */
  lemma StepsReduceWork(o: Owner, c: Conversation, step: Step)
    requires Inv(o, c) && Enabled(c, step) && !step.OthersAct?
    ensures Work(Take(o, c, step)) < Work(c)
  {
    match step {
      case ProxyReads => ReadReducesWork(o, c);
      case ProxyReceives =>
      case OwnerServes => ServeReducesWork(o, c);
    }
  }

  /** How many steps of a run the proxy and the owner take. */
  function OwnSteps(steps: seq<Step>): nat {
    if steps == [] then 0 else (if steps[0].OthersAct? then 0 else 1) + OwnSteps(steps[1..])
  }

  /** Whatever others do in between, proxy and owner take at most as many steps as there is work. */
  lemma {:induction false} RunsAreBounded(o: Owner, c: Conversation, steps: seq<Step>)
    requires OneLineReplies(o) && Inv(o, c) && IsRun(o, c, steps)
    ensures OwnSteps(steps) + Work(After(o, c, steps)) <= Work(c)
    decreases |steps|
  {
    if steps == [] {
      assert OwnSteps(steps) == 0;
    } else {
      StepKeepsInv(o, c, steps[0]);
      if !steps[0].OthersAct? { StepsReduceWork(o, c, steps[0]); }
      RunsAreBounded(o, Take(o, c, steps[0]), steps[1..]);
    }
  }

  lemma {:induction false} RunAppend(o: Owner, c: Conversation, steps: seq<Step>, more: seq<Step>)
    requires IsRun(o, c, steps) && IsRun(o, After(o, c, steps), more)
    ensures IsRun(o, c, steps + more) && After(o, c, steps + more) == After(o, After(o, c, steps), more)
    decreases |steps|
  {
    if steps == [] {
      assert steps + more == more;
    } else {
      assert (steps + more)[0] == steps[0] && (steps + more)[1..] == steps[1..] + more;
      RunAppend(o, Take(o, c, steps[0]), steps[1..], more);
    }
  }

  /** From every state a run leads to the end: nobody has to be waited for. */
  lemma {:induction false} CanComplete(o: Owner, c: Conversation) returns (steps: seq<Step>)
    requires OneLineReplies(o) && Inv(o, c)
    ensures IsRun(o, c, steps) && Quiet(steps) && Stuck(After(o, c, steps))
    decreases Work(c)
  {
    if Stuck(c) {
      steps := [];
    } else {
      var step :=
        if Enabled(c, ProxyReads) then ProxyReads else if Enabled(c, ProxyReceives) then ProxyReceives else OwnerServes;
      StepsReduceWork(o, c, step);
      StepKeepsInv(o, c, step);
      var rest := CanComplete(o, Take(o, c, step));
      steps := [step] + rest;
      assert steps[1..] == rest;
    }
  }

  /** Every run can be continued to its end, and no run goes on for ever. */
  lemma EveryRunCanFinish(o: Owner, input: seq<byte>, s: Store, steps: seq<Step>) returns (more: seq<Step>)
    requires OneLineReplies(o) && IsRun(o, Start(input, s), steps)
    ensures Quiet(more) && IsRun(o, Start(input, s), steps + more) && Stuck(After(o, Start(input, s), steps + more))
    ensures OwnSteps(steps) <= Work(Start(input, s))
  {
    var start := Start(input, s);
    StartIsGood(o, input, s);
    RunKeepsInv(o, start, steps, Lines(input));
    RunsAreBounded(o, start, steps);
    more := CanComplete(o, After(o, start, steps));
    RunAppend(o, start, steps, more);
  }

  // ---------------------------------------------------------------------
  // Transparency.
  // ---------------------------------------------------------------------

  /** Nobody else touches the store. */
  predicate Quiet(steps: seq<Step>) {
    forall step :: step in steps ==> !step.OthersAct?
  }

  /** The store after the messages `ms`, from `s` on. */
  function StoreAfter(o: Owner, s: Store, ms: seq<seq<byte>>): Store {
    if ms == [] then s else Serve(o, StoreAfter(o, s, ms[..|ms| - 1]), Line(ms[|ms| - 1])).0
  }

  /** The stores before each of the messages. */
  function Stores(o: Owner, s: Store, ms: seq<seq<byte>>): (r: seq<Store>)
    ensures |r| == |ms|
  {
    if ms == [] then [] else Stores(o, s, ms[..|ms| - 1]) + [StoreAfter(o, s, ms[..|ms| - 1])]
  }

  lemma {:induction false} StoresPrefix(o: Owner, s: Store, ms: seq<seq<byte>>, k: nat)
    requires k < |ms|
    ensures Stores(o, s, ms)[..k + 1] == Stores(o, s, ms)[..k] + [StoreAfter(o, s, ms[..k])]
    ensures StoreAfter(o, s, ms[..k + 1]) == Serve(o, StoreAfter(o, s, ms[..k]), Line(ms[k])).0
  {
    assert ms[..k + 1][..k] == ms[..k];
    if k < |ms| - 1 {
      var init := ms[..|ms| - 1];
      StoresPrefix(o, s, init, k);
      assert init[..k] == ms[..k];
      assert Stores(o, s, ms)[..k + 1] == Stores(o, s, init)[..k + 1];
      assert Stores(o, s, ms)[..k] == Stores(o, s, init)[..k];
    } else {
      assert ms[..k] == ms[..|ms| - 1];
    }
  }

  lemma StoresSnoc(o: Owner, s: Store, ms: seq<seq<byte>>, m: seq<byte>)
    ensures Stores(o, s, ms + [m]) == Stores(o, s, ms) + [StoreAfter(o, s, ms)]
    ensures StoreAfter(o, s, ms + [m]) == Serve(o, StoreAfter(o, s, ms), Line(m)).0
  {
    assert (ms + [m])[..|ms|] == ms;
  }

  /** The direct loop pays what is owed for the stores it goes through. */
  lemma {:induction false} DirectPaysOwed(o: Owner, s: Store, lines: seq<InputLine>)
    ensures Direct(o, s, lines).0 == StoreAfter(o, s, Forwarded(lines))
    ensures Direct(o, s, lines).1 == Owed(o, lines, Stores(o, s, Forwarded(lines)))
  {
    if lines == [] {
    } else {
      var init, last := Init(lines), Last(lines);
      DirectPaysOwed(o, s, init);
      assert lines == init + [last];
      DirectSnoc(o, s, init, last);
      ForwardedSnoc(init, last);
      var ms := Forwarded(init);
      OwedSnoc(o, init, last, Stores(o, s, Forwarded(lines)));
      if last.Line? {
        StoresSnoc(o, s, ms, last.bytes);
        OwedLocal(o, init, Stores(o, s, ms), StoreAfter(o, s, ms));
      }
      if last.Eof? { assert Direct(o, s, init).1 + [] == Direct(o, s, init).1; }
    }
  }

  /** What the unprocessed notifications at the end would owe is nothing. */
  lemma {:induction false} SilentTailOwesNothing(o: Owner, s: Store, lines: seq<InputLine>, k: nat)
    requires k <= |Forwarded(lines)| && Silent(o, Forwarded(lines)[k..])
    ensures Owed(o, lines, Stores(o, s, Forwarded(lines))[..k]) == Direct(o, s, lines).1
    decreases |Forwarded(lines)| - k
  {
    var ms := Forwarded(lines);
    var all := Stores(o, s, ms);
    if k == |ms| {
      assert all[..k] == all;
      DirectPaysOwed(o, s, lines);
    } else {
      assert ms[k..][0] == ms[k] && ms[k + 1..] == ms[k..][1..];
      StoresPrefix(o, s, ms, k);
      OwedSilent(o, lines, all[..k], StoreAfter(o, s, ms[..k]));
      SilentTailOwesNothing(o, s, lines, k + 1);
    }
  }

  /** Line `i` is answered, in the direct loop, by more than one protocol line can carry. */
  predicate OversizedAt(o: Owner, s: Store, lines: seq<InputLine>, i: nat)
    requires i < |lines|
  {
    TooLong(o, Direct(o, s, lines[..i]).0, lines[i])
  }

  predicate AllFit(o: Owner, s: Store, lines: seq<InputLine>) {
    forall i :: 0 <= i < |lines| ==> !OversizedAt(o, s, lines, i)
  }

  /** In a quiet run the owner's stores are those of the direct loop, and only what fits was relayed. */
  ghost predicate Tracks(o: Owner, s: Store, c: Conversation) {
    var ms := Forwarded(c.consumed);
    && |c.served| <= |ms|
    && c.served == Stores(o, s, ms)[..|c.served|]
    && c.store == StoreAfter(o, s, ms[..|c.served|])
    && (match c.mode
        case Waiting => c.consumed != [] && AllFit(o, s, Init(c.consumed))
        case Failed =>
          && c.consumed != [] && AllFit(o, s, Init(c.consumed))
          && OversizedAt(o, s, c.consumed, |c.consumed| - 1)
        case _ => AllFit(o, s, c.consumed))
  }

  lemma AllFitSnoc(o: Owner, s: Store, lines: seq<InputLine>)
    requires lines != []
    ensures AllFit(o, s, lines) <==> AllFit(o, s, Init(lines)) && !OversizedAt(o, s, lines, |lines| - 1)
  {
    var init := Init(lines);
    forall i | 0 <= i < |init| ensures OversizedAt(o, s, lines, i) == OversizedAt(o, s, init, i) {
      assert lines[..i] == init[..i];
    }
    if AllFit(o, s, lines) {
      forall i | 0 <= i < |init| ensures !OversizedAt(o, s, init, i) { assert !OversizedAt(o, s, lines, i); }
    }
  }

  /** A line that is not answered, or answered locally, fits. */
  lemma UnansweredFits(o: Owner, s: Store, line: InputLine)
    requires !line.Line? || !ExpectsResponse(o, line.bytes)
    ensures !TooLong(o, s, line)
  {
    if line.Line? { ReplyDecisionAgrees(o, s, line.bytes); }
  }

  lemma ReadKeepsStores(o: Owner, s: Store, c: Conversation)
    requires Tracks(o, s, c) && c.mode == Reading
    ensures var c' := ProxyRead(o, c);
            var ms := Forwarded(c'.consumed);
            && |c'.served| <= |ms| && c'.served == Stores(o, s, ms)[..|c'.served|]
            && c'.store == StoreAfter(o, s, ms[..|c'.served|])
  {
    var line, ms, n := NextLine(c.input), Forwarded(c.consumed), |c.served|;
    ForwardedSnoc(c.consumed, line);
    if line.Line? {
      StoresSnoc(o, s, ms, line.bytes);
      assert (ms + [line.bytes])[..n] == ms[..n];
      assert Stores(o, s, ms + [line.bytes])[..n] == Stores(o, s, ms)[..n];
    }
  }

  lemma ReadKeepsTracks(o: Owner, s: Store, c: Conversation)
    requires Tracks(o, s, c) && c.mode == Reading
    ensures Tracks(o, s, ProxyRead(o, c))
  {
    var line, c' := NextLine(c.input), ProxyRead(o, c);
    ReadKeepsStores(o, s, c);
    if !line.Eof? {
      assert Init(c'.consumed) == c.consumed && Last(c'.consumed) == line;
      AllFitSnoc(o, s, c'.consumed);
      if c'.mode == Reading { UnansweredFits(o, Direct(o, s, c.consumed).0, line); }
    }
  }

  /** The reply to the last line was computed from the store the direct loop has at that line. */
  lemma AnsweredFromDirectStore(o: Owner, s: Store, c: Conversation)
    requires Inv(o, c) && Tracks(o, s, c) && AwaitsLast(o, c.consumed) && Pending(c) == [] && c.served != []
    ensures c.served[|c.served| - 1] == Direct(o, s, Init(c.consumed)).0
  {
    var init := Init(c.consumed);
    LastIsForwarded(o, c.consumed);
    StoresSnoc(o, s, Forwarded(init), Last(c.consumed).bytes);
    DirectPaysOwed(o, s, init);
  }

  /** The proxy goes on or fails, depending on whether the reply fits. */
  lemma ReceivedMode(o: Owner, s: Store, c: Conversation)
    requires Inv(o, c) && OneLineReplies(o) && Tracks(o, s, c) && Enabled(c, ProxyReceives)
    ensures var c' := Take(o, c, ProxyReceives);
            && (c'.consumed, c'.served, c'.store) == (c.consumed, c.served, c.store)
            && c'.mode == (if OversizedAt(o, s, c.consumed, |c.consumed| - 1) then Failed else Reading)
  {
    var r := Received(o, c);
    AnsweredFromDirectStore(o, s, c);
  }

  lemma DecidedKeepsTracks(o: Owner, s: Store, c: Conversation, c': Conversation)
    requires Tracks(o, s, c) && c.mode == Waiting
    requires (c'.consumed, c'.served, c'.store) == (c.consumed, c.served, c.store)
    requires c'.mode == (if OversizedAt(o, s, c.consumed, |c.consumed| - 1) then Failed else Reading)
    ensures Tracks(o, s, c')
  {
    AllFitSnoc(o, s, c.consumed);
  }

  lemma ReceiveKeepsTracks(o: Owner, s: Store, c: Conversation)
    requires Inv(o, c) && OneLineReplies(o) && Tracks(o, s, c) && Enabled(c, ProxyReceives)
    ensures Tracks(o, s, Take(o, c, ProxyReceives))
  {
    ReceivedMode(o, s, c);
    DecidedKeepsTracks(o, s, c, Take(o, c, ProxyReceives));
  }

  lemma ServeKeepsTracks(o: Owner, s: Store, c: Conversation)
    requires Inv(o, c) && Tracks(o, s, c) && Enabled(c, OwnerServes)
    ensures Tracks(o, s, Take(o, c, OwnerServes))
  {
    PendingIsServable(o, c);
    ServedKeepsTracks(o, s, c, Take(o, c, OwnerServes));
  }

  /** The store the owner had is the next one of the direct loop. */
  lemma ServedKeepsTracks(o: Owner, s: Store, c: Conversation, c': Conversation)
    requires Tracks(o, s, c) && |c.served| < |Forwarded(c.consumed)|
    requires (c'.consumed, c'.mode, c'.served) == (c.consumed, c.mode, c.served + [c.store])
    requires c'.store == Serve(o, c.store, Line(Forwarded(c.consumed)[|c.served|])).0
    ensures Tracks(o, s, c')
  {
    StoresPrefix(o, s, Forwarded(c.consumed), |c.served|);
  }

  lemma {:induction false} QuietRunTracks(o: Owner, s: Store, c: Conversation, steps: seq<Step>)
    requires OneLineReplies(o) && IsRun(o, c, steps) && Quiet(steps)
    requires Inv(o, c) && Tracks(o, s, c)
    ensures Inv(o, After(o, c, steps)) && Tracks(o, s, After(o, c, steps))
    decreases |steps|
  {
    if steps == [] {
    } else {
      var step := steps[0];
      StepKeepsInv(o, c, step);
      match step {
        case ProxyReads => ReadKeepsTracks(o, s, c);
        case ProxyReceives => ReceiveKeepsTracks(o, s, c);
        case OwnerServes => ServeKeepsTracks(o, s, c);
      }
      QuietRunTracks(o, s, Take(o, c, step), steps[1..]);
    }
  }

  lemma QuietFacts(o: Owner, input: seq<byte>, s: Store, steps: seq<Step>)
    requires OneLineReplies(o) && IsRun(o, Start(input, s), steps) && Quiet(steps)
    ensures var c := After(o, Start(input, s), steps);
            Inv(o, c) && Tracks(o, s, c) && Consumes(c, Lines(input))
  {
    StartIsGood(o, input, s);
    RunKeepsInv(o, Start(input, s), steps, Lines(input));
    QuietRunTracks(o, s, Start(input, s), steps);
  }

  /** At any moment of a quiet run the proxy's output is what the direct loop prints for some prefix of the input. */
  lemma OutputIsAlwaysADirectPrefix(o: Owner, input: seq<byte>, s: Store, steps: seq<Step>) returns (k: nat)
    requires OneLineReplies(o) && IsRun(o, Start(input, s), steps) && Quiet(steps)
    ensures k <= |Lines(input)|
    ensures After(o, Start(input, s), steps).stdout == Direct(o, s, Lines(input)[..k]).1
  {
    QuietFacts(o, input, s, steps);
    var c := After(o, Start(input, s), steps);
    var ms := Forwarded(c.consumed);
    if c.mode in {Waiting, Failed} {
      k := |c.consumed| - 1;
      WaitingOutput(o, s, c);
      assert Lines(input)[..k] == Init(c.consumed);
    } else {
      k := |c.consumed|;
      SilentTailOwesNothing(o, s, c.consumed, |c.served|);
      assert Lines(input)[..k] == c.consumed;
    }
  }

  lemma WaitingOutput(o: Owner, s: Store, c: Conversation)
    requires Inv(o, c) && Tracks(o, s, c) && c.mode in {Waiting, Failed}
    ensures c.stdout == Direct(o, s, Init(c.consumed)).1
  {
    var init := Init(c.consumed);
    var ms, all := Forwarded(init), Forwarded(c.consumed);
    LastIsForwarded(o, c.consumed);
    StoresSnoc(o, s, ms, Last(c.consumed).bytes);
    if |c.served| == |all| {
      assert c.served == Stores(o, s, ms) + [StoreAfter(o, s, ms)];
      OwedLocal(o, init, Stores(o, s, ms), StoreAfter(o, s, ms));
      DirectPaysOwed(o, s, init);
    } else {
      assert c.served == Stores(o, s, ms)[..|c.served|];
      assert Pending(c)[..|Pending(c)| - 1] == ms[|c.served|..];
      SilentTailOwesNothing(o, s, init, |c.served|);
    }
  }

  lemma FinishedIsDirect(o: Owner, s: Store, c: Conversation, all: seq<InputLine>)
    requires Inv(o, c) && Tracks(o, s, c) && Consumes(c, all) && c.mode == Finished && Pending(c) == []
    ensures AllFit(o, s, all) && (c.store, c.stdout) == Direct(o, s, all)
  {
    assert c.consumed + [] == c.consumed == all;
    var ms := Forwarded(all);
    assert ms[|c.served|..] == [] && ms[..|c.served|] == ms;
    SilentTailOwesNothing(o, s, all, |c.served|);
    DirectPaysOwed(o, s, all);
  }

  lemma FailedAtFirstOversized(o: Owner, s: Store, c: Conversation, all: seq<InputLine>)
    requires Inv(o, c) && Tracks(o, s, c) && Consumes(c, all) && c.mode == Failed
    ensures c.consumed != [] && c.consumed <= all && AllFit(o, s, Init(c.consumed))
    ensures OversizedAt(o, s, all, |c.consumed| - 1) && !AllFit(o, s, all)
    ensures c.stdout == Direct(o, s, Init(c.consumed)).1
  {
    WaitingOutput(o, s, c);
    assert all[..|c.consumed| - 1] == c.consumed[..|c.consumed| - 1];
    assert OversizedAt(o, s, all, |c.consumed| - 1);
  }

  /**
   Proxy transparency. When proxy and owner have nothing left to do, then, if every reply
   fits a protocol line, the proxy has finished with exactly the output of the direct loop
   and the owner's store is that of the direct loop; otherwise the proxy has failed with
   exactly the output of the lines before the first reply that does not fit.
   */
  lemma ProxyTransparency(o: Owner, input: seq<byte>, s: Store, steps: seq<Step>)
    requires OneLineReplies(o) && IsRun(o, Start(input, s), steps) && Quiet(steps)
    requires Stuck(After(o, Start(input, s), steps))
    ensures var c, all := After(o, Start(input, s), steps), Lines(input);
            if AllFit(o, s, all) then c.mode == Finished && (c.store, c.stdout) == Direct(o, s, all)
            else && c.mode == Failed && c.consumed != [] && c.consumed <= all
                 && AllFit(o, s, Init(c.consumed)) && OversizedAt(o, s, all, |c.consumed| - 1)
                 && c.stdout == Direct(o, s, Init(c.consumed)).1
    ensures var c, all := After(o, Start(input, s), steps), Lines(input);
            if c.mode == Finished then
              c.store == Handled(o, s, Requests(o, all)) && c.stdout == Frame(Answers(o, s, all))
            else c.consumed != [] && c.stdout == Frame(Answers(o, s, Init(c.consumed)))
  {
    QuietFacts(o, input, s, steps);
    var c, all := After(o, Start(input, s), steps), Lines(input);
    StuckMeansDone(o, c);
    if c.mode == Finished {
      FinishedIsDirect(o, s, c, all);
      DirectMeans(o, s, all);
    } else {
      FailedAtFirstOversized(o, s, c, all);
      DirectMeans(o, s, Init(c.consumed));
    }
  }

  /** A line is oversized exactly if the handler's answer to it is owed and has more than 8 MiB. */
  lemma OversizedMeans(o: Owner, s: Store, lines: seq<InputLine>, i: nat)
    requires i < |lines|
    ensures OversizedAt(o, s, lines, i) <==>
      var answer := AnswerTo(o, Handled(o, s, Requests(o, lines[..i])), lines[i]);
      lines[i].Line? && answer.Some? && |answer.value| > 8_388_608
  {
    DirectMeans(o, s, lines[..i]);
    ServeMeans(o, Direct(o, s, lines[..i]).0, lines[i]);
  }
}
