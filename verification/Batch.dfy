/**
 The batch drivers of the native API: parallel queries in waves, and ingestion in chunks.
 The first refines the sequential loop for every degree of parallelism; the second does
 not depend on the chunk size and accounts for every atom.
 */
module Batch {
  import opened Results

  type Memory(!new)
  type Query(!new)
  type Answer(!new)
  type NewAtom(!new)
  type AtomId(!new)

  datatype Outcome<+T> = Succeeded(value: T) | Failed(error: string)

  /** The store's answer to a query. */
  type Ask = Query -> Outcome<Answer>

  /** The store after ingesting an atom, and what came of it. */
  type Ingest = (Memory, NewAtom) -> (Memory, Outcome<AtomId>)

  // ---------------------------------------------------------------------
  // Queries.
  // ---------------------------------------------------------------------

  /** The answers of all queries in order, or the error of the first query that fails. */
  function AnswerAll(ask: Ask, queries: seq<Query>): Outcome<seq<Answer>> {
    if queries == [] then Succeeded([])
    else
      match AnswerAll(ask, queries[..|queries| - 1])
      case Failed(e) => Failed(e)
      case Succeeded(answers) =>
        match ask(queries[|queries| - 1])
        case Failed(e) => Failed(e)
        case Succeeded(a) => Succeeded(answers + [a])
  }

  /** Every query before position `n` succeeds. */
  predicate AllSucceed(ask: Ask, queries: seq<Query>, n: nat)
    requires n <= |queries|
  {
    forall i :: 0 <= i < n ==> ask(queries[i]).Succeeded?
  }

  ghost predicate FirstFails(ask: Ask, queries: seq<Query>, error: string) {
    exists k :: 0 <= k < |queries| && AllSucceed(ask, queries, k) && ask(queries[k]) == Failed(error)
  }

  lemma FailureStaysFirst(ask: Ask, init: seq<Query>, q: Query, error: string)
    ensures AllSucceed(ask, init + [q], |init|) <==> AllSucceed(ask, init, |init|)
    ensures FirstFails(ask, init, error) ==> FirstFails(ask, init + [q], error)
  {
    var all := init + [q];
    assert forall i :: 0 <= i < |init| ==> all[i] == init[i];
    if FirstFails(ask, init, error) {
      var k :| 0 <= k < |init| && AllSucceed(ask, init, k) && ask(init[k]) == Failed(error);
      assert AllSucceed(ask, all, k) && ask(all[k]) == Failed(error);
    }
  }

  /** What `AnswerAll` means: each answer belongs to its own query, and the lowest failing index is reported. */
  lemma {:induction false} AnswerAllMeans(ask: Ask, queries: seq<Query>)
    ensures var r := AnswerAll(ask, queries);
            && (r.Succeeded? <==> AllSucceed(ask, queries, |queries|))
            && (r.Succeeded? ==>
                  && |r.value| == |queries|
                  && forall i :: 0 <= i < |queries| ==> Succeeded(r.value[i]) == ask(queries[i]))
            && (r.Failed? ==> FirstFails(ask, queries, r.error))
  {
    if queries == [] {
    } else {
      var init, last := queries[..|queries| - 1], queries[|queries| - 1];
      assert queries == init + [last];
      AnswerAllMeans(ask, init);
      var r := AnswerAll(ask, queries);
      FailureStaysFirst(ask, init, last, if r.Failed? then r.error else "");
    }
  }

  /** A failure among the first queries is the failure of all. */
  lemma {:induction false} FirstFailureDecides(ask: Ask, queries: seq<Query>, k: nat)
    requires k < |queries| && AllSucceed(ask, queries, k) && ask(queries[k]).Failed?
    ensures AnswerAll(ask, queries) == Failed(ask(queries[k]).error)
  {
    var init := queries[..|queries| - 1];
    assert forall i :: 0 <= i < |init| ==> init[i] == queries[i];
    if k < |init| {
      FirstFailureDecides(ask, init, k);
    } else {
      AnswerAllMeans(ask, init);
    }
  }

  /** A worker carries its query's index. */
  datatype Worker = Worker(index: nat, query: Query)

  /** The loop of the sequential branch. */
  method AnswerInTurn(ask: Ask, queries: seq<Query>) returns (r: Outcome<seq<Answer>>)
    ensures r == AnswerAll(ask, queries)
  {
    var results := [];
    for i := 0 to |queries|
      invariant AllSucceed(ask, queries, i)
      invariant |results| == i && forall j :: 0 <= j < i ==> Succeeded(results[j]) == ask(queries[j])
    {
      var answer := ask(queries[i]);
      match answer {
        case Failed(e) =>
          FirstFailureDecides(ask, queries, i);
          return Failed(e);
        case Succeeded(a) => results := results + [a];
      }
    }
    AnswerAllMeans(ask, queries);
    assert results == AnswerAll(ask, queries).value;
    return Succeeded(results);
  }

  /** Starting at most `parallelism` workers on the pending queries. */
  method StartWave(queries: seq<Query>, next: nat, parallelism: nat) returns (wave: seq<Worker>, next': nat)
    requires next <= |queries|
    ensures next' == (if next + parallelism <= |queries| then next + parallelism else |queries|)
    ensures |wave| == next' - next
    ensures forall j :: 0 <= j < |wave| ==> wave[j] == Worker(next + j, queries[next + j])
  {
    wave, next' := [], next;
    for i := 0 to parallelism
      invariant next' == (if next + i <= |queries| then next + i else |queries|)
      invariant |wave| == next' - next
      invariant forall j :: 0 <= j < |wave| ==> wave[j] == Worker(next + j, queries[next + j])
    {
      if next' == |queries| { break; }
      wave := wave + [Worker(next', queries[next'])];
      next' := next' + 1;
    }
  }

  /** The slots below `n` hold the answers to their own queries, the others are empty. */
  ghost predicate Filled(slots: array<Option<Answer>>, ask: Ask, queries: seq<Query>, n: nat)
    requires n <= |queries|
    reads slots
  {
    && slots.Length == |queries|
    && AllSucceed(ask, queries, n)
    && (forall i :: 0 <= i < n ==> slots[i].Some? && Succeeded(slots[i].value) == ask(queries[i]))
    && (forall i :: n <= i < |queries| ==> slots[i] == None)
  }

  /** Awaiting the workers of a wave in the order they were started. Every slot is empty when it is filled. */
  method AwaitWave(ask: Ask, queries: seq<Query>, wave: seq<Worker>, slots: array<Option<Answer>>, ghost start: nat)
      returns (failure: Option<string>)
    requires start + |wave| <= |queries| && Filled(slots, ask, queries, start)
    requires forall j :: 0 <= j < |wave| ==> wave[j] == Worker(start + j, queries[start + j])
    modifies slots
    ensures failure == None ==> Filled(slots, ask, queries, start + |wave|)
    ensures failure.Some? ==> AnswerAll(ask, queries) == Failed(failure.value)
  {
    for j := 0 to |wave|
      invariant Filled(slots, ask, queries, start + j)
    {
      var answer := ask(wave[j].query);
      match answer {
        case Failed(e) =>
          FirstFailureDecides(ask, queries, start + j);
          return Some(e);
        case Succeeded(a) =>
          assert slots[wave[j].index] == None;
          slots[wave[j].index] := Some(a);
      }
    }
    return None;
  }

  /** The final unwrapping of all slots; none is empty. */
  method Unwrap(slots: array<Option<Answer>>) returns (answers: seq<Answer>)
    requires forall i :: 0 <= i < slots.Length ==> slots[i].Some?
    ensures |answers| == slots.Length && forall i :: 0 <= i < slots.Length ==> Some(answers[i]) == slots[i]
  {
    answers := [];
    for i := 0 to slots.Length
      invariant |answers| == i && forall j :: 0 <= j < i ==> Some(answers[j]) == slots[j]
    {
      match slots[i] {
        case None => assert false;
        case Some(a) => answers := answers + [a];
      }
    }
  }

  /** `batch_query` over a store that does not change meanwhile. */
  method BatchQuery(ask: Ask, queries: seq<Query>, queryParallelism: nat) returns (r: Outcome<seq<Answer>>)
    ensures r == AnswerAll(ask, queries)
  {
    if |queries| == 0 { return Succeeded([]); }
    var parallelism := if queryParallelism == 0 then 1 else queryParallelism;
    if parallelism == 1 || |queries| == 1 {
      r := AnswerInTurn(ask, queries);
      return;
    }
    var slots := new Option<Answer>[|queries|](_ => None);
    var next := 0;
    while true
      invariant next <= |queries| && Filled(slots, ask, queries, next)
      decreases |queries| - next
    {
      var wave, next' := StartWave(queries, next, parallelism);
      if wave == [] { break; }
      var failure := AwaitWave(ask, queries, wave, slots, next);
      if failure.Some? { return Failed(failure.value); }
      next := next';
    }
    var answers := Unwrap(slots);
    AnswerAllMeans(ask, queries);
    assert answers == AnswerAll(ask, queries).value;
    return Succeeded(answers);
  }

  // ---------------------------------------------------------------------
  // Ingestion.
  // ---------------------------------------------------------------------

  datatype BatchError = BatchError(index: nat, error: string)

  datatype Ingested = Ingested(memory: Memory, ids: seq<AtomId>, errors: seq<BatchError>)

  /** All atoms in order, without chunks. Even a failing ingest may change the store. */
  function IngestAll(ingest: Ingest, m: Memory, atoms: seq<NewAtom>): Ingested {
    if atoms == [] then Ingested(m, [], [])
    else
      var n := |atoms| - 1;
      IngestOne(ingest, IngestAll(ingest, m, atoms[..n]), atoms[n], n)
  }

  function IngestOne(ingest: Ingest, before: Ingested, atom: NewAtom, index: nat): Ingested {
    var (memory, outcome) := ingest(before.memory, atom);
    match outcome
    case Succeeded(id) => Ingested(memory, before.ids + [id], before.errors)
    case Failed(e) => Ingested(memory, before.ids, before.errors + [BatchError(index, e)])
  }

  /** The store that ingesting atoms one after the other leaves. */
  function StoreAfter(ingest: Ingest, m: Memory, atoms: seq<NewAtom>): Memory
    decreases |atoms|
  {
    if atoms == [] then m else StoreAfter(ingest, ingest(m, atoms[0]).0, atoms[1..])
  }

  lemma {:induction false} StoreAfterSnoc(ingest: Ingest, m: Memory, atoms: seq<NewAtom>, last: NewAtom)
    ensures StoreAfter(ingest, m, atoms + [last]) == ingest(StoreAfter(ingest, m, atoms), last).0
    decreases |atoms|
  {
    if atoms == [] {
      assert (atoms + [last])[1..] == [] && (atoms + [last])[0] == last;
    } else {
      assert (atoms + [last])[1..] == atoms[1..] + [last] && (atoms + [last])[0] == atoms[0];
      StoreAfterSnoc(ingest, ingest(m, atoms[0]).0, atoms[1..], last);
    }
  }

  /** Each atom meets the store that the atoms before it leave, whether they succeeded or not. */
  lemma {:induction false} StoreIsThreaded(ingest: Ingest, m: Memory, atoms: seq<NewAtom>)
    ensures IngestAll(ingest, m, atoms).memory == StoreAfter(ingest, m, atoms)
    decreases |atoms|
  {
    if atoms == [] {
    } else {
      var init, last := atoms[..|atoms| - 1], atoms[|atoms| - 1];
      assert atoms == init + [last];
      StoreIsThreaded(ingest, m, init);
      StoreAfterSnoc(ingest, m, init, last);
    }
  }

  /** What ingesting atom `i` gives, in the store the atoms before it leave. */
  function OutcomeAt(ingest: Ingest, m: Memory, atoms: seq<NewAtom>, i: nat): Outcome<AtomId>
    requires i < |atoms|
  {
    ingest(StoreAfter(ingest, m, atoms[..i]), atoms[i]).1
  }

  /** How many of the first `i` atoms succeed. */
  function SuccessesBefore(ingest: Ingest, m: Memory, atoms: seq<NewAtom>, i: nat): nat
    requires i <= |atoms|
  {
    if i == 0 then 0
    else SuccessesBefore(ingest, m, atoms, i - 1) + (if OutcomeAt(ingest, m, atoms, i - 1).Succeeded? then 1 else 0)
  }

  lemma {:induction false} SuccessesAreIds(ingest: Ingest, m: Memory, atoms: seq<NewAtom>, i: nat)
    requires i <= |atoms|
    ensures |IngestAll(ingest, m, atoms[..i]).ids| == SuccessesBefore(ingest, m, atoms, i)
  {
    if i == 0 {
    } else {
      assert atoms[..i][..i - 1] == atoms[..i - 1];
      SuccessesAreIds(ingest, m, atoms, i - 1);
      StoreIsThreaded(ingest, m, atoms[..i - 1]);
    }
  }

  /** What is recorded for the first atoms is not touched afterwards. */
  lemma {:induction false} IngestKeepsEarlier(ingest: Ingest, m: Memory, atoms: seq<NewAtom>, k: nat)
    requires k <= |atoms|
    ensures IngestAll(ingest, m, atoms[..k]).ids <= IngestAll(ingest, m, atoms).ids
    ensures IngestAll(ingest, m, atoms[..k]).errors <= IngestAll(ingest, m, atoms).errors
  {
    if k == |atoms| {
      assert atoms[..k] == atoms;
    } else {
      var init := atoms[..|atoms| - 1];
      assert init[..k] == atoms[..k];
      IngestKeepsEarlier(ingest, m, init, k);
    }
  }

  /** The outcome of atom `i` stands at its place, behind `n` earlier successes. */
  ghost predicate Recorded(all: Ingested, i: nat, n: nat, outcome: Outcome<AtomId>)
    requires n <= i
  {
    match outcome
    case Succeeded(id) =>
      n < |all.ids| && all.ids[n] == id && forall j :: 0 <= j < |all.errors| ==> all.errors[j].index != i
    case Failed(e) => i - n < |all.errors| && all.errors[i - n] == BatchError(i, e)
  }

  /**
   Every atom is accounted for, once: with `n` successes before it, its id is number `n` of the
   ids, or its error, with its index, number `i - n` of the errors.
   */
  lemma EveryAtomIsAccountedFor(ingest: Ingest, m: Memory, atoms: seq<NewAtom>, i: nat)
    requires i < |atoms|
    ensures var all, n := IngestAll(ingest, m, atoms), SuccessesBefore(ingest, m, atoms, i);
            n <= i && Recorded(all, i, n, OutcomeAt(ingest, m, atoms, i))
  {
    var before, after, all :=
      IngestAll(ingest, m, atoms[..i]), IngestAll(ingest, m, atoms[..i + 1]), IngestAll(ingest, m, atoms);
    assert atoms[..i + 1][..i] == atoms[..i];
    IngestKeepsEarlier(ingest, m, atoms, i + 1);
    StoreIsThreaded(ingest, m, atoms[..i]);
    SuccessesAreIds(ingest, m, atoms, i);
    Conserved(ingest, m, atoms[..i]);
    LaterErrorsAreLater(ingest, m, atoms, i + 1);
    RecordedOnce(before, after, all, i, OutcomeAt(ingest, m, atoms, i));
  }

  lemma RecordedOnce(before: Ingested, after: Ingested, all: Ingested, i: nat, outcome: Outcome<AtomId>)
    requires |before.ids| + |before.errors| == i && after.ids <= all.ids && after.errors <= all.errors
    requires match outcome
             case Succeeded(id) => after.ids == before.ids + [id] && after.errors == before.errors
             case Failed(e) => after.errors == before.errors + [BatchError(i, e)]
    requires forall j :: 0 <= j < |before.errors| ==> before.errors[j].index < i
    requires forall j :: |after.errors| <= j < |all.errors| ==> all.errors[j].index > i
    ensures Recorded(all, i, |before.ids|, outcome)
  {
    if outcome.Succeeded? {
      forall j | 0 <= j < |all.errors| ensures all.errors[j].index != i {
        if j < |before.errors| { assert all.errors[j] == before.errors[j]; }
      }
    }
  }

  /** Successes plus failures are the atoms; failures are listed by increasing index. */
  lemma {:induction false} Conserved(ingest: Ingest, m: Memory, atoms: seq<NewAtom>)
    ensures var r := IngestAll(ingest, m, atoms);
            && |r.ids| + |r.errors| == |atoms|
            && (forall j :: 0 <= j < |r.errors| ==> r.errors[j].index < |atoms|)
            && (forall j, k :: 0 <= j < k < |r.errors| ==> r.errors[j].index < r.errors[k].index)
  {
    if atoms == [] {
    } else {
      Conserved(ingest, m, atoms[..|atoms| - 1]);
    }
  }

  lemma {:induction false} LaterErrorsAreLater(ingest: Ingest, m: Memory, atoms: seq<NewAtom>, k: nat)
    requires k <= |atoms|
    ensures var first, all := IngestAll(ingest, m, atoms[..k]).errors, IngestAll(ingest, m, atoms).errors;
            |first| <= |all| && forall j :: |first| <= j < |all| ==> all[j].index >= k
  {
    if k == |atoms| {
      assert atoms[..k] == atoms;
    } else {
      var init := atoms[..|atoms| - 1];
      assert init[..k] == atoms[..k];
      LaterErrorsAreLater(ingest, m, init, k);
    }
  }

  /** The store behind the write lock. */
  class NativeStore {
    var memory: Memory

    constructor (m: Memory)
      ensures memory == m
    {
      memory := m;
    }

    /** One turn of the outer loop of `batch_ingest`: the lock is held for up to `batchSize` atoms. */
    method IngestChunk(ingest: Ingest, atoms: seq<NewAtom>, start: nat, batchSize: nat,
                       ids: seq<AtomId>, errors: seq<BatchError>, ghost m: Memory)
        returns (processed: nat, ids': seq<AtomId>, errors': seq<BatchError>)
      requires start <= |atoms| && Ingested(memory, ids, errors) == IngestAll(ingest, m, atoms[..start])
      modifies this
      ensures processed == (if start + batchSize <= |atoms| then batchSize else |atoms| - start)
      ensures Ingested(memory, ids', errors') == IngestAll(ingest, m, atoms[..start + processed])
    {
      processed, ids', errors' := 0, ids, errors;
      while processed < batchSize
        invariant processed <= batchSize && start + processed <= |atoms|
        invariant Ingested(memory, ids', errors') == IngestAll(ingest, m, atoms[..start + processed])
      {
        var i := start + processed;
        if i == |atoms| { break; }
        assert atoms[..i + 1][..i] == atoms[..i];
        var (memory', outcome) := ingest(memory, atoms[i]);
        memory := memory';
        match outcome {
          case Succeeded(id) => ids' := ids' + [id];
          case Failed(e) => errors' := errors' + [BatchError(i, e)];
        }
        processed := processed + 1;
      }
    }

    /** `batch_ingest`: the outcome is that of the loop without chunks, whatever the batch size. */
    method BatchIngest(ingest: Ingest, atoms: seq<NewAtom>, configuredSize: nat)
        returns (ids: seq<AtomId>, errors: seq<BatchError>, total: nat)
      modifies this
      ensures Ingested(memory, ids, errors) == IngestAll(ingest, old(memory), atoms)
      ensures memory == StoreAfter(ingest, old(memory), atoms)
      ensures total == |atoms| == |ids| + |errors|
    {
      ghost var m := memory;
      var batchSize := if configuredSize == 0 then 1 else configuredSize;
      var start := 0;
      ids, errors, total := [], [], |atoms|;
      while true
        invariant start <= |atoms| && Ingested(memory, ids, errors) == IngestAll(ingest, m, atoms[..start])
        decreases |atoms| - start
      {
        var processed, ids', errors' := IngestChunk(ingest, atoms, start, batchSize, ids, errors, m);
        ids, errors := ids', errors';
        start := start + processed;
        if processed == 0 { break; }
      }
      assert atoms[..start] == atoms;
      StoreIsThreaded(ingest, m, atoms);
      Conserved(ingest, m, atoms);
    }
  }
}
