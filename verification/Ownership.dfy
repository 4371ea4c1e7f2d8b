/**
 Who owns a base: the writer lease, the published control descriptor and the clients that
 attach through it.

 Any number of processes run over any number of bases. Every read, compare, removal and
 publication of the descriptor file is a step of its own, so all interleavings are covered, and
 a process can crash between any two of its steps. The operating system is trusted for three
 things: a lock has one holder and dies with it, a bound address has one listener, and
 random tokens do not repeat.
 */
module Ownership {
  import opened Results

  type Base(==, !new)
  type Address(==, !new)
  type Token(==, !new)

  /** A process, from its start to its end. */
  type Pid = nat

  datatype Descriptor = Descriptor(base: Base, address: Address, token: Token, publisher: Pid)

  datatype Phase =
    | Fresh
    // the owner
    | Leased                                     // the store is open
    | Listening(own: Descriptor)                 // bound, token drawn
    | Cleared(own: Descriptor)                   // an old descriptor file is out of the way
    | Serving(own: Descriptor)                   // published, guard armed
    | Dropping(own: Descriptor)                  // loop left, guard about to read
    | Compared(own: Descriptor, matches: bool)   // guard has read the file
    | Closing(own: Descriptor)                   // guard dropped, state about to be dropped
    // a client
    | Knows(target: Descriptor)
    | Connected(target: Descriptor, peer: Pid)
    | Attached(target: Descriptor, peer: Pid)
    | Gone

  /** What happened, with the lease holder of the base at that moment. */
  datatype Event =
    | Served(server: Pid, base: Base, holder: Option<Pid>)
    | GuardRemoved(remover: Pid, what: Descriptor)
    | ClearedAway(what: Descriptor, publisherPhase: Phase)
    | Authenticated(client: Pid, named: Descriptor, server: Pid)

  /**
   `accepting` are the processes whose listener is open. `issued` and `log` are history, and so
   is `faulty`: the processes that crashed or whose guard met an I/O error.
   */
  datatype World = World(
    home: Pid -> Base, lease: map<Base, Pid>, files: map<Base, Descriptor>, phases: map<Pid, Phase>,
    accepting: set<Pid>, issued: map<Token, Descriptor>, faulty: set<Pid>, log: seq<Event>)

  function Start(home: Pid -> Base): World {
    World(home, map[], map[], map[], {}, map[], {}, [])
  }

  function At(w: World, p: Pid): Phase {
    if p in w.phases then w.phases[p] else Fresh
  }

  function To(w: World, p: Pid, phase: Phase): World {
    w.(phases := w.phases[p := phase])
  }

  /** The process has the store open. */
  predicate Alive(phase: Phase) {
    phase.Leased? || HasDescriptor(phase)
  }

  predicate HasDescriptor(phase: Phase) {
    phase.Listening? || phase.Cleared? || phase.Serving? || phase.Dropping? || phase.Compared? || phase.Closing?
  }

  /** The process's listener accepts connections; it may still do so while the guard is dropped. */
  predicate ListensOn(w: World, p: Pid, address: Address) {
    p in w.accepting && HasDescriptor(At(w, p)) && At(w, p).own.address == address
  }

  /** Connection tasks run: they are spawned after publication and outlive the listener. */
  predicate Answers(phase: Phase) {
    phase.Serving? || phase.Dropping? || phase.Compared? || phase.Closing?
  }

  function Holder(w: World, base: Base): Option<Pid> {
    if base in w.lease then Some(w.lease[base]) else None
  }

  function FileOf(w: World, base: Base): Option<Descriptor> {
    if base in w.files then Some(w.files[base]) else None
  }

  // ---------------------------------------------------------------------
  // The steps.
  // ---------------------------------------------------------------------

  datatype Step =
    | OpenStore(p: Pid)
    | Bind(p: Pid, address: Address, token: Token)
    | ClearOld(p: Pid)
    | Publish(p: Pid)
    | GiveUp(p: Pid)                     // an error, or a command without control server
    | StopServing(p: Pid)
    | GuardReads(p: Pid, ok: bool)
    | GuardRemoves(p: Pid, ok: bool)
    | CloseListener(p: Pid)              // the accept task ends, by abort or by error
    | Release(p: Pid)
    | Crash(p: Pid)
    | ReadDescriptor(p: Pid)
    | Connect(p: Pid, peer: Pid)
    | Authenticate(p: Pid)
    | Leave(p: Pid)
    | ServeRemote(p: Pid)                // `p` is the client
    | ServeLocal(p: Pid)

  ghost predicate Enabled(w: World, step: Step) {
    var me, base := At(w, step.p), w.home(step.p);
    match step
    case OpenStore(_) => me.Fresh? && base !in w.lease
    case Bind(_, a, t) => me.Leased? && t !in w.issued && forall q :: !ListensOn(w, q, a)
    case ClearOld(_) => me.Listening?
    case Publish(_) => me.Cleared?
    case GiveUp(_) => me.Leased? || me.Listening? || me.Cleared?
    case StopServing(_) => me.Serving?
    case GuardReads(_, _) => me.Dropping?
    case GuardRemoves(_, _) => me.Compared?
    case CloseListener(_) => Answers(me) && step.p in w.accepting
    case Release(_) => me.Closing? && step.p !in w.accepting
    case Crash(_) => !me.Gone?
    case ReadDescriptor(_) => me.Fresh? && base in w.files && w.files[base].base == base
    case Connect(_, q) => me.Knows? && ListensOn(w, q, me.target.address)
    case Authenticate(_) => me.Connected? && Answers(At(w, me.peer))
    case Leave(_) => me.Knows? || me.Connected? || me.Attached?
    case ServeRemote(_) => me.Attached? && Answers(At(w, me.peer))
    case ServeLocal(_) => me.Serving?
  }

  function Unlock(w: World, p: Pid): World {
    if Holder(w, w.home(p)) == Some(p) then w.(lease := w.lease - {w.home(p)}) else w
  }

  function Log(w: World, e: Event): World {
    w.(log := w.log + [e])
  }

  function Take(w: World, step: Step): World
    requires Enabled(w, step)
  {
    var p, me, base := step.p, At(w, step.p), w.home(step.p);
    match step
    case OpenStore(_) => To(w.(lease := w.lease[base := p]), p, Leased)
    case Bind(_, a, t) =>
      var d := Descriptor(base, a, t, p);
      To(w.(issued := w.issued[t := d], accepting := w.accepting + {p}), p, Listening(d))
    case ClearOld(_) =>
      var cleared := if base in w.files then Log(w, ClearedAway(w.files[base], At(w, w.files[base].publisher))) else w;
      To(cleared.(files := w.files - {base}), p, Cleared(me.own))
    case Publish(_) => To(w.(files := w.files[base := me.own]), p, Serving(me.own))
    case GiveUp(_) => To(Unlock(w, p).(accepting := w.accepting - {p}), p, Gone)
    case StopServing(_) => To(w, p, Dropping(me.own))
    case GuardReads(_, ok) =>
      var matches := ok && base in w.files && w.files[base].token == me.own.token;
      To(w.(faulty := if ok then w.faulty else w.faulty + {p}), p, Compared(me.own, matches))
    case GuardRemoves(_, ok) =>
      if me.matches && ok && base in w.files then
        To(Log(w, GuardRemoved(p, w.files[base])).(files := w.files - {base}), p, Closing(me.own))
      else
        To(w.(faulty := if ok then w.faulty else w.faulty + {p}), p, Closing(me.own))
    case CloseListener(_) => w.(accepting := w.accepting - {p})
    case Release(_) => To(Unlock(w, p), p, Gone)
    case Crash(_) => To(Unlock(w, p).(accepting := w.accepting - {p}, faulty := w.faulty + {p}), p, Gone)
    case ReadDescriptor(_) => To(w, p, Knows(w.files[base]))
    case Connect(_, q) => To(w, p, Connected(me.target, q))
    case Authenticate(_) =>
      if me.target.token == At(w, me.peer).own.token then
        To(Log(w, Authenticated(p, me.target, me.peer)), p, Attached(me.target, me.peer))
      else To(w, p, Gone)
    case Leave(_) => To(w, p, Gone)
    case ServeRemote(_) => var q := me.peer; Log(w, Served(q, base, Holder(w, base)))
    case ServeLocal(_) => Log(w, Served(p, base, Holder(w, base)))
  }

  ghost predicate IsRun(w: World, steps: seq<Step>)
    decreases |steps|
  {
    steps == [] || (Enabled(w, steps[0]) && IsRun(Take(w, steps[0]), steps[1..]))
  }

  ghost function After(w: World, steps: seq<Step>): World
    requires IsRun(w, steps)
    decreases |steps|
  {
    if steps == [] then w else After(Take(w, steps[0]), steps[1..])
  }

  // ---------------------------------------------------------------------
  // The invariant.
  // ---------------------------------------------------------------------

  predicate Issued(w: World, d: Descriptor) {
    d.token in w.issued && w.issued[d.token] == d
  }

  /** What the file must hold, seen from an owner. */
  predicate FileAgrees(w: World, p: Pid, phase: Phase) {
    var file := FileOf(w, w.home(p));
    match phase
    case Cleared(_) => file == None
    case Serving(d) => file == Some(d)
    case Dropping(d) => file == Some(d)
    case Compared(d, m) => file == Some(d) && (m || p in w.faulty)
    case Closing(d) => file == None || (file == Some(d) && p in w.faulty)
    case _ => true
  }

  predicate GoodLease(w: World, p: Pid) {
    var me := At(w, p);
    && (Alive(me) <==> Holder(w, w.home(p)) == Some(p))
    && (Alive(me) && !me.Leased? ==> me.own.publisher == p && me.own.base == w.home(p) && Issued(w, me.own))
  }

  predicate GoodOwner(w: World, p: Pid) {
    GoodLease(w, p) && FileAgrees(w, p, At(w, p))
  }

  predicate GoodClient(w: World, p: Pid) {
    var me := At(w, p);
    && (me.Knows? || me.Connected? || me.Attached? ==> Issued(w, me.target) && me.target.base == w.home(p))
    && (me.Attached? ==> me.target.publisher == me.peer && w.home(me.peer) == w.home(p))
  }

  predicate GoodFile(w: World, base: Base)
    requires base in w.files
  {
    var f := w.files[base];
    && f.base == base && w.home(f.publisher) == base && Issued(w, f)
    && var owner := At(w, f.publisher);
       (Answers(owner) && owner.own == f) || (owner.Gone? && f.publisher in w.faulty)
  }

  /** A process draws one token in its life. */
  predicate GoodToken(w: World, t: Token)
    requires t in w.issued
  {
    var d := w.issued[t];
    var owner := At(w, d.publisher);
    d.token == t && (owner.Gone? || (Alive(owner) && !owner.Leased? && owner.own == d))
  }

  predicate GoodEvent(home: Pid -> Base, e: Event) {
    match e
    case Served(server, base, holder) => holder == Some(server) && home(server) == base
    case GuardRemoved(remover, what) => what.publisher == remover
    case ClearedAway(_, phase) => phase.Gone?
    case Authenticated(client, named, server) => server == named.publisher && home(server) == home(client) == named.base
  }

  ghost predicate OneListener(w: World) {
    forall p, q, a :: ListensOn(w, p, a) && ListensOn(w, q, a) ==> p == q
  }

  ghost predicate Inv(w: World) {
    && (forall p :: GoodOwner(w, p))
    && (forall p :: GoodClient(w, p))
    && (forall b :: b in w.lease ==> w.home(w.lease[b]) == b)
    && (forall b :: b in w.files ==> GoodFile(w, b))
    && (forall t :: t in w.issued ==> GoodToken(w, t))
    && OneListener(w)
    && (forall i :: 0 <= i < |w.log| ==> GoodEvent(w.home, w.log[i]))
  }

  // ---------------------------------------------------------------------
  // Every step keeps it.
  // ---------------------------------------------------------------------

  /** Only the mover changes phase. */
  ghost predicate MovesAlone(w: World, w': World, p: Pid) {
    && w'.home == w.home
    && (forall q :: q != p ==> At(w', q) == At(w, q))
  }

  /** Tokens and faults are never forgotten. */
  ghost predicate KeepsHistory(w: World, w': World) {
    && (forall d :: Issued(w, d) ==> Issued(w', d))
    && (forall q :: q in w.faulty ==> q in w'.faulty)
  }

  /** Only an owner touches the file, and only that of its own base. */
  ghost predicate MovesOwnFile(w: World, w': World, p: Pid) {
    && (forall b :: b != w.home(p) ==> FileOf(w', b) == FileOf(w, b))
    && (!Alive(At(w, p)) ==> FileOf(w', w.home(p)) == FileOf(w, w.home(p)))
  }

  /** A lease passes from nobody to the mover, or from the mover to nobody. */
  ghost predicate MovesOwnLease(w: World, w': World, p: Pid) {
    var before, after := Holder(w, w.home(p)), Holder(w', w.home(p));
    && (forall b :: b != w.home(p) ==> Holder(w', b) == Holder(w, b))
    && (after == before || (before == None && after == Some(p)) || (before == Some(p) && after == None))
  }

  ghost predicate Moves(w: World, w': World, p: Pid) {
    MovesAlone(w, w', p) && KeepsHistory(w, w') && MovesOwnFile(w, w', p) && MovesOwnLease(w, w', p)
  }

  lemma StepMovesAlone(w: World, step: Step)
    requires Enabled(w, step)
    ensures MovesAlone(w, Take(w, step), step.p)
  {}

  lemma StepKeepsHistory(w: World, step: Step)
    requires Enabled(w, step)
    ensures KeepsHistory(w, Take(w, step))
  {}

  lemma StepMovesOwnFile(w: World, step: Step)
    requires Enabled(w, step)
    ensures MovesOwnFile(w, Take(w, step), step.p)
  {}

  lemma StepMovesOwnLease(w: World, step: Step)
    requires Enabled(w, step)
    ensures MovesOwnLease(w, Take(w, step), step.p)
  {}

  /** The steps that open or close a store. */
  predicate OpensOrCloses(step: Step) {
    step.OpenStore? || step.GiveUp? || step.Release? || step.Crash?
  }

  lemma OpeningKeepsLease(w: World, step: Step)
    requires GoodLease(w, step.p) && Enabled(w, step) && OpensOrCloses(step)
    ensures GoodLease(Take(w, step), step.p)
  {}

  lemma RunningKeepsLease(w: World, step: Step)
    requires GoodLease(w, step.p) && Enabled(w, step) && !OpensOrCloses(step)
    ensures GoodLease(Take(w, step), step.p)
  {}

  lemma MoverKeepsLease(w: World, step: Step)
    requires GoodLease(w, step.p) && Enabled(w, step)
    ensures GoodLease(Take(w, step), step.p)
  {
    if OpensOrCloses(step) { OpeningKeepsLease(w, step); } else { RunningKeepsLease(w, step); }
  }

  /** The steps that change the descriptor file. */
  predicate TouchesFile(step: Step) {
    step.ClearOld? || step.Publish? || step.GuardRemoves?
  }

  lemma ChangedFileAgrees(w: World, step: Step)
    requires GoodOwner(w, step.p) && Enabled(w, step) && TouchesFile(step)
    ensures FileAgrees(Take(w, step), step.p, At(Take(w, step), step.p))
  {}

  lemma SameFileAgrees(w: World, step: Step)
    requires GoodOwner(w, step.p) && Enabled(w, step) && !TouchesFile(step)
    ensures FileAgrees(Take(w, step), step.p, At(Take(w, step), step.p))
  {}

  lemma MoversFileAgrees(w: World, step: Step)
    requires GoodOwner(w, step.p) && Enabled(w, step)
    ensures FileAgrees(Take(w, step), step.p, At(Take(w, step), step.p))
  {
    if TouchesFile(step) { ChangedFileAgrees(w, step); } else { SameFileAgrees(w, step); }
  }

  lemma OthersStayOwners(w: World, w': World, mover: Pid, p: Pid)
    requires GoodOwner(w, p) && GoodOwner(w, mover) && Moves(w, w', mover) && p != mover
    ensures GoodOwner(w', p)
  {}

  /** The process that `p` is connected to. */
  function Peer(w: World, p: Pid): Pid {
    var me := At(w, p);
    if me.Connected? || me.Attached? then me.peer else p
  }

  lemma AuthenticatedIsGood(w: World, step: Step)
    requires GoodClient(w, step.p) && GoodLease(w, Peer(w, step.p)) && Enabled(w, step) && step.Authenticate?
    ensures GoodClient(Take(w, step), step.p)
  {}

  lemma MoverStaysClient(w: World, step: Step)
    requires GoodClient(w, step.p) && GoodLease(w, Peer(w, step.p)) && Enabled(w, step)
    requires w.home(step.p) in w.files ==> GoodFile(w, w.home(step.p))
    ensures GoodClient(Take(w, step), step.p)
  {
    if step.Authenticate? { AuthenticatedIsGood(w, step); }
  }

  lemma OthersStayClients(w: World, w': World, mover: Pid, p: Pid)
    requires GoodClient(w, p) && Moves(w, w', mover) && p != mover
    ensures GoodClient(w', p)
  {}

  lemma ChangedFileStaysGood(w: World, step: Step)
    requires GoodOwner(w, step.p) && Enabled(w, step) && TouchesFile(step)
    requires var b := w.home(step.p); b in w.files ==> GoodFile(w, b) && GoodOwner(w, w.files[b].publisher)
    ensures var b := w.home(step.p); b in Take(w, step).files ==> GoodFile(Take(w, step), b)
  {}

  lemma SameFileStaysGood(w: World, step: Step)
    requires GoodOwner(w, step.p) && Enabled(w, step) && !TouchesFile(step)
    requires var b := w.home(step.p); b in w.files ==> GoodFile(w, b) && GoodOwner(w, w.files[b].publisher)
    ensures var b := w.home(step.p); b in Take(w, step).files ==> GoodFile(Take(w, step), b)
  {}

  /** A file in the mover's base names the mover, or was just found there while nobody owns the base. */
  lemma OwnFileStaysGood(w: World, step: Step)
    requires GoodOwner(w, step.p) && Enabled(w, step)
    requires var b := w.home(step.p); b in w.files ==> GoodFile(w, b) && GoodOwner(w, w.files[b].publisher)
    ensures var b := w.home(step.p); b in Take(w, step).files ==> GoodFile(Take(w, step), b)
  {
    if TouchesFile(step) { ChangedFileStaysGood(w, step); } else { SameFileStaysGood(w, step); }
  }

  lemma OtherFilesStayGood(w: World, w': World, mover: Pid, b: Base)
    requires Moves(w, w', mover) && b != w.home(mover) && (b in w.files ==> GoodFile(w, b))
    ensures b in w'.files ==> GoodFile(w', b)
  {
    assert FileOf(w', b) == FileOf(w, b);
  }

  lemma TokenOfOther(w: World, w': World, mover: Pid, t: Token)
    requires MovesAlone(w, w', mover) && t in w.issued && t in w'.issued && w'.issued[t] == w.issued[t]
    requires GoodToken(w, t) && w.issued[t].publisher != mover
    ensures GoodToken(w', t)
  {}

  lemma TokenOfMover(w: World, step: Step, t: Token)
    requires Enabled(w, step) && t in w.issued && GoodToken(w, t) && w.issued[t].publisher == step.p
    ensures GoodToken(Take(w, step), t)
  {}

  /** Only binding issues a token, and only one that is not issued yet. */
  lemma StepIssues(w: World, step: Step)
    requires Enabled(w, step)
    ensures Take(w, step).issued ==
            if step.Bind? then
              w.issued[step.token := Descriptor(w.home(step.p), step.address, step.token, step.p)]
            else w.issued
  {}

  lemma TokensStayGood(w: World, step: Step, t: Token)
    requires Enabled(w, step) && (t in w.issued ==> GoodToken(w, t))
    ensures t in Take(w, step).issued ==> GoodToken(Take(w, step), t)
  {
    StepIssues(w, step);
    StepMovesAlone(w, step);
    if t in w.issued {
      if w.issued[t].publisher == step.p {
        TokenOfMover(w, step, t);
      } else {
        TokenOfOther(w, Take(w, step), step.p, t);
      }
    }
  }

  lemma EventsStayGood(w: World, step: Step)
    requires forall i :: 0 <= i < |w.log| ==> GoodEvent(w.home, w.log[i])
    requires GoodOwner(w, step.p) && GoodClient(w, step.p) && GoodOwner(w, Peer(w, step.p)) && Enabled(w, step)
    requires var b := w.home(step.p); b in w.files ==> GoodFile(w, b) && GoodOwner(w, w.files[b].publisher)
    ensures var w' := Take(w, step); forall i :: 0 <= i < |w'.log| ==> GoodEvent(w'.home, w'.log[i])
  {}

  /** Only binding makes a listener, and nobody's listener moves to another address. */
  lemma ListenersAreBound(w: World, step: Step, q: Pid, a: Address)
    requires Enabled(w, step)
    ensures ListensOn(Take(w, step), q, a) ==> ListensOn(w, q, a) || (step.Bind? && q == step.p && a == step.address)
  {}

  lemma ListenersStayUnique(w: World, step: Step)
    requires OneListener(w) && Enabled(w, step)
    ensures OneListener(Take(w, step))
  {
    var w' := Take(w, step);
    forall p, q, a | ListensOn(w', p, a) && ListensOn(w', q, a) ensures p == q {
      ListenersAreBound(w, step, p, a);
      ListenersAreBound(w, step, q, a);
    }
  }

  lemma StepKeepsInv(w: World, step: Step)
    requires Inv(w) && Enabled(w, step)
    ensures Inv(Take(w, step))
  {
    var w', p := Take(w, step), step.p;
    StepMovesAlone(w, step);
    StepKeepsHistory(w, step);
    StepMovesOwnFile(w, step);
    StepMovesOwnLease(w, step);
    assert GoodOwner(w, p) && GoodOwner(w, Peer(w, p));
    MoverKeepsLease(w, step);
    MoversFileAgrees(w, step);
    MoverStaysClient(w, step);
    forall q ensures GoodOwner(w', q) { if q != p { OthersStayOwners(w, w', p, q); } }
    forall q ensures GoodClient(w', q) { if q != p { OthersStayClients(w, w', p, q); } }
    forall b | b in w'.files ensures GoodFile(w', b) {
      if b != w.home(p) { OtherFilesStayGood(w, w', p, b); } else { OwnFileStaysGood(w, step); }
    }
    forall t | t in w'.issued ensures GoodToken(w', t) { TokensStayGood(w, step, t); }
    EventsStayGood(w, step);
    ListenersStayUnique(w, step);
    LeasesStayHome(w, step);
  }

  lemma LeasesStayHome(w: World, step: Step)
    requires Inv(w) && Enabled(w, step)
    ensures var w' := Take(w, step); forall b :: b in w'.lease ==> w'.home(w'.lease[b]) == b
  {}

  // ---------------------------------------------------------------------
  // Every run.
  // ---------------------------------------------------------------------

  lemma {:induction false} RunKeepsInv(w: World, steps: seq<Step>)
    requires Inv(w) && IsRun(w, steps)
    ensures Inv(After(w, steps)) && After(w, steps).home == w.home
    decreases |steps|
  {
    if steps == [] {
    } else {
      StepKeepsInv(w, steps[0]);
      RunKeepsInv(Take(w, steps[0]), steps[1..]);
    }
  }

  lemma StartIsGood(home: Pid -> Base)
    ensures Inv(Start(home))
  {}

  ghost predicate Reachable(w: World) {
    exists steps :: IsRun(Start(w.home), steps) && After(Start(w.home), steps) == w
  }

  lemma ReachableIsGood(w: World)
    requires Reachable(w)
    ensures Inv(w)
  {
    var steps :| IsRun(Start(w.home), steps) && After(Start(w.home), steps) == w;
    StartIsGood(w.home);
    RunKeepsInv(Start(w.home), steps);
  }

  /**
   Over every run, everything that ever happened was in order: each request was processed by the
   holder of its base's lease, each guard removed its own descriptor only, what a starting owner
   cleared away belonged to a dead process, and each accepted client reached the publisher of the
   descriptor it had read.
   */
  lemma HistoryIsInOrder(home: Pid -> Base, steps: seq<Step>)
    requires IsRun(Start(home), steps)
    ensures forall e :: e in After(Start(home), steps).log ==> GoodEvent(home, e)
  {
    StartIsGood(home);
    RunKeepsInv(Start(home), steps);
  }

  /** At any moment at most one process has a base open, and it is the lease holder. */
  lemma SingleOwner(w: World, p: Pid, q: Pid)
    requires Reachable(w) && Alive(At(w, p)) && Alive(At(w, q)) && w.home(p) == w.home(q)
    ensures p == q && Holder(w, w.home(p)) == Some(p)
  {
    ReachableIsGood(w);
    assert GoodOwner(w, p) && GoodOwner(w, q);
  }

  /**
   The descriptor file of a base: while its owner serves, it names that owner. When it names
   somebody who does not hold the lease, then that process crashed or its guard met an
   I/O error; so without faults a shutdown leaves no descriptor behind.
   */
  lemma DescriptorNamesOwner(w: World, base: Base)
    requires Reachable(w)
    ensures forall p :: At(w, p).Serving? && w.home(p) == base ==> FileOf(w, base) == Some(At(w, p).own)
    ensures base in w.files ==>
      var f := w.files[base];
      w.home(f.publisher) == base && (Holder(w, base) == Some(f.publisher) || f.publisher in w.faulty)
    ensures w.faulty == {} && Holder(w, base) == None ==> base !in w.files
  {
    ReachableIsGood(w);
    forall p | At(w, p).Serving? && w.home(p) == base ensures FileOf(w, base) == Some(At(w, p).own) {
      assert GoodOwner(w, p);
    }
    if base in w.files {
      assert GoodFile(w, base) && GoodOwner(w, w.files[base].publisher);
    }
  }

  /** An authenticated client talks to the process whose descriptor it read, whoever uses that address. */
  lemma AttachedToPublisher(w: World, client: Pid)
    requires Reachable(w) && At(w, client).Attached?
    ensures var me := At(w, client);
            me.peer == me.target.publisher && w.home(me.peer) == w.home(client) == me.target.base
  {
    ReachableIsGood(w);
    assert GoodClient(w, client);
  }

  /** With a stale descriptor a client is turned away, even if another owner now listens on the address. */
  lemma StaleDescriptorIsRejected(w: World, client: Pid)
    requires Reachable(w) && At(w, client).Connected? && Enabled(w, Authenticate(client))
    ensures var me := At(w, client);
            At(Take(w, Authenticate(client)), client).Attached? <==> me.peer == me.target.publisher
  {
    ReachableIsGood(w);
    var me := At(w, client);
    assert GoodClient(w, client) && GoodOwner(w, me.peer) && GoodToken(w, me.target.token);
  }

  /**
   The whole way of a client with a stale descriptor: it can read the file and connect to whoever
   listens on the address now, and is then turned away without a trace in the history.
   */
  lemma StaleClientIsTurnedAway(w: World, client: Pid, other: Pid)
    requires Reachable(w) && At(w, client) == Fresh && w.home(client) in w.files
    requires var f := w.files[w.home(client)]; f.publisher != other && ListensOn(w, other, f.address)
    requires Answers(At(w, other))
    ensures var steps := [ReadDescriptor(client), Connect(client, other), Authenticate(client)];
            && IsRun(w, steps) && At(After(w, steps), client) == Gone
            && After(w, steps).log == w.log && After(w, steps).files == w.files && After(w, steps).lease == w.lease
  {
    ReachableIsGood(w);
    var f := w.files[w.home(client)];
    assert GoodFile(w, w.home(client)) && GoodOwner(w, other) && GoodToken(w, f.token);
    var read, connect, auth := ReadDescriptor(client), Connect(client, other), Authenticate(client);
    ThreeSteps(w, read, connect, auth);
    ForeignListener(w, client, other);
  }

  lemma ForeignListener(w: World, client: Pid, other: Pid)
    requires At(w, client) == Fresh && w.home(client) in w.files && GoodFile(w, w.home(client))
    requires GoodOwner(w, other) && GoodToken(w, w.files[w.home(client)].token) && Answers(At(w, other))
    requires var f := w.files[w.home(client)]; f.publisher != other && ListensOn(w, other, f.address)
    ensures Enabled(w, ReadDescriptor(client))
    ensures var w1 := Take(w, ReadDescriptor(client));
            && Enabled(w1, Connect(client, other))
            && var w2 := Take(w1, Connect(client, other));
               && Enabled(w2, Authenticate(client))
               && var w3 := Take(w2, Authenticate(client));
                  At(w3, client) == Gone && w3.log == w.log && w3.files == w.files && w3.lease == w.lease
  {
    var f := w.files[w.home(client)];
    assert f.token != At(w, other).own.token;
  }

  /** While an owner serves and listens, a new client of its base can attach to it, and to nobody else. */
  lemma ClientCanAttach(w: World, client: Pid, owner: Pid, peer: Pid)
    requires Reachable(w) && At(w, owner).Serving? && owner in w.accepting
    requires At(w, client).Fresh? && w.home(client) == w.home(owner)
    ensures var steps := [ReadDescriptor(client), Connect(client, peer), Authenticate(client)];
            && (IsRun(w, steps) <==> peer == owner)
            && (IsRun(w, steps) ==>
                  && At(After(w, steps), client) == Attached(At(w, owner).own, owner)
                  && After(w, steps).log == w.log + [Authenticated(client, At(w, owner).own, owner)])
  {
    ReachableIsGood(w);
    assert GoodOwner(w, owner);
    var read, connect, auth := ReadDescriptor(client), Connect(client, peer), Authenticate(client);
    ThreeSteps(w, read, connect, auth);
    OnlyOwnerListens(w, owner, peer);
    ReadThenConnect(w, client, owner, peer);
  }

  lemma OnlyOwnerListens(w: World, owner: Pid, peer: Pid)
    requires OneListener(w) && At(w, owner).Serving? && owner in w.accepting
    ensures ListensOn(w, peer, At(w, owner).own.address) <==> peer == owner
  {
    assert ListensOn(w, owner, At(w, owner).own.address);
  }

  lemma ReadThenConnect(w: World, client: Pid, owner: Pid, peer: Pid)
    requires GoodOwner(w, owner) && At(w, owner).Serving? && At(w, client).Fresh? && w.home(client) == w.home(owner)
    requires ListensOn(w, peer, At(w, owner).own.address) <==> peer == owner
    ensures Enabled(w, ReadDescriptor(client))
    ensures var w1 := Take(w, ReadDescriptor(client));
            && (Enabled(w1, Connect(client, peer)) <==> peer == owner)
            && (peer == owner ==>
                  var w2 := Take(w1, Connect(client, peer));
                  && Enabled(w2, Authenticate(client))
                  && At(Take(w2, Authenticate(client)), client) == Attached(At(w, owner).own, owner)
                  && Take(w2, Authenticate(client)).log ==
                     w.log + [Authenticated(client, At(w, owner).own, owner)])
  {}

  // ---------------------------------------------------------------------
  // A base can be opened, given up, closed and opened again.
  // ---------------------------------------------------------------------

  ghost predicate NobodyListens(w: World, address: Address) {
    forall q :: !ListensOn(w, q, address)
  }

  /** `p` serves its base under the descriptor that it published. */
  predicate Serves(w: World, p: Pid, d: Descriptor) {
    && At(w, p) == Serving(d) && p in w.accepting
    && FileOf(w, w.home(p)) == Some(d) && Holder(w, w.home(p)) == Some(p)
  }

  /** What is recorded of clearing a base: the descriptor found there, whose publisher is gone. */
  function CleanUp(w: World, base: Base): seq<Event> {
    if base in w.files then [ClearedAway(w.files[base], Gone)] else []
  }

  /**
   Opening, binding, clearing away and publishing go through exactly when the process is new,
   nobody holds the lease, and the operating system hands out an unused token and a free
   address. The descriptor file is no part of the condition: a stale one is cleared away.
   */
  lemma FreeBaseCanBeServed(w: World, p: Pid, a: Address, t: Token)
    ensures var steps, base := [OpenStore(p), Bind(p, a, t), ClearOld(p), Publish(p)], w.home(p);
            && (IsRun(w, steps) <==>
                  At(w, p) == Fresh && Holder(w, base) == None && t !in w.issued && NobodyListens(w, a))
            && (IsRun(w, steps) ==>
                  && Serves(After(w, steps), p, Descriptor(base, a, t, p))
                  && (Reachable(w) ==> After(w, steps).log == w.log + CleanUp(w, base)))
  {
    FourSteps(w, OpenStore(p), Bind(p, a, t), ClearOld(p), Publish(p));
    OpenThenBind(w, p, a, t);
    if Enabled(w, OpenStore(p)) && Enabled(Take(w, OpenStore(p)), Bind(p, a, t)) {
      BoundIsServed(w, p, a, t);
      if Reachable(w) {
        ReachableIsGood(w);
        BoundCleansUp(w, p, a, t);
      }
    }
  }

  lemma OpenThenBind(w: World, p: Pid, a: Address, t: Token)
    ensures Enabled(w, OpenStore(p)) <==> At(w, p) == Fresh && Holder(w, w.home(p)) == None
    ensures Enabled(w, OpenStore(p)) ==>
      (Enabled(Take(w, OpenStore(p)), Bind(p, a, t)) <==> t !in w.issued && NobodyListens(w, a))
  {
    if Enabled(w, OpenStore(p)) {
      forall q ensures ListensOn(Take(w, OpenStore(p)), q, a) <==> ListensOn(w, q, a) {}
    }
  }

  lemma BoundIsServed(w: World, p: Pid, a: Address, t: Token)
    requires Enabled(w, OpenStore(p)) && Enabled(Take(w, OpenStore(p)), Bind(p, a, t))
    ensures var w2, base := Take(Take(w, OpenStore(p)), Bind(p, a, t)), w.home(p);
      && Enabled(w2, ClearOld(p)) && Enabled(Take(w2, ClearOld(p)), Publish(p))
      && var w' := Take(Take(w2, ClearOld(p)), Publish(p));
         Serves(w', p, Descriptor(base, a, t, p))
  {}

  lemma BoundCleansUp(w: World, p: Pid, a: Address, t: Token)
    requires Enabled(w, OpenStore(p)) && Enabled(Take(w, OpenStore(p)), Bind(p, a, t))
    requires var b := w.home(p); b in w.files ==> GoodFile(w, b) && GoodOwner(w, w.files[b].publisher)
    ensures var w3 := Take(Take(Take(w, OpenStore(p)), Bind(p, a, t)), ClearOld(p));
            w3.log == w.log + CleanUp(w, w.home(p))
  {}

  /** An owner may crash at any moment, or fail before it serves. */
  predicate Abandons(w: World, owner: Pid, step: Step) {
    || (step == Crash(owner) && Alive(At(w, owner)))
    || (step == GiveUp(owner) && (At(w, owner).Leased? || At(w, owner).Listening? || At(w, owner).Cleared?))
  }

  /** However an owner went, its base can be served again at once, even under the old address. */
  lemma AbandonedBaseCanBeServed(w: World, owner: Pid, step: Step, p: Pid, a: Address, t: Token)
    requires Reachable(w) && Abandons(w, owner, step)
    requires At(w, p) == Fresh && w.home(p) == w.home(owner) && t !in w.issued
    requires forall q :: q != owner ==> !ListensOn(w, q, a)
    ensures Enabled(w, step)
    ensures var w', base := Take(w, step), w.home(owner);
            var steps := [OpenStore(p), Bind(p, a, t), ClearOld(p), Publish(p)];
            && At(w', owner) == Gone && FileOf(w', base) == FileOf(w, base)
            && IsRun(w', steps) && Serves(After(w', steps), p, Descriptor(base, a, t, p))
  {
    ReachableIsGood(w);
    assert GoodOwner(w, owner);
    var w' := Take(w, step);
    StepMovesAlone(w, step);
    forall q ensures !ListensOn(w', q, a) {
      ListenersAreBound(w, step, q, a);
    }
    FreeBaseCanBeServed(w', p, a, t);
  }

  /**
   A shutdown can always be completed and frees the base. It removes the descriptor if its
   reading and removing succeed, and else leaves it behind.
   */
  lemma ShutdownFreesBase(w: World, owner: Pid, readOk: bool, removeOk: bool)
    requires Reachable(w) && At(w, owner).Serving? && owner in w.accepting
    ensures var steps := [StopServing(owner), GuardReads(owner, readOk), GuardRemoves(owner, removeOk),
                          CloseListener(owner), Release(owner)];
            && IsRun(w, steps)
            && var w', own, base := After(w, steps), At(w, owner).own, w.home(owner);
               && At(w', owner) == Gone && Holder(w', base) == None
               && FileOf(w', base) == (if readOk && removeOk then None else Some(own))
               && w'.log == w.log + (if readOk && removeOk then [GuardRemoved(owner, own)] else [])
               && (owner in w'.faulty <==> owner in w.faulty || !readOk || !removeOk)
  {
    ReachableIsGood(w);
    assert GoodOwner(w, owner);
    GuardActs(w, owner, readOk, removeOk);
    var stop, read, remove := StopServing(owner), GuardReads(owner, readOk), GuardRemoves(owner, removeOk);
    var close, release := CloseListener(owner), Release(owner);
    LetGo(Take(Take(Take(w, stop), read), remove), owner);
    FiveSteps(w, stop, read, remove, close, release);
  }

  lemma GuardActs(w: World, owner: Pid, readOk: bool, removeOk: bool)
    requires GoodOwner(w, owner) && At(w, owner).Serving?
    ensures var w1, own, base := Take(w, StopServing(owner)), At(w, owner).own, w.home(owner);
      && Enabled(w1, GuardReads(owner, readOk))
      && Enabled(Take(w1, GuardReads(owner, readOk)), GuardRemoves(owner, removeOk))
      && var w3 := Take(Take(w1, GuardReads(owner, readOk)), GuardRemoves(owner, removeOk));
         && At(w3, owner) == Closing(own) && w3.accepting == w.accepting && w3.home == w.home && w3.lease == w.lease
         && FileOf(w3, base) == (if readOk && removeOk then None else Some(own))
         && w3.log == w.log + (if readOk && removeOk then [GuardRemoved(owner, own)] else [])
         && (owner in w3.faulty <==> owner in w.faulty || !readOk || !removeOk)
  {}

  lemma LetGo(w: World, owner: Pid)
    requires At(w, owner).Closing? && owner in w.accepting
    ensures Enabled(w, CloseListener(owner)) && Enabled(Take(w, CloseListener(owner)), Release(owner))
    ensures var w', base := Take(Take(w, CloseListener(owner)), Release(owner)), w.home(owner);
      && At(w', owner) == Gone && Holder(w', base) == (if Holder(w, base) == Some(owner) then None else Holder(w, base))
      && w'.files == w.files && w'.log == w.log && w'.faulty == w.faulty
  {}

  /** What an attached client asks for is processed by the publisher of its descriptor, under the lease. */
  lemma AttachedIsServed(w: World, client: Pid)
    requires Reachable(w) && At(w, client).Attached?
    ensures var step, owner, base := ServeRemote(client), At(w, client).target.publisher, w.home(client);
            && (Enabled(w, step) <==> Answers(At(w, owner)))
            && (Enabled(w, step) ==> Take(w, step) == w.(log := w.log + [Served(owner, base, Some(owner))]))
  {
    ReachableIsGood(w);
    AttachedToPublisher(w, client);
    assert GoodOwner(w, At(w, client).peer);
  }

  /** A serving owner also processes requests of its own, under the lease. */
  lemma OwnerIsServed(w: World, owner: Pid)
    requires Reachable(w) && At(w, owner).Serving?
    ensures var step := ServeLocal(owner);
            Enabled(w, step) && Take(w, step) == w.(log := w.log + [Served(owner, w.home(owner), Some(owner))])
  {
    ReachableIsGood(w);
    assert GoodOwner(w, owner);
  }

  lemma Cons(w: World, step: Step, rest: seq<Step>)
    ensures IsRun(w, [step] + rest) <==> Enabled(w, step) && IsRun(Take(w, step), rest)
    ensures IsRun(w, [step] + rest) ==> After(w, [step] + rest) == After(Take(w, step), rest)
  {
    assert ([step] + rest)[1..] == rest;
  }

  lemma ThreeSteps(w: World, a: Step, b: Step, c: Step)
    ensures IsRun(w, [a, b, c]) <==>
              Enabled(w, a) && Enabled(Take(w, a), b) && Enabled(Take(Take(w, a), b), c)
    ensures IsRun(w, [a, b, c]) ==> After(w, [a, b, c]) == Take(Take(Take(w, a), b), c)
  {
    assert [a, b, c] == [a] + [b, c] && [b, c] == [b] + [c] && [c] == [c] + [];
    Cons(w, a, [b, c]);
    if Enabled(w, a) {
      Cons(Take(w, a), b, [c]);
      if Enabled(Take(w, a), b) { Cons(Take(Take(w, a), b), c, []); }
    }
  }

  lemma FourSteps(w: World, a: Step, b: Step, c: Step, d: Step)
    ensures IsRun(w, [a, b, c, d]) <==>
              && Enabled(w, a) && Enabled(Take(w, a), b) && Enabled(Take(Take(w, a), b), c)
              && Enabled(Take(Take(Take(w, a), b), c), d)
    ensures IsRun(w, [a, b, c, d]) ==> After(w, [a, b, c, d]) == Take(Take(Take(Take(w, a), b), c), d)
  {
    assert [a, b, c, d] == [a] + [b, c, d];
    Cons(w, a, [b, c, d]);
    if Enabled(w, a) { ThreeSteps(Take(w, a), b, c, d); }
  }

  lemma FiveSteps(w: World, a: Step, b: Step, c: Step, d: Step, e: Step)
    ensures IsRun(w, [a, b, c, d, e]) <==>
              && Enabled(w, a) && Enabled(Take(w, a), b) && Enabled(Take(Take(w, a), b), c)
              && Enabled(Take(Take(Take(w, a), b), c), d) && Enabled(Take(Take(Take(Take(w, a), b), c), d), e)
    ensures IsRun(w, [a, b, c, d, e]) ==>
              After(w, [a, b, c, d, e]) == Take(Take(Take(Take(Take(w, a), b), c), d), e)
  {
    assert [a, b, c, d, e] == [a] + [b, c, d, e];
    Cons(w, a, [b, c, d, e]);
    if Enabled(w, a) { FourSteps(Take(w, a), b, c, d, e); }
  }
}
