/**
 The multi-base registry of the MCP server: which bases are known, which are connected, and
 which one is active. Its invariant survives every sequence of succeeding and failing calls.
 */
module Registry {
  import opened Results
  import Paths

  type Path = Paths.Path
  type Memory(!new)
  type Ref = string

  datatype Scope = Project | User

  function ScopeLabel(s: Scope): string {
    match s case Project => "project" case User => "user"
  }

  /** The file system and path helpers, fixed during a run. */
  datatype Files = Files(
    canon: Path -> Option<Path>,              // canonical_base_identity
    allowed: Path -> Option<Path>,            // validate_allowed_base_path
    scoped: (Scope, string) -> Option<Path>,  // scoped_base_path
    fileName: Path -> Option<string>,
    inferScope: Path -> string)

  /** A canonical root is its own canonical root. */
  ghost predicate Lawful(f: Files) {
    forall p :: f.canon(p).Some? ==> f.canon(f.canon(p).value) == f.canon(p)
  }

  /** On a fixed file tree `canonical_physical_path` is lawful. */
  lemma FileTreeIsLawful(t: Paths.Tree, cwd: seq<Paths.Name>, f: Files)
    requires Paths.WellFormed(t)
    requires forall p :: f.canon(p) == CanonicalBaseIdentity(t, cwd, p)
    ensures Lawful(f)
  {
    forall p | f.canon(p).Some? ensures f.canon(f.canon(p).value) == f.canon(p) {
      Paths.CanonicalPathIsStable(t, cwd, p, cwd);
    }
  }

  function CanonicalBaseIdentity(t: Paths.Tree, cwd: seq<Paths.Name>, p: Path): Option<Path> {
    match Paths.CanonicalPath(t, cwd, p)
    case Err(_) => None
    case Ok(names) => Some(Paths.Path(true, Paths.Parts(names)))
  }

  // ---------------------------------------------------------------------
  // Where a base may lie.
  // ---------------------------------------------------------------------

  function ParentOf(names: seq<Paths.Name>): Option<seq<Paths.Name>> {
    if names == [] then None else Some(names[..|names| - 1])
  }

  function Called(at: Option<seq<Paths.Name>>, name: Paths.Name): Option<seq<Paths.Name>> {
    if at.Some? && at.value != [] && at.value[|at.value| - 1] == name then at else None
  }

  /** The bases directory of the project that a candidate seems to belong to. */
  function ExplicitProjectRoot(candidate: seq<Paths.Name>): Option<seq<Paths.Name>> {
    var bases := Called(ParentOf(candidate), "bases");
    var dot := Called(if bases.Some? then ParentOf(bases.value) else None, ".memoryx");
    var root := if dot.Some? then ParentOf(dot.value) else None;
    if root.Some? then Some(root.value + [".memoryx", "bases"]) else None
  }

  /** `validate_allowed_base_path`, given the bases directories of the project and of the user. */
  function AllowedBasePath(t: Paths.Tree, cwd: seq<Paths.Name>, project: Path, user: Path, p: Path): Option<Path> {
    match Paths.CanonicalPath(t, cwd, p)
    case Err(_) => None
    case Ok(candidate) =>
      match Paths.CanonicalPath(t, cwd, project)
      case Err(_) => None
      case Ok(projectRoot) =>
        match Paths.CanonicalPath(t, cwd, user)
        case Err(_) => None
        case Ok(userRoot) =>
          var explicit := ExplicitProjectRoot(candidate);
          if projectRoot <= candidate || userRoot <= candidate || (explicit.Some? && explicit.value <= candidate) then
            Some(Paths.Path(true, Paths.Parts(candidate)))
          else None
  }

  /** Inside the project's or the user's bases directory, or a direct entry of any `.memoryx/bases`. */
  ghost predicate InStorage(names: seq<Paths.Name>, projectRoot: seq<Paths.Name>, userRoot: seq<Paths.Name>) {
    || projectRoot <= names || userRoot <= names
    || exists above, base :: names == above + [".memoryx", "bases", base]
  }

  lemma ExplicitRootMeans(names: seq<Paths.Name>)
    ensures (ExplicitProjectRoot(names).Some? && ExplicitProjectRoot(names).value <= names) <==>
            exists above, base :: names == above + [".memoryx", "bases", base]
  {
    var n := |names|;
    if n >= 3 && names[n - 2] == "bases" && names[n - 3] == ".memoryx" {
      var above, base := names[..n - 3], names[n - 1];
      assert names == above + [".memoryx", "bases", base];
      assert names[..n - 1][..n - 2][..n - 3] == above;
      assert ExplicitProjectRoot(names) == Some(above + [".memoryx", "bases"]);
      assert above + [".memoryx", "bases"] <= names;
    } else {
      forall above, base ensures names != above + [".memoryx", "bases", base] {}
    }
  }

  lemma PartsInjective(a: seq<Paths.Name>, b: seq<Paths.Name>)
    ensures Paths.Parts(a) == Paths.Parts(b) <==> a == b
  {
    if Paths.Parts(a) == Paths.Parts(b) {
      assert |a| == |Paths.Parts(a)| == |b|;
      forall i | 0 <= i < |a| ensures a[i] == b[i] {
        assert Paths.Parts(a)[i] == Paths.Normal(a[i]) && Paths.Parts(b)[i] == Paths.Normal(b[i]);
      }
    }
  }

  /**
   A path is accepted exactly if it and both storage directories resolve and its physical path
   lies in storage. The answer is that physical path: it has no symbolic link in it, and
   resolving it again, from any directory, gives itself.
   */
  lemma AllowedMeans(t: Paths.Tree, cwd: seq<Paths.Name>, project: Path, user: Path, p: Path,
      names: seq<Paths.Name>, elsewhere: seq<Paths.Name>)
    requires Paths.WellFormed(t)
    ensures var accepted := AllowedBasePath(t, cwd, project, user, p) == Some(Paths.Path(true, Paths.Parts(names)));
            var projectRoot, userRoot := Paths.CanonicalPath(t, cwd, project), Paths.CanonicalPath(t, cwd, user);
            && (accepted <==>
                  && Paths.CanonicalPath(t, cwd, p) == Paths.Ok(names) && projectRoot.Ok? && userRoot.Ok?
                  && InStorage(names, projectRoot.names, userRoot.names))
            && (accepted ==>
                  && Paths.CanonicalPath(t, elsewhere, Paths.Path(true, Paths.Parts(names))) == Paths.Ok(names)
                  && forall k :: 0 <= k <= |names| && names[..k] in t.nodes ==> !t.nodes[names[..k]].Link?)
  {
    match Paths.CanonicalPath(t, cwd, p)
    case Err(_) =>
    case Ok(candidate) =>
      ExplicitRootMeans(candidate);
      PartsInjective(candidate, names);
      if candidate == names {
        Paths.CanonicalPathIsStable(t, cwd, p, elsewhere);
        forall k | 0 <= k <= |names| && names[..k] in t.nodes ensures !t.nodes[names[..k]].Link? {
          Paths.ResultHasNoLinks(t, Paths.Normalized(Paths.Absolute(cwd, p)).names, k);
        }
      }
  }

  datatype BaseInfo = BaseInfo(ref: Ref, scope: string, name: string, path: Path, connected: bool, active: bool)

  datatype Bases = Bases(active: Ref, infos: map<Ref, BaseInfo>, stores: map<Ref, Memory>)

  datatype Failure = UnknownRef | NotAllowed | CannotResolve | RootTaken | CannotRebind | CannotOpen | NoRegistryEntry

  /** A call ends with the base it selected, or fails. */
  datatype Outcome = Done(bases: Bases, ref: Ref) | Failed(why: Failure)

  // ---------------------------------------------------------------------
  // What the calls do.
  // ---------------------------------------------------------------------

  /** Another connected base has this physical root, or one that cannot be resolved any more. */
  predicate Taken(f: Files, b: Bases, root: Path, except: Ref) {
    exists q :: q in b.infos && q in b.stores && q != except && (f.canon(b.infos[q].path) in {None, Some(root)})
  }

  /** `store_for_ref`. `opening` is what opening the store would give. */
  function Selected(f: Files, b: Bases, ref: Ref, opening: Option<Memory>): Outcome {
    if ref in b.stores then Done(b, ref)
    else if ref !in b.infos then Failed(UnknownRef)
    else
      match f.canon(b.infos[ref].path)
      case None => Failed(CannotResolve)
      case Some(root) =>
        if Taken(f, b, root, ref) then Failed(RootTaken)
        else if opening.None? then Failed(CannotOpen)
        else
          var info := b.infos[ref].(connected := true, path := root);
          Done(b.(infos := b.infos[ref := info], stores := b.stores[ref := opening.value]), ref)
  }

  datatype ConnectArgs = ConnectArgs(ref: Option<Ref>, scope: Option<Scope>, name: Option<string>, path: Option<Path>)

  function RequestedPath(f: Files, c: ConnectArgs): Option<Path> {
    if c.path.Some? then f.allowed(c.path.value)
    else
      var scoped := f.scoped(if c.scope.Some? then c.scope.value else Project,
                             if c.name.Some? then c.name.value else "default");
      if scoped.None? then None else f.allowed(scoped.value)
  }

  function RequestedInfo(f: Files, c: ConnectArgs, path: Path): BaseInfo {
    var name := if c.name.Some? then c.name.value
                else if f.fileName(path).Some? then f.fileName(path).value else "base";
    var scope := if c.scope.Some? then ScopeLabel(c.scope.value) else f.inferScope(path);
    BaseInfo(if c.ref.Some? then c.ref.value else scope + ":" + name, scope, name, path, false, false)
  }

  /** `connect_base`. */
  function Connected(f: Files, b: Bases, c: ConnectArgs, opening: Option<Memory>): Outcome {
    match RequestedPath(f, c)
    case None => Failed(NotAllowed)
    case Some(path) =>
      var wanted := RequestedInfo(f, c, path);
      match f.canon(path)
      case None => Failed(CannotResolve)
      case Some(root) =>
        if wanted.ref in b.stores then Reconnected(f, b, wanted.ref, root)
        else if Taken(f, b, root, wanted.ref) then Failed(RootTaken)
        else if opening.None? then Failed(CannotOpen)
        else
          var info := wanted.(path := root, connected := true, active := wanted.ref == b.active);
          Done(Refreshed(Added(b, info, opening.value)), wanted.ref)
  }

  function Reconnected(f: Files, b: Bases, ref: Ref, root: Path): Outcome {
    if ref !in b.infos then Failed(NoRegistryEntry)
    else
      match f.canon(b.infos[ref].path)
      case None => Failed(CannotResolve)
      case Some(existing) => if existing == root then Done(b, ref) else Failed(CannotRebind)
  }

  /** `switch_base`. */
  function Switched(f: Files, b: Bases, ref: Ref, opening: Option<Memory>): Outcome {
    match Selected(f, b, ref, opening)
    case Failed(why) => Failed(why)
    case Done(b', _) => Done(Refreshed(b'.(active := ref)), ref)
  }

  /** A directory found below a bases root. */
  datatype Found = Found(scope: Scope, name: string, path: Path)

  function FoundInfo(x: Found): BaseInfo {
    BaseInfo(ScopeLabel(x.scope) + ":" + x.name, ScopeLabel(x.scope), x.name, x.path, false, false)
  }

  function Discovered(infos: map<Ref, BaseInfo>, found: seq<Found>): map<Ref, BaseInfo> {
    if found == [] then infos
    else
      var before, x := Discovered(infos, found[..|found| - 1]), FoundInfo(found[|found| - 1]);
      if x.ref in before then before else before[x.ref := x]
  }

  /** `list_bases`. */
  function Listed(b: Bases, found: seq<Found>): Bases {
    Refreshed(b.(infos := Discovered(b.infos, found)))
  }

  /** `refresh_active_markers`. */
  function Refreshed(b: Bases): Bases {
    b.(infos := map r | r in b.infos :: Marked(b, b.infos[r]))
  }

  function Marked(b: Bases, info: BaseInfo): BaseInfo {
    info.(connected := info.connected || info.ref in b.stores, active := info.ref == b.active)
  }

  /** A tool call runs on the selected base, or on the active one. */
  function Routed(f: Files, b: Bases, ref: Option<Ref>, opening: Option<Memory>, handler: Memory -> Memory): Outcome {
    var chosen := if ref.Some? then ref.value else b.active;
    match Selected(f, b, chosen, opening)
    case Failed(why) => Failed(why)
    case Done(b', r) =>
      if r in b'.stores then Done(b'.(stores := b'.stores[r := handler(b'.stores[r])]), r) else Failed(UnknownRef)
  }

  datatype Call =
    | ConnectBase(args: ConnectArgs, opening: Option<Memory>)
    | SwitchBase(ref: Ref, opening: Option<Memory>)
    | ListBases(found: seq<Found>)
    | RoutedCall(base: Option<Ref>, opening: Option<Memory>, handler: Memory -> Memory)

  function Perform(f: Files, b: Bases, call: Call): Outcome {
    match call
    case ConnectBase(args, opening) => Connected(f, b, args, opening)
    case SwitchBase(ref, opening) => Switched(f, b, ref, opening)
    case ListBases(found) => Done(Listed(b, found), b.active)
    case RoutedCall(ref, opening, handler) => Routed(f, b, ref, opening, handler)
  }

  /** The registry after a call; a failed call leaves the old one. */
  function Next(f: Files, b: Bases, call: Call): Bases {
    match Perform(f, b, call)
    case Done(b', _) => b'
    case Failed(_) => b
  }

  function Run(f: Files, b: Bases, calls: seq<Call>): Bases
    decreases |calls|
  {
    if calls == [] then b else Run(f, Next(f, b, calls[0]), calls[1..])
  }

  /** The registry the server starts with: its own base, opened at a canonical root. */
  function Start(f: Files, root: Path, store: Memory): Bases {
    var name := if f.fileName(root).Some? then f.fileName(root).value else "active";
    Bases("active", map["active" := BaseInfo("active", f.inferScope(root), name, root, true, true)],
          map["active" := store])
  }

  // ---------------------------------------------------------------------
  // The invariant.
  // ---------------------------------------------------------------------

  predicate GoodEntry(f: Files, b: Bases, r: Ref)
    requires r in b.infos
  {
    var info := b.infos[r];
    && info.ref == r
    && (info.connected <==> r in b.stores)
    && (info.active <==> r == b.active)
    && (r in b.stores ==> f.canon(info.path) == Some(info.path))
  }

  ghost predicate Inv(f: Files, b: Bases) {
    && b.active in b.stores
    && (forall r :: r in b.stores ==> r in b.infos)
    && (forall r :: r in b.infos ==> GoodEntry(f, b, r))
    && (forall r, q :: r in b.stores && q in b.stores && r in b.infos && q in b.infos && r != q ==>
          b.infos[r].path != b.infos[q].path)
  }

  lemma StartIsGood(f: Files, root: Path, store: Memory)
    requires f.canon(root) == Some(root)
    ensures Inv(f, Start(f, root, store))
  {}

  // ---------------------------------------------------------------------
  // Every call keeps it.
  // ---------------------------------------------------------------------

  function Added(b: Bases, info: BaseInfo, store: Memory): Bases {
    b.(infos := b.infos[info.ref := info], stores := b.stores[info.ref := store])
  }

  /** Connecting one more root that is not taken. */
  lemma AddedKeepsInv(f: Files, b: Bases, info: BaseInfo, store: Memory)
    requires Inv(f, b) && info.ref !in b.stores && info.connected && !info.active
    requires f.canon(info.path) == Some(info.path) && !Taken(f, b, info.path, info.ref)
    ensures Inv(f, Added(b, info, store))
  {
    var b' := Added(b, info, store);
    forall r | r in b'.infos ensures GoodEntry(f, b', r) {
      assert r != info.ref ==> GoodEntry(f, b, r);
    }
    forall r | r in b.stores ensures b.infos[r].path != info.path {
      assert GoodEntry(f, b, r);
    }
  }

  /** In a good registry the markers are up to date. */
  lemma RefreshedIsIdentity(f: Files, b: Bases)
    requires Inv(f, b)
    ensures Refreshed(b) == b
  {
    forall r | r in b.infos ensures Marked(b, b.infos[r]) == b.infos[r] {
      assert GoodEntry(f, b, r);
    }
    assert Refreshed(b).infos == b.infos;
  }

  /** What a successful `store_for_ref` returns. */
  ghost predicate Connects(b: Bases, b': Bases, ref: Ref, opening: Option<Memory>) {
    && ref in b'.stores && b'.active == b.active
    && (b' == b || (ref !in b.stores && opening.Some? &&
                    exists info: BaseInfo :: info.ref == ref && b' == Added(b, info, opening.value)))
  }

  lemma SelectedKeepsInv(f: Files, b: Bases, ref: Ref, opening: Option<Memory>)
    requires Lawful(f) && Inv(f, b)
    ensures match Selected(f, b, ref, opening)
            case Failed(_) => true
            case Done(b', r) => Inv(f, b') && r == ref && Connects(b, b', ref, opening)
  {
    if ref !in b.stores && ref in b.infos && Selected(f, b, ref, opening).Done? {
      assert GoodEntry(f, b, ref);
      var root := f.canon(b.infos[ref].path).value;
      var info := b.infos[ref].(connected := true, path := root);
      AddedKeepsInv(f, b, info, opening.value);
      assert Selected(f, b, ref, opening).bases == Added(b, info, opening.value);
    }
  }

  lemma ConnectedKeepsInv(f: Files, b: Bases, c: ConnectArgs, opening: Option<Memory>)
    requires Lawful(f) && Inv(f, b)
    ensures match Connected(f, b, c, opening)
            case Failed(_) => true
            case Done(b', ref) => Inv(f, b') && Connects(b, b', ref, opening)
  {
    if Connected(f, b, c, opening).Done? {
      var path := RequestedPath(f, c).value;
      var wanted, root := RequestedInfo(f, c, path), f.canon(path).value;
      if wanted.ref !in b.stores {
        var info := wanted.(path := root, connected := true, active := wanted.ref == b.active);
        AddedKeepsInv(f, b, info, opening.value);
        RefreshedIsIdentity(f, Added(b, info, opening.value));
      }
    }
  }

  lemma ActivatedKeepsInv(f: Files, b: Bases, ref: Ref)
    requires Inv(f, b) && ref in b.stores
    ensures Inv(f, Refreshed(b.(active := ref)))
  {
    var b' := Refreshed(b.(active := ref));
    forall r | r in b.infos ensures GoodEntry(f, b', r) && b'.infos[r] == b.infos[r].(active := r == ref) {
      assert GoodEntry(f, b, r);
    }
  }

  lemma {:induction false} DiscoveredAdds(f: Files, b: Bases, found: seq<Found>)
    requires Inv(f, b)
    ensures var infos := Discovered(b.infos, found);
            && Inv(f, b.(infos := infos))
            && (forall r :: r in b.infos ==> r in infos && infos[r] == b.infos[r])
    decreases |found|
  {
    if found == [] {
    } else {
      var init, x := found[..|found| - 1], FoundInfo(found[|found| - 1]);
      DiscoveredAdds(f, b, init);
      var before := b.(infos := Discovered(b.infos, init));
      if x.ref !in before.infos { UnconnectedKeepsInv(f, before, x); }
    }
  }

  lemma UnconnectedKeepsInv(f: Files, b: Bases, info: BaseInfo)
    requires Inv(f, b) && info.ref !in b.infos && !info.connected && !info.active
    ensures Inv(f, b.(infos := b.infos[info.ref := info]))
  {
    var b' := b.(infos := b.infos[info.ref := info]);
    forall r | r in b'.infos ensures GoodEntry(f, b', r) {
      assert r != info.ref ==> GoodEntry(f, b, r);
    }
  }

  lemma HandledKeepsInv(f: Files, b: Bases, ref: Ref, store: Memory)
    requires Inv(f, b) && ref in b.stores
    ensures Inv(f, b.(stores := b.stores[ref := store]))
  {
    var b' := b.(stores := b.stores[ref := store]);
    forall r | r in b'.infos ensures GoodEntry(f, b', r) {
      assert GoodEntry(f, b, r);
    }
  }

  lemma CallKeepsInv(f: Files, b: Bases, call: Call)
    requires Lawful(f) && Inv(f, b)
    ensures Inv(f, Next(f, b, call))
  {
    match call {
      case ConnectBase(args, opening) => ConnectedKeepsInv(f, b, args, opening);
      case SwitchBase(ref, opening) =>
        SelectedKeepsInv(f, b, ref, opening);
        var s := Selected(f, b, ref, opening);
        if s.Done? { ActivatedKeepsInv(f, s.bases, ref); }
      case ListBases(found) =>
        DiscoveredAdds(f, b, found);
        RefreshedIsIdentity(f, b.(infos := Discovered(b.infos, found)));
      case RoutedCall(ref, opening, handler) =>
        var chosen := if ref.Some? then ref.value else b.active;
        SelectedKeepsInv(f, b, chosen, opening);
        var s := Selected(f, b, chosen, opening);
        if s.Done? { HandledKeepsInv(f, s.bases, s.ref, handler(s.bases.stores[s.ref])); }
    }
  }

  /**
   Over every run: the active base is connected and alone marked active, an entry is marked
   connected exactly if its store is open, and no two open stores share a physical root.
   */
  lemma {:induction false} EveryRunKeepsInv(f: Files, root: Path, store: Memory, calls: seq<Call>)
    requires Lawful(f) && f.canon(root) == Some(root)
    ensures Inv(f, Run(f, Start(f, root, store), calls))
  {
    StartIsGood(f, root, store);
    RunKeepsInv(f, Start(f, root, store), calls);
  }

  lemma {:induction false} RunKeepsInv(f: Files, b: Bases, calls: seq<Call>)
    requires Lawful(f) && Inv(f, b)
    ensures Inv(f, Run(f, b, calls))
    decreases |calls|
  {
    if calls == [] {
    } else {
      CallKeepsInv(f, b, calls[0]);
      RunKeepsInv(f, Next(f, b, calls[0]), calls[1..]);
    }
  }

  // ---------------------------------------------------------------------
  // Consequences of the invariant: what a call may change, and when it succeeds.
  // ---------------------------------------------------------------------

  /** Every connected base stays connected, under the same root, name and scope. */
  ghost predicate KeepsConnected(b: Bases, b': Bases) {
    forall r :: r in b.stores && r in b.infos ==>
      r in b'.stores && r in b'.infos && b'.infos[r].(active := b.infos[r].active) == b.infos[r]
  }

  lemma ActivatedKeepsConnected(f: Files, b: Bases, ref: Ref)
    requires Inv(f, b)
    ensures KeepsConnected(b, Refreshed(b.(active := ref)))
  {
    forall r | r in b.infos ensures Marked(b.(active := ref), b.infos[r]).(active := b.infos[r].active) == b.infos[r] {
      assert GoodEntry(f, b, r);
    }
  }

  lemma ConnectsKeepsConnected(b: Bases, b': Bases, ref: Ref, opening: Option<Memory>)
    requires Connects(b, b', ref, opening)
    ensures KeepsConnected(b, b')
  {}

  lemma KeepsConnectedTwice(b: Bases, b': Bases, b'': Bases)
    requires KeepsConnected(b, b') && KeepsConnected(b', b'')
    ensures KeepsConnected(b, b'')
  {
    forall r | r in b.stores && r in b.infos
      ensures r in b''.stores && r in b''.infos && b''.infos[r].(active := b.infos[r].active) == b.infos[r] {
      assert b'.infos[r].(active := b.infos[r].active) == b.infos[r];
      assert b''.infos[r].(active := b'.infos[r].active) == b'.infos[r];
    }
  }

  lemma SwitchKeepsConnected(f: Files, b: Bases, ref: Ref, opening: Option<Memory>)
    requires Lawful(f) && Inv(f, b) && Switched(f, b, ref, opening).Done?
    ensures KeepsConnected(b, Switched(f, b, ref, opening).bases)
  {
    SelectedKeepsInv(f, b, ref, opening);
    var b' := Selected(f, b, ref, opening).bases;
    ConnectsKeepsConnected(b, b', ref, opening);
    ActivatedKeepsConnected(f, b', ref);
    KeepsConnectedTwice(b, b', Refreshed(b'.(active := ref)));
  }

  lemma RoutedKeepsConnected(f: Files, b: Bases, ref: Option<Ref>, opening: Option<Memory>, handler: Memory -> Memory)
    requires Lawful(f) && Inv(f, b) && Routed(f, b, ref, opening, handler).Done?
    ensures KeepsConnected(b, Routed(f, b, ref, opening, handler).bases)
  {
    var chosen := if ref.Some? then ref.value else b.active;
    SelectedKeepsInv(f, b, chosen, opening);
    ConnectsKeepsConnected(b, Selected(f, b, chosen, opening).bases, chosen, opening);
  }

  lemma CallKeepsConnected(f: Files, b: Bases, call: Call)
    requires Lawful(f) && Inv(f, b)
    ensures KeepsConnected(b, Next(f, b, call))
  {
    match call {
      case ConnectBase(args, opening) =>
        ConnectedKeepsInv(f, b, args, opening);
        var c := Connected(f, b, args, opening);
        if c.Done? { ConnectsKeepsConnected(b, c.bases, c.ref, opening); }
      case SwitchBase(ref, opening) =>
        if Switched(f, b, ref, opening).Done? { SwitchKeepsConnected(f, b, ref, opening); }
      case ListBases(found) =>
        DiscoveredAdds(f, b, found);
        RefreshedIsIdentity(f, b.(infos := Discovered(b.infos, found)));
      case RoutedCall(ref, opening, handler) =>
        if Routed(f, b, ref, opening, handler).Done? { RoutedKeepsConnected(f, b, ref, opening, handler); }
    }
  }

  /** Over any run a connected base is never disconnected and never changes its root. */
  lemma {:induction false} RunKeepsConnected(f: Files, b: Bases, calls: seq<Call>)
    requires Lawful(f) && Inv(f, b)
    ensures KeepsConnected(b, Run(f, b, calls))
    decreases |calls|
  {
    if calls == [] {
    } else {
      CallKeepsInv(f, b, calls[0]);
      CallKeepsConnected(f, b, calls[0]);
      RunKeepsConnected(f, Next(f, b, calls[0]), calls[1..]);
      KeepsConnectedTwice(b, Next(f, b, calls[0]), Run(f, b, calls));
    }
  }

  /** The store a selection works on: the open one, or else the one just opened. */
  function StoreOf(b: Bases, ref: Ref, opening: Option<Memory>): Option<Memory> {
    if ref in b.stores then Some(b.stores[ref]) else opening
  }

  /** A routed call changes the selected store and nothing else, besides connecting it when it was not. */
  lemma RoutedTouchesOnlyTheSelected(f: Files, b: Bases, ref: Option<Ref>, opening: Option<Memory>,
      handler: Memory -> Memory)
    requires Lawful(f) && Inv(f, b) && Routed(f, b, ref, opening, handler).Done?
    ensures var Done(b', chosen) := Routed(f, b, ref, opening, handler);
            && chosen == (if ref.Some? then ref.value else b.active)
            && StoreOf(b, chosen, opening).Some?
            && b'.stores == b.stores[chosen := handler(StoreOf(b, chosen, opening).value)]
            && b'.active == b.active
            && (forall r :: r in b.infos && r != chosen ==> r in b'.infos && b'.infos[r] == b.infos[r])
            && (chosen in b.stores ==> b'.infos == b.infos)
            && b'.infos.Keys == b.infos.Keys
  {
    SelectedKeepsInv(f, b, if ref.Some? then ref.value else b.active, opening);
  }

  /** The other calls leave every open store as it is; listing and failing open none. */
  lemma OtherCallsTouchNoStore(f: Files, b: Bases, call: Call)
    requires Lawful(f) && Inv(f, b) && !call.RoutedCall?
    ensures var b', outcome := Next(f, b, call), Perform(f, b, call);
            && (forall r :: r in b.stores ==> r in b'.stores && b'.stores[r] == b.stores[r])
            && (forall r :: r in b'.stores && r !in b.stores ==>
                  outcome.Done? && r == outcome.ref && !call.ListBases? && Some(b'.stores[r]) == call.opening)
            && b'.active == (if call.SwitchBase? && outcome.Done? then call.ref else b.active)
  {
    match call {
      case ConnectBase(args, opening) => ConnectedKeepsInv(f, b, args, opening);
      case SwitchBase(ref, opening) => SelectedKeepsInv(f, b, ref, opening);
      case ListBases(_) =>
    }
  }

  /** Is a connected base other than `except` at this root? */
  predicate RootInUse(b: Bases, root: Path, except: Ref) {
    exists q :: q in b.stores && q in b.infos && q != except && b.infos[q].path == root
  }

  lemma TakenMeansInUse(f: Files, b: Bases, root: Path, except: Ref)
    requires Inv(f, b)
    ensures Taken(f, b, root, except) <==> RootInUse(b, root, except)
  {
    forall q | q in b.stores ensures f.canon(b.infos[q].path) == Some(b.infos[q].path) {
      assert GoodEntry(f, b, q);
    }
    if RootInUse(b, root, except) {
      var q :| q in b.stores && q in b.infos && q != except && b.infos[q].path == root;
      assert f.canon(b.infos[q].path) in {None, Some(root)};
    }
  }

  /**
   `connect_base` succeeds exactly if the path is allowed and resolves, and either the
   reference is already connected to that root, or it is not connected, no other reference has
   the root, and the store opens. The failure "no registry entry" never happens.
   */
  lemma ConnectSucceedsIff(f: Files, b: Bases, c: ConnectArgs, opening: Option<Memory>)
    requires Lawful(f) && Inv(f, b)
    ensures var path := RequestedPath(f, c);
      Connected(f, b, c, opening).Done? <==>
        && path.Some? && f.canon(path.value).Some?
        && var ref, root := RequestedInfo(f, c, path.value).ref, f.canon(path.value).value;
           if ref in b.stores then ref in b.infos && b.infos[ref].path == root
           else opening.Some? && !RootInUse(b, root, ref)
    ensures Connected(f, b, c, opening) != Failed(NoRegistryEntry)
    ensures Connected(f, b, c, opening).Done? ==>
      var Done(b', ref) := Connected(f, b, c, opening);
      && ref in b'.infos && b'.infos[ref].path == f.canon(RequestedPath(f, c).value).value
      && (ref in b.stores ==> b' == b)
  {
    var path := RequestedPath(f, c);
    if path.Some? && f.canon(path.value).Some? {
      var ref, root := RequestedInfo(f, c, path.value).ref, f.canon(path.value).value;
      TakenMeansInUse(f, b, root, ref);
      if ref in b.stores { assert GoodEntry(f, b, ref); }
      ConnectedKeepsInv(f, b, c, opening);
    }
  }

  /** The path that a call asks for: the given one, or that of a name in a scope. */
  predicate Asks(f: Files, c: ConnectArgs, asked: Option<Path>) {
    && (c.path.Some? ==> asked == c.path)
    && (c.path.None? && c.scope.Some? && c.name.Some? ==> asked == f.scoped(c.scope.value, c.name.value))
    && (c.path.None? && c.scope.Some? && c.name.None? ==> asked == f.scoped(c.scope.value, "default"))
    && (c.path.None? && c.scope.None? && c.name.Some? ==> asked == f.scoped(Project, c.name.value))
    && (c.path.None? && c.scope.None? && c.name.None? ==> asked == f.scoped(Project, "default"))
  }

  /** How the base is called: what is given stands, the rest comes from the path. */
  predicate Identifies(f: Files, c: ConnectArgs, path: Path, ref: Ref, scope: string, name: string) {
    && (c.name.Some? ==> name == c.name.value)
    && (c.name.None? && f.fileName(path).Some? ==> name == f.fileName(path).value)
    && (c.name.None? && f.fileName(path).None? ==> name == "base")
    && (c.scope == Some(Project) ==> scope == "project")
    && (c.scope == Some(User) ==> scope == "user")
    && (c.scope == None ==> scope == f.inferScope(path))
    && (c.ref.Some? ==> ref == c.ref.value)
    && (c.ref.None? ==> ref == scope + ":" + name)
  }

  /** Nothing is opened without the allow-list check: a refusal comes exactly when it fails. */
  lemma OnlyAllowedPathsAreOpened(f: Files, b: Bases, c: ConnectArgs, opening: Option<Memory>, asked: Option<Path>)
    requires Asks(f, c, asked)
    ensures Connected(f, b, c, opening) == Failed(NotAllowed) <==> asked.None? || f.allowed(asked.value).None?
    ensures Connected(f, b, c, opening).Done? ==>
      var Done(b', ref) := Connected(f, b, c, opening);
      asked.Some? && f.allowed(asked.value).Some? &&
      var root := f.canon(f.allowed(asked.value).value);
      && root.Some? && (ref !in b.stores ==> ref in b'.infos && b'.infos[ref].path == root.value)
      && (ref in b.stores ==> b' == b && ref in b.infos && f.canon(b.infos[ref].path) == root)
  {}

  lemma EntryIsAllowed(f: Files, b: Bases, c: ConnectArgs, opening: Option<Memory>)
    requires Lawful(f) && Inv(f, b)
    ensures forall asked :: Asks(f, c, asked) ==>
      var r := Connected(f, b, c, opening);
      && (r == Failed(NotAllowed) <==> asked.None? || f.allowed(asked.value).None?)
      && (r.Done? ==>
            asked.Some? && f.allowed(asked.value).Some? && r.ref in r.bases.infos &&
            f.canon(f.allowed(asked.value).value) == Some(r.bases.infos[r.ref].path))
  {
    forall asked | Asks(f, c, asked)
      ensures Connected(f, b, c, opening) == Failed(NotAllowed) <==> asked.None? || f.allowed(asked.value).None?
      ensures Connected(f, b, c, opening).Done? ==>
        var Done(b', ref) := Connected(f, b, c, opening);
        asked.Some? && f.allowed(asked.value).Some? && ref in b'.infos &&
        f.canon(f.allowed(asked.value).value) == Some(b'.infos[ref].path) {
      OnlyAllowedPathsAreOpened(f, b, c, opening, asked);
      var r := Connected(f, b, c, opening);
      if r.Done? && r.ref in b.stores { assert GoodEntry(f, b, r.ref); }
    }
  }

  /**
   The answer to a call whose path is allowed, case by case: which root, reference, name and
   scope the new entry gets, and when each failure comes.
   */
  lemma ConnectMeans(f: Files, b: Bases, c: ConnectArgs, opening: Option<Memory>, asked: Path, ref: Ref,
      scope: string, name: string)
    requires Lawful(f) && Inv(f, b)
    requires Asks(f, c, Some(asked)) && f.allowed(asked).Some?
    requires Identifies(f, c, f.allowed(asked).value, ref, scope, name)
    ensures var r, root := Connected(f, b, c, opening), f.canon(f.allowed(asked).value);
      && (root == None ==> r == Failed(CannotResolve))
      && (root.Some? && ref in b.stores ==>
            r == if b.infos[ref].path == root.value then Done(b, ref) else Failed(CannotRebind))
      && (root.Some? && ref !in b.stores && RootInUse(b, root.value, ref) ==> r == Failed(RootTaken))
      && (root.Some? && ref !in b.stores && !RootInUse(b, root.value, ref) && opening == None ==>
            r == Failed(CannotOpen))
      && (root.Some? && ref !in b.stores && !RootInUse(b, root.value, ref) && opening.Some? ==>
            var info := BaseInfo(ref, scope, name, root.value, true, false);
            r == Done(Bases(b.active, b.infos[ref := info], b.stores[ref := opening.value]), ref))
  {
    var path := f.allowed(asked).value;
    AsksRequested(f, c, asked);
    IdentifiesRequested(f, c, path, ref, scope, name);
    if f.canon(path).Some? {
      var root := f.canon(path).value;
      TakenMeansInUse(f, b, root, ref);
      if ref in b.stores {
        assert GoodEntry(f, b, ref);
      } else if !RootInUse(b, root, ref) && opening.Some? {
        AddedIsRefreshed(f, b, BaseInfo(ref, scope, name, root, true, false), opening.value);
      }
    }
  }

  lemma AsksRequested(f: Files, c: ConnectArgs, asked: Path)
    requires Asks(f, c, Some(asked))
    ensures RequestedPath(f, c) == f.allowed(asked)
  {}

  lemma IdentifiesRequested(f: Files, c: ConnectArgs, path: Path, ref: Ref, scope: string, name: string)
    requires Identifies(f, c, path, ref, scope, name)
    ensures RequestedInfo(f, c, path) == BaseInfo(ref, scope, name, path, false, false)
  {}

  lemma AddedIsRefreshed(f: Files, b: Bases, info: BaseInfo, store: Memory)
    requires Inv(f, b) && info.ref !in b.stores && info.connected && !info.active
    requires f.canon(info.path) == Some(info.path) && !Taken(f, b, info.path, info.ref)
    ensures Refreshed(Added(b, info, store)) == Added(b, info, store) && info.ref != b.active
  {
    AddedKeepsInv(f, b, info, store);
    RefreshedIsIdentity(f, Added(b, info, store));
  }

  /** The same for `store_for_ref`, and so for switching and routing. */
  lemma SelectSucceedsIff(f: Files, b: Bases, ref: Ref, opening: Option<Memory>)
    requires Inv(f, b)
    ensures Selected(f, b, ref, opening).Done? <==>
      || ref in b.stores
      || (ref in b.infos && opening.Some? && f.canon(b.infos[ref].path).Some?
          && !RootInUse(b, f.canon(b.infos[ref].path).value, ref))
  {
    if ref in b.infos && f.canon(b.infos[ref].path).Some? {
      TakenMeansInUse(f, b, f.canon(b.infos[ref].path).value, ref);
    }
  }

  /** The answer of `store_for_ref`, case by case. */
  lemma SelectMeans(f: Files, b: Bases, ref: Ref, opening: Option<Memory>)
    requires Inv(f, b)
    ensures var r := Selected(f, b, ref, opening);
      && (ref in b.stores ==> r == Done(b, ref))
      && (ref !in b.stores && ref !in b.infos ==> r == Failed(UnknownRef))
      && (ref !in b.stores && ref in b.infos ==>
            var old_ := b.infos[ref];
            var root := f.canon(old_.path);
            && (root == None ==> r == Failed(CannotResolve))
            && (root.Some? && RootInUse(b, root.value, ref) ==> r == Failed(RootTaken))
            && (root.Some? && !RootInUse(b, root.value, ref) && opening == None ==> r == Failed(CannotOpen))
            && (root.Some? && !RootInUse(b, root.value, ref) && opening.Some? ==>
                  var info := BaseInfo(ref, old_.scope, old_.name, root.value, true, false);
                  r == Done(Bases(b.active, b.infos[ref := info], b.stores[ref := opening.value]), ref)))
  {
    if ref !in b.stores && ref in b.infos {
      assert GoodEntry(f, b, ref);
      var root := f.canon(b.infos[ref].path);
      if root.Some? { TakenMeansInUse(f, b, root.value, ref); }
    }
  }

  /** Switching fails as selecting does; else it moves the active mark to the selected base, and nothing more. */
  lemma SwitchMeans(f: Files, b: Bases, ref: Ref, opening: Option<Memory>)
    requires Lawful(f) && Inv(f, b)
    ensures var r, selected := Switched(f, b, ref, opening), Selected(f, b, ref, opening);
      && (selected.Failed? ==> r == selected)
      && (selected.Done? ==>
            && r.Done? && r.ref == ref && r.bases.active == ref && r.bases.stores == selected.bases.stores
            && r.bases.infos.Keys == selected.bases.infos.Keys
            && forall q :: q in r.bases.infos ==>
                 r.bases.infos[q] == selected.bases.infos[q].(active := q == ref))
  {
    SelectedKeepsInv(f, b, ref, opening);
    var selected := Selected(f, b, ref, opening);
    if selected.Done? {
      forall q | q in selected.bases.infos ensures GoodEntry(f, selected.bases, q) {}
    }
  }

  /** The entry that a found directory gets. */
  predicate EntryOf(x: Found, info: BaseInfo) {
    && info.scope == (if x.scope == User then "user" else "project") && info.name == x.name && info.path == x.path
    && info.ref == (info.scope + ":") + info.name && !info.connected && !info.active
  }

  /** The first directory that was found with this reference. */
  predicate FoundFirst(found: seq<Found>, i: int, ref: Ref) {
    && 0 <= i < |found| && FoundInfo(found[i]).ref == ref
    && forall k :: 0 <= k < i ==> FoundInfo(found[k]).ref != ref
  }

  lemma FoundInfoIsEntry(x: Found)
    ensures EntryOf(x, FoundInfo(x))
    ensures forall info :: EntryOf(x, info) ==> info == FoundInfo(x)
  {}

  lemma FirstOfInit(found: seq<Found>, i: int, ref: Ref)
    requires found != [] && FoundFirst(found[..|found| - 1], i, ref)
    ensures FoundFirst(found, i, ref) && found[i] == found[..|found| - 1][i]
  {
    forall k | 0 <= k < i ensures FoundInfo(found[k]).ref != ref {
      assert found[k] == found[..|found| - 1][k];
    }
  }

  ghost predicate NeverFound(found: seq<Found>, ref: Ref) {
    forall k :: 0 <= k < |found| ==> FoundInfo(found[k]).ref != ref
  }

  lemma LastIsFirst(found: seq<Found>, ref: Ref)
    requires found != [] && NeverFound(found[..|found| - 1], ref)
    ensures var n := |found| - 1;
            if FoundInfo(found[n]).ref == ref then FoundFirst(found, n, ref) else NeverFound(found, ref)
  {
    var init := found[..|found| - 1];
    forall k | 0 <= k < |init| ensures FoundInfo(found[k]).ref != ref {
      assert found[k] == init[k];
    }
  }

  ghost predicate DiscoveredRight(infos: map<Ref, BaseInfo>, found: seq<Found>, all: map<Ref, BaseInfo>, ref: Ref) {
    && (ref in infos ==> ref in all && all[ref] == infos[ref])
    && (ref !in infos && ref in all ==> exists i :: FoundFirst(found, i, ref) && EntryOf(found[i], all[ref]))
    && (ref !in all ==> NeverFound(found, ref))
  }

  lemma {:induction false} DiscoveredIsFirst(infos: map<Ref, BaseInfo>, found: seq<Found>, ref: Ref)
    ensures DiscoveredRight(infos, found, Discovered(infos, found), ref)
    decreases |found|
  {
    if found == [] {
    } else {
      var n := |found| - 1;
      var init := found[..n];
      var before := Discovered(infos, init);
      DiscoveredIsFirst(infos, init, ref);
      FoundInfoIsEntry(found[n]);
      if ref !in before {
        LastIsFirst(found, ref);
      } else if ref !in infos {
        var i :| FoundFirst(init, i, ref) && EntryOf(init[i], before[ref]);
        FirstOfInit(found, i, ref);
      }
    }
  }

  /** Listing keeps what is known and adds an unconnected entry for each new directory, the first of its reference. */
  lemma ListMeans(f: Files, b: Bases, found: seq<Found>)
    requires Inv(f, b)
    ensures var b' := Listed(b, found);
      && b'.active == b.active && b'.stores == b.stores
      && (forall r :: r in b.infos ==> r in b'.infos && b'.infos[r] == b.infos[r])
      && (forall r :: r in b'.infos && r !in b.infos ==>
            exists i :: FoundFirst(found, i, r) && EntryOf(found[i], b'.infos[r]))
      && (forall i :: 0 <= i < |found| ==> FoundInfo(found[i]).ref in b'.infos)
  {
    DiscoveredAdds(f, b, found);
    RefreshedIsIdentity(f, b.(infos := Discovered(b.infos, found)));
    var b' := Listed(b, found);
    forall r | r in b'.infos && r !in b.infos
      ensures exists i :: FoundFirst(found, i, r) && EntryOf(found[i], b'.infos[r]) {
      DiscoveredIsFirst(b.infos, found, r);
    }
    forall i | 0 <= i < |found| ensures FoundInfo(found[i]).ref in b'.infos {
      DiscoveredIsFirst(b.infos, found, FoundInfo(found[i]).ref);
    }
  }

  // ---------------------------------------------------------------------
  // Consequences for whole runs.
  // ---------------------------------------------------------------------

  /** Does this call run its handler on the store of `ref`? */
  predicate Handles(f: Files, b: Bases, call: Call, ref: Ref) {
    call.RoutedCall? && Perform(f, b, call).Done? && Perform(f, b, call).ref == ref
  }

  /** The store `m` of `ref` after the handlers of the calls routed to it, and of no others. */
  function HandledStore(f: Files, b: Bases, calls: seq<Call>, ref: Ref, m: Memory): Memory
    decreases |calls|
  {
    if calls == [] then m
    else
      var next := if Handles(f, b, calls[0], ref) then calls[0].handler(m) else m;
      HandledStore(f, Next(f, b, calls[0]), calls[1..], ref, next)
  }

  lemma CallHandlesStore(f: Files, b: Bases, call: Call, ref: Ref)
    requires Lawful(f) && Inv(f, b) && ref in b.stores
    ensures var b' := Next(f, b, call);
            ref in b'.stores &&
            b'.stores[ref] == if Handles(f, b, call, ref) then call.handler(b.stores[ref]) else b.stores[ref]
  {
    if call.RoutedCall? {
      if Perform(f, b, call).Done? { RoutedTouchesOnlyTheSelected(f, b, call.base, call.opening, call.handler); }
    } else {
      OtherCallsTouchNoStore(f, b, call);
    }
  }

  /** Isolation over any run: an open store sees exactly the calls routed to its base, in order. */
  lemma {:induction false} StoresAreIsolated(f: Files, b: Bases, calls: seq<Call>, ref: Ref)
    requires Lawful(f) && Inv(f, b) && ref in b.stores
    ensures var b' := Run(f, b, calls);
            ref in b'.stores && b'.stores[ref] == HandledStore(f, b, calls, ref, b.stores[ref])
    decreases |calls|
  {
    if calls == [] {
    } else {
      CallKeepsInv(f, b, calls[0]);
      CallHandlesStore(f, b, calls[0], ref);
      StoresAreIsolated(f, Next(f, b, calls[0]), calls[1..], ref);
    }
  }

  /** Whatever calls came before, no call ever finds a connected base without registry entry. */
  lemma MissingEntryIsUnreachable(f: Files, root: Path, store: Memory, calls: seq<Call>, call: Call)
    requires Lawful(f) && f.canon(root) == Some(root)
    ensures Perform(f, Run(f, Start(f, root, store), calls), call) != Failed(NoRegistryEntry)
  {
    EveryRunKeepsInv(f, root, store, calls);
    var b := Run(f, Start(f, root, store), calls);
    if call.ConnectBase? { ConnectSucceedsIff(f, b, call.args, call.opening); }
  }

  /** An entry keeps its place, except that connecting it resolves its path. */
  predicate SamePlace(f: Files, before: BaseInfo, after: BaseInfo) {
    after.path == before.path || f.canon(before.path) == Some(after.path)
  }

  predicate AllowedAt(f: Files, asked: Path, root: Path) {
    f.allowed(asked).Some? && f.canon(f.allowed(asked).value) == Some(root)
  }

  /** A connect whose path passed the allow-list check, or a listing that found the directory. */
  ghost predicate VouchesFor(f: Files, call: Call, info: BaseInfo) {
    || (call.ConnectBase? && exists asked :: Asks(f, call.args, Some(asked)) && AllowedAt(f, asked, info.path))
    || (call.ListBases? && exists x, entry :: x in call.found && EntryOf(x, entry) && SamePlace(f, entry, info))
  }

  ghost predicate Known(f: Files, b: Bases, calls: seq<Call>, ref: Ref, info: BaseInfo) {
    || (ref in b.infos && SamePlace(f, b.infos[ref], info))
    || exists i :: 0 <= i < |calls| && VouchesFor(f, calls[i], info)
  }

  lemma CallIsVouched(f: Files, b: Bases, call: Call, ref: Ref)
    requires Lawful(f) && Inv(f, b) && ref in Next(f, b, call).infos
    ensures var info := Next(f, b, call).infos[ref];
            (ref in b.infos && SamePlace(f, b.infos[ref], info)) || VouchesFor(f, call, info)
  {
    match call {
      case ConnectBase(args, opening) => ConnectIsVouched(f, b, args, opening, ref);
      case SwitchBase(r, opening) => SelectKeepsPlaces(f, b, r, opening); SwitchMeans(f, b, r, opening);
      case ListBases(found) => ListIsVouched(f, b, found, ref);
      case RoutedCall(base, opening, _) =>
        SelectKeepsPlaces(f, b, if base.Some? then base.value else b.active, opening);
    }
  }

  lemma SelectKeepsPlaces(f: Files, b: Bases, ref: Ref, opening: Option<Memory>)
    requires Inv(f, b)
    ensures Selected(f, b, ref, opening).Done? ==>
      var infos := Selected(f, b, ref, opening).bases.infos;
      infos.Keys == b.infos.Keys && forall r :: r in infos ==> SamePlace(f, b.infos[r], infos[r])
  {
    SelectMeans(f, b, ref, opening);
  }

  lemma ListIsVouched(f: Files, b: Bases, found: seq<Found>, ref: Ref)
    requires Inv(f, b) && ref in Listed(b, found).infos
    ensures var info := Listed(b, found).infos[ref];
            (ref in b.infos && info == b.infos[ref]) || VouchesFor(f, ListBases(found), info)
  {
    ListMeans(f, b, found);
    if ref !in b.infos {
      var i :| FoundFirst(found, i, ref) && EntryOf(found[i], Listed(b, found).infos[ref]);
      assert found[i] in found;
    }
  }

  lemma ConnectIsVouched(f: Files, b: Bases, c: ConnectArgs, opening: Option<Memory>, ref: Ref)
    requires Lawful(f) && Inv(f, b) && ref in Next(f, b, ConnectBase(c, opening)).infos
    ensures var call := ConnectBase(c, opening);
            var info := Next(f, b, call).infos[ref];
            (ref in b.infos && SamePlace(f, b.infos[ref], info)) || VouchesFor(f, call, info)
  {
    var r := Connected(f, b, c, opening);
    if r.Done? {
      ConnectedKeepsInv(f, b, c, opening);
      if r.ref in b.stores || ref != r.ref {
        ConnectTouchesOne(f, b, c, opening, ref);
      } else {
        var asked := AskedFor(f, c);
        OnlyAllowedPathsAreOpened(f, b, c, opening, asked);
        assert Asks(f, c, Some(asked.value)) && AllowedAt(f, asked.value, r.bases.infos[ref].path);
      }
    }
  }

  lemma ConnectTouchesOne(f: Files, b: Bases, c: ConnectArgs, opening: Option<Memory>, ref: Ref)
    requires Connected(f, b, c, opening).Done? && Connects(b, Connected(f, b, c, opening).bases,
                                                           Connected(f, b, c, opening).ref, opening)
    requires var Done(b', r) := Connected(f, b, c, opening); (r in b.stores || ref != r) && ref in b'.infos
    ensures ref in b.infos && Connected(f, b, c, opening).bases.infos[ref] == b.infos[ref]
  {}

  function AskedFor(f: Files, c: ConnectArgs): (asked: Option<Path>)
    ensures Asks(f, c, asked)
  {
    if c.path.Some? then c.path
    else f.scoped(if c.scope.Some? then c.scope.value else Project, if c.name.Some? then c.name.value else "default")
  }

  lemma VouchedStays(f: Files, call: Call, before: BaseInfo, after: BaseInfo)
    requires Lawful(f) && VouchesFor(f, call, before) && SamePlace(f, before, after)
    ensures VouchesFor(f, call, after)
  {
    if call.ListBases? {
      var x, entry :| x in call.found && EntryOf(x, entry) && SamePlace(f, entry, before);
      assert SamePlace(f, entry, after);
    }
  }

  /**
   Where the entries come from, over any run: each one was there at the start, or was found by
   a listing, or was connected under a path that passed the allow-list check.
   */
  lemma {:induction false} EveryEntryIsKnown(f: Files, b: Bases, calls: seq<Call>, ref: Ref)
    requires Lawful(f) && Inv(f, b) && ref in Run(f, b, calls).infos
    ensures Known(f, b, calls, ref, Run(f, b, calls).infos[ref])
    decreases |calls|
  {
    if calls == [] {
    } else {
      var b', rest, info := Next(f, b, calls[0]), calls[1..], Run(f, b, calls).infos[ref];
      CallKeepsInv(f, b, calls[0]);
      EveryEntryIsKnown(f, b', rest, ref);
      if ref in b'.infos && SamePlace(f, b'.infos[ref], info) {
        CallIsVouched(f, b, calls[0], ref);
        if VouchesFor(f, calls[0], b'.infos[ref]) { VouchedStays(f, calls[0], b'.infos[ref], info); }
      } else {
        var i :| 0 <= i < |rest| && VouchesFor(f, rest[i], info);
        assert VouchesFor(f, calls[i + 1], info);
      }
    }
  }

  /** A physical path in storage with no symbolic link on the way. */
  ghost predicate SafeRoot(t: Paths.Tree, projectRoot: seq<Paths.Name>, userRoot: seq<Paths.Name>, path: Path) {
    exists names ::
      && path == Paths.Path(true, Paths.Parts(names)) && InStorage(names, projectRoot, userRoot)
      && (forall k :: 0 <= k <= |names| && names[..k] in t.nodes ==> !t.nodes[names[..k]].Link?)
  }

  /** On a file tree: a base that a connect opens lies in storage, whatever links led to it. */
  lemma ConnectedRootsAreInStorage(t: Paths.Tree, cwd: seq<Paths.Name>, project: Path, user: Path, f: Files,
      b: Bases, c: ConnectArgs, opening: Option<Memory>)
    requires Paths.WellFormed(t)
    requires forall p :: f.canon(p) == CanonicalBaseIdentity(t, cwd, p)
    requires forall p :: f.allowed(p) == AllowedBasePath(t, cwd, project, user, p)
    requires Connected(f, b, c, opening).Done? && Connected(f, b, c, opening).ref !in b.stores
    ensures var Done(b', ref) := Connected(f, b, c, opening);
      var projectRoot, userRoot := Paths.CanonicalPath(t, cwd, project), Paths.CanonicalPath(t, cwd, user);
      && projectRoot.Ok? && userRoot.Ok? && ref in b'.infos
      && SafeRoot(t, projectRoot.names, userRoot.names, b'.infos[ref].path)
  {
    var asked := AskedFor(f, c);
    OnlyAllowedPathsAreOpened(f, b, c, opening, asked);
    AllowedIsSafe(t, cwd, project, user, asked.value);
  }

  lemma AllowedIsSafe(t: Paths.Tree, cwd: seq<Paths.Name>, project: Path, user: Path, p: Path)
    requires Paths.WellFormed(t) && AllowedBasePath(t, cwd, project, user, p).Some?
    ensures var projectRoot, userRoot := Paths.CanonicalPath(t, cwd, project), Paths.CanonicalPath(t, cwd, user);
      var accepted := AllowedBasePath(t, cwd, project, user, p).value;
      && projectRoot.Ok? && userRoot.Ok? && SafeRoot(t, projectRoot.names, userRoot.names, accepted)
      && CanonicalBaseIdentity(t, cwd, accepted) == Some(accepted)
  {
    var names := Paths.CanonicalPath(t, cwd, p).names;
    AllowedMeans(t, cwd, project, user, p, names, cwd);
  }

  // ---------------------------------------------------------------------
  // The registry object.
  // ---------------------------------------------------------------------

  /** The answer of the scan over connected roots. */
  datatype Lookup = Unused | UsedBy(ref: Ref) | Unresolvable

  class McpServerState {
    var active: Ref
    var infos: map<Ref, BaseInfo>
    var stores: map<Ref, Memory>

    function Value(): Bases
      reads this
    {
      Bases(active, infos, stores)
    }

    constructor (f: Files, root: Path, store: Memory)
      ensures Value() == Start(f, root, store)
      ensures active == "active" && stores == map["active" := store] && infos.Keys == {"active"}
      ensures var info := infos["active"];
              && info.path == root && info.connected && info.active && info.ref == "active"
              && info.scope == f.inferScope(root)
              && (f.fileName(root).Some? ==> info.name == f.fileName(root).value)
              && (f.fileName(root).None? ==> info.name == "active")
    {
      active := "active";
      var name := if f.fileName(root).Some? then f.fileName(root).value else "active";
      infos := map["active" := BaseInfo("active", f.inferScope(root), name, root, true, true)];
      stores := map["active" := store];
    }

    method ConnectedRefForPath(f: Files, root: Path, except: Ref) returns (r: Lookup)
      ensures !r.Unused? <==> Taken(f, Value(), root, except)
      ensures r.UsedBy? ==>
          r.ref in stores && r.ref in infos && r.ref != except && f.canon(infos[r.ref].path) == Some(root)
    {
      var todo := infos.Keys;
      while todo != {}
        invariant todo <= infos.Keys
        invariant forall q :: q in infos && q in stores && q != except && q !in todo ==>
          f.canon(infos[q].path) !in {None, Some(root)}
        decreases todo
      {
        var q :| q in todo;
        todo := todo - {q};
        if q != except && q in stores {
          match f.canon(infos[q].path)
          case None =>
            assert Taken(f, Value(), root, except);
            return Unresolvable;
          case Some(p) =>
            if p == root {
              assert Taken(f, Value(), root, except);
              return UsedBy(q);
            }
        }
      }
      return Unused;
    }

    /** Marks every entry in place. */
    method RefreshActiveMarkers()
      modifies this
      ensures Value() == Refreshed(old(Value()))
    {
      ghost var before := Value();
      var todo := infos.Keys;
      while todo != {}
        invariant todo <= infos.Keys == before.infos.Keys
        invariant active == before.active && stores == before.stores
        invariant forall r :: r in infos ==>
            infos[r] == if r in todo then before.infos[r] else Marked(before, before.infos[r])
        decreases todo
      {
        var r :| r in todo;
        todo := todo - {r};
        infos := infos[r := infos[r].(connected := infos[r].connected || infos[r].ref in stores,
            active := infos[r].ref == active)];
      }
      assert infos == Refreshed(before).infos;
    }

    method StoreForRef(f: Files, ref: Ref, opening: Option<Memory>) returns (failure: Option<Failure>)
      requires Inv(f, Value())
      modifies this
      ensures match Selected(f, old(Value()), ref, opening)
              case Done(b', _) => failure == None && Value() == b'
              case Failed(why) => failure == Some(why) && Value() == old(Value())
    {
      if ref !in stores {
        if ref !in infos { return Some(UnknownRef); }
        var info := infos[ref];
        var root := f.canon(info.path);
        if root.None? { return Some(CannotResolve); }
        var existing := ConnectedRefForPath(f, root.value, ref);
        if !existing.Unused? { return Some(RootTaken); }
        if opening.None? { return Some(CannotOpen); }
        stores := stores[ref := opening.value];
        infos := infos[ref := info.(connected := true, path := root.value)];
      }
      return None;
    }

    method ConnectBase(f: Files, c: ConnectArgs, opening: Option<Memory>)
        returns (r: Option<BaseInfo>, failure: Option<Failure>)
      requires Lawful(f) && Inv(f, Value())
      modifies this
      ensures match Connected(f, old(Value()), c, opening)
              case Done(b', ref) => failure == None && Value() == b' && ref in infos && r == Some(infos[ref])
              case Failed(why) => failure == Some(why) && Value() == old(Value())
      ensures forall asked :: Asks(f, c, asked) ==>
                && (failure == Some(NotAllowed) <==> asked.None? || f.allowed(asked.value).None?)
                && (failure == None ==>
                      asked.Some? && f.allowed(asked.value).Some? && r.Some? &&
                      f.canon(f.allowed(asked.value).value) == Some(r.value.path))
    {
      EntryIsAllowed(f, Value(), c, opening);
      ConnectedKeepsInv(f, Value(), c, opening);
      var path := RequestedPath(f, c);
      if path.None? { return None, Some(NotAllowed); }
      var wanted, root := RequestedInfo(f, c, path.value), f.canon(path.value);
      if root.None? { return None, Some(CannotResolve); }
      if wanted.ref in stores {
        if wanted.ref !in infos { return None, Some(NoRegistryEntry); }
        var existing := f.canon(infos[wanted.ref].path);
        if existing.None? { return None, Some(CannotResolve); }
        if existing == root { return Some(infos[wanted.ref]), None; }
        return None, Some(CannotRebind);
      }
      var other := ConnectedRefForPath(f, root.value, wanted.ref);
      if !other.Unused? { return None, Some(RootTaken); }
      if opening.None? { return None, Some(CannotOpen); }
      var info := wanted.(path := root.value, connected := true, active := wanted.ref == active);
      stores := stores[wanted.ref := opening.value];
      infos := infos[wanted.ref := info];
      RefreshActiveMarkers();
      return Some(info), None;
    }

    method SwitchBase(f: Files, ref: Ref, opening: Option<Memory>)
        returns (r: Option<BaseInfo>, failure: Option<Failure>)
      requires Lawful(f) && Inv(f, Value())
      modifies this
      ensures match Switched(f, old(Value()), ref, opening)
              case Done(b', _) => failure == None && Value() == b' && ref in infos && r == Some(infos[ref])
              case Failed(why) => failure == Some(why) && Value() == old(Value())
    {
      SelectedKeepsInv(f, Value(), ref, opening);
      failure := StoreForRef(f, ref, opening);
      if failure.Some? { return None, failure; }
      active := ref;
      RefreshActiveMarkers();
      return if ref in infos then Some(infos[ref]) else None, None;
    }

    method ListBases(found: seq<Found>)
      modifies this
      ensures Value() == Listed(old(Value()), found)
    {
      ghost var before := Value();
      for i := 0 to |found|
        invariant Value() == before.(infos := Discovered(before.infos, found[..i]))
      {
        assert found[..i + 1][..i] == found[..i];
        var x := FoundInfo(found[i]);
        if x.ref !in infos { infos := infos[x.ref := x]; }
      }
      assert found[..|found|] == found;
      RefreshActiveMarkers();
    }

    /** `mcp_with_selected_store`. */
    method WithSelectedStore(f: Files, ref: Option<Ref>, opening: Option<Memory>, handler: Memory -> Memory)
        returns (failure: Option<Failure>)
      requires Lawful(f) && Inv(f, Value())
      modifies this
      ensures match Routed(f, old(Value()), ref, opening, handler)
              case Done(b', _) => failure == None && Value() == b'
              case Failed(why) => failure == Some(why) && Value() == old(Value())
    {
      var requested := if ref.Some? then ref.value else active;
      SelectedKeepsInv(f, Value(), requested, opening);
      failure := StoreForRef(f, requested, opening);
      if failure.None? { stores := stores[requested := handler(stores[requested])]; }
    }
  }
}
