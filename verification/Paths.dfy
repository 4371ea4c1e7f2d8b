/**
 Path identity: lexical normalisation of absolute paths, and the physical path of a base
 that may not exist yet. The file tree is concrete, with directories, files and symbolic links.
 */
module Paths {
  type Name = string

  /** A component; `.` and `..` stand for themselves. */
  datatype Part = Cur | Parent | Normal(name: Name)

  datatype Path = Path(rooted: bool, parts: seq<Part>)

  datatype PathError = NotAbsolute | EscapesRoot | NoAncestor | Unresolvable | IoFailure

  datatype PathResult = Ok(names: seq<Name>) | Err(why: PathError)

  function Parts(names: seq<Name>): seq<Part> {
    seq(|names|, i requires 0 <= i < |names| => Normal(names[i]))
  }

  // ---------------------------------------------------------------------
  // Lexical normalisation.
  // ---------------------------------------------------------------------

  function Push(r: PathResult, part: Part): PathResult {
    match r
    case Err(_) => r
    case Ok(names) =>
      match part
      case Cur => r
      case Parent => if names == [] then Err(EscapesRoot) else Ok(names[..|names| - 1])
      case Normal(n) => Ok(names + [n])
  }

  function PushAll(r: PathResult, parts: seq<Part>): PathResult {
    if parts == [] then r else Push(PushAll(r, parts[..|parts| - 1]), parts[|parts| - 1])
  }

  function Normalized(p: Path): PathResult {
    if p.rooted then PushAll(Ok([]), p.parts) else Err(NotAbsolute)
  }

  /** `normalize_absolute_path`. */
  method NormalizeAbsolutePath(p: Path) returns (r: PathResult)
    ensures r == Normalized(p)
  {
    if !p.rooted { return Err(NotAbsolute); }
    var names: seq<Name> := [];
    for i := 0 to |p.parts|
      invariant PushAll(Ok([]), p.parts[..i]) == Ok(names)
    {
      assert p.parts[..i + 1][..i] == p.parts[..i];
      match p.parts[i] {
        case Cur =>
        case Parent =>
          if names == [] {
            ErrorStays(Ok([]), p.parts, i + 1);
            return Err(EscapesRoot);
          }
          names := names[..|names| - 1];
        case Normal(n) => names := names + [n];
      }
    }
    assert p.parts[..|p.parts|] == p.parts;
    return Ok(names);
  }

  lemma {:induction false} ErrorStays(r: PathResult, parts: seq<Part>, k: nat)
    requires k <= |parts| && PushAll(r, parts[..k]).Err?
    ensures PushAll(r, parts) == PushAll(r, parts[..k])
  {
    if k == |parts| {
      assert parts[..k] == parts;
    } else {
      assert parts[..|parts| - 1][..k] == parts[..k];
      ErrorStays(r, parts[..|parts| - 1], k);
    }
  }

  lemma {:induction false} PushAppend(r: PathResult, a: seq<Part>, b: seq<Part>)
    ensures PushAll(r, a + b) == PushAll(PushAll(r, a), b)
  {
    if b == [] {
      assert a + b == a;
    } else {
      PushAppend(r, a, b[..|b| - 1]);
      assert (a + b)[..|a + b| - 1] == a + b[..|b| - 1];
    }
  }

  /** Normalising a path without dots leaves it as it is; so normalisation is idempotent. */
  lemma {:induction false} NormalFormIsFixed(names: seq<Name>)
    ensures Normalized(Path(true, Parts(names))) == Ok(names)
  {
    if names == [] {
    } else {
      var init := names[..|names| - 1];
      NormalFormIsFixed(init);
      assert Parts(names)[..|names| - 1] == Parts(init);
      assert names == init + [names[|names| - 1]];
    }
  }

  /** How deep a path leads below its start. */
  function Depth(parts: seq<Part>): int {
    if parts == [] then 0
    else
      var before := Depth(parts[..|parts| - 1]);
      match parts[|parts| - 1] case Cur => before case Parent => before - 1 case Normal(_) => before + 1
  }

  /** An absolute path is refused exactly if some prefix of it leads above the root. */
  lemma {:induction false} FailsIffSomePrefixEscapes(parts: seq<Part>)
    ensures Normalized(Path(true, parts)).Err? <==> exists k :: 0 <= k <= |parts| && Depth(parts[..k]) < 0
    ensures Normalized(Path(true, parts)).Ok? ==> |Normalized(Path(true, parts)).names| == Depth(parts)
  {
    assert parts[..|parts|] == parts;
    if parts != [] {
      var init := parts[..|parts| - 1];
      FailsIffSomePrefixEscapes(init);
      forall k | 0 <= k <= |init| ensures parts[..k] == init[..k] {}
    } else {
      assert Depth(parts) == 0;
    }
  }

  /** `x/..` and `.` can be dropped anywhere; together with the fixed form this determines the result. */
  lemma DroppingKeepsResult(a: seq<Part>, n: Name, b: seq<Part>)
    ensures Normalized(Path(true, a + [Normal(n), Parent] + b)) == Normalized(Path(true, a + b))
    ensures Normalized(Path(true, a + [Cur] + b)) == Normalized(Path(true, a + b))
  {
    var r := PushAll(Ok([]), a);
    PushTwo(r, Normal(n), Parent);
    NeutralDrops(a, [Normal(n), Parent], b);
    assert PushAll(r, [Cur]) == r;
    NeutralDrops(a, [Cur], b);
  }

  lemma PushTwo(r: PathResult, x: Part, y: Part)
    ensures PushAll(r, [x, y]) == Push(Push(r, x), y)
  {
    assert [x, y][..1] == [x] && [x][..0] == [];
    assert PushAll(r, [x]) == Push(r, x);
  }

  lemma NeutralDrops(a: seq<Part>, mid: seq<Part>, b: seq<Part>)
    requires PushAll(PushAll(Ok([]), a), mid) == PushAll(Ok([]), a)
    ensures PushAll(Ok([]), a + mid + b) == PushAll(Ok([]), a + b)
  {
    PushAppend(Ok([]), a, b);
    PushAppend(Ok([]), a, mid);
    PushAppend(Ok([]), a + mid, b);
  }

  // ---------------------------------------------------------------------
  // The file tree.
  // ---------------------------------------------------------------------

  datatype Node = Directory | File | Link(target: Path)

  /** Nodes under their physical paths; the root is always a directory. */
  datatype Tree = Tree(nodes: map<seq<Name>, Node>, maxLinks: nat)

  predicate IsDirectory(t: Tree, at: seq<Name>) {
    at == [] || (at in t.nodes && t.nodes[at] == Directory)
  }

  function Up(at: seq<Name>): seq<Name> {
    if at == [] then [] else at[..|at| - 1]
  }

  /** Every node lies in a directory, and there is no node at the root's own path. */
  ghost predicate WellFormed(t: Tree) {
    [] !in t.nodes && forall at {:trigger Up(at)} :: at in t.nodes ==> IsDirectory(t, Up(at))
  }

  datatype WalkError = NotFound | NotADirectory | TooManyLinks

  datatype Walk = At(path: seq<Name>, links: nat) | Lost(why: WalkError)

  lemma UpIsDirectory(t: Tree, at: seq<Name>)
    requires WellFormed(t) && (at == [] || at in t.nodes)
    ensures IsDirectory(t, Up(at))
  {}

  /** Resolving a path from a physical directory, following at most `links` symbolic links. */
  function Resolve(t: Tree, at: seq<Name>, parts: seq<Part>, links: nat): Walk
    decreases links, |parts|
  {
    if parts == [] then At(at, links)
    else if !IsDirectory(t, at) then Lost(NotADirectory)
    else
      match parts[0]
      case Cur => Resolve(t, at, parts[1..], links)
      case Parent => Resolve(t, Up(at), parts[1..], links)
      case Normal(n) =>
        var next := at + [n];
        if next !in t.nodes then Lost(NotFound)
        else
          match t.nodes[next]
          case Directory => Resolve(t, next, parts[1..], links)
          case File => Resolve(t, next, parts[1..], links)
          case Link(target) =>
            if links == 0 then Lost(TooManyLinks)
            else Resolve(t, if target.rooted then [] else at, target.parts + parts[1..], links - 1)
  }

  function Then(t: Tree, w: Walk, parts: seq<Part>): Walk {
    match w case Lost(_) => w case At(at, links) => Resolve(t, at, parts, links)
  }

  lemma {:induction false} ResolveAppend(t: Tree, at: seq<Name>, a: seq<Part>, b: seq<Part>, links: nat)
    ensures Resolve(t, at, a + b, links) == Then(t, Resolve(t, at, a, links), b)
    decreases links, |a|
  {
    if a == [] {
      assert a + b == b;
    } else if IsDirectory(t, at) {
      assert (a + b)[1..] == a[1..] + b;
      match a[0] {
        case Cur => ResolveAppend(t, at, a[1..], b, links);
        case Parent => ResolveAppend(t, Up(at), a[1..], b, links);
        case Normal(n) =>
          var next := at + [n];
          if next in t.nodes {
            match t.nodes[next] {
              case Directory => ResolveAppend(t, next, a[1..], b, links);
              case File => ResolveAppend(t, next, a[1..], b, links);
              case Link(target) =>
                if links > 0 {
                  var start := if target.rooted then [] else at;
                  assert target.parts + (a[1..] + b) == (target.parts + a[1..]) + b;
                  ResolveAppend(t, start, target.parts + a[1..], b, links - 1);
                }
            }
          }
      }
    }
  }

  /** A physical path: it exists, and no symbolic link is on the way. */
  predicate Physical(t: Tree, at: seq<Name>) {
    at == [] || (at in t.nodes && !t.nodes[at].Link?)
  }

  /** Resolution ends at a physical path. */
  lemma {:induction false} ResolvedIsPhysical(t: Tree, at: seq<Name>, parts: seq<Part>, links: nat)
    requires WellFormed(t) && Physical(t, at)
    ensures Resolve(t, at, parts, links).At? ==> Physical(t, Resolve(t, at, parts, links).path)
    decreases links, |parts|
  {
    if parts != [] && IsDirectory(t, at) {
      match parts[0] {
        case Cur => ResolvedIsPhysical(t, at, parts[1..], links);
        case Parent =>
          UpIsDirectory(t, at);
          ResolvedIsPhysical(t, Up(at), parts[1..], links);
        case Normal(n) => NameIsPhysical(t, at, n, parts, links);
      }
    }
  }

  lemma {:induction false} NameIsPhysical(t: Tree, at: seq<Name>, n: Name, parts: seq<Part>, links: nat)
    requires WellFormed(t) && IsDirectory(t, at) && parts != [] && parts[0] == Normal(n)
    ensures Resolve(t, at, parts, links).At? ==> Physical(t, Resolve(t, at, parts, links).path)
    decreases links, |parts|, 0
  {
    var next := at + [n];
    if next in t.nodes {
      match t.nodes[next] {
        case Link(target) =>
          if links > 0 {
            ResolvedIsPhysical(t, if target.rooted then [] else at, target.parts + parts[1..], links - 1);
          }
        case _ => ResolvedIsPhysical(t, next, parts[1..], links);
      }
    }
  }

  lemma ResolveName(t: Tree, at: seq<Name>, n: Name, links: nat)
    requires IsDirectory(t, at) && Physical(t, at + [n])
    ensures Resolve(t, at, [Normal(n)], links) == At(at + [n], links)
  {
    var parts := [Normal(n)];
    assert parts[1..] == [];
    assert at + [n] != [];
  }

  lemma ResolveOneMore(t: Tree, init: seq<Name>, n: Name, links: nat)
    requires Resolve(t, [], Parts(init), links) == At(init, links)
    requires IsDirectory(t, init) && Physical(t, init + [n])
    ensures Resolve(t, [], Parts(init + [n]), links) == At(init + [n], links)
  {
    assert Parts(init + [n]) == Parts(init) + [Normal(n)];
    ResolveAppend(t, [], Parts(init), [Normal(n)], links);
    ResolveName(t, init, n, links);
  }

  /** A physical path resolves to itself without following a link. */
  lemma {:induction false} PhysicalResolvesToItself(t: Tree, at: seq<Name>, links: nat)
    requires WellFormed(t) && Physical(t, at)
    ensures Resolve(t, [], Parts(at), links) == At(at, links)
  {
    if at == [] {
    } else {
      UpIsDirectory(t, at);
      PhysicalResolvesToItself(t, Up(at), links);
      assert Up(at) + [at[|at| - 1]] == at;
      ResolveOneMore(t, Up(at), at[|at| - 1], links);
    }
  }

  // ---------------------------------------------------------------------
  // The physical path of a base.
  // ---------------------------------------------------------------------

  datatype Stat = Exists | Missing | Failed

  /** `symlink_metadata`: a link at the end is not followed. */
  function LStat(t: Tree, names: seq<Name>): Stat {
    if names == [] then Exists
    else
      var n := |names| - 1;
      match Resolve(t, [], Parts(names[..n]), t.maxLinks)
      case Lost(NotFound) => Missing
      case Lost(_) => Failed
      case At(at, _) => if !IsDirectory(t, at) then Failed else if at + [names[n]] in t.nodes then Exists else Missing
  }

  /** `canonicalize`: every link is followed. */
  function Canonicalize(t: Tree, names: seq<Name>): Walk {
    Resolve(t, [], Parts(names), t.maxLinks)
  }

  /** The canonical form of the deepest existing ancestor, then the missing rest. */
  function Canonical(t: Tree, names: seq<Name>): PathResult {
    match LStat(t, names)
    case Failed => Err(IoFailure)
    case Exists =>
      (match Canonicalize(t, names) case Lost(_) => Err(Unresolvable) case At(at, _) => Ok(at))
    case Missing =>
      if names == [] then Err(NoAncestor)
      else
        match Canonical(t, names[..|names| - 1])
        case Err(why) => Err(why)
        case Ok(at) => Ok(at + [names[|names| - 1]])
  }

  function Absolute(cwd: seq<Name>, p: Path): Path {
    if p.rooted then p else Path(true, Parts(cwd) + p.parts)
  }

  function CanonicalPath(t: Tree, cwd: seq<Name>, p: Path): PathResult {
    match Normalized(Absolute(cwd, p))
    case Err(why) => Err(why)
    case Ok(names) => Canonical(t, names)
  }

  /** `canonical_physical_path`: walks up to an existing ancestor, collecting the missing names on the way. */
  method CanonicalPhysicalPath(t: Tree, cwd: seq<Name>, p: Path) returns (r: PathResult)
    ensures r == CanonicalPath(t, cwd, p) && r != Err(NoAncestor)
  {
    var normalized := NormalizeAbsolutePath(Absolute(cwd, p));
    if normalized.Err? {
      NormalizeErrors(Absolute(cwd, p));
      return normalized;
    }
    var current := normalized.names;
    NeverWithoutAncestor(t, current);
    var missing: seq<Name> := [];
    while true
      invariant Canonical(t, normalized.names) == Extended(Canonical(t, current), missing)
      decreases |current|
    {
      match LStat(t, current) {
        case Exists =>
          var physical := Canonicalize(t, current);
          if physical.Lost? { return Err(Unresolvable); }
          var canonical := AppendMissing(physical.path, missing);
          return Ok(canonical);
        case Failed => return Err(IoFailure);
        case Missing =>
          if current == [] { return Err(NoAncestor); }
          ReverseSnoc(missing, current[|current| - 1]);
          missing := missing + [current[|current| - 1]];
          current := current[..|current| - 1];
      }
    }
  }

  /** The missing names were collected from the end. */
  method AppendMissing(path: seq<Name>, missing: seq<Name>) returns (canonical: seq<Name>)
    ensures canonical == path + Reverse(missing)
  {
    canonical := path;
    assert missing[..|missing|] == missing;
    for i := |missing| downto 0
      invariant canonical + Reverse(missing[..i]) == path + Reverse(missing)
    {
      ReverseSnoc(missing[..i], missing[i]);
      assert missing[..i + 1] == missing[..i] + [missing[i]];
      canonical := canonical + [missing[i]];
    }
    assert missing[..0] == [];
  }

  function Reverse(names: seq<Name>): seq<Name> {
    if names == [] then [] else [names[|names| - 1]] + Reverse(names[..|names| - 1])
  }

  lemma ReverseSnoc(names: seq<Name>, n: Name)
    ensures Reverse(names + [n]) == [n] + Reverse(names)
  {
    assert (names + [n])[..|names|] == names;
  }

  function Extended(r: PathResult, missing: seq<Name>): PathResult {
    if r.Err? || missing == [] then r else Ok(r.names + Reverse(missing))
  }

  lemma {:induction false} NormalizeErrors(p: Path)
    ensures Normalized(p).Err? ==> Normalized(p).why in {NotAbsolute, EscapesRoot}
    decreases |p.parts|
  {
    if p.rooted && p.parts != [] { NormalizeErrors(p.(parts := p.parts[..|p.parts| - 1])); }
  }

  lemma {:induction false} NeverWithoutAncestor(t: Tree, names: seq<Name>)
    ensures Canonical(t, names) != Err(NoAncestor)
  {
    if names == [] {
    } else {
      NeverWithoutAncestor(t, names[..|names| - 1]);
    }
  }

  /** The names are missing from position `k` on, and what is before exists. */
  predicate DeepestExisting(t: Tree, names: seq<Name>, k: nat)
    requires k <= |names|
  {
    LStat(t, names[..k]) == Exists && forall j :: k < j <= |names| ==> LStat(t, names[..j]) == Missing
  }

  /** `r` is the canonical form of the first `k` names followed by the others. */
  predicate Resolves(t: Tree, names: seq<Name>, k: nat, r: seq<Name>)
    requires k <= |names|
  {
    && DeepestExisting(t, names, k) && Canonicalize(t, names[..k]).At?
    && r == Canonicalize(t, names[..k]).path + names[k..]
  }

  ghost predicate ResolvesSomewhere(t: Tree, names: seq<Name>, r: seq<Name>) {
    exists k :: 0 <= k <= |names| && Resolves(t, names, k, r)
  }

  lemma NotMissingMeans(t: Tree, names: seq<Name>, r: seq<Name>)
    requires LStat(t, names) != Missing
    ensures ResolvesSomewhere(t, names, r) <==>
            LStat(t, names) == Exists && Canonicalize(t, names).At? && r == Canonicalize(t, names).path
  {
    OnlyTheWhole(t, names);
    assert names[..|names|] == names && names[|names|..] == [];
    assert Resolves(t, names, |names|, r) <==>
      LStat(t, names) == Exists && Canonicalize(t, names).At? && r == Canonicalize(t, names).path;
  }

  /** `Canonical` without its recursion. */
  lemma CanonicalStep(t: Tree, names: seq<Name>, r: seq<Name>)
    ensures LStat(t, names) != Missing ==>
      (Canonical(t, names) == Ok(r) <==>
         LStat(t, names) == Exists && Canonicalize(t, names).At? && r == Canonicalize(t, names).path)
    ensures LStat(t, names) == Missing ==> names != []
    ensures LStat(t, names) == Missing ==>
      (Canonical(t, names) == Ok(r) <==>
         r != [] && r[|r| - 1] == names[|names| - 1] && Canonical(t, names[..|names| - 1]) == Ok(r[..|r| - 1]))
  {
    if LStat(t, names) == Missing && r != [] { assert r == r[..|r| - 1] + [r[|r| - 1]]; }
  }

  /** The result is the canonical deepest existing ancestor followed by the missing names in order. */
  lemma {:induction false} CanonicalMeans(t: Tree, names: seq<Name>, r: seq<Name>)
    ensures Canonical(t, names) == Ok(r) <==> ResolvesSomewhere(t, names, r)
    decreases |names|
  {
    CanonicalStep(t, names, r);
    if LStat(t, names) != Missing {
      NotMissingMeans(t, names, r);
    } else {
      MissingMeans(t, names, r);
      if r != [] { CanonicalMeans(t, names[..|names| - 1], r[..|r| - 1]); }
    }
  }

  lemma MissingMeans(t: Tree, names: seq<Name>, r: seq<Name>)
    requires LStat(t, names) == Missing
    ensures ResolvesSomewhere(t, names, r) <==>
      r != [] && r[|r| - 1] == names[|names| - 1] && ResolvesSomewhere(t, names[..|names| - 1], r[..|r| - 1])
  {
    assert names[..|names|] == names;
    var init := names[..|names| - 1];
    if r != [] {
      forall k | 0 <= k <= |init|
        ensures Resolves(t, names, k, r) <==> Resolves(t, init, k, r[..|r| - 1]) && r[|r| - 1] == names[|names| - 1] {
        ResolvesInit(t, names, k, r);
      }
      if ResolvesSomewhere(t, init, r[..|r| - 1]) {
        var k :| 0 <= k <= |init| && Resolves(t, init, k, r[..|r| - 1]);
        assert Resolves(t, names, k, r) <==> r[|r| - 1] == names[|names| - 1];
      }
    }
  }

  /** When the whole path exists, or its status is unknown, no shorter prefix is the deepest existing one. */
  lemma OnlyTheWhole(t: Tree, names: seq<Name>)
    requires LStat(t, names) != Missing
    ensures forall k :: 0 <= k < |names| ==> !DeepestExisting(t, names, k)
    ensures DeepestExisting(t, names, |names|) <==> LStat(t, names) == Exists
  {
    assert names[..|names|] == names;
  }

  lemma ResolvesInit(t: Tree, names: seq<Name>, k: nat, r: seq<Name>)
    requires k < |names| && LStat(t, names) == Missing && r != []
    ensures Resolves(t, names, k, r) <==>
      Resolves(t, names[..|names| - 1], k, r[..|r| - 1]) && r[|r| - 1] == names[|names| - 1]
  {
    var init := names[..|names| - 1];
    DeepestInit(t, names, k);
    assert init[..k] == names[..k];
    assert names[k..] == init[k..] + [names[|names| - 1]];
    if Canonicalize(t, names[..k]).At? {
      SnocEqual(r, Canonicalize(t, names[..k]).path, init[k..], names[|names| - 1]);
    }
  }

  lemma SnocEqual(r: seq<Name>, a: seq<Name>, b: seq<Name>, n: Name)
    requires r != []
    ensures r == a + (b + [n]) <==> r[..|r| - 1] == a + b && r[|r| - 1] == n
  {
    assert a + (b + [n]) == (a + b) + [n];
    assert r == r[..|r| - 1] + [r[|r| - 1]];
  }

  lemma DeepestInit(t: Tree, names: seq<Name>, k: nat)
    requires k < |names| && LStat(t, names) == Missing
    ensures DeepestExisting(t, names, k) <==> DeepestExisting(t, names[..|names| - 1], k)
  {
    var init := names[..|names| - 1];
    assert names[..|names|] == names;
    forall j | 0 <= j <= |init| ensures init[..j] == names[..j] {}
  }

  // ---------------------------------------------------------------------
  // Identity.
  // ---------------------------------------------------------------------

  lemma LStatOfPhysical(t: Tree, at: seq<Name>, n: Name)
    requires WellFormed(t) && Physical(t, at)
    ensures LStat(t, at + [n]) ==
            if !IsDirectory(t, at) then Failed else if at + [n] in t.nodes then Exists else Missing
  {
    assert (at + [n])[..|at|] == at;
    PhysicalResolvesToItself(t, at, t.maxLinks);
  }

  lemma PhysicalExists(t: Tree, at: seq<Name>)
    requires WellFormed(t) && Physical(t, at)
    ensures LStat(t, at) == Exists && Canonical(t, at) == Ok(at)
  {
    PhysicalResolvesToItself(t, at, t.maxLinks);
    if at != [] {
      var init := Up(at);
      UpIsDirectory(t, at);
      assert init + [at[|at| - 1]] == at;
      LStatOfPhysical(t, init, at[|at| - 1]);
    }
  }

  lemma ResolveLast(t: Tree, init: seq<Name>, n: Name)
    ensures Canonicalize(t, init + [n]) == Then(t, Canonicalize(t, init), [Normal(n)])
  {
    assert Parts(init + [n]) == Parts(init) + [Normal(n)];
    ResolveAppend(t, [], Parts(init), [Normal(n)], t.maxLinks);
  }

  /** What is missing cannot be resolved, and has nothing below it. */
  lemma MissingIsNotFound(t: Tree, names: seq<Name>, n: Name)
    requires LStat(t, names) == Missing
    ensures Canonicalize(t, names) == Lost(NotFound)
    ensures LStat(t, names + [n]) == Missing
  {
    var init := names[..|names| - 1];
    assert names == init + [names[|names| - 1]];
    ResolveLast(t, init, names[|names| - 1]);
    assert (names + [n])[..|names|] == names;
  }

  /** The result has the same status as the path, and is its own canonical path. */
  lemma {:induction false} CanonicalIsIdempotent(t: Tree, names: seq<Name>)
    requires WellFormed(t) && Canonical(t, names).Ok?
    ensures var r := Canonical(t, names).names;
            Canonical(t, r) == Ok(r) && LStat(t, r) == LStat(t, names)
  {
    var r := Canonical(t, names).names;
    ResolvedIsPhysical(t, [], Parts(names), t.maxLinks);
    if LStat(t, names) == Exists {
      PhysicalExists(t, r);
    } else {
      var init, n := names[..|names| - 1], names[|names| - 1];
      var c := Canonical(t, init).names;
      CanonicalIsIdempotent(t, init);
      if LStat(t, init) == Missing {
        MissingIsNotFound(t, c, n);
      } else {
        ResolvedIsPhysical(t, [], Parts(init), t.maxLinks);
        LStatOfPhysical(t, c, n);
      }
      assert (c + [n])[..|c|] == c;
    }
  }

  /** No prefix of the result is a symbolic link: creating it cannot lead elsewhere. */
  lemma {:induction false} ResultHasNoLinks(t: Tree, names: seq<Name>, k: nat)
    requires WellFormed(t) && Canonical(t, names).Ok? && k <= |Canonical(t, names).names|
    ensures var prefix_ := Canonical(t, names).names[..k];
            prefix_ in t.nodes ==> !t.nodes[prefix_].Link?
  {
    var r := Canonical(t, names).names;
    if LStat(t, names) == Exists {
      ResolvedIsPhysical(t, [], Parts(names), t.maxLinks);
      PrefixIsPhysical(t, r, k);
    } else {
      var init := names[..|names| - 1];
      var c := Canonical(t, init).names;
      CanonicalIsIdempotent(t, names);
      if k < |r| {
        ResultHasNoLinks(t, init, k);
        assert r[..k] == c[..k];
      } else {
        assert r[..k] == r && r[..|r| - 1] == c;
        if r in t.nodes {
          assert Up(r) == c;
          UpIsDirectory(t, r);
          LStatOfPhysical(t, c, r[|r| - 1]);
        }
      }
    }
  }

  lemma {:induction false} PrefixIsPhysical(t: Tree, at: seq<Name>, k: nat)
    requires WellFormed(t) && Physical(t, at) && k <= |at|
    ensures Physical(t, at[..k])
  {
    if k == |at| {
      assert at[..k] == at;
    } else {
      UpIsDirectory(t, at);
      PrefixIsPhysical(t, Up(at), k);
      assert at[..|at| - 1][..k] == at[..k];
    }
  }

  /** A dangling link at the deepest existing ancestor is refused, not taken for a missing directory. */
  lemma {:induction false} DanglingLinkIsRefused(t: Tree, names: seq<Name>, k: nat)
    requires k <= |names| && DeepestExisting(t, names, k) && Canonicalize(t, names[..k]).Lost?
    ensures Canonical(t, names) == Err(Unresolvable)
  {
    if k == |names| {
      assert names[..k] == names;
    } else {
      var init := names[..|names| - 1];
      assert names[..|names|] == names;
      DeepestInit(t, names, k);
      assert init[..k] == names[..k];
      DanglingLinkIsRefused(t, init, k);
    }
  }

  /** Idempotence of the whole: the canonical path of a base is its own canonical path, from any working directory. */
  lemma CanonicalPathIsStable(t: Tree, cwd: seq<Name>, p: Path, elsewhere: seq<Name>)
    requires WellFormed(t) && CanonicalPath(t, cwd, p).Ok?
    ensures var r := CanonicalPath(t, cwd, p).names;
            CanonicalPath(t, elsewhere, Path(true, Parts(r))) == Ok(r)
  {
    var names := Normalized(Absolute(cwd, p)).names;
    CanonicalIsIdempotent(t, names);
    NormalFormIsFixed(Canonical(t, names).names);
  }

  /** A relative path means the path below the working directory; an absolute one does not depend on it. */
  lemma RelativeMeansBelowCwd(t: Tree, cwd: seq<Name>, parts: seq<Part>, elsewhere: seq<Name>)
    ensures CanonicalPath(t, cwd, Path(false, parts)) == CanonicalPath(t, elsewhere, Path(true, Parts(cwd) + parts))
    ensures CanonicalPath(t, cwd, Path(true, parts)) == CanonicalPath(t, elsewhere, Path(true, parts))
  {}
}
