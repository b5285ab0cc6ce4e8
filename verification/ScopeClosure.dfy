/** Selecting a scope's sources together with everything they depend on. */
module ScopeClosure {
  import opened Common
  import opened TextOps

  datatype Index = Index(
    profile: string, schemaVersion: int, sources: seq<string>, scopes: map<string, seq<string>>,
    inventory: seq<string>, dependencies: map<string, seq<string>>)

  datatype Error =
    | UnsupportedIndex | UnknownScope | InvalidSourcePath | IncompleteInventory | UnknownDependency | UnknownSource

  datatype Selection = Selection(sources: seq<string>, dependencies: Option<map<string, seq<string>>>)

  // ---------- closed sets ----------

  /** Every member is known and everything it depends on is a member. */
  ghost predicate Closed(s: set<string>, dependencies: map<string, seq<string>>) {
    forall p | p in s :: p in dependencies && forall i | 0 <= i < |dependencies[p]| :: dependencies[p][i] in s
  }

  /** The least closed set that contains the roots. */
  ghost predicate IsClosure(s: set<string>, roots: set<string>, dependencies: map<string, seq<string>>) {
    && roots <= s && Closed(s, dependencies)
    && forall t | roots <= t && Closed(t, dependencies) :: s <= t
  }

  // ---------- sorted listings ----------

  lemma {:induction false} LessTransitive(a: string, b: string, c: string)
    requires Less(a, b) && Less(b, c)
    ensures Less(a, c)
  {
    if a != [] && a[0] == b[0] && b[0] == c[0] {
      LessTransitive(a[1..], b[1..], c[1..]);
    }
  }

  lemma {:induction false} LessTotal(a: string, b: string)
    ensures Less(a, b) || a == b || Less(b, a)
  {
    if a != [] && b != [] && a[0] == b[0] {
      LessTotal(a[1..], b[1..]);
      assert a == [a[0]] + a[1..] && b == [b[0]] + b[1..];
    }
  }

  predicate Ascending(ss: seq<string>) {
    forall i, j | 0 <= i < j < |ss| :: Less(ss[i], ss[j])
  }

  function Insert(s: string, ss: seq<string>): (r: seq<string>)
    ensures forall x :: x in r <==> x == s || x in ss
  {
    if ss == [] then [s] else if Less(s, ss[0]) then [s] + ss else [ss[0]] + Insert(s, ss[1..])
  }

  lemma {:induction false} InsertAscends(s: string, ss: seq<string>)
    requires Ascending(ss) && s !in ss
    ensures Ascending(Insert(s, ss))
  {
    if ss != [] {
      var first, rest := ss[0], ss[1..];
      if Less(s, first) {
        forall j | 0 <= j < |ss| ensures Less(s, ss[j]) {
          if j > 0 { LessTransitive(s, first, ss[j]); }
        }
      } else {
        LessTotal(s, first);
        InsertAscends(s, rest);
        var tail := Insert(s, rest);
        forall j | 0 <= j < |tail| ensures Less(first, tail[j]) {
          assert tail[j] in tail;
          if tail[j] != s {
            var k :| 0 <= k < |rest| && rest[k] == tail[j];
            assert Less(ss[0], ss[k + 1]);
          }
        }
      }
    }
  }

  /** The members of a set in increasing order. */
  method Sorted(s: set<string>) returns (r: seq<string>)
    ensures Ascending(r) && forall x :: x in r <==> x in s
  {
    r := [];
    var left := s;
    while left != {}
      invariant Ascending(r) && left <= s && forall x :: x in r <==> x in s - left
      decreases |left|
    {
      var x :| x in left;
      InsertAscends(x, r);
      r := Insert(x, r);
      left := left - {x};
    }
  }

  method Listed(s: set<string>) returns (r: seq<string>)
    ensures forall x :: x in r <==> x in s
  {
    r := [];
    var left := s;
    while left != {}
      invariant left <= s && forall x :: x in r <==> x in s - left
      decreases |left|
    {
      var x :| x in left;
      r := r + [x];
      left := left - {x};
    }
  }

  // ---------- the worklist ----------

  /** Selected but unprocessed sources are pending; processed ones have everything. */
  ghost predicate Progress(selected: set<string>, pending: seq<string>, roots: set<string>,
                           dependencies: map<string, seq<string>>) {
    && roots <= selected && (forall p | p in pending :: p in selected)
    && (forall p | p in selected && p !in pending ::
          p in dependencies && forall i | 0 <= i < |dependencies[p]| :: dependencies[p][i] in selected)
    && (forall t | roots <= t && Closed(t, dependencies) :: selected <= t)
  }

  /** All selected sources are roots or known. */
  ghost predicate Bounded(selected: set<string>, roots: set<string>, dependencies: map<string, seq<string>>) {
    selected <= roots + dependencies.Keys
  }

  method Close(roots: set<string>, dependencies: map<string, seq<string>>) returns (r: Result<set<string>, Error>)
    requires forall p | p in dependencies :: forall i | 0 <= i < |dependencies[p]| :: dependencies[p][i] in dependencies
    ensures match r
      case Ok(s) => IsClosure(s, roots, dependencies)
      case Err(e) => e == UnknownSource && !(roots <= dependencies.Keys)
  {
    var selected := roots;
    var pending := Listed(roots);
    while pending != []
      invariant Progress(selected, pending, roots, dependencies) && Bounded(selected, roots, dependencies)
      decreases |roots + dependencies.Keys| - |selected|, |pending|
    {
      var path := pending[|pending| - 1];
      if path !in dependencies {
        return Err(UnknownSource);
      }
      ghost var before := selected;
      selected, pending := Expand(path, selected, pending[..|pending| - 1], roots, dependencies);
      SubsetSize(before, selected);
      SubsetSize(selected, roots + dependencies.Keys);
    }
    r := Ok(selected);
  }

  /** Process one source: add what it depends on and is not yet selected. */
  method Expand(path: string, before: set<string>, rest: seq<string>, ghost roots: set<string>,
                dependencies: map<string, seq<string>>)
    returns (selected: set<string>, pending: seq<string>)
    requires path in dependencies && Progress(before, rest + [path], roots, dependencies)
    requires Bounded(before, roots, dependencies)
    requires forall p | p in dependencies :: forall i | 0 <= i < |dependencies[p]| :: dependencies[p][i] in dependencies
    ensures Progress(selected, pending, roots, dependencies) && Bounded(selected, roots, dependencies)
    ensures before <= selected && (selected == before ==> pending == rest)
  {
    selected, pending := before, rest;
    var ds := dependencies[path];
    for i := 0 to |ds|
      invariant before <= selected && Bounded(selected, roots, dependencies) && (selected == before ==> pending == rest)
      invariant forall k | 0 <= k < i :: ds[k] in selected
      invariant forall p | p in pending :: p in selected
      invariant forall p | p in rest :: p in pending
      invariant forall p | p in selected - before :: p in pending
      invariant forall t | roots <= t && Closed(t, dependencies) :: selected <= t
    {
      if ds[i] !in selected {
        selected := selected + {ds[i]};
        pending := pending + [ds[i]];
      }
    }
  }

  // ---------- selecting a scope ----------

  predicate Distinct(ss: seq<string>) {
    forall i, j | 0 <= i < j < |ss| :: ss[i] != ss[j]
  }

  function Members(ss: seq<string>): (s: set<string>)
    ensures forall x :: x in s <==> x in ss
  {
    set x | x in ss
  }

  predicate DependenciesListed(index: Index) {
    forall p | p in index.dependencies ::
      forall i | 0 <= i < |index.dependencies[p]| :: index.dependencies[p][i] in index.inventory
  }

  /** The first check that fails, in the order of the checks. */
  function IndexProblem(index: Index, scope: string, validPath: string -> bool): Option<Error> {
    if index.profile != "development" then Some(UnsupportedIndex)
    else if index.schemaVersion == 1 then if scope != "development" then Some(UnknownScope) else None
    else if index.schemaVersion != 2 || scope !in index.scopes then Some(UnknownScope)
    else if exists p | p in index.inventory :: !validPath(p) then Some(InvalidSourcePath)
    else if !Distinct(index.inventory) || index.dependencies.Keys != Members(index.inventory) then
      Some(IncompleteInventory)
    else if !DependenciesListed(index) then Some(UnknownDependency)
    else None
  }

  /** The least closed set of sources that contains the scope's own, in increasing
    * order, with the dependencies of exactly those sources. */
  method SelectedScope(index: Index, scope: string, validPath: string -> bool) returns (r: Result<Selection, Error>)
    ensures IndexProblem(index, scope, validPath).Some? ==> r == Err(IndexProblem(index, scope, validPath).value)
    ensures IndexProblem(index, scope, validPath).None? && index.schemaVersion == 1 ==>
      r == Ok(Selection(index.sources, None))
    ensures IndexProblem(index, scope, validPath).None? && index.schemaVersion != 1 ==>
      var roots := Members(index.scopes[scope]);
      if !(roots <= index.dependencies.Keys) then r == Err(UnknownSource)
      else
        && r.Ok? && Ascending(r.value.sources) && IsClosure(Members(r.value.sources), roots, index.dependencies)
        && r.value.dependencies.Some?
        && Restricts(r.value.dependencies.value, index.dependencies, Members(r.value.sources))
  {
    var problem := IndexProblem(index, scope, validPath);
    if problem.Some? {
      return Err(problem.value);
    }
    if index.schemaVersion == 1 {
      return Ok(Selection(index.sources, None));
    }
    var roots := Members(index.scopes[scope]);
    var closure := Close(roots, index.dependencies);
    if closure.Err? {
      return Err(closure.error);
    }
    var sources := Sorted(closure.value);
    assert Members(sources) == closure.value;
    r := Ok(Selection(sources, Some(map p | p in closure.value :: index.dependencies[p])));
  }

  /** The part of the dependency map whose keys are exactly the given set. */
  predicate Restricts(part: map<string, seq<string>>, whole: map<string, seq<string>>, keys: set<string>) {
    part.Keys == keys && forall p | p in part :: p in whole && part[p] == whole[p]
  }

  // ---------- what the selection is ----------

  /** A path of dependencies from one source to another. */
  ghost predicate Path(ps: seq<string>, dependencies: map<string, seq<string>>) {
    ps != [] && forall i | 0 <= i < |ps| - 1 :: ps[i] in dependencies && ps[i + 1] in dependencies[ps[i]]
  }

  ghost predicate Reachable(x: string, roots: set<string>, dependencies: map<string, seq<string>>) {
    exists ps :: Path(ps, dependencies) && ps[0] in roots && ps[|ps| - 1] == x
  }

  lemma {:induction false} PathStaysInside(ps: seq<string>, s: set<string>, dependencies: map<string, seq<string>>)
    requires Path(ps, dependencies) && ps[0] in s && Closed(s, dependencies)
    ensures ps[|ps| - 1] in s
    decreases |ps|
  {
    if |ps| > 1 {
      var front := ps[..|ps| - 1];
      assert Path(front, dependencies);
      PathStaysInside(front, s, dependencies);
      assert ps[|ps| - 2] in dependencies && ps[|ps| - 2 + 1] in dependencies[ps[|ps| - 2]];
    }
  }

  lemma ReachableIsClosed(s: set<string>, roots: set<string>, dependencies: map<string, seq<string>>)
    requires IsClosure(s, roots, dependencies)
    ensures var t := set x | x in s && Reachable(x, roots, dependencies); roots <= t && Closed(t, dependencies)
  {
    var t := set x | x in s && Reachable(x, roots, dependencies);
    forall x | x in roots ensures x in t {
      assert Path([x], dependencies);
      assert [x][0] in roots && [x][|[x]| - 1] == x;
    }
    forall p, i | p in t && p in dependencies && 0 <= i < |dependencies[p]| ensures dependencies[p][i] in t {
      var ps :| Path(ps, dependencies) && ps[0] in roots && ps[|ps| - 1] == p;
      var longer := ps + [dependencies[p][i]];
      assert Path(longer, dependencies) && longer[0] in roots && longer[|longer| - 1] == dependencies[p][i];
    }
  }

  /** The selected sources are exactly those a chain of dependencies leads to. */
  lemma SelectedAreReachable(s: set<string>, roots: set<string>, dependencies: map<string, seq<string>>)
    requires IsClosure(s, roots, dependencies)
    ensures forall x :: x in s <==> Reachable(x, roots, dependencies)
  {
    ReachableIsClosed(s, roots, dependencies);
    forall x | Reachable(x, roots, dependencies) ensures x in s {
      var ps :| Path(ps, dependencies) && ps[0] in roots && ps[|ps| - 1] == x;
      PathStaysInside(ps, s, dependencies);
    }
  }

  /** Each check that fails before the selection, with the checks passed before it. */
  ghost predicate Fails(index: Index, scope: string, validPath: string -> bool, e: Error) {
    var listed := index.profile == "development" && index.schemaVersion == 2 && scope in index.scopes;
    var valid := forall i | 0 <= i < |index.inventory| :: validPath(index.inventory[i]);
    var complete :=
      && (forall i, j | 0 <= i < j < |index.inventory| :: index.inventory[i] != index.inventory[j])
      && (forall p :: p in index.dependencies <==> p in index.inventory);
    match e
    case UnsupportedIndex => index.profile != "development"
    case UnknownScope =>
      index.profile == "development" && !listed && !(index.schemaVersion == 1 && scope == "development")
    case InvalidSourcePath => listed && !valid
    case IncompleteInventory => listed && valid && !complete
    case UnknownDependency =>
      && listed && valid && complete
      && exists p, d | p in index.dependencies && d in index.dependencies[p] :: d !in index.inventory
    case UnknownSource => false
  }

  lemma KeysAreInventory(index: Index)
    ensures index.dependencies.Keys == Members(index.inventory) <==>
            forall p :: p in index.dependencies <==> p in index.inventory
  {
    if forall p :: p in index.dependencies <==> p in index.inventory {
      assert forall p :: p in index.dependencies.Keys <==> p in Members(index.inventory);
    }
  }

  /** An index is refused for the one check that fails first. */
  lemma RefusedExactly(index: Index, scope: string, validPath: string -> bool)
    ensures forall e :: IndexProblem(index, scope, validPath) == Some(e) <==> Fails(index, scope, validPath, e)
  {
    KeysAreInventory(index);
    assert (exists p | p in index.inventory :: !validPath(p)) <==>
           !forall i | 0 <= i < |index.inventory| :: validPath(index.inventory[i]);
    assert !DependenciesListed(index) <==>
           exists p, d | p in index.dependencies && d in index.dependencies[p] :: d !in index.inventory;
  }
}
