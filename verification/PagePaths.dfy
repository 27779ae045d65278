/**
 * The paths a walk can take whatever is submitted: conditions may turn out either
 * way, so they follow from the spec alone.
 */
module PagePaths {
  import opened FormSpecs
  import opened JsonLogic
  import opened PageWalk

  /** The possible exits of page `i`: an action without a condition hides those after it. */
  function Exits(spec: FormSpec, actions: seq<Action>, i: nat): set<int>
    requires i < |spec.pages|
  {
    if actions == [] then {i + 1}
    else if actions[0].pageId != spec.pages[i].id || actions[0].do.SkipList? then Exits(spec, actions[1..], i)
    else {Leads(spec, actions[0].do, i)} + if actions[0].cond.Undefined? then {} else Exits(spec, actions[1..], i)
  }

  predicate IsExit(spec: FormSpec, i: int, next: int) {
    OnList(spec, i) && next in Exits(spec, spec.actions, i)
  }

  /** From the first page, exit by exit. */
  predicate IsPath(spec: FormSpec, path: seq<int>) {
    path != [] && path[0] == 0 && forall k :: 0 < k < |path| ==> IsExit(spec, path[k - 1], path[k])
  }

  /** A walk stops off the list, or at a page it has seen. */
  predicate Ended(spec: FormSpec, path: seq<int>)
    requires path != []
  {
    var last := path[|path| - 1];
    !OnList(spec, last) || last in path[..|path| - 1]
  }

  /** On every path to its end. */
  ghost predicate Unavoidable(spec: FormSpec, d: nat) {
    forall path :: IsPath(spec, path) && Ended(spec, path) ==> d in path
  }

  /** On every path to page `q`. */
  ghost predicate Dominates(spec: FormSpec, d: nat, q: nat) {
    forall path :: IsPath(spec, path) && path[|path| - 1] == q ==> d in path
  }

  /** A way out of a page: one of its actions that lists no pages, up to the first without a condition, or on to the next page if there is none such. */
  predicate OpenUpTo(actions: seq<Action>, id: string, m: nat) {
    m <= |actions| && forall j :: 0 <= j < m ==> !(actions[j].pageId == id && !actions[j].do.SkipList? && actions[j].cond.Undefined?)
  }

  lemma {:induction false} ExitsAre(spec: FormSpec, actions: seq<Action>, i: nat, next: int)
    requires i < |spec.pages|
    ensures next in Exits(spec, actions, i) <==>
      || (next == i + 1 && OpenUpTo(actions, spec.pages[i].id, |actions|))
      || exists m: nat :: m < |actions| && OpenUpTo(actions, spec.pages[i].id, m) && actions[m].pageId == spec.pages[i].id
           && !actions[m].do.SkipList? && next == Leads(spec, actions[m].do, i)
  {
    if actions != [] {
      var id, rest := spec.pages[i].id, actions[1..];
      ExitsAre(spec, rest, i, next);
      forall m: nat | m <= |rest| ensures OpenUpTo(actions, id, m + 1) <==>
        OpenUpTo(rest, id, m) && !(actions[0].pageId == id && !actions[0].do.SkipList? && actions[0].cond.Undefined?)
      {
        assert forall j :: 0 <= j < m ==> rest[j] == actions[j + 1];
      }
      assert OpenUpTo(actions, id, 0) && forall m: nat :: m < |rest| ==> rest[m] == actions[m + 1];
      hide Leads;
      if next in Exits(spec, actions, i) {
        if m: nat :| m < |rest| && OpenUpTo(rest, id, m) && rest[m].pageId == id && !rest[m].do.SkipList? && next == Leads(spec, rest[m].do, i) {
          assert actions[m + 1] == rest[m];
        }
      }
      if m: nat :| m < |actions| && OpenUpTo(actions, id, m) && actions[m].pageId == id && !actions[m].do.SkipList? && next == Leads(spec, actions[m].do, i) {
        if m > 0 { assert rest[m - 1] == actions[m] && OpenUpTo(actions, id, m - 1 + 1); }
      }
    }
  }

  // ---- walks are paths ----

  lemma {:induction false} FiredIsAnExit(e: Engine, spec: FormSpec, actions: seq<Action>, data: Values, i: nat)
    requires i < |spec.pages|
    ensures
      var fired := Fired(e, actions, spec.pages[i].id, data);
      (if fired.Some? then Leads(spec, fired.value, i) else i + 1) in Exits(spec, actions, i)
  {
    if actions != [] {
      FiredIsAnExit(e, spec, actions[1..], data, i);
    }
  }

  /** The first `n` steps of the orbit, and where they lead. */
  function OrbitPath(e: Engine, spec: FormSpec, data: Values, n: nat): (path: seq<int>)
    ensures |path| == n + 1 && path[n] == Orbit(e, spec, data, n)
    ensures forall k: nat :: k <= n ==> path[k] == Orbit(e, spec, data, k)
  {
    seq(n + 1, k requires 0 <= k <= n => Orbit(e, spec, data, k))
  }

  lemma OrbitIsAPath(e: Engine, spec: FormSpec, data: Values, n: nat)
    requires forall k: nat :: k < n ==> OnList(spec, Orbit(e, spec, data, k))
    ensures IsPath(spec, OrbitPath(e, spec, data, n))
  {
    var path := OrbitPath(e, spec, data, n);
    hide OrbitPath, Exits;
    forall k | 0 < k < |path| ensures IsExit(spec, path[k - 1], path[k]) {
      var i := Orbit(e, spec, data, k - 1);
      assert OnList(spec, i) && path[k] == NextIndex(e, spec, data, i);
      FiredIsAnExit(e, spec, spec.actions, data, i);
    }
  }

  lemma VisitedAt(e: Engine, spec: FormSpec, data: Values, k: nat)
    requires k < |Walk(e, spec, data).visited|
    ensures OnList(spec, Orbit(e, spec, data, k))
    ensures spec.pages[Orbit(e, spec, data, k)].id in Walk(e, spec, data).visited
  {
    WalkIsOrbitPrefix(e, spec, data);
  }

  /** Every walk visits an unavoidable page, whatever the data. */
  lemma UnavoidableIsVisited(e: Engine, spec: FormSpec, data: Values, d: nat)
    requires Distinct(PageIds(spec.pages)) && d < |spec.pages| && Unavoidable(spec, d)
    ensures spec.pages[d].id in Walk(e, spec, data).visited
  {
    var n := |Walk(e, spec, data).visited|;
    WalkIsOrbitPrefix(e, spec, data);
    var path := OrbitPath(e, spec, data, n);
    hide Walk, OrbitPath, Orbit, IsPath, Exits;
    forall k: nat | k < n ensures OnList(spec, Orbit(e, spec, data, k)) { VisitedAt(e, spec, data, k); }
    OrbitIsAPath(e, spec, data, n);
    if Walk(e, spec, data).cycleDetected {
      var j := CycleCloses(e, spec, data);
      assert path[..n][j] == path[n];
    }
    assert Ended(spec, path);
    var k: nat :| k <= n && path[k] == d;
    VisitedIsTheOrbit(e, spec, data, d);
  }

  lemma WhenVisited(e: Engine, spec: FormSpec, data: Values, q: nat) returns (n: nat)
    requires Distinct(PageIds(spec.pages)) && q < |spec.pages| && spec.pages[q].id in Walk(e, spec, data).visited
    ensures n < |Walk(e, spec, data).visited| && Orbit(e, spec, data, n) == q
  {
    hide Walk, Orbit;
    var visited := Walk(e, spec, data).visited;
    WalkIsOrbitPrefix(e, spec, data);
    n :| 0 <= n < |visited| && visited[n] == spec.pages[q].id;
    var ids := PageIds(spec.pages);
    assert ids[Orbit(e, spec, data, n)] == ids[q];
  }

  /** A walk that visits page `q` visits the pages on every path to it. */
  lemma DominatorIsVisited(e: Engine, spec: FormSpec, data: Values, d: nat, q: nat)
    requires Distinct(PageIds(spec.pages)) && d < |spec.pages| && q < |spec.pages| && Dominates(spec, d, q)
    requires spec.pages[q].id in Walk(e, spec, data).visited
    ensures spec.pages[d].id in Walk(e, spec, data).visited
  {
    hide Walk, OrbitPath, Orbit, IsPath, Exits, Distinct;
    var n := WhenVisited(e, spec, data, q);
    forall k: nat | k < n ensures OnList(spec, Orbit(e, spec, data, k)) { VisitedAt(e, spec, data, k); }
    OrbitIsAPath(e, spec, data, n);
    var path := OrbitPath(e, spec, data, n);
    var k: nat :| k <= n && path[k] == d;
    VisitedAt(e, spec, data, k);
  }

  // ---- pages on every path ----

  /** No exit of an earlier page goes past page `d`. */
  ghost predicate NonePassesOver(spec: FormSpec, d: nat) {
    forall i, next :: 0 <= i < d && IsExit(spec, i, next) ==> next <= d
  }

  /** ... nor back or to itself. */
  ghost predicate AllMoveOn(spec: FormSpec, d: nat) {
    forall i, next :: 0 <= i < d && IsExit(spec, i, next) ==> i < next
  }

  /** Up to page `d`, a path that has not passed it stays before it. */
  lemma {:induction false} StaysBefore(spec: FormSpec, path: seq<int>, d: nat, k: nat)
    requires IsPath(spec, path) && NonePassesOver(spec, d) && k < |path| && d !in path
    ensures path[k] < d
    ensures k > 0 ==> 0 <= path[k - 1]
  {
    if k > 0 {
      StaysBefore(spec, path, d, k - 1);
      assert IsExit(spec, path[k - 1], path[k]) && path[k] in path;
    } else {
      assert path[0] in path;
    }
  }

  /** A page that no earlier exit passes over is on every path to the pages after it. */
  lemma GateDominates(spec: FormSpec, d: nat, q: nat)
    requires NonePassesOver(spec, d) && d <= q
    ensures Dominates(spec, d, q)
  {
    forall path | IsPath(spec, path) && path[|path| - 1] == q ensures d in path {
      if d !in path { StaysBefore(spec, path, d, |path| - 1); }
    }
  }

  lemma {:induction false} Climbs(spec: FormSpec, path: seq<int>, d: nat, j: nat, k: nat)
    requires IsPath(spec, path) && NonePassesOver(spec, d) && AllMoveOn(spec, d) && j <= k < |path| && d !in path
    ensures 0 <= path[j] <= path[k] < d && (j < k ==> path[j] < path[k])
  {
    StaysBefore(spec, path, d, k);
    if k > 0 {
      StaysBefore(spec, path, d, k - 1);
      assert IsExit(spec, path[k - 1], path[k]);
      if j < k { Climbs(spec, path, d, j, k - 1); }
    }
  }

  /** A page that no earlier exit passes over or turns back before is on every path. */
  lemma GateIsUnavoidable(spec: FormSpec, d: nat)
    requires d < |spec.pages| && NonePassesOver(spec, d) && AllMoveOn(spec, d)
    ensures Unavoidable(spec, d)
  {
    forall path | IsPath(spec, path) && Ended(spec, path) ensures d in path {
      if d !in path {
        var last := |path| - 1;
        Climbs(spec, path, d, last, last);
        var j :| 0 <= j < last && path[j] == path[last];
        Climbs(spec, path, d, j, last);
      }
    }
  }

  lemma FirstPageIsUnavoidable(spec: FormSpec)
    ensures Unavoidable(spec, 0)
  {
  }

  /** Without actions every page is on every path. */
  lemma NoActionsNoDetour(spec: FormSpec, d: nat)
    requires spec.actions == [] && d < |spec.pages|
    ensures Unavoidable(spec, d)
  {
    GateIsUnavoidable(spec, d);
  }
}
