/**
 * The page walk: page-exit actions replayed from the first page until the walk
 * leaves the page list or comes back to a page it has seen.
 */
module PageWalk {
  import opened Wrappers
  import opened FormSpecs
  import opened JsonLogic
  import opened ScoringRunner

  /** What action conditions see: the score fields override calculations, which override submitted values. */
  function WalkData(values: Values, calcResults: Values, score: ScoreResult): Values {
    (values + calcResults)["score" := Num(score.total)]
      ["score_bucket" := match score.bucket case Some(name) => Str(name) case None => Null]
  }

  /** What a condition finds under each name. */
  lemma WalkDataAt(values: Values, calcResults: Values, score: ScoreResult, id: string)
    ensures id == "score" ==> At(WalkData(values, calcResults, score), id) == Num(score.total)
    ensures id == "score_bucket" ==>
      At(WalkData(values, calcResults, score), id) == if score.bucket.Some? then Str(score.bucket.value) else Null
    ensures id != "score" && id != "score_bucket" && id in calcResults ==> At(WalkData(values, calcResults, score), id) == calcResults[id]
    ensures id != "score" && id != "score_bucket" && id !in calcResults ==> At(WalkData(values, calcResults, score), id) == At(values, id)
  {
  }

  function PageIds(pages: seq<Page>): (ids: seq<string>)
    ensures |ids| == |pages|
    ensures forall i :: 0 <= i < |ids| ==> ids[i] == pages[i].id
  {
    seq(|pages|, i requires 0 <= i < |pages| => pages[i].id)
  }

  predicate Distinct(ids: seq<string>) {
    forall i, j :: 0 <= i < j < |ids| ==> ids[i] != ids[j]
  }

  /** A page's index; of several pages with one id, the last. */
  function IndexOf(ids: seq<string>, id: string): (r: Option<nat>)
    ensures r.None? <==> id !in ids
    ensures r.Some? ==> r.value < |ids| && ids[r.value] == id && forall j :: r.value < j < |ids| ==> ids[j] != id
  {
    if ids == [] then None
    else if ids[|ids| - 1] == id then Some(|ids| - 1)
    else IndexOf(ids[..|ids| - 1], id)
  }

  predicate Fires(e: Engine, a: Action, data: Values) {
    (a.cond.Undefined? || Met(e, a.cond, data)) && !a.do.SkipList?
  }

  /** The first action of the page that fires; one with a list of pages to skip never does. */
  function Fired(e: Engine, actions: seq<Action>, id: string, data: Values): Option<Do> {
    if actions == [] then None
    else if actions[0].pageId == id && Fires(e, actions[0], data) then Some(actions[0].do)
    else Fired(e, actions[1..], id, data)
  }

  /** Where an exit leads from page `i`, clamped to just past the list; an unknown target gives natural progression. */
  function Leads(spec: FormSpec, exit: Do, i: nat): (next: int)
    requires i < |spec.pages|
    ensures next <= |spec.pages|
  {
    match exit
    case JumpToPage(target) =>
      (match IndexOf(PageIds(spec.pages), target) case Some(t) => t case None => i + 1)
    case SkipCount(n) => if i + 1 + n <= |spec.pages| then i + 1 + n else |spec.pages|
    case SkipList(targets) => i + 1
  }

  /** Where the walk goes from page `i`. */
  function NextIndex(e: Engine, spec: FormSpec, data: Values, i: nat): (next: int)
    requires i < |spec.pages|
    ensures next <= |spec.pages|
  {
    match Fired(e, spec.actions, spec.pages[i].id, data)
    case None => i + 1
    case Some(exit) => Leads(spec, exit, i)
  }

  predicate OnList(spec: FormSpec, i: int) {
    0 <= i < |spec.pages|
  }

  /** The `k`th index the page-exit step reaches from page 0; an index off the list stays where it is. */
  function Orbit(e: Engine, spec: FormSpec, data: Values, k: nat): (i: int)
    ensures i <= |spec.pages|
  {
    if k == 0 then 0
    else
      var i := Orbit(e, spec, data, k - 1);
      if OnList(spec, i) then NextIndex(e, spec, data, i) else i
  }

  function IdsOf(spec: FormSpec): set<string> {
    set p | p in spec.pages :: p.id
  }

  function Unvisited(spec: FormSpec, visited: seq<string>): set<string> {
    IdsOf(spec) - set id | id in visited
  }

  lemma VisitShrinks(spec: FormSpec, visited: seq<string>, i: nat)
    requires i < |spec.pages| && spec.pages[i].id !in visited
    ensures Unvisited(spec, visited + [spec.pages[i].id]) == Unvisited(spec, visited) - {spec.pages[i].id}
    ensures spec.pages[i].id in Unvisited(spec, visited)
  {
    var more := visited + [spec.pages[i].id];
    assert forall id :: id in more <==> id in visited || id == spec.pages[i].id;
  }

  /** Visited ids in order, and whether the walk ended at a page it had visited. */
  function WalkFrom(e: Engine, spec: FormSpec, data: Values, i: int, visited: seq<string>): (seq<string>, bool)
    decreases Unvisited(spec, visited)
  {
    if !OnList(spec, i) then (visited, false)
    else if spec.pages[i].id in visited then (visited, true)
    else
      var id := spec.pages[i].id;
      VisitShrinks(spec, visited, i);
      WalkFrom(e, spec, data, NextIndex(e, spec, data, i), visited + [id])
  }

  function Without(ids: seq<string>, gone: seq<string>): (r: seq<string>) {
    if ids == [] then []
    else Without(ids[..|ids| - 1], gone) + (if ids[|ids| - 1] in gone then [] else [ids[|ids| - 1]])
  }

  datatype Traversal = Traversal(visited: seq<string>, skipped: seq<string>, finalOrder: seq<string>, cycleDetected: bool)

  function Walk(e: Engine, spec: FormSpec, data: Values): Traversal {
    var (visited, cycle) := WalkFrom(e, spec, data, 0, []);
    Traversal(visited, Without(PageIds(spec.pages), visited), visited, cycle)
  }

  // ---- the loops ----

  function Applicable(actions: seq<Action>, id: string): seq<Action> {
    if actions == [] then []
    else (if actions[0].pageId == id then [actions[0]] else []) + Applicable(actions[1..], id)
  }

  lemma {:induction false} FiredAmongApplicable(e: Engine, actions: seq<Action>, id: string, data: Values)
    ensures Fired(e, Applicable(actions, id), id, data) == Fired(e, actions, id, data)
    ensures forall a :: a in Applicable(actions, id) ==> a.pageId == id
  {
    if actions != [] {
      FiredAmongApplicable(e, actions[1..], id, data);
      var rest := Applicable(actions[1..], id);
      if actions[0].pageId == id {
        var all := [actions[0]] + rest;
        assert Applicable(actions, id) == all;
        assert all[0] == actions[0] && all[1..] == rest;
      } else {
        assert [] + rest == rest;
      }
    }
  }

  /** The action loop of one page: None stands for natural progression. */
  method DecideNext(e: Engine, spec: FormSpec, pageIndex: map<string, nat>, data: Values, currentIdx: nat)
      returns (nextIdx: Option<int>)
    requires currentIdx < |spec.pages| && Indexes(pageIndex, PageIds(spec.pages))
    ensures NextIndex(e, spec, data, currentIdx) ==
      match nextIdx case Some(n) => (if n <= |spec.pages| then n else |spec.pages|) case None => currentIdx + 1
  {
    var currentId := spec.pages[currentIdx].id;
    var applicable := Applicable(spec.actions, currentId);
    FiredAmongApplicable(e, spec.actions, currentId, data);
    nextIdx := None;
    for i := 0 to |applicable|
      invariant nextIdx == None
      invariant Fired(e, applicable[i..], currentId, data) == Fired(e, spec.actions, currentId, data)
    {
      var action := applicable[i];
      var conditionMet := true;
      if action.cond != Undefined {
        conditionMet := Met(e, action.cond, data);
      }
      assert applicable[i..][1..] == applicable[i + 1..];
      if !conditionMet { continue; }
      if action.do.JumpToPage? {
        if action.do.target in pageIndex {
          nextIdx := Some(pageIndex[action.do.target]);
        }
        return;
      } else if action.do.SkipCount? {
        nextIdx := Some(currentIdx + 1 + action.do.n);
        return;
      }
    }
  }

  ghost predicate Indexes(pageIndex: map<string, nat>, ids: seq<string>) {
    forall id :: IndexOf(ids, id) == if id in pageIndex then Some(pageIndex[id]) else None
  }

  method PageIndex(ids: seq<string>) returns (pageIndex: map<string, nat>)
    ensures Indexes(pageIndex, ids)
  {
    pageIndex := map[];
    for i := 0 to |ids|
      invariant Indexes(pageIndex, ids[..i])
    {
      assert ids[..i + 1][..i] == ids[..i];
      pageIndex := pageIndex[ids[i] := i];
    }
    assert ids[..|ids|] == ids;
  }

  method ComputeVisitedPages(e: Engine, spec: FormSpec, values: Values, calcResults: Values, score: ScoreResult)
      returns (r: Traversal)
    ensures r == Walk(e, spec, WalkData(values, calcResults, score))
  {
    var pageIds := PageIds(spec.pages);
    var pageIndex := PageIndex(pageIds);
    var data := WalkData(values, calcResults, score);
    var visited: seq<string>, visitedSet: set<string> := [], {};
    var currentIdx, cycleDetected := 0, false;
    while 0 <= currentIdx < |spec.pages|
      invariant visitedSet == set id | id in visited
      invariant WalkFrom(e, spec, data, currentIdx, visited) == WalkFrom(e, spec, data, 0, [])
      decreases IdsOf(spec) - visitedSet
    {
      var currentId := spec.pages[currentIdx].id;
      if currentId in visitedSet {
        cycleDetected := true;
        break;
      }
      assert currentId in IdsOf(spec);
      visited := visited + [currentId];
      visitedSet := visitedSet + {currentId};
      var nextIdx := DecideNext(e, spec, pageIndex, data, currentIdx);
      currentIdx :=
        match nextIdx case Some(n) => (if n <= |spec.pages| then n else |spec.pages|) case None => currentIdx + 1;
    }
    var skipped := FilterUnvisited(pageIds, visited, visitedSet);
    r := Traversal(visited, skipped, visited, cycleDetected);
  }

  method FilterUnvisited(pageIds: seq<string>, ghost visited: seq<string>, visitedSet: set<string>) returns (skipped: seq<string>)
    requires visitedSet == set id | id in visited
    ensures skipped == Without(pageIds, visited)
  {
    skipped := [];
    for i := 0 to |pageIds|
      invariant skipped == Without(pageIds[..i], visited)
    {
      assert pageIds[..i + 1][..i] == pageIds[..i];
      if pageIds[i] !in visitedSet { skipped := skipped + [pageIds[i]]; }
    }
    assert pageIds[..|pageIds|] == pageIds;
  }

  // ---- the walk is the orbit ----

  /** `visited` lists the pages at the first indices of the orbit, each id once. */
  ghost predicate OrbitPrefix(e: Engine, spec: FormSpec, data: Values, visited: seq<string>) {
    && Distinct(visited)
    && forall k: nat :: k < |visited| ==>
         var i := Orbit(e, spec, data, k);
         OnList(spec, i) && spec.pages[i].id == visited[k]
  }

  lemma OrbitPrefixGrows(e: Engine, spec: FormSpec, data: Values, visited: seq<string>)
    requires OrbitPrefix(e, spec, data, visited)
    requires
      var i := Orbit(e, spec, data, |visited|);
      OnList(spec, i) && spec.pages[i].id !in visited
    ensures OrbitPrefix(e, spec, data, visited + [spec.pages[Orbit(e, spec, data, |visited|)].id])
  {
    hide Orbit;
    var more := visited + [spec.pages[Orbit(e, spec, data, |visited|)].id];
    assert forall k: nat :: k < |visited| ==> more[k] == visited[k];
  }

  /** For any spec, the walk follows the orbit until it leaves the list or meets an id again. */
  lemma {:induction false} WalkFollowsOrbit(e: Engine, spec: FormSpec, data: Values, visited: seq<string>)
    requires OrbitPrefix(e, spec, data, visited)
    ensures
      var (all, cycle) := WalkFrom(e, spec, data, Orbit(e, spec, data, |visited|), visited);
      var end := Orbit(e, spec, data, |all|);
      && OrbitPrefix(e, spec, data, all)
      && (if cycle then OnList(spec, end) && spec.pages[end].id in all else !OnList(spec, end))
    decreases Unvisited(spec, visited)
  {
    hide NextIndex, OrbitPrefix;
    var i := Orbit(e, spec, data, |visited|);
    if OnList(spec, i) && spec.pages[i].id !in visited {
      var id := spec.pages[i].id;
      VisitShrinks(spec, visited, i);
      OrbitPrefixGrows(e, spec, data, visited);
      assert Orbit(e, spec, data, |visited + [id]|) == NextIndex(e, spec, data, i);
      WalkFollowsOrbit(e, spec, data, visited + [id]);
    }
  }

  lemma WalkIsOrbitPrefix(e: Engine, spec: FormSpec, data: Values)
    ensures
      var w := Walk(e, spec, data);
      var end := Orbit(e, spec, data, |w.visited|);
      && OrbitPrefix(e, spec, data, w.visited)
      && (if w.cycleDetected then OnList(spec, end) && spec.pages[end].id in w.visited else !OnList(spec, end))
  {
    WalkFollowsOrbit(e, spec, data, []);
  }

  lemma {:induction false} OrbitRepeats(e: Engine, spec: FormSpec, data: Values, j: nat, k: nat, d: nat)
    requires Orbit(e, spec, data, j) == Orbit(e, spec, data, k)
    ensures Orbit(e, spec, data, j + d) == Orbit(e, spec, data, k + d)
  {
    if d > 0 { OrbitRepeats(e, spec, data, j, k, d - 1); }
  }

  lemma {:induction false} OffListForGood(e: Engine, spec: FormSpec, data: Values, n: nat, k: nat)
    requires n <= k && !OnList(spec, Orbit(e, spec, data, n))
    ensures !OnList(spec, Orbit(e, spec, data, k))
  {
    if n < k { OffListForGood(e, spec, data, n, k - 1); }
  }

  /** Once the orbit has returned to an earlier point, every later point is one of the first `n`. */
  lemma {:induction false} EveryPointIsEarly(e: Engine, spec: FormSpec, data: Values, j: nat, n: nat, k: nat)
    requires j < n && Orbit(e, spec, data, j) == Orbit(e, spec, data, n)
    ensures exists m: nat :: m < n && Orbit(e, spec, data, m) == Orbit(e, spec, data, k)
    decreases k
  {
    if k >= n {
      OrbitRepeats(e, spec, data, j, n, k - n);
      EveryPointIsEarly(e, spec, data, j, n, j + (k - n));
    }
  }

  /** Where a detected cycle closes, given distinct page ids. */
  lemma CycleCloses(e: Engine, spec: FormSpec, data: Values) returns (j: nat)
    requires Distinct(PageIds(spec.pages)) && Walk(e, spec, data).cycleDetected
    ensures j < |Walk(e, spec, data).visited|
    ensures Orbit(e, spec, data, j) == Orbit(e, spec, data, |Walk(e, spec, data).visited|)
  {
    WalkIsOrbitPrefix(e, spec, data);
    var visited := Walk(e, spec, data).visited;
    var end := Orbit(e, spec, data, |visited|);
    j :| 0 <= j < |visited| && visited[j] == spec.pages[end].id;
    var i := Orbit(e, spec, data, j);
    var ids := PageIds(spec.pages);
    assert ids[i] == ids[end];
  }

  /** A cycle is reported exactly when the orbit never leaves the page list. */
  lemma CycleMeansForever(e: Engine, spec: FormSpec, data: Values)
    requires Distinct(PageIds(spec.pages))
    ensures Walk(e, spec, data).cycleDetected <==> forall k: nat :: OnList(spec, Orbit(e, spec, data, k))
  {
    WalkIsOrbitPrefix(e, spec, data);
    var n := |Walk(e, spec, data).visited|;
    if Walk(e, spec, data).cycleDetected {
      var j := CycleCloses(e, spec, data);
      forall k: nat ensures OnList(spec, Orbit(e, spec, data, k)) {
        EveryPointIsEarly(e, spec, data, j, n, k);
      }
    }
  }

  /** A page is visited exactly when the orbit reaches it. */
  lemma VisitedIsTheOrbit(e: Engine, spec: FormSpec, data: Values, i: nat)
    requires Distinct(PageIds(spec.pages)) && i < |spec.pages|
    ensures spec.pages[i].id in Walk(e, spec, data).visited <==> exists k: nat :: Orbit(e, spec, data, k) == i
  {
    WalkIsOrbitPrefix(e, spec, data);
    var visited := Walk(e, spec, data).visited;
    var ids := PageIds(spec.pages);
    if spec.pages[i].id in visited {
      var k: nat :| k < |visited| && visited[k] == spec.pages[i].id;
      assert ids[Orbit(e, spec, data, k)] == ids[i];
    }
    if k: nat :| Orbit(e, spec, data, k) == i {
      if Walk(e, spec, data).cycleDetected {
        var j := CycleCloses(e, spec, data);
        EveryPointIsEarly(e, spec, data, j, |visited|, k);
        var m: nat :| m < |visited| && Orbit(e, spec, data, m) == i;
        assert visited[m] == spec.pages[i].id;
      } else {
        if k >= |visited| { OffListForGood(e, spec, data, |visited|, k); }
        assert visited[k] == spec.pages[i].id;
      }
    }
  }

  lemma {:induction false} WithoutMembers(ids: seq<string>, gone: seq<string>, id: string)
    ensures id in Without(ids, gone) <==> id in ids && id !in gone
    ensures Distinct(ids) ==> Distinct(Without(ids, gone))
  {
    if ids != [] {
      var front, last := ids[..|ids| - 1], ids[|ids| - 1];
      WithoutMembers(front, gone, id);
      WithoutMembers(front, gone, last);
      assert id in ids <==> id in front || id == last;
    }
  }

  /** Filtering two lists put together filters each: skipped pages are in the order of the spec. */
  lemma {:induction false} WithoutConcat(a: seq<string>, b: seq<string>, gone: seq<string>)
    ensures Without(a + b, gone) == Without(a, gone) + Without(b, gone)
  {
    if b == [] {
      assert a + b == a;
    } else {
      var all := a + b;
      assert all[..|all| - 1] == a + b[..|b| - 1];
      WithoutConcat(a, b[..|b| - 1], gone);
    }
  }

  /** A page that was left out is listed after those left out before it. */
  lemma SkippedInOrder(e: Engine, spec: FormSpec, data: Values, p: nat)
    requires p < |spec.pages| && spec.pages[p].id !in Walk(e, spec, data).visited
    ensures
      var w, ids := Walk(e, spec, data), PageIds(spec.pages);
      w.skipped == Without(ids[..p], w.visited) + [spec.pages[p].id] + Without(ids[p + 1..], w.visited)
  {
    var w, ids := Walk(e, spec, data), PageIds(spec.pages);
    var one := [ids[p]];
    assert ids == (ids[..p] + one) + ids[p + 1..];
    WithoutConcat(ids[..p] + one, ids[p + 1..], w.visited);
    WithoutConcat(ids[..p], one, w.visited);
    assert one[..0] == [] && Without(one, w.visited) == [] + one;
  }

  /** Visited and skipped split the pages: every id is in exactly one of them, once. */
  lemma VisitedAndSkippedSplit(e: Engine, spec: FormSpec, data: Values)
    requires Distinct(PageIds(spec.pages))
    ensures
      var w := Walk(e, spec, data);
      && Distinct(w.visited + w.skipped)
      && forall id :: id in w.visited + w.skipped <==> id in PageIds(spec.pages)
  {
    WalkIsOrbitPrefix(e, spec, data);
    var w, ids := Walk(e, spec, data), PageIds(spec.pages);
    forall id ensures (id in w.skipped <==> id in ids && id !in w.visited) && Distinct(w.skipped) {
      WithoutMembers(ids, w.visited, id);
    }
    forall id | id in w.visited ensures id in ids {
      var k: nat :| k < |w.visited| && w.visited[k] == id;
      assert ids[Orbit(e, spec, data, k)] == id;
    }
    forall i, j | 0 <= i < |w.visited| && 0 <= j < |w.skipped| ensures w.visited[i] != w.skipped[j] {
      assert w.visited[i] in w.visited && w.skipped[j] in w.skipped;
    }
  }

  // ---- one step ----

  /** The action acts on the page: it is the page's, lists no pages, and its condition is absent or comes out true. */
  predicate ActsOn(e: Engine, a: Action, id: string, data: Values) {
    && a.pageId == id && !a.do.SkipList?
    && (a.cond.Undefined? || (Apply(e, a.cond, data).Value? && Truthy(Apply(e, a.cond, data).v)))
  }

  /** Action `m` is the first that acts on the page. */
  predicate ActsFirst(e: Engine, actions: seq<Action>, id: string, data: Values, m: nat) {
    m < |actions| && ActsOn(e, actions[m], id, data) && forall j :: 0 <= j < m ==> !ActsOn(e, actions[j], id, data)
  }

  lemma {:induction false} FiredIsFirst(e: Engine, actions: seq<Action>, id: string, data: Values, m: nat)
    requires ActsFirst(e, actions, id, data, m)
    ensures Fired(e, actions, id, data) == Some(actions[m].do)
  {
    assert Fires(e, actions[0], data) && actions[0].pageId == id <==> ActsOn(e, actions[0], id, data);
    if m > 0 {
      assert !ActsOn(e, actions[0], id, data);
      FiredIsFirst(e, actions[1..], id, data, m - 1);
    }
  }

  lemma {:induction false} NothingFires(e: Engine, actions: seq<Action>, id: string, data: Values)
    requires forall a :: a in actions ==> !ActsOn(e, a, id, data)
    ensures Fired(e, actions, id, data) == None
  {
    if actions != [] {
      assert actions[0] in actions && forall a :: a in actions[1..] ==> a in actions;
      NothingFires(e, actions[1..], id, data);
    }
  }

  /** A jump to a declared page lands on it. */
  lemma JumpLands(e: Engine, spec: FormSpec, data: Values, i: nat, target: string)
    requires i < |spec.pages| && Fired(e, spec.actions, spec.pages[i].id, data) == Some(JumpToPage(target))
    requires target in PageIds(spec.pages)
    ensures
      var next := NextIndex(e, spec, data, i);
      OnList(spec, next) && spec.pages[next].id == target
  {
  }

  /** A page on which nothing acts is followed by the next. */
  lemma NothingActs(e: Engine, spec: FormSpec, data: Values, i: nat)
    requires i < |spec.pages| && forall a :: a in spec.actions ==> !ActsOn(e, a, spec.pages[i].id, data)
    ensures NextIndex(e, spec, data, i) == i + 1
  {
    NothingFires(e, spec.actions, spec.pages[i].id, data);
  }

  /** The first action that acts decides: a jump lands on the last page with its target, and an unknown target changes nothing. */
  lemma JumpGoesThere(e: Engine, spec: FormSpec, data: Values, i: nat, m: nat)
    requires i < |spec.pages| && ActsFirst(e, spec.actions, spec.pages[i].id, data, m) && spec.actions[m].do.JumpToPage?
    ensures
      var target, next := spec.actions[m].do.target, NextIndex(e, spec, data, i);
      if exists p :: 0 <= p < |spec.pages| && spec.pages[p].id == target
      then OnList(spec, next) && spec.pages[next].id == target && forall q :: next < q < |spec.pages| ==> spec.pages[q].id != target
      else next == i + 1
  {
    FiredIsFirst(e, spec.actions, spec.pages[i].id, data, m);
    var ids, target := PageIds(spec.pages), spec.actions[m].do.target;
    if p :| 0 <= p < |spec.pages| && spec.pages[p].id == target { assert ids[p] == target; }
  }

  /** A count of `n` leaves out exactly `n` pages, or all that are left when there are fewer. */
  lemma SkipLeavesOut(e: Engine, spec: FormSpec, data: Values, i: nat, m: nat)
    requires i < |spec.pages| && ActsFirst(e, spec.actions, spec.pages[i].id, data, m) && spec.actions[m].do.SkipCount?
    ensures
      var n, next := spec.actions[m].do.n, NextIndex(e, spec, data, i);
      && (0 <= n <= |spec.pages| - (i + 1) ==> i < next && |spec.pages[i + 1..next]| == n)
      && (n > |spec.pages| - (i + 1) ==> next == |spec.pages|)
      && (n < 0 ==> next == i + 1 + n)
  {
    FiredIsFirst(e, spec.actions, spec.pages[i].id, data, m);
  }

  /**
   * Two neighbours of a walk: where nothing acts on the first, the second is the
   * page after it; where a jump to a declared page does, its target; where a count
   * does, the page with that many pages between.
   */
  lemma NeighboursOfTheWalk(e: Engine, spec: FormSpec, data: Values, k: nat) returns (i: nat, next: nat)
    requires k + 1 < |Walk(e, spec, data).visited|
    ensures i < |spec.pages| && next < |spec.pages|
    ensures spec.pages[i].id == Walk(e, spec, data).visited[k] && spec.pages[next].id == Walk(e, spec, data).visited[k + 1]
    ensures (forall a :: a in spec.actions ==> !ActsOn(e, a, spec.pages[i].id, data)) ==> next == i + 1
    ensures forall m: nat :: ActsFirst(e, spec.actions, spec.pages[i].id, data, m) ==>
      match spec.actions[m].do
      case JumpToPage(target) => if exists p :: 0 <= p < |spec.pages| && spec.pages[p].id == target then spec.pages[next].id == target else next == i + 1
      case SkipCount(n) => next == i + 1 + n
      case SkipList(_) => false
  {
    WalkIsOrbitPrefix(e, spec, data);
    i, next := Orbit(e, spec, data, k), Orbit(e, spec, data, k + 1);
    hide Walk, Orbit, NextIndex, ActsOn;
    OrbitSteps(e, spec, data, k);
    if forall a :: a in spec.actions ==> !ActsOn(e, a, spec.pages[i].id, data) { NothingActs(e, spec, data, i); }
    forall m: nat | ActsFirst(e, spec.actions, spec.pages[i].id, data, m)
      ensures
        match spec.actions[m].do
        case JumpToPage(target) => if exists p :: 0 <= p < |spec.pages| && spec.pages[p].id == target then spec.pages[next].id == target else next == i + 1
        case SkipCount(n) => next == i + 1 + n
        case SkipList(_) => false
    {
      ActsIsNoList(e, spec.actions, spec.pages[i].id, data, m);
      if spec.actions[m].do.JumpToPage? { JumpGoesThere(e, spec, data, i, m); }
      if spec.actions[m].do.SkipCount? { SkipLeavesOut(e, spec, data, i, m); }
    }
  }

  lemma ActsIsNoList(e: Engine, actions: seq<Action>, id: string, data: Values, m: nat)
    requires ActsFirst(e, actions, id, data, m)
    ensures !actions[m].do.SkipList?
  {
  }

  lemma OrbitSteps(e: Engine, spec: FormSpec, data: Values, k: nat)
    requires OnList(spec, Orbit(e, spec, data, k))
    ensures Orbit(e, spec, data, k + 1) == NextIndex(e, spec, data, Orbit(e, spec, data, k))
  {
  }

  /** A walk starts on the first page, and ends where its last page's exit leaves the list, or, a cycle, leads to a page it has visited. */
  lemma EndsOfTheWalk(e: Engine, spec: FormSpec, data: Values)
    requires spec.pages != []
    ensures
      var w := Walk(e, spec, data);
      && w.visited != [] && w.visited[0] == spec.pages[0].id && w.finalOrder == w.visited
      && exists i: nat :: i < |spec.pages| && spec.pages[i].id == w.visited[|w.visited| - 1] && LeadsOut(e, spec, data, i, w)
  {
    WalkIsOrbitPrefix(e, spec, data);
    FirstIsVisited(e, spec, data);
    var w := Walk(e, spec, data);
    var last := |w.visited| - 1;
    var i := Orbit(e, spec, data, last);
    assert Orbit(e, spec, data, 0) == 0;
    hide Walk, Orbit, NextIndex;
    OrbitSteps(e, spec, data, last);
    assert LeadsOut(e, spec, data, i, w);
  }

  predicate LeadsOut(e: Engine, spec: FormSpec, data: Values, i: nat, w: Traversal)
    requires i < |spec.pages|
  {
    var next := NextIndex(e, spec, data, i);
    if w.cycleDetected then OnList(spec, next) && spec.pages[next].id in w.visited else !OnList(spec, next)
  }

  lemma FirstIsVisited(e: Engine, spec: FormSpec, data: Values)
    requires spec.pages != []
    ensures Walk(e, spec, data).visited != []
  {
    VisitShrinks(spec, [], 0);
    WalkKeeps(e, spec, data, NextIndex(e, spec, data, 0), [spec.pages[0].id], spec.pages[0].id);
    assert [] + [spec.pages[0].id] == [spec.pages[0].id];
  }

  // ---- lists of pages to skip ----

  function WithoutSkipLists(actions: seq<Action>): seq<Action> {
    if actions == [] then []
    else (if actions[0].do.SkipList? then [] else [actions[0]]) + WithoutSkipLists(actions[1..])
  }

  lemma {:induction false} SkipListNeverFires(e: Engine, actions: seq<Action>, id: string, data: Values)
    ensures Fired(e, WithoutSkipLists(actions), id, data) == Fired(e, actions, id, data)
  {
    if actions != [] {
      SkipListNeverFires(e, actions[1..], id, data);
      var rest := WithoutSkipLists(actions[1..]);
      if actions[0].do.SkipList? {
        assert [] + rest == rest;
      } else {
        var kept := [actions[0]] + rest;
        assert kept[0] == actions[0] && kept[1..] == rest;
      }
    }
  }

  lemma {:induction false} SkipListsDoNotMove(e: Engine, spec: FormSpec, data: Values, i: int, visited: seq<string>)
    ensures WalkFrom(e, spec.(actions := WithoutSkipLists(spec.actions)), data, i, visited) == WalkFrom(e, spec, data, i, visited)
    decreases Unvisited(spec, visited)
  {
    var bare := spec.(actions := WithoutSkipLists(spec.actions));
    if OnList(spec, i) && spec.pages[i].id !in visited {
      SkipListNeverFires(e, spec.actions, spec.pages[i].id, data);
      VisitShrinks(spec, visited, i);
      assert NextIndex(e, bare, data, i) == NextIndex(e, spec, data, i);
      SkipListsDoNotMove(e, spec, data, NextIndex(e, spec, data, i), visited + [spec.pages[i].id]);
    }
  }

  /** For every spec and all data, the walk is that of the spec without its list-form skips. */
  lemma SkipListsAreIgnored(e: Engine, spec: FormSpec, data: Values)
    ensures Walk(e, spec.(actions := WithoutSkipLists(spec.actions)), data) == Walk(e, spec, data)
  {
    SkipListsDoNotMove(e, spec, data, 0, []);
  }

  // ---- what the walk reads ----

  lemma {:induction false} FiredFrame(e: Engine, actions: seq<Action>, id: string, a: Values, b: Values)
    requires forall x :: x in actions && x.pageId == id ==> PlainVars(x.cond) && AgreeOn(VarRefs(x.cond), a, b)
    ensures Fired(e, actions, id, a) == Fired(e, actions, id, b)
  {
    if actions != [] {
      if actions[0].pageId == id {
        MetFrame(e, actions[0].cond, a, b);
      }
      FiredFrame(e, actions[1..], id, a, b);
    }
  }

  /** Data that agree on what visited pages' conditions read give the same walk. */
  lemma {:induction false} WalkFromFrame(e: Engine, spec: FormSpec, a: Values, b: Values, i: int, visited: seq<string>)
    requires
      var all := WalkFrom(e, spec, a, i, visited).0;
      forall x :: x in spec.actions && x.pageId in all ==> PlainVars(x.cond) && AgreeOn(VarRefs(x.cond), a, b)
    ensures WalkFrom(e, spec, a, i, visited) == WalkFrom(e, spec, b, i, visited)
    decreases Unvisited(spec, visited)
  {
    if OnList(spec, i) && spec.pages[i].id !in visited {
      var id := spec.pages[i].id;
      VisitShrinks(spec, visited, i);
      WalkKeeps(e, spec, a, NextIndex(e, spec, a, i), visited + [id], id);
      FiredFrame(e, spec.actions, id, a, b);
      WalkFromFrame(e, spec, a, b, NextIndex(e, spec, a, i), visited + [id]);
    }
  }

  lemma {:induction false} WalkKeeps(e: Engine, spec: FormSpec, data: Values, i: int, visited: seq<string>, id: string)
    requires id in visited
    ensures id in WalkFrom(e, spec, data, i, visited).0
    decreases Unvisited(spec, visited)
  {
    if OnList(spec, i) && spec.pages[i].id !in visited {
      VisitShrinks(spec, visited, i);
      WalkKeeps(e, spec, data, NextIndex(e, spec, data, i), visited + [spec.pages[i].id], id);
    }
  }
}
