/**
 * Recording which variant a visitor was shown. A request looks the exposure up,
 * loads the variants and upserts, as three separate database calls; requests and
 * weight patches interleave in any order.
 */
module Exposures {
  import opened Wrappers
  import opened Assignment

  type Key = (string, string)

  datatype Db = Db(variants: map<string, seq<Variant>>, exposures: map<Key, string>)

  function VariantsOf(db: Db, experimentId: string): seq<Variant> {
    if experimentId in db.variants then db.variants[experimentId] else []
  }

  /** The unique index on (experiment, token) decides a race: an existing row is left as it is. */
  function Upserted(db: Db, key: Key, variantId: string): Db {
    if key in db.exposures then db else db.(exposures := db.exposures[key := variantId])
  }

  /** The database and the answer after a request that nothing interrupts. */
  ghost function Answered(sha: string -> UInt32, db: Db, key: Key): (Db, Result<string, AssignError>) {
    if key in db.exposures then (db, Ok(db.exposures[key]))
    else if VariantsOf(db, key.0) == [] then (db, Err(NoVariants))
    else
      var after := Upserted(db, key, Assigned(sha, key.0, VariantsOf(db, key.0), key.1));
      (after, Ok(after.exposures[key]))
  }

  class ExperimentDb {
    var db: Db

    method FindUnique(key: Key) returns (existing: Option<string>)
      ensures existing == if key in db.exposures then Some(db.exposures[key]) else None
    {
      existing := if key in db.exposures then Some(db.exposures[key]) else None;
    }

    method Upsert(key: Key, variantId: string) returns (recorded: string)
      modifies this
      ensures db == Upserted(old(db), key, variantId)
      ensures key in db.exposures && recorded == db.exposures[key]
    {
      db := Upserted(db, key, variantId);
      recorded := db.exposures[key];
    }

    method RecordExposure(sha: string -> UInt32, experimentId: string, token: string) returns (r: Result<string, AssignError>)
      modifies this
      ensures (db, r) == Answered(sha, old(db), (experimentId, token))
      ensures r.Err? <==> (experimentId, token) !in old(db).exposures && VariantsOf(old(db), experimentId) == []
      ensures r.Err? ==> db == old(db)
      ensures (experimentId, token) in old(db).exposures ==> db == old(db) && r == Ok(old(db).exposures[(experimentId, token)])
      ensures r.Ok? && (experimentId, token) !in old(db).exposures ==>
        && db.variants == old(db).variants && db.exposures == old(db).exposures[(experimentId, token) := r.value]
        && experimentId in db.variants
        && exists i: nat :: StopsAt(db.variants[experimentId], sha(experimentId + ":" + token) % 10000, i) && db.variants[experimentId][i].id == r.value
      ensures r.Ok? ==> (experimentId, token) in db.exposures && db.exposures[(experimentId, token)] == r.value
      ensures r.Ok? ==> db == (if (experimentId, token) in old(db).exposures then old(db) else
        Upserted(old(db), (experimentId, token), Assigned(sha, experimentId, VariantsOf(old(db), experimentId), token)))
    {
      var existing := FindUnique((experimentId, token));
      if existing.Some? { return Ok(existing.value); }
      var variants := VariantsOf(db, experimentId);
      if |variants| == 0 { return Err(NoVariants); }
      var chosen := AssignVariant(sha, experimentId, variants, token);
      var recorded := Upsert((experimentId, token), chosen.value);
      r := Ok(recorded);
    }
  }

  // ---- interleavings ----

  datatype Call =
    | Finding(key: Key)
    | Loading(key: Key)
    | Writing(key: Key, variants: seq<Variant>)
    | Completed(key: Key, variantId: string)
    | Refused(key: Key)

  datatype State = State(db: Db, calls: map<nat, Call>)

  /** A call makes its next database access, a request arrives, or weights are changed. */
  datatype Step = Arrive(call: nat, key: Key) | Advance(call: nat) | Patch(experimentId: string, weights: seq<Variant>)

  /** The three accesses, each atomic. */
  ghost function AdvanceCall(sha: string -> UInt32, db: Db, call: Call): (Db, Call) {
    match call
    case Finding(key) =>
      if key in db.exposures then (db, Completed(key, db.exposures[key])) else (db, Loading(key))
    case Loading(key) =>
      if VariantsOf(db, key.0) == [] then (db, Refused(key)) else (db, Writing(key, VariantsOf(db, key.0)))
    case Writing(key, variants) =>
      if variants == [] then (db, call)
      else
        var after := Upserted(db, key, Assigned(sha, key.0, variants, key.1));
        (after, Completed(key, after.exposures[key]))
    case _ => (db, call)
  }

  ghost function Next(sha: string -> UInt32, s: State, step: Step): State {
    match step
    case Arrive(call, key) => if call in s.calls then s else s.(calls := s.calls[call := Finding(key)])
    case Advance(call) =>
      if call !in s.calls then s
      else
        var (db, moved) := AdvanceCall(sha, s.db, s.calls[call]);
        State(db, s.calls[call := moved])
    case Patch(experimentId, weights) =>
      if experimentId !in s.db.variants then s
      else s.(db := s.db.(variants := s.db.variants[experimentId := AfterPatch(s.db.variants[experimentId], weights)]))
  }

  ghost function Run(sha: string -> UInt32, s: State, steps: seq<Step>): State {
    if steps == [] then s else Next(sha, Run(sha, s, steps[..|steps| - 1]), steps[|steps| - 1])
  }

  function CallAnswered(key: Key, r: Result<string, AssignError>): Call {
    match r case Ok(variantId) => Completed(key, variantId) case Err(_) => Refused(key)
  }

  /** A call whose three accesses nothing interrupts leaves the tables, and the answer, of the uninterrupted request. */
  lemma UninterruptedCall(sha: string -> UInt32, s: State, c: nat, key: Key)
    requires c in s.calls && s.calls[c] == Finding(key)
    ensures
      var (db, r) := Answered(sha, s.db, key);
      Run(sha, s, [Advance(c), Advance(c), Advance(c)]) == State(db, s.calls[c := CallAnswered(key, r)])
  {
    var first := Next(sha, s, Advance(c));
    var second := Next(sha, first, Advance(c));
    var third := Next(sha, second, Advance(c));
    assert [Advance(c), Advance(c), Advance(c)] == [] + [Advance(c)] + [Advance(c)] + [Advance(c)];
    Then(sha, s, [], Advance(c));
    Then(sha, s, [] + [Advance(c)], Advance(c));
    Then(sha, s, [] + [Advance(c)] + [Advance(c)], Advance(c));
    hide Run;
    ThreeAccesses(sha, s, c, key);
  }

  lemma Then(sha: string -> UInt32, s: State, steps: seq<Step>, step: Step)
    ensures Run(sha, s, steps + [step]) == Next(sha, Run(sha, s, steps), step)
  {
    assert (steps + [step])[..|steps|] == steps;
  }

  lemma ThreeAccesses(sha: string -> UInt32, s: State, c: nat, key: Key)
    requires c in s.calls && s.calls[c] == Finding(key)
    ensures
      var (db, r) := Answered(sha, s.db, key);
      Next(sha, Next(sha, Next(sha, s, Advance(c)), Advance(c)), Advance(c)) == State(db, s.calls[c := CallAnswered(key, r)])
  {
    hide Upserted;
    var vs := VariantsOf(s.db, key.0);
    var last := CallAnswered(key, Answered(sha, s.db, key).1);
    assert s.calls[c := last][c := last][c := last] == s.calls[c := last];
    assert s.calls[c := Loading(key)][c := last][c := last] == s.calls[c := last];
    assert s.calls[c := Loading(key)][c := Writing(key, vs)][c := last] == s.calls[c := last];
  }

  predicate Grown(a: map<Key, string>, b: map<Key, string>) {
    forall k :: k in a ==> k in b && b[k] == a[k]
  }

  predicate CompletedAsRecorded(s: State) {
    forall c :: c in s.calls && s.calls[c].Completed? ==>
      s.calls[c].key in s.db.exposures && s.db.exposures[s.calls[c].key] == s.calls[c].variantId
  }

  /** Recorded variants, and those a request has loaded, are variants of the experiment. */
  predicate OwnVariants(s: State) {
    && (forall k :: k in s.db.exposures ==> Lists(VariantsOf(s.db, k.0), s.db.exposures[k]))
    && (forall c :: c in s.calls && s.calls[c].Writing? ==>
          forall i :: 0 <= i < |s.calls[c].variants| ==> Lists(VariantsOf(s.db, s.calls[c].key.0), s.calls[c].variants[i].id))
  }

  lemma {:induction false} PatchKeepsIds(vs: seq<Variant>, patch: seq<Variant>, id: string)
    ensures Lists(AfterPatch(vs, patch), id) <==> Lists(vs, id)
  {
    var after := AfterPatch(vs, patch);
    forall i | 0 <= i < |vs| ensures after[i].id == vs[i].id { AfterPatchOf(vs, patch, i); }
    if Lists(after, id) {
      var i :| 0 <= i < |after| && after[i].id == id;
      assert vs[i].id == id;
    }
    if Lists(vs, id) {
      var i :| 0 <= i < |vs| && vs[i].id == id;
      assert after[i].id == id;
    }
  }

  lemma AdvanceKeeps(sha: string -> UInt32, s: State, c: nat)
    requires CompletedAsRecorded(s) && OwnVariants(s)
    ensures
      var next := Next(sha, s, Advance(c));
      Grown(s.db.exposures, next.db.exposures) && CompletedAsRecorded(next) && OwnVariants(next)
  {
    if c in s.calls && s.calls[c].Writing? && s.calls[c].variants != [] {
      var key, vs := s.calls[c].key, s.calls[c].variants;
      var id := Assigned(sha, key.0, vs, key.1);
      var i: nat :| StopsAt(vs, sha(key.0 + ":" + key.1) % BUCKETS, i) && vs[i].id == id;
      assert Lists(VariantsOf(s.db, key.0), vs[i].id);
    }
    if c in s.calls && s.calls[c].Loading? {
      var vs := VariantsOf(s.db, s.calls[c].key.0);
      forall i | 0 <= i < |vs| ensures Lists(vs, vs[i].id) { }
    }
  }

  lemma PatchKeeps(sha: string -> UInt32, s: State, experimentId: string, weights: seq<Variant>)
    requires CompletedAsRecorded(s) && OwnVariants(s)
    ensures
      var next := Next(sha, s, Patch(experimentId, weights));
      Grown(s.db.exposures, next.db.exposures) && CompletedAsRecorded(next) && OwnVariants(next)
  {
    if experimentId in s.db.variants {
      forall id ensures Lists(AfterPatch(s.db.variants[experimentId], weights), id) <==> Lists(s.db.variants[experimentId], id) {
        PatchKeepsIds(s.db.variants[experimentId], weights, id);
      }
      hide AfterPatch, Lists;
    }
  }

  lemma StepKeeps(sha: string -> UInt32, s: State, step: Step)
    requires CompletedAsRecorded(s) && OwnVariants(s)
    ensures
      var next := Next(sha, s, step);
      Grown(s.db.exposures, next.db.exposures) && CompletedAsRecorded(next) && OwnVariants(next)
  {
    match step
    case Arrive(c, key) =>
    case Advance(c) => AdvanceKeeps(sha, s, c);
    case Patch(experimentId, weights) => PatchKeeps(sha, s, experimentId, weights);
  }

  /** In every interleaving, what is recorded stays as it is, and completed calls return what is recorded. */
  lemma {:induction false} RecordedForGood(sha: string -> UInt32, s: State, steps: seq<Step>)
    requires CompletedAsRecorded(s) && OwnVariants(s)
    ensures
      var end := Run(sha, s, steps);
      Grown(s.db.exposures, end.db.exposures) && CompletedAsRecorded(end) && OwnVariants(end)
  {
    if steps != [] {
      var before := steps[..|steps| - 1];
      RecordedForGood(sha, s, before);
      StepKeeps(sha, Run(sha, s, before), steps[|steps| - 1]);
    }
  }

  /** A completed call's answer does not change. */
  lemma {:induction false} CompletedStays(sha: string -> UInt32, s: State, steps: seq<Step>, c: nat)
    requires c in s.calls && s.calls[c].Completed?
    ensures c in Run(sha, s, steps).calls && Run(sha, s, steps).calls[c] == s.calls[c]
  {
    if steps != [] { CompletedStays(sha, s, steps[..|steps| - 1], c); }
  }

  /**
   * From an empty exposure table: two calls of one visitor, completed at any two
   * points of any run, return the same variant, and it is one of the experiment's.
   */
  lemma AllCallsAgree(sha: string -> UInt32, variants: map<string, seq<Variant>>, first: seq<Step>, later: seq<Step>, c: nat, d: nat)
    requires
      var s := Run(sha, State(Db(variants, map[]), map[]), first);
      c in s.calls && s.calls[c].Completed?
    requires
      var s := Run(sha, State(Db(variants, map[]), map[]), first);
      var t := Run(sha, s, later);
      d in t.calls && t.calls[d].Completed? && t.calls[d].key == s.calls[c].key
    ensures
      var s := Run(sha, State(Db(variants, map[]), map[]), first);
      var t := Run(sha, s, later);
      t.calls[d].variantId == s.calls[c].variantId && Lists(VariantsOf(t.db, t.calls[d].key.0), t.calls[d].variantId)
  {
    var start := State(Db(variants, map[]), map[]);
    RecordedForGood(sha, start, first);
    RecordedForGood(sha, Run(sha, start, first), later);
  }
}
