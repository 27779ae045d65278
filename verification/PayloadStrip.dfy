/**
 * Stripping a submission to the pages its own walk visits, and what the submit
 * route stores around it.
 */
module PayloadStrip {
  import opened Wrappers
  import opened FormSpecs
  import opened FieldLayout
  import opened CalcSheet
  import opened CalcRunner
  import opened JsonLogic
  import opened ScoringRunner
  import opened PageWalk

  /** `Object.entries` of a payload. */
  type Payload = seq<Prop>

  predicate DistinctKeys(raw: Payload) {
    forall i, j :: 0 <= i < j < |raw| ==> raw[i].name != raw[j].name
  }

  function AsValues(raw: Payload): Values {
    if raw == [] then map[] else AsValues(raw[..|raw| - 1])[raw[|raw| - 1].name := raw[|raw| - 1].value]
  }

  function MapFields(m: map<string, string>, fields: seq<Field>, pageId: string): map<string, string> {
    if fields == [] then m else MapFields(m, fields[..|fields| - 1], pageId)[fields[|fields| - 1].id := pageId]
  }

  /** The page each field id is on; of several fields with one id, the last. */
  function FieldToPage(pages: seq<Page>): map<string, string> {
    if pages == [] then map[]
    else MapFields(FieldToPage(pages[..|pages| - 1]), pages[|pages| - 1].fields, pages[|pages| - 1].id)
  }

  predicate OnVisitedPage(pages: seq<Page>, visited: seq<string>, key: string) {
    key in FieldToPage(pages) && FieldToPage(pages)[key] in visited
  }

  function Kept(pages: seq<Page>, visited: seq<string>, raw: Payload): (r: Payload)
    ensures |r| <= |raw|
  {
    if raw == [] then []
    else
      var last := raw[|raw| - 1];
      Kept(pages, visited, raw[..|raw| - 1]) + (if OnVisitedPage(pages, visited, last.name) then [last] else [])
  }

  function Dropped(pages: seq<Page>, visited: seq<string>, raw: Payload): seq<string> {
    if raw == [] then []
    else
      var last := raw[|raw| - 1];
      Dropped(pages, visited, raw[..|raw| - 1]) + (if OnVisitedPage(pages, visited, last.name) then [] else [last.name])
  }

  /** Calculations, then the score, then the walk. */
  function TraversalOf(p: Platform, e: Engine, spec: FormSpec, values: Values): Traversal
    requires PlainIds(spec)
  {
    var calcResults := FreshResults(p, FieldIds(spec.pages), spec.calculations, values);
    Walk(e, spec, WalkData(values, calcResults, Score(e, spec.scoring, values, calcResults)))
  }

  function Sanitized(p: Platform, e: Engine, spec: FormSpec, raw: Payload): Payload
    requires PlainIds(spec)
  {
    Kept(spec.pages, TraversalOf(p, e, spec, AsValues(raw)).visited, raw)
  }

  function Stripped(p: Platform, e: Engine, spec: FormSpec, raw: Payload): seq<string>
    requires PlainIds(spec)
  {
    Dropped(spec.pages, TraversalOf(p, e, spec, AsValues(raw)).visited, raw)
  }

  /**
   * What the conditions on the way see: under `score` and `score_bucket` the score of
   * the submitted values and the calculations, under a calculation's id its result,
   * and under any other name the submitted value.
   */
  lemma TraversalSees(p: Platform, e: Engine, spec: FormSpec, values: Values) returns (data: Values)
    requires PlainIds(spec)
    ensures TraversalOf(p, e, spec, values) == Walk(e, spec, data)
    ensures
      var calcs := FreshResults(p, FieldIds(spec.pages), spec.calculations, values);
      var score := Score(e, spec.scoring, values, calcs);
      forall id :: At(data, id) ==
        if id == "score" then Num(score.total)
        else if id == "score_bucket" then (if score.bucket.Some? then Str(score.bucket.value) else Null)
        else if id in calcs then calcs[id]
        else At(values, id)
  {
    var calcs := FreshResults(p, FieldIds(spec.pages), spec.calculations, values);
    var score := Score(e, spec.scoring, values, calcs);
    data := WalkData(values, calcs, score);
    hide FreshResults, Score, Walk, WalkData, FieldIds;
    forall id ensures At(data, id) ==
      if id == "score" then Num(score.total)
      else if id == "score_bucket" then (if score.bucket.Some? then Str(score.bucket.value) else Null)
      else if id in calcs then calcs[id]
      else At(values, id)
    {
      WalkDataAt(values, calcs, score, id);
    }
  }

  // ---- the loops ----

  method MapFieldsToPages(pages: seq<Page>) returns (fieldToPage: map<string, string>)
    ensures fieldToPage == FieldToPage(pages)
  {
    fieldToPage := map[];
    for p := 0 to |pages|
      invariant fieldToPage == FieldToPage(pages[..p])
    {
      var fields := pages[p].fields;
      for f := 0 to |fields|
        invariant fieldToPage == MapFields(FieldToPage(pages[..p]), fields[..f], pages[p].id)
      {
        assert fields[..f + 1][..f] == fields[..f];
        fieldToPage := fieldToPage[fields[f].id := pages[p].id];
      }
      assert fields[..|fields|] == fields;
      assert pages[..p + 1][..p] == pages[..p];
    }
    assert pages[..|pages|] == pages;
  }

  datatype StripAudit = StripAudit(
    actorAccountId: Option<string>, submissionId: string, strippedFields: seq<string>,
    visitedPages: seq<string>, skippedPages: seq<string>, cycleDetected: bool, formId: string, version: nat)

  class AuditTrail {
    var rows: seq<StripAudit>

    /** A write that fails leaves no row. */
    method Create(row: StripAudit, works: bool)
      modifies this
      ensures rows == old(rows) + if works then [row] else []
    {
      if works { rows := rows + [row]; }
    }
  }

  datatype Job = Job(spec: FormSpec, formId: string, version: nat, submissionId: string, actorAccountId: Option<string>)

  function AuditRow(job: Job, stripped: seq<string>, t: Traversal): StripAudit {
    StripAudit(job.actorAccountId, job.submissionId, stripped, t.visited, t.skipped, t.cycleDetected, job.formId, job.version)
  }

  /** The audit row names the job and says what its walk visited, skipped and stripped. */
  predicate Tells(row: StripAudit, job: Job, stripped: seq<string>, t: Traversal) {
    && row.actorAccountId == job.actorAccountId && row.submissionId == job.submissionId
    && row.formId == job.formId && row.version == job.version
    && row.strippedFields == stripped && row.visitedPages == t.visited && row.skippedPages == t.skipped
    && row.cycleDetected == t.cycleDetected
  }

  ghost predicate Serviceable(service: CalcService, job: Job)
    reads service, service.hfCache.Values
  {
    service.Valid() && PlainIds(job.spec) && job.spec == service.published(job.formId, job.version)
  }

  method StripSkippedFields(service: CalcService, e: Engine, job: Job, raw: Payload, audit: AuditTrail, auditWorks: bool)
      returns (sanitized: Payload, stripped: seq<string>)
    requires Serviceable(service, job) && DistinctKeys(raw)
    modifies service, service.hfCache.Values, audit
    ensures Serviceable(service, job) && fresh(service.hfCache.Values - old(service.hfCache.Values))
    ensures sanitized == Sanitized(service.p, e, job.spec, raw)
    ensures stripped == Stripped(service.p, e, job.spec, raw)
    ensures audit.rows == old(audit.rows) +
      if stripped == [] || !auditWorks then []
      else [AuditRow(job, stripped, TraversalOf(service.p, e, job.spec, AsValues(raw)))]
    ensures stripped != [] && auditWorks ==>
      |audit.rows| > 0 && Tells(audit.rows[|audit.rows| - 1], job, stripped, TraversalOf(service.p, e, job.spec, AsValues(raw)))
  {
    hide FreshResults, Score, Walk, WalkData, Kept, Dropped;
    var values := AsValues(raw);
    var calcResults := service.ComputeCalculationsServer(job.spec, values, job.formId, job.version);
    var score := ComputeScoreServer(e, job.spec.scoring, values, calcResults);
    var traversal := ComputeVisitedPages(e, job.spec, values, calcResults, score);
    sanitized, stripped := SplitPayload(job.spec.pages, traversal.visited, raw);
    if |stripped| > 0 {
      WriteAudit(service, job, traversal, stripped, audit, auditWorks);
    }
  }

  method WriteAudit(service: CalcService, job: Job, t: Traversal, stripped: seq<string>, audit: AuditTrail, works: bool)
    requires Serviceable(service, job)
    modifies audit
    ensures Serviceable(service, job)
    ensures audit.rows == old(audit.rows) + if works then [AuditRow(job, stripped, t)] else []
  {
    audit.Create(AuditRow(job, stripped, t), works);
  }

  method SplitPayload(pages: seq<Page>, visited: seq<string>, raw: Payload) returns (sanitized: Payload, stripped: seq<string>)
    ensures sanitized == Kept(pages, visited, raw)
    ensures stripped == Dropped(pages, visited, raw)
  {
    var visitedSet := set id | id in visited;
    var fieldToPage := MapFieldsToPages(pages);
    sanitized, stripped := [], [];
    for i := 0 to |raw|
      invariant sanitized == Kept(pages, visited, raw[..i])
      invariant stripped == Dropped(pages, visited, raw[..i])
    {
      assert raw[..i + 1][..i] == raw[..i];
      var key := raw[i].name;
      if key !in fieldToPage {
        stripped := stripped + [key];
        continue;
      }
      if fieldToPage[key] !in visitedSet {
        stripped := stripped + [key];
        continue;
      }
      sanitized := sanitized + [raw[i]];
    }
    assert raw[..|raw|] == raw;
  }

  // ---- what is kept ----

  lemma {:induction false} MapFieldsLookup(m: map<string, string>, fields: seq<Field>, pageId: string, key: string)
    ensures
      var r := MapFields(m, fields, pageId);
      if key in PageFieldIds(fields) then key in r && r[key] == pageId
      else (key in r <==> key in m) && (key in m ==> r[key] == m[key])
  {
    if fields != [] {
      var front, last := fields[..|fields| - 1], fields[|fields| - 1];
      MapFieldsLookup(m, front, pageId, key);
      var ids := PageFieldIds(front);
      assert PageFieldIds(fields) == ids + [last.id];
    }
  }

  predicate Declares(page: Page, key: string) {
    key in PageFieldIds(page.fields)
  }

  lemma {:induction false} DeclaredOrNot(pages: seq<Page>, key: string)
    ensures key in FieldToPage(pages) <==> exists p :: 0 <= p < |pages| && Declares(pages[p], key)
    ensures key in FieldIds(pages) <==> key in FieldToPage(pages)
    ensures key in FieldToPage(pages) ==> exists p :: 0 <= p < |pages| && Declares(pages[p], key) && FieldToPage(pages)[key] == pages[p].id
  {
    if pages != [] {
      var front, last := pages[..|pages| - 1], pages[|pages| - 1];
      DeclaredOrNot(front, key);
      MapFieldsLookup(FieldToPage(front), last.fields, last.id, key);
      if Declares(last, key) {
        assert pages[|pages| - 1] == last;
      } else if key in FieldToPage(front) {
        var p :| 0 <= p < |front| && Declares(front[p], key) && FieldToPage(front)[key] == front[p].id;
        assert pages[p] == front[p];
      } else {
        forall p | 0 <= p < |pages| ensures !Declares(pages[p], key) {
          assert p < |front| ==> pages[p] == front[p];
        }
      }
    }
  }

  /** No field id is declared on two pages. */
  ghost predicate FieldsOnOnePage(pages: seq<Page>) {
    forall p, q, key :: 0 <= p < q < |pages| && Declares(pages[p], key) ==> !Declares(pages[q], key)
  }

  /** Where no field id is on two pages, the page of a field is the one that declares it. */
  lemma PageOfField(pages: seq<Page>, p: nat, key: string)
    requires FieldsOnOnePage(pages) && p < |pages| && Declares(pages[p], key)
    ensures key in FieldToPage(pages) && FieldToPage(pages)[key] == pages[p].id
  {
    DeclaredOrNot(pages, key);
    var q :| 0 <= q < |pages| && Declares(pages[q], key) && FieldToPage(pages)[key] == pages[q].id;
    assert p == q;
  }

  predicate HasKey(raw: Payload, key: string) {
    exists i :: 0 <= i < |raw| && raw[i].name == key
  }

  lemma HasKeySnoc(raw: Payload, last: Prop, key: string)
    ensures HasKey(raw + [last], key) <==> last.name == key || HasKey(raw, key)
  {
    var more := raw + [last];
    assert more[|raw|] == last;
    if HasKey(raw, key) {
      var i :| 0 <= i < |raw| && raw[i].name == key;
      assert more[i].name == key;
    }
  }

  lemma {:induction false} KeptOrDropped(pages: seq<Page>, visited: seq<string>, raw: Payload)
    ensures forall x :: x in Kept(pages, visited, raw) <==> x in raw && OnVisitedPage(pages, visited, x.name)
    ensures forall key :: key in Dropped(pages, visited, raw) <==>
              HasKey(raw, key) && !OnVisitedPage(pages, visited, key)
    ensures |Kept(pages, visited, raw)| + |Dropped(pages, visited, raw)| == |raw|
    ensures Dropped(pages, visited, raw) == [] <==> Kept(pages, visited, raw) == raw
  {
    if raw != [] {
      var front, last := raw[..|raw| - 1], raw[|raw| - 1];
      KeptOrDropped(pages, visited, front);
      assert raw == front + [last];
      forall key ensures HasKey(raw, key) <==> last.name == key || HasKey(front, key) {
        HasKeySnoc(front, last, key);
      }
    }
  }

  lemma KeptSnoc(pages: seq<Page>, visited: seq<string>, raw: Payload)
    requires raw != []
    ensures
      var front, last := raw[..|raw| - 1], raw[|raw| - 1];
      && Kept(pages, visited, raw) == Kept(pages, visited, front) + (if OnVisitedPage(pages, visited, last.name) then [last] else [])
      && Dropped(pages, visited, raw) == Dropped(pages, visited, front) + (if OnVisitedPage(pages, visited, last.name) then [] else [last.name])
  {
  }

  /** Two payloads put together keep and drop what each keeps and drops: both lists are in the payload's order. */
  lemma {:induction false} KeptInOrder(pages: seq<Page>, visited: seq<string>, a: Payload, b: Payload)
    ensures Kept(pages, visited, a + b) == Kept(pages, visited, a) + Kept(pages, visited, b)
    ensures Dropped(pages, visited, a + b) == Dropped(pages, visited, a) + Dropped(pages, visited, b)
  {
    if b == [] {
      assert a + b == a;
    } else {
      hide OnVisitedPage;
      var all, front, last := a + b, b[..|b| - 1], b[|b| - 1];
      assert all[..|all| - 1] == a + front && all[|all| - 1] == last;
      KeptInOrder(pages, visited, a, front);
      hide Kept, Dropped;
      KeptSnoc(pages, visited, all);
      KeptSnoc(pages, visited, b);
    }
  }

  /** A payload gives each of its names the value beside it, and no other name any. */
  lemma {:induction false} ValuesOfPayload(raw: Payload)
    requires DistinctKeys(raw)
    ensures forall i :: 0 <= i < |raw| ==> raw[i].name in AsValues(raw) && AsValues(raw)[raw[i].name] == raw[i].value
    ensures forall name :: name in AsValues(raw) ==> HasKey(raw, name)
  {
    if raw != [] {
      var front, last := raw[..|raw| - 1], raw[|raw| - 1];
      ValuesOfPayload(front);
      assert raw == front + [last];
      forall name ensures HasKey(raw, name) <==> last.name == name || HasKey(front, name) { HasKeySnoc(front, last, name); }
    }
  }

  /** An entry survives exactly when a visited page declares its field; values are untouched. */
  lemma SanitizedExactly(p: Platform, e: Engine, spec: FormSpec, raw: Payload, x: Prop)
    requires PlainIds(spec) && FieldsOnOnePage(spec.pages)
    ensures x in Sanitized(p, e, spec, raw) <==>
      x in raw && exists q :: 0 <= q < |spec.pages| && Declares(spec.pages[q], x.name)
                           && spec.pages[q].id in TraversalOf(p, e, spec, AsValues(raw)).visited
  {
    var visited := TraversalOf(p, e, spec, AsValues(raw)).visited;
    KeptOrDropped(spec.pages, visited, raw);
    DeclaredOrNot(spec.pages, x.name);
    forall q | 0 <= q < |spec.pages| && Declares(spec.pages[q], x.name)
      ensures x.name in FieldToPage(spec.pages) && FieldToPage(spec.pages)[x.name] == spec.pages[q].id
    {
      PageOfField(spec.pages, q, x.name);
    }
  }

  // ---- stability ----

  lemma {:induction false} KeptAt(pages: seq<Page>, visited: seq<string>, raw: Payload, id: string)
    ensures At(AsValues(Kept(pages, visited, raw)), id) ==
      if OnVisitedPage(pages, visited, id) then At(AsValues(raw), id) else Undefined
  {
    if raw != [] {
      var front, last := raw[..|raw| - 1], raw[|raw| - 1];
      KeptAt(pages, visited, front, id);
      if OnVisitedPage(pages, visited, last.name) {
        var kept := Kept(pages, visited, front) + [last];
        assert kept[..|kept| - 1] == Kept(pages, visited, front);
      } else {
        assert Kept(pages, visited, front) + [] == Kept(pages, visited, front);
      }
    }
  }

  function RuleReads(scoring: Option<Scoring>): set<string> {
    if scoring.Some? && scoring.value.enabled
    then set i, r | 0 <= i < |scoring.value.rules| && r in VarRefs(scoring.value.rules[i].cond) :: r
    else {}
  }

  /** What the action conditions of visited pages read. */
  function ActionReads(actions: seq<Action>, visited: seq<string>): set<string> {
    set i, r | 0 <= i < |actions| && actions[i].pageId in visited && r in VarRefs(actions[i].cond) :: r
  }

  predicate PlainConditions(spec: FormSpec) {
    && (spec.scoring.Some? ==> forall i :: 0 <= i < |spec.scoring.value.rules| ==> PlainVars(spec.scoring.value.rules[i].cond))
    && (forall i :: 0 <= i < |spec.actions| ==> PlainVars(spec.actions[i].cond))
  }

  /** Stripping leaves the field as the walk saw it. */
  predicate Safe(pages: seq<Page>, visited: seq<string>, raw: Payload, id: string) {
    OnVisitedPage(pages, visited, id) || At(AsValues(raw), id).Undefined?
  }

  /**
   * Everything the calculations, the scoring rules and the visited pages' conditions
   * read is safe; a rule or condition may also read a calculation's id, and a
   * condition the score.
   */
  predicate ReadsAreSafe(p: Platform, e: Engine, spec: FormSpec, raw: Payload)
    requires PlainIds(spec)
  {
    var visited := TraversalOf(p, e, spec, AsValues(raw)).visited;
    var calcIds := CalcRows(spec.calculations, |spec.calculations|).Keys;
    && (forall id :: id in CalcReads(FieldIds(spec.pages), spec.calculations) ==> Safe(spec.pages, visited, raw, id))
    && (forall id :: id in RuleReads(spec.scoring) - calcIds ==> Safe(spec.pages, visited, raw, id))
    && (forall id :: id in ActionReads(spec.actions, visited) - calcIds - {"score", "score_bucket"} ==> Safe(spec.pages, visited, raw, id))
  }

  lemma SafeAgrees(pages: seq<Page>, visited: seq<string>, raw: Payload, id: string)
    requires Safe(pages, visited, raw, id)
    ensures At(AsValues(Kept(pages, visited, raw)), id) == At(AsValues(raw), id)
  {
    KeptAt(pages, visited, raw, id);
  }

  lemma ScoreUnmoved(e: Engine, scoring: Option<Scoring>, a: Values, b: Values, calcResults: Values)
    requires scoring.Some? ==> forall i :: 0 <= i < |scoring.value.rules| ==> PlainVars(scoring.value.rules[i].cond)
    requires forall id :: id in RuleReads(scoring) - calcResults.Keys ==> At(a, id) == At(b, id)
    ensures Score(e, scoring, a, calcResults) == Score(e, scoring, b, calcResults)
  {
    if scoring.Some? && scoring.value.enabled {
      var rules := scoring.value.rules;
      var da, db := ScoreData(a, calcResults), ScoreData(b, calcResults);
      forall i | 0 <= i < |rules| ensures PlainVars(rules[i].cond) && AgreeOn(VarRefs(rules[i].cond), da, db) {
        forall r | r in VarRefs(rules[i].cond) ensures At(da, r) == At(db, r) {
          assert r in RuleReads(scoring);
          assert r !in calcResults ==> At(a, r) == At(b, r);
        }
      }
      MatchingThensFrame(e, rules, da, db);
    }
  }

  lemma WalkUnmoved(e: Engine, spec: FormSpec, a: Values, b: Values, calcResults: Values, score: ScoreResult)
    requires forall i :: 0 <= i < |spec.actions| ==> PlainVars(spec.actions[i].cond)
    requires
      var visited := Walk(e, spec, WalkData(a, calcResults, score)).visited;
      forall id :: id in ActionReads(spec.actions, visited) - calcResults.Keys - {"score", "score_bucket"} ==> At(a, id) == At(b, id)
    ensures Walk(e, spec, WalkData(a, calcResults, score)) == Walk(e, spec, WalkData(b, calcResults, score))
  {
    var da, db := WalkData(a, calcResults, score), WalkData(b, calcResults, score);
    var visited := Walk(e, spec, da).visited;
    forall i | 0 <= i < |spec.actions| && spec.actions[i].pageId in visited
      ensures AgreeOn(VarRefs(spec.actions[i].cond), da, db)
    {
      forall r | r in VarRefs(spec.actions[i].cond) ensures At(da, r) == At(db, r) {
        assert r in ActionReads(spec.actions, visited);
        assert r !in calcResults && r != "score" && r != "score_bucket" ==> At(a, r) == At(b, r);
      }
    }
    WalkFromFrame(e, spec, da, db, 0, []);
  }

  /** Re-running calculations, score and walk on the stripped payload takes the same walk. */
  lemma StrippingKeepsTheWalk(p: Platform, e: Engine, spec: FormSpec, raw: Payload)
    requires PlainIds(spec) && PlainConditions(spec) && ReadsAreSafe(p, e, spec, raw)
    ensures TraversalOf(p, e, spec, AsValues(Sanitized(p, e, spec, raw))) == TraversalOf(p, e, spec, AsValues(raw))
  {
    var ids, calcs := FieldIds(spec.pages), spec.calculations;
    var a := AsValues(raw);
    var visited := TraversalOf(p, e, spec, a).visited;
    var b := AsValues(Sanitized(p, e, spec, raw));
    forall id | Safe(spec.pages, visited, raw, id) ensures At(a, id) == At(b, id) {
      SafeAgrees(spec.pages, visited, raw, id);
    }
    FreshResultsFrame(p, ids, calcs, a, b);
    var calcResults := FreshResults(p, ids, calcs, a);
    assert calcResults.Keys == CalcRows(calcs, |calcs|).Keys;
    ScoreUnmoved(e, spec.scoring, a, b, calcResults);
    WalkUnmoved(e, spec, a, b, calcResults, Score(e, spec.scoring, a, calcResults));
  }

  lemma {:induction false} KeptAgain(pages: seq<Page>, visited: seq<string>, raw: Payload)
    ensures Dropped(pages, visited, Kept(pages, visited, raw)) == []
  {
    if raw != [] {
      var front, last := raw[..|raw| - 1], raw[|raw| - 1];
      KeptAgain(pages, visited, front);
      if OnVisitedPage(pages, visited, last.name) {
        var kept := Kept(pages, visited, front) + [last];
        assert kept[..|kept| - 1] == Kept(pages, visited, front);
      } else {
        assert Kept(pages, visited, front) + [] == Kept(pages, visited, front);
      }
    }
  }

  /** Stripping is stable: a second run strips nothing more. */
  lemma StrippingIsStable(p: Platform, e: Engine, spec: FormSpec, raw: Payload)
    requires PlainIds(spec) && PlainConditions(spec) && ReadsAreSafe(p, e, spec, raw)
    ensures Stripped(p, e, spec, Sanitized(p, e, spec, raw)) == []
    ensures Sanitized(p, e, spec, Sanitized(p, e, spec, raw)) == Sanitized(p, e, spec, raw)
  {
    StrippingKeepsTheWalk(p, e, spec, raw);
    var visited := TraversalOf(p, e, spec, AsValues(raw)).visited;
    KeptAgain(spec.pages, visited, raw);
    KeptOrDropped(spec.pages, visited, Sanitized(p, e, spec, raw));
  }

  // ---- the submit route ----

  function KnownOnly(pages: seq<Page>, raw: Payload): Payload {
    if raw == [] then []
    else
      var last := raw[|raw| - 1];
      KnownOnly(pages, raw[..|raw| - 1]) + (if last.name in FieldIds(pages) then [last] else [])
  }

  /** The filter keeps the payload's order too. */
  lemma {:induction false} KnownInOrder(pages: seq<Page>, a: Payload, b: Payload)
    ensures KnownOnly(pages, a + b) == KnownOnly(pages, a) + KnownOnly(pages, b)
  {
    if b == [] {
      assert a + b == a;
    } else {
      var all, front := a + b, b[..|b| - 1];
      assert all[..|all| - 1] == a + front;
      KnownInOrder(pages, a, front);
    }
  }

  class SubmissionTable {
    var payloads: map<string, Payload>

    method Put(service: CalcService, job: Job, payload: Payload)
      requires Serviceable(service, job)
      modifies this
      ensures Serviceable(service, job)
      ensures payloads == old(payloads)[job.submissionId := payload]
    {
      payloads := payloads[job.submissionId := payload];
    }
  }

  /** Equal counts mean that nothing was stripped. */
  lemma SameCountSamePayload(p: Platform, e: Engine, spec: FormSpec, raw: Payload)
    requires PlainIds(spec) && |Sanitized(p, e, spec, raw)| == |raw|
    ensures Sanitized(p, e, spec, raw) == raw
  {
    KeptOrDropped(spec.pages, TraversalOf(p, e, spec, AsValues(raw)).visited, raw);
  }

  lemma {:induction false} KnownOnlyMembers(pages: seq<Page>, raw: Payload)
    ensures forall x :: x in KnownOnly(pages, raw) <==> x in raw && x.name in FieldIds(pages)
    ensures DistinctKeys(raw) ==> DistinctKeys(KnownOnly(pages, raw))
  {
    if raw != [] {
      var front, last := raw[..|raw| - 1], raw[|raw| - 1];
      KnownOnlyMembers(pages, front);
      assert raw == front + [last];
      if DistinctKeys(raw) {
        forall i | 0 <= i < |KnownOnly(pages, front)| ensures KnownOnly(pages, front)[i].name != last.name {
          assert KnownOnly(pages, front)[i] in front;
        }
      }
    }
  }

  /**
   * Filter, store, strip, and store again when something was stripped: the stored
   * payload ends up being the sanitized one, although only the counts are compared.
   */
  method StoreSubmission(service: CalcService, e: Engine, job: Job, payload: Payload, table: SubmissionTable,
                         audit: AuditTrail, auditWorks: bool) returns (visitedOnly: Payload)
    requires Serviceable(service, job) && DistinctKeys(payload)
    modifies service, service.hfCache.Values, audit, table
    ensures visitedOnly == Sanitized(service.p, e, job.spec, KnownOnly(job.spec.pages, payload))
    ensures table.payloads == old(table.payloads)[job.submissionId := visitedOnly]
  {
    hide FreshResults, Sanitized, Stripped, KnownOnly;
    var knownOnly := FilterKnown(job.spec.pages, payload);
    KnownOnlyMembers(job.spec.pages, payload);
    table.Put(service, job, knownOnly);
    var stripped;
    visitedOnly, stripped := StripSkippedFields(service, e, job, knownOnly, audit, auditWorks);
    if |visitedOnly| != |knownOnly| {
      table.Put(service, job, visitedOnly);
    } else {
      SameCountSamePayload(service.p, e, job.spec, knownOnly);
    }
  }

  method FilterKnown(pages: seq<Page>, payload: Payload) returns (knownOnly: Payload)
    ensures knownOnly == KnownOnly(pages, payload)
  {
    var fieldIds: set<string> := {};
    for p := 0 to |pages|
      invariant fieldIds == set id | id in FieldIds(pages[..p])
    {
      assert pages[..p + 1][..p] == pages[..p];
      fieldIds := fieldIds + set id | id in PageFieldIds(pages[p].fields);
    }
    assert pages[..|pages|] == pages;
    knownOnly := [];
    for i := 0 to |payload|
      invariant knownOnly == KnownOnly(pages, payload[..i])
    {
      assert payload[..i + 1][..i] == payload[..i];
      if payload[i].name in fieldIds { knownOnly := knownOnly + [payload[i]]; }
    }
    assert payload[..|payload|] == payload;
  }

  /** Nothing on a page the walk did not visit is stored, and nothing on one it did is lost. */
  lemma StoredExactly(p: Platform, e: Engine, spec: FormSpec, payload: Payload, x: Prop)
    requires PlainIds(spec) && FieldsOnOnePage(spec.pages)
    ensures
      var known := KnownOnly(spec.pages, payload);
      x in Sanitized(p, e, spec, known) <==>
        x in payload && exists q :: 0 <= q < |spec.pages| && Declares(spec.pages[q], x.name)
                                 && spec.pages[q].id in TraversalOf(p, e, spec, AsValues(known)).visited
  {
    KnownOnlyMembers(spec.pages, payload);
    SanitizedExactly(p, e, spec, KnownOnly(spec.pages, payload), x);
    DeclaredOrNot(spec.pages, x.name);
  }
}
