/**
 * A condition on the spec alone under which stripping is stable for every
 * payload: what decides the walk is on pages that no possible path avoids.
 */
module StableSpecs {
  import opened FormSpecs
  import opened FieldLayout
  import opened CalcSheet
  import opened JsonLogic
  import opened ScoringRunner
  import opened PageWalk
  import opened PagePaths
  import opened PayloadStrip
  import opened PublishGuard
  import opened PublishGuardMeaning

  /** Ids that stripping cannot change: calculations, and names no field has. */
  predicate Unstrippable(spec: FormSpec, id: string) {
    id in CalcRows(spec.calculations, |spec.calculations|) || id !in FieldIds(spec.pages)
  }

  /** On a page that every path to its end passes. */
  ghost predicate AlwaysVisited(spec: FormSpec, id: string) {
    exists d: nat :: d < |spec.pages| && Declares(spec.pages[d], id) && Unavoidable(spec, d)
  }

  /** On a page that every path to page `q` passes. */
  ghost predicate VisitedWith(spec: FormSpec, q: nat, id: string) {
    exists d: nat :: d < |spec.pages| && Declares(spec.pages[d], id) && Dominates(spec, d, q)
  }

  /** An action of the page reads the id. */
  predicate ActsOn(a: Action, page: Page, id: string) {
    a.pageId == page.id && id in VarRefs(a.cond)
  }

  /** Calculations and scoring rules read what every path passes, and an action also what every path to its page passes. */
  ghost predicate ReadsAreOnPaths(spec: FormSpec)
    requires PlainIds(spec)
  {
    && (forall id :: id in CalcReads(FieldIds(spec.pages), spec.calculations) ==> AlwaysVisited(spec, id))
    && (forall id :: id in RuleReads(spec.scoring) ==> Unstrippable(spec, id) || AlwaysVisited(spec, id))
    && (forall i, q: nat, id :: 0 <= i < |spec.actions| && q < |spec.pages| && ActsOn(spec.actions[i], spec.pages[q], id) ==>
          Unstrippable(spec, id) || AlwaysVisited(spec, id) || VisitedWith(spec, q, id))
  }

  lemma {:induction false} KeysOfValues(raw: Payload, id: string)
    ensures id in AsValues(raw) ==> HasKey(raw, id)
  {
    if raw != [] {
      var front, last := raw[..|raw| - 1], raw[|raw| - 1];
      KeysOfValues(front, id);
      HasKeySnoc(front, last, id);
      assert raw == front + [last];
    }
  }

  /** A payload filtered to the spec's fields has no value for any other name. */
  lemma UnknownIsAbsent(spec: FormSpec, payload: Payload, id: string)
    requires id !in FieldIds(spec.pages)
    ensures At(AsValues(KnownOnly(spec.pages, payload)), id).Undefined?
  {
    var known := KnownOnly(spec.pages, payload);
    KnownOnlyMembers(spec.pages, payload);
    KeysOfValues(known, id);
    assert forall i :: 0 <= i < |known| ==> known[i] in known;
  }

  lemma PageFieldIsSafe(spec: FormSpec, visited: seq<string>, raw: Payload, d: nat, id: string)
    requires FieldsOnOnePage(spec.pages) && d < |spec.pages| && Declares(spec.pages[d], id) && spec.pages[d].id in visited
    ensures Safe(spec.pages, visited, raw, id)
  {
    PageOfField(spec.pages, d, id);
  }

  lemma AlwaysVisitedIsSafe(e: Engine, spec: FormSpec, data: Values, raw: Payload, id: string)
    requires Distinct(PageIds(spec.pages)) && FieldsOnOnePage(spec.pages) && AlwaysVisited(spec, id)
    ensures Safe(spec.pages, Walk(e, spec, data).visited, raw, id)
  {
    var d: nat :| d < |spec.pages| && Declares(spec.pages[d], id) && Unavoidable(spec, d);
    UnavoidableIsVisited(e, spec, data, d);
    hide Walk, Safe, Declares, Unavoidable, FieldsOnOnePage;
    PageFieldIsSafe(spec, Walk(e, spec, data).visited, raw, d, id);
  }

  lemma VisitedWithIsSafe(e: Engine, spec: FormSpec, data: Values, raw: Payload, q: nat, id: string)
    requires Distinct(PageIds(spec.pages)) && FieldsOnOnePage(spec.pages) && q < |spec.pages| && VisitedWith(spec, q, id)
    requires spec.pages[q].id in Walk(e, spec, data).visited
    ensures Safe(spec.pages, Walk(e, spec, data).visited, raw, id)
  {
    var d: nat :| d < |spec.pages| && Declares(spec.pages[d], id) && Dominates(spec, d, q);
    DominatorIsVisited(e, spec, data, d, q);
    hide Walk, Safe, Declares, Dominates, FieldsOnOnePage;
    PageFieldIsSafe(spec, Walk(e, spec, data).visited, raw, d, id);
  }

  lemma VisitedPage(e: Engine, spec: FormSpec, data: Values, pageId: string) returns (q: nat)
    requires pageId in Walk(e, spec, data).visited
    ensures q < |spec.pages| && spec.pages[q].id == pageId
  {
    WalkIsOrbitPrefix(e, spec, data);
    var k: nat :| k < |Walk(e, spec, data).visited| && Walk(e, spec, data).visited[k] == pageId;
    q := Orbit(e, spec, data, k);
  }

  lemma ActionReadIsSafe(e: Engine, spec: FormSpec, data: Values, payload: Payload, id: string)
    requires PlainIds(spec) && ReadsAreOnPaths(spec)
    requires Distinct(PageIds(spec.pages)) && FieldsOnOnePage(spec.pages)
    requires id in ActionReads(spec.actions, Walk(e, spec, data).visited) && id !in CalcRows(spec.calculations, |spec.calculations|)
    ensures Safe(spec.pages, Walk(e, spec, data).visited, KnownOnly(spec.pages, payload), id)
  {
    var i :| 0 <= i < |spec.actions| && spec.actions[i].pageId in Walk(e, spec, data).visited && id in VarRefs(spec.actions[i].cond);
    var q := VisitedPage(e, spec, data, spec.actions[i].pageId);
    var known := KnownOnly(spec.pages, payload);
    assert ActsOn(spec.actions[i], spec.pages[q], id);
    assert Unstrippable(spec, id) || AlwaysVisited(spec, id) || VisitedWith(spec, q, id);
    if id !in FieldIds(spec.pages) {
      UnknownIsAbsent(spec, payload, id);
    } else {
      assert !Unstrippable(spec, id);
      hide Walk, Safe, AlwaysVisited, VisitedWith, KnownOnly, ReadsAreOnPaths, Unstrippable, ActionReads, VarRefs, PlainIds, FieldsOnOnePage, FieldIds, CalcRows;
      if AlwaysVisited(spec, id) {
        AlwaysVisitedIsSafe(e, spec, data, known, id);
      } else {
        VisitedWithIsSafe(e, spec, data, known, q, id);
      }
    }
  }

  lemma RuleReadIsSafe(e: Engine, spec: FormSpec, data: Values, payload: Payload, id: string)
    requires Distinct(PageIds(spec.pages)) && FieldsOnOnePage(spec.pages)
    requires id !in FieldIds(spec.pages) || AlwaysVisited(spec, id)
    ensures Safe(spec.pages, Walk(e, spec, data).visited, KnownOnly(spec.pages, payload), id)
  {
    hide Walk, AlwaysVisited, KnownOnly, FieldsOnOnePage, FieldIds;
    if id !in FieldIds(spec.pages) {
      UnknownIsAbsent(spec, payload, id);
    } else {
      AlwaysVisitedIsSafe(e, spec, data, KnownOnly(spec.pages, payload), id);
    }
  }

  /** The data that decides the walk of a payload. */
  function DataOf(p: Platform, e: Engine, spec: FormSpec, values: Values): (data: Values)
    requires PlainIds(spec)
    ensures TraversalOf(p, e, spec, values) == Walk(e, spec, data)
  {
    var calcResults := FreshResults(p, FieldIds(spec.pages), spec.calculations, values);
    WalkData(values, calcResults, Score(e, spec.scoring, values, calcResults))
  }

  lemma CalcReadIsSafe(e: Engine, spec: FormSpec, data: Values, raw: Payload, id: string)
    requires PlainIds(spec) && ReadsAreOnPaths(spec)
    requires Distinct(PageIds(spec.pages)) && FieldsOnOnePage(spec.pages)
    requires id in CalcReads(FieldIds(spec.pages), spec.calculations)
    ensures Safe(spec.pages, Walk(e, spec, data).visited, raw, id)
  {
    hide CalcReads, Walk, AlwaysVisited, FieldsOnOnePage, PlainFieldIds, PlainCalcIds, Safe;
    AlwaysVisitedIsSafe(e, spec, data, raw, id);
  }

  lemma RuleReadOnPaths(spec: FormSpec, id: string)
    requires PlainIds(spec) && ReadsAreOnPaths(spec)
    requires id in RuleReads(spec.scoring) && id !in CalcRows(spec.calculations, |spec.calculations|)
    ensures id !in FieldIds(spec.pages) || AlwaysVisited(spec, id)
  {
    hide RuleReads, AlwaysVisited, CalcReads, VarRefs, PlainFieldIds, PlainCalcIds, FieldIds;
  }

  lemma AllReadsAreSafe(e: Engine, spec: FormSpec, data: Values, payload: Payload)
    requires PlainIds(spec) && ReadsAreOnPaths(spec) && Distinct(PageIds(spec.pages)) && FieldsOnOnePage(spec.pages)
    ensures
      var visited, known := Walk(e, spec, data).visited, KnownOnly(spec.pages, payload);
      var calcIds := CalcRows(spec.calculations, |spec.calculations|).Keys;
      && (forall id :: id in CalcReads(FieldIds(spec.pages), spec.calculations) ==> Safe(spec.pages, visited, known, id))
      && (forall id :: id in RuleReads(spec.scoring) - calcIds ==> Safe(spec.pages, visited, known, id))
      && (forall id :: id in ActionReads(spec.actions, visited) - calcIds ==> Safe(spec.pages, visited, known, id))
  {
    hide Safe, KnownOnly, FieldIds, CalcReads, RuleReads, ActionReads, PlainFieldIds, PlainCalcIds,
      ReadsAreOnPaths, AlwaysVisited, Walk, CalcRows, FieldsOnOnePage, Distinct;
    var visited, known := Walk(e, spec, data).visited, KnownOnly(spec.pages, payload);
    var calcIds := CalcRows(spec.calculations, |spec.calculations|).Keys;
    forall id | id in CalcReads(FieldIds(spec.pages), spec.calculations) ensures Safe(spec.pages, visited, known, id) {
      CalcReadIsSafe(e, spec, data, known, id);
    }
    forall id | id in RuleReads(spec.scoring) - calcIds ensures Safe(spec.pages, visited, known, id) {
      RuleReadOnPaths(spec, id);
      RuleReadIsSafe(e, spec, data, payload, id);
    }
    forall id | id in ActionReads(spec.actions, visited) - calcIds ensures Safe(spec.pages, visited, known, id) {
      ActionReadIsSafe(e, spec, data, payload, id);
    }
  }

  lemma PathReadsAreSafe(p: Platform, e: Engine, spec: FormSpec, payload: Payload)
    requires SpecErrors(spec) == [] && PlainIds(spec) && ReadsAreOnPaths(spec)
    ensures ReadsAreSafe(p, e, spec, KnownOnly(spec.pages, payload))
  {
    AcceptedSpecIsUnambiguous(spec);
    var data := DataOf(p, e, spec, AsValues(KnownOnly(spec.pages, payload)));
    hide TraversalOf, DataOf, SpecErrors, Safe, KnownOnly, FieldIds, CalcReads, RuleReads, ActionReads, PlainFieldIds, PlainCalcIds,
      ReadsAreOnPaths, Walk, CalcRows, FieldsOnOnePage, Distinct;
    AllReadsAreSafe(e, spec, data, payload);
  }

  /**
   * For an accepted spec whose reads are on its paths, whatever is submitted: the
   * payload the submit route stores takes the walk that decided it, and stripping
   * it again would change nothing.
   */
  lemma StoredPayloadIsStable(p: Platform, e: Engine, spec: FormSpec, payload: Payload)
    requires SpecErrors(spec) == [] && PlainIds(spec) && PlainConditions(spec) && ReadsAreOnPaths(spec)
    ensures
      var known := KnownOnly(spec.pages, payload);
      var stored := Sanitized(p, e, spec, known);
      && TraversalOf(p, e, spec, AsValues(stored)) == TraversalOf(p, e, spec, AsValues(known))
      && Sanitized(p, e, spec, stored) == stored && Stripped(p, e, spec, stored) == []
  {
    hide *;
    PathReadsAreSafe(p, e, spec, payload);
    StrippingKeepsTheWalk(p, e, spec, KnownOnly(spec.pages, payload));
    StrippingIsStable(p, e, spec, KnownOnly(spec.pages, payload));
  }

  // ---- specs that meet the condition ----

  lemma FieldIsDeclared(spec: FormSpec, id: string) returns (d: nat)
    requires id in FieldIds(spec.pages)
    ensures d < |spec.pages| && Declares(spec.pages[d], id)
  {
    DeclaredOrNot(spec.pages, id);
    d :| 0 <= d < |spec.pages| && Declares(spec.pages[d], id);
  }

  lemma CalcReadsAreFields(ids: seq<string>, calcs: seq<Calc>, id: string)
    requires PlainFieldIds(ids) && PlainCalcIds(calcs) && id in CalcReads(ids, calcs)
    ensures id in ids
  {
    hide PlainFieldIds, PlainCalcIds, Live, FormulaAt, FormulaCells;
  }

  /** Calculations and scoring may read every field of a spec whose pages are all unavoidable. */
  lemma UnavoidablePagesAreEnough(spec: FormSpec)
    requires PlainIds(spec) && forall d: nat :: d < |spec.pages| ==> Unavoidable(spec, d)
    ensures ReadsAreOnPaths(spec)
  {
    hide Unavoidable, CalcReads, RuleReads, VarRefs, Declares, PlainFieldIds, PlainCalcIds;
    forall id | id in FieldIds(spec.pages) ensures AlwaysVisited(spec, id) {
      var d := FieldIsDeclared(spec, id);
    }
    forall id | id in CalcReads(FieldIds(spec.pages), spec.calculations) ensures id in FieldIds(spec.pages) {
      CalcReadsAreFields(FieldIds(spec.pages), spec.calculations, id);
    }
  }

  /** Without actions stripping is stable whatever the calculations and the scoring read. */
  lemma NoActionsAreStable(p: Platform, e: Engine, spec: FormSpec, payload: Payload)
    requires SpecErrors(spec) == [] && PlainIds(spec) && PlainConditions(spec) && spec.actions == []
    ensures
      var stored := Sanitized(p, e, spec, KnownOnly(spec.pages, payload));
      Sanitized(p, e, spec, stored) == stored && Stripped(p, e, spec, stored) == []
  {
    hide *;
    forall d: nat | d < |spec.pages| ensures Unavoidable(spec, d) { NoActionsNoDetour(spec, d); }
    UnavoidablePagesAreEnough(spec);
    StoredPayloadIsStable(p, e, spec, payload);
  }
}
