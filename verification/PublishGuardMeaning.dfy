/** What passing the publish guard means, error by error, and what it gives the rest of the pipeline. */
module PublishGuardMeaning {
  import opened Wrappers
  import opened FormSpecs
  import opened FormulaText
  import opened FormulaCompiler
  import opened FormulaScan
  import opened FieldLayout
  import opened CalcSheet
  import opened CalcMeaning
  import opened JsonLogic
  import opened PageWalk
  import opened PayloadStrip
  import opened PublishGuard

  // ---- well-formed specs ----

  predicate Repeated(ids: seq<string>, id: string) {
    exists i, j :: 0 <= i < j < |ids| && ids[i] == id && ids[j] == id
  }

  predicate HasPage(spec: FormSpec, id: string) {
    exists p :: 0 <= p < |spec.pages| && spec.pages[p].id == id
  }

  predicate HasField(spec: FormSpec, id: string) {
    exists p :: 0 <= p < |spec.pages| && Declares(spec.pages[p], id)
  }

  predicate HasCalc(spec: FormSpec, id: string) {
    exists c :: 0 <= c < |spec.calculations| && spec.calculations[c].id == id
  }

  /** A field's visibility rule, or a matrix's row source up to its first dot. */
  predicate FieldRefersTo(field: Field, ref: string) {
    ref in VarRefs(field.showIf) || (field.rowsFrom.Str? && field.rowsFrom.s != "" && Head(field.rowsFrom.s) == ref)
  }

  predicate PageRefersTo(page: Page, ref: string) {
    ref in VarRefs(page.showIf) || exists f :: 0 <= f < |page.fields| && FieldRefersTo(page.fields[f], ref)
  }

  predicate ActionNames(a: Action, id: string) {
    || a.pageId == id
    || (a.do.JumpToPage? && a.do.target == id)
    || (a.do.SkipList? && id in a.do.targets && id != [])
  }

  predicate ScoringMayRead(spec: FormSpec, ref: string) {
    || ref == "score"
    || (StartsWith(ref, "fld_") && HasField(spec, ref))
    || (StartsWith(ref, "calc_") && HasCalc(spec, ref))
  }

  function Rules(spec: FormSpec): seq<ScoringRule> {
    if spec.scoring.Some? then spec.scoring.value.rules else []
  }

  /** The defect that an error reports about an id. */
  predicate Violated(spec: FormSpec, code: Code, id: string) {
    match code
    case DuplicatePageId => Repeated(PageIds(spec.pages), id)
    case DuplicateFieldId => Repeated(FieldIds(spec.pages), id)
    case PageIdPattern => HasPage(spec, id) && !PagePattern(id)
    case FieldIdPattern => HasField(spec, id) && !FieldPattern(id)
    case EmptyPage => exists p :: 0 <= p < |spec.pages| && spec.pages[p].id == id && spec.pages[p].fields == []
    case UnknownFieldRef => !HasField(spec, id) && exists p :: 0 <= p < |spec.pages| && PageRefersTo(spec.pages[p], id)
    case FormulaUnknownRef =>
      && (exists c :: 0 <= c < |spec.calculations| && id in FormulaRefs(spec.calculations[c].formula))
      && ((StartsWith(id, "fld_") && !HasField(spec, id)) || (StartsWith(id, "calc_") && !HasCalc(spec, id)))
    case UnknownPageRef => !HasPage(spec, id) && exists a :: 0 <= a < |spec.actions| && ActionNames(spec.actions[a], id)
    case ScoringUnknownRef => !ScoringMayRead(spec, id) && exists r :: 0 <= r < |Rules(spec)| && id in VarRefs(Rules(spec)[r].cond)
    case ArchivedForm => false
  }

  ghost predicate WellFormed(spec: FormSpec) {
    && Distinct(PageIds(spec.pages)) && Distinct(FieldIds(spec.pages))
    && (forall p :: 0 <= p < |spec.pages| ==> PagePattern(spec.pages[p].id) && spec.pages[p].fields != [])
    && (forall id :: HasField(spec, id) ==> FieldPattern(id))
    && (forall p, ref :: 0 <= p < |spec.pages| && PageRefersTo(spec.pages[p], ref) ==> HasField(spec, ref))
    && (forall c, ref :: 0 <= c < |spec.calculations| && ref in FormulaRefs(spec.calculations[c].formula) ==>
          (StartsWith(ref, "fld_") ==> HasField(spec, ref)) && (StartsWith(ref, "calc_") ==> HasCalc(spec, ref)))
    && (forall a, id :: 0 <= a < |spec.actions| && ActionNames(spec.actions[a], id) ==> HasPage(spec, id))
    && (forall r, ref :: 0 <= r < |Rules(spec)| && ref in VarRefs(Rules(spec)[r].cond) ==> ScoringMayRead(spec, ref))
  }

  // ---- each section reports exactly its defects ----

  lemma RepeatedSnoc(ids: seq<string>, last: string, id: string)
    ensures Repeated(ids + [last], id) <==> Repeated(ids, id) || (last == id && id in ids)
  {
    var more := ids + [last];
    if Repeated(ids, id) {
      var i, j :| 0 <= i < j < |ids| && ids[i] == id && ids[j] == id;
      assert more[i] == id && more[j] == id;
    }
    if last == id && id in ids {
      var i :| 0 <= i < |ids| && ids[i] == id;
      assert more[i] == id && more[|ids|] == id;
    }
  }

  lemma {:induction false} FieldErrorsAre(before: seq<string>, ids: seq<string>, e: GuardError)
    ensures e in FieldErrors(before, ids) ==> e.code == DuplicateFieldId || e.code == FieldIdPattern
    ensures e.code == DuplicateFieldId ==> (Repeated(before + ids, e.about) <==> Repeated(before, e.about) || e in FieldErrors(before, ids))
    ensures e.code == FieldIdPattern ==> (e in FieldErrors(before, ids) <==> e.about in ids && !FieldPattern(e.about))
  {
    if ids == [] {
      assert before + ids == before;
    } else {
      var front, id := ids[..|ids| - 1], ids[|ids| - 1];
      FieldErrorsAre(before, front, e);
      RepeatedSnoc(before + front, id, e.about);
      assert before + ids == (before + front) + [id];
    }
  }

  predicate SomeEmptyPage(pages: seq<Page>, id: string) {
    exists p :: 0 <= p < |pages| && pages[p].id == id && pages[p].fields == []
  }

  lemma EmptyPageSnoc(pages: seq<Page>, page: Page, id: string)
    ensures SomeEmptyPage(pages + [page], id) <==> SomeEmptyPage(pages, id) || (page.id == id && page.fields == [])
  {
    var more := pages + [page];
    if SomeEmptyPage(pages, id) {
      var p :| 0 <= p < |pages| && pages[p].id == id && pages[p].fields == [];
      assert more[p] == pages[p];
    }
    assert more[|pages|] == page;
  }

  predicate PageDefect(pages: seq<Page>, e: GuardError) {
    match e.code
    case DuplicateFieldId => Repeated(FieldIds(pages), e.about)
    case FieldIdPattern => e.about in FieldIds(pages) && !FieldPattern(e.about)
    case DuplicatePageId => Repeated(PageIds(pages), e.about)
    case PageIdPattern => e.about in PageIds(pages) && !PagePattern(e.about)
    case EmptyPage => SomeEmptyPage(pages, e.about)
    case _ => false
  }

  lemma PageDefectSnoc(pages: seq<Page>, page: Page, e: GuardError)
    ensures PageDefect(pages + [page], e) <==>
      || PageDefect(pages, e) || e in PageOwnErrors(pages, page)
      || e in FieldErrors(FieldIds(pages), PageFieldIds(page.fields))
  {
    var more, onPage := pages + [page], PageFieldIds(page.fields);
    assert more[..|more| - 1] == pages;
    assert FieldIds(more) == FieldIds(pages) + onPage;
    assert PageIds(more) == PageIds(pages) + [page.id];
    FieldErrorsAre(FieldIds(pages), onPage, e);
    RepeatedSnoc(PageIds(pages), page.id, e.about);
    EmptyPageSnoc(pages, page, e.about);
    hide FieldIds, FieldErrors, Repeated, SomeEmptyPage, PagePattern, FieldPattern;
    PageOwnErrorsAre(pages, page, e);
  }

  lemma PageOwnErrorsAre(before: seq<Page>, page: Page, e: GuardError)
    ensures e in PageOwnErrors(before, page) <==>
      e.about == page.id &&
      match e.code
      case DuplicatePageId => page.id in PageIds(before)
      case PageIdPattern => !PagePattern(page.id)
      case EmptyPage => page.fields == []
      case _ => false
  {
  }

  lemma {:induction false} PageErrorsAre(pages: seq<Page>, e: GuardError)
    ensures e in PageErrors(pages) <==> PageDefect(pages, e)
  {
    hide PageDefect, PageOwnErrors, FieldErrors;
    if pages == [] {
      NoPagesNoDefect(e);
    } else {
      var front, page := pages[..|pages| - 1], pages[|pages| - 1];
      PageErrorsAre(front, e);
      PageDefectSnoc(front, page, e);
      assert pages == front + [page];
    }
  }

  lemma NoPagesNoDefect(e: GuardError)
    ensures !PageDefect([], e)
  {
  }

  lemma {:induction false} RefErrorsAre(refs: seq<string>, known: set<string>, code: Code, e: GuardError)
    ensures e in RefErrors(refs, known, code) <==> e.code == code && e.about in refs && e.about !in known
  {
    if refs != [] {
      RefErrorsAre(refs[..|refs| - 1], known, code, e);
      assert refs == refs[..|refs| - 1] + [refs[|refs| - 1]];
    }
  }

  lemma {:induction false} FormulaErrorsAre(refs: seq<string>, calcId: string, fieldIds: set<string>, calcIds: set<string>, e: GuardError)
    ensures e in FormulaErrors(refs, calcId, fieldIds, calcIds) <==>
      e.code == FormulaUnknownRef && e.about in refs && FormulaRefUnknown(e.about, calcId, fieldIds, calcIds)
  {
    if refs != [] {
      FormulaErrorsAre(refs[..|refs| - 1], calcId, fieldIds, calcIds, e);
      assert refs == refs[..|refs| - 1] + [refs[|refs| - 1]];
    }
  }

  predicate SomeFormulaRefersTo(calcs: seq<Calc>, ref: string) {
    exists c :: 0 <= c < |calcs| && ref in FormulaRefs(calcs[c].formula)
  }

  lemma FormulaRefSnoc(calcs: seq<Calc>, last: Calc, ref: string)
    ensures SomeFormulaRefersTo(calcs + [last], ref) <==> SomeFormulaRefersTo(calcs, ref) || ref in FormulaRefs(last.formula)
  {
    var more := calcs + [last];
    if SomeFormulaRefersTo(calcs, ref) {
      var c :| 0 <= c < |calcs| && ref in FormulaRefs(calcs[c].formula);
      assert more[c] == calcs[c];
    }
    assert more[|calcs|] == last;
  }

  /** A calculation's own id is among the calculation ids, so its exemption changes nothing. */
  lemma {:induction false} CalcErrorsAre(calcs: seq<Calc>, fieldIds: set<string>, calcIds: set<string>, e: GuardError)
    requires forall c :: c in calcs ==> c.id in calcIds
    ensures e in CalcErrors(calcs, fieldIds, calcIds) <==>
      && e.code == FormulaUnknownRef && SomeFormulaRefersTo(calcs, e.about)
      && ((StartsWith(e.about, "fld_") && e.about !in fieldIds) || (StartsWith(e.about, "calc_") && e.about !in calcIds))
  {
    if calcs != [] {
      var front, last := calcs[..|calcs| - 1], calcs[|calcs| - 1];
      CalcErrorsAre(front, fieldIds, calcIds, e);
      FormulaErrorsAre(FormulaRefs(last.formula), last.id, fieldIds, calcIds, e);
      FormulaRefSnoc(front, last, e.about);
      assert calcs == front + [last] && last in calcs;
    }
  }

  // ---- what the collected references are ----

  lemma {:induction false} FieldsRefsAre(fields: seq<Field>, ref: string)
    ensures ref in FieldsRefs(fields) <==> exists f :: 0 <= f < |fields| && ref in FieldRefs(fields[f])
  {
    hide FieldRefs;
    if fields != [] {
      var front, last := fields[..|fields| - 1], fields[|fields| - 1];
      FieldsRefsAre(front, ref);
      if ref in FieldsRefs(front) {
        var f :| 0 <= f < |front| && ref in FieldRefs(front[f]);
        assert fields[f] == front[f];
      }
      if f :| 0 <= f < |fields| && ref in FieldRefs(fields[f]) && f < |front| { assert front[f] == fields[f]; }
    }
  }

  lemma FieldRefsIs(field: Field, ref: string)
    ensures ref in FieldRefs(field) <==> FieldRefersTo(field, ref)
  {
    hide VarRefs, Head;
  }

  lemma PageRefersIs(page: Page, ref: string)
    ensures PageRefersTo(page, ref) <==> ref in VarRefs(page.showIf) || ref in FieldsRefs(page.fields)
  {
    FieldsRefsAre(page.fields, ref);
    hide VarRefs, FieldsRefs, FieldRefs, FieldRefersTo;
    forall f | 0 <= f < |page.fields| ensures ref in FieldRefs(page.fields[f]) <==> FieldRefersTo(page.fields[f], ref) {
      FieldRefsIs(page.fields[f], ref);
    }
  }

  predicate SomePageRefersTo(pages: seq<Page>, ref: string) {
    exists p :: 0 <= p < |pages| && PageRefersTo(pages[p], ref)
  }

  lemma SomePageSnoc(front: seq<Page>, last: Page, ref: string)
    ensures SomePageRefersTo(front + [last], ref) <==> SomePageRefersTo(front, ref) || PageRefersTo(last, ref)
  {
    hide PageRefersTo;
    var pages := front + [last];
    if p :| 0 <= p < |front| && PageRefersTo(front[p], ref) { assert pages[p] == front[p]; }
    assert pages[|front|] == last;
  }

  lemma {:induction false} PagesRefsAre(pages: seq<Page>, ref: string)
    ensures ref in PagesRefs(pages) <==> SomePageRefersTo(pages, ref)
  {
    hide PageRefersTo, VarRefs, FieldsRefs;
    if pages != [] {
      var front, last := pages[..|pages| - 1], pages[|pages| - 1];
      assert pages == front + [last];
      PagesRefsAre(front, ref);
      PageRefersIs(last, ref);
      PagesRefsSnoc(front, last);
      SomePageSnoc(front, last, ref);
      hide PagesRefs, SomePageRefersTo;
    }
  }

  predicate SomeActionNames(actions: seq<Action>, id: string) {
    exists a :: 0 <= a < |actions| && ActionNames(actions[a], id)
  }

  lemma ActionNamesSnoc(actions: seq<Action>, last: Action, id: string)
    ensures SomeActionNames(actions + [last], id) <==> SomeActionNames(actions, id) || ActionNames(last, id)
  {
    hide ActionNames;
    var more := actions + [last];
    if SomeActionNames(actions, id) {
      var a :| 0 <= a < |actions| && ActionNames(actions[a], id);
      assert more[a] == actions[a];
    }
    assert more[|actions|] == last;
  }

  lemma ActionRefsAre(a: Action, id: string)
    ensures id in ActionRefs(a) <==> ActionNames(a, id)
  {
  }

  lemma {:induction false} ActionsRefsAre(actions: seq<Action>, id: string)
    ensures id in ActionsRefs(actions) <==> SomeActionNames(actions, id)
  {
    hide ActionNames, ActionRefs;
    if actions != [] {
      var front, last := actions[..|actions| - 1], actions[|actions| - 1];
      ActionsRefsAre(front, id);
      ActionRefsAre(last, id);
      ActionNamesSnoc(front, last, id);
      assert actions == front + [last];
    }
  }

  lemma {:induction false} RulesRefsAre(rules: seq<ScoringRule>, ref: string)
    ensures ref in RulesRefs(rules) <==> exists r :: 0 <= r < |rules| && ref in VarRefs(rules[r].cond)
  {
    if rules != [] {
      var front, last := rules[..|rules| - 1], rules[|rules| - 1];
      RulesRefsAre(front, ref);
      if ref in RulesRefs(front) {
        var r :| 0 <= r < |front| && ref in VarRefs(front[r].cond);
        assert rules[r] == front[r];
      }
      if r :| 0 <= r < |rules| && ref in VarRefs(rules[r].cond) && r < |front| { assert front[r] == rules[r]; }
    }
  }

  lemma HasFieldIs(spec: FormSpec, id: string)
    ensures HasField(spec, id) <==> id in FieldIds(spec.pages)
  {
    DeclaredOrNot(spec.pages, id);
  }

  lemma HasPageIs(spec: FormSpec, id: string)
    ensures HasPage(spec, id) <==> id in PageIds(spec.pages)
  {
    if HasPage(spec, id) {
      var p :| 0 <= p < |spec.pages| && spec.pages[p].id == id;
      assert PageIds(spec.pages)[p] == id;
    }
    if id in PageIds(spec.pages) {
      var p :| 0 <= p < |spec.pages| && PageIds(spec.pages)[p] == id;
    }
  }

  lemma HasCalcIs(spec: FormSpec, id: string)
    ensures HasCalc(spec, id) <==> id in CalcIds(spec.calculations)
  {
    if id in CalcIds(spec.calculations) {
      var c :| c in spec.calculations && c.id == id;
      var i :| 0 <= i < |spec.calculations| && spec.calculations[i] == c;
    }
  }

  lemma PageSection(spec: FormSpec, e: GuardError)
    ensures e in PageErrors(spec.pages) <==>
      e.code in {DuplicateFieldId, FieldIdPattern, DuplicatePageId, PageIdPattern, EmptyPage} && Violated(spec, e.code, e.about)
  {
    PageErrorsAre(spec.pages, e);
    HasFieldIs(spec, e.about);
    HasPageIs(spec, e.about);
    hide PageErrors, FieldIds, PageIds, Repeated, PagePattern, FieldPattern, HasField, HasPage;
  }

  lemma PageRefsSection(spec: FormSpec, e: GuardError)
    ensures e in RefErrors(PagesRefs(spec.pages), AsSet(FieldIds(spec.pages)), UnknownFieldRef) <==>
      e.code == UnknownFieldRef && Violated(spec, e.code, e.about)
  {
    RefErrorsAre(PagesRefs(spec.pages), AsSet(FieldIds(spec.pages)), UnknownFieldRef, e);
    HasFieldIs(spec, e.about);
    PagesRefsAre(spec.pages, e.about);
    hide PagesRefs, FieldIds, RefErrors, HasField, PageRefersTo;
  }

  lemma CalcSection(spec: FormSpec, e: GuardError)
    ensures e in CalcErrors(spec.calculations, AsSet(FieldIds(spec.pages)), CalcIds(spec.calculations)) <==>
      e.code == FormulaUnknownRef && Violated(spec, e.code, e.about)
  {
    CalcErrorsAre(spec.calculations, AsSet(FieldIds(spec.pages)), CalcIds(spec.calculations), e);
    HasFieldIs(spec, e.about);
    HasCalcIs(spec, e.about);
    hide FieldIds, CalcErrors, CalcIds, HasField, HasCalc, StartsWith;
  }

  lemma ActionSection(spec: FormSpec, e: GuardError)
    ensures e in RefErrors(ActionsRefs(spec.actions), AsSet(PageIds(spec.pages)), UnknownPageRef) <==>
      e.code == UnknownPageRef && Violated(spec, e.code, e.about)
  {
    RefErrorsAre(ActionsRefs(spec.actions), AsSet(PageIds(spec.pages)), UnknownPageRef, e);
    HasPageIs(spec, e.about);
    ActionsRefsAre(spec.actions, e.about);
    hide ActionsRefs, PageIds, RefErrors, HasPage, ActionNames;
  }

  lemma ScoringKnownAre(spec: FormSpec, id: string)
    ensures id in ScoringKnown(AsSet(FieldIds(spec.pages)), CalcIds(spec.calculations)) <==> ScoringMayRead(spec, id)
  {
    HasFieldIs(spec, id);
    HasCalcIs(spec, id);
    hide FieldIds, CalcIds, HasField, HasCalc, StartsWith;
  }

  lemma ScoringSection(spec: FormSpec, e: GuardError)
    ensures e in RefErrors(RulesRefs(Rules(spec)), ScoringKnown(AsSet(FieldIds(spec.pages)), CalcIds(spec.calculations)), ScoringUnknownRef) <==>
      e.code == ScoringUnknownRef && Violated(spec, e.code, e.about)
  {
    var known := ScoringKnown(AsSet(FieldIds(spec.pages)), CalcIds(spec.calculations));
    RefErrorsAre(RulesRefs(Rules(spec)), known, ScoringUnknownRef, e);
    ScoringKnownAre(spec, e.about);
    RulesRefsAre(Rules(spec), e.about);
    hide FieldIds, RulesRefs, RefErrors, ScoringMayRead, ScoringKnown, CalcIds, AsSet, Rules;
  }

  /** The guard reports an error about an id exactly when the spec has that defect there. */
  lemma ErrorsAreViolations(spec: FormSpec, e: GuardError)
    ensures e in SpecErrors(spec) <==> Violated(spec, e.code, e.about)
  {
    PageSection(spec, e);
    PageRefsSection(spec, e);
    CalcSection(spec, e);
    ActionSection(spec, e);
    ScoringSection(spec, e);
    NothingArchived(spec, e);
    hide PageErrors, RefErrors, CalcErrors, PagesRefs, ActionsRefs, RulesRefs, FieldIds, PageIds, CalcIds, ScoringKnown, AsSet, Violated;
    assert spec.scoring.None? ==> RefErrors(RulesRefs(Rules(spec)), ScoringKnown(AsSet(FieldIds(spec.pages)), CalcIds(spec.calculations)), ScoringUnknownRef) == [] by {
      NoRules(ScoringKnown(AsSet(FieldIds(spec.pages)), CalcIds(spec.calculations)));
    }
  }

  lemma NothingArchived(spec: FormSpec, e: GuardError)
    ensures Violated(spec, e.code, e.about) ==> e.code != ArchivedForm
  {
  }

  lemma NoRules(known: set<string>)
    ensures RefErrors(RulesRefs([]), known, ScoringUnknownRef) == []
  {
  }

  /** The parts of the spec in the order they are checked. */
  function Section(code: Code): nat {
    match code
    case UnknownFieldRef => 1
    case FormulaUnknownRef => 2
    case UnknownPageRef => 3
    case ScoringUnknownRef => 4
    case _ => 0
  }

  ghost predicate InSectionOrder(errors: Errors) {
    forall i, j :: 0 <= i < j < |errors| ==> Section(errors[i].code) <= Section(errors[j].code)
  }

  lemma NextSection(errors: Errors, more: Errors, n: nat)
    requires InSectionOrder(errors) && forall e :: e in errors ==> Section(e.code) < n
    requires forall e :: e in more ==> Section(e.code) == n
    ensures InSectionOrder(errors + more) && forall e :: e in errors + more ==> Section(e.code) < n + 1
  {
    var all := errors + more;
    forall i, j | 0 <= i < j < |all| ensures Section(all[i].code) <= Section(all[j].code) {
      assert if i < |errors| then all[i] in errors else all[i] in more;
      assert if j < |errors| then all[j] in errors else all[j] in more;
    }
  }

  /** Errors about pages and fields come first, then unknown fields, formulas, actions, and the scoring rules. */
  lemma ErrorsInSectionOrder(spec: FormSpec)
    ensures InSectionOrder(SpecErrors(spec))
  {
    hide PageErrors, RefErrors, CalcErrors, PagesRefs, ActionsRefs, RulesRefs, FieldIds, PageIds, CalcIds, ScoringKnown, AsSet, Violated, InSectionOrder;
    var fieldIds, calcIds := AsSet(FieldIds(spec.pages)), CalcIds(spec.calculations);
    var a, b, c, d := PageErrors(spec.pages), RefErrors(PagesRefs(spec.pages), fieldIds, UnknownFieldRef),
      CalcErrors(spec.calculations, fieldIds, calcIds), RefErrors(ActionsRefs(spec.actions), AsSet(PageIds(spec.pages)), UnknownPageRef);
    var last := RefErrors(RulesRefs(Rules(spec)), ScoringKnown(fieldIds, calcIds), ScoringUnknownRef);
    SectionsAre(spec);
    NoneInOrder();
    assert [] + a == a;
    NextSection([], a, 0);
    NextSection(a, b, 1);
    NextSection(a + b, c, 2);
    NextSection(a + b + c, d, 3);
    NextSection(a + b + c + d, last, 4);
    assert a + b + c + d + [] == a + b + c + d;
  }

  lemma NoneInOrder()
    ensures InSectionOrder([])
  {
  }

  lemma SectionsAre(spec: FormSpec)
    ensures
      var fieldIds, calcIds := AsSet(FieldIds(spec.pages)), CalcIds(spec.calculations);
      && (forall e :: e in PageErrors(spec.pages) ==> Section(e.code) == 0)
      && (forall e :: e in RefErrors(PagesRefs(spec.pages), fieldIds, UnknownFieldRef) ==> Section(e.code) == 1)
      && (forall e :: e in CalcErrors(spec.calculations, fieldIds, calcIds) ==> Section(e.code) == 2)
      && (forall e :: e in RefErrors(ActionsRefs(spec.actions), AsSet(PageIds(spec.pages)), UnknownPageRef) ==> Section(e.code) == 3)
      && (forall e :: e in RefErrors(RulesRefs(Rules(spec)), ScoringKnown(fieldIds, calcIds), ScoringUnknownRef) ==> Section(e.code) == 4)
  {
    hide PageErrors, RefErrors, CalcErrors, PagesRefs, ActionsRefs, RulesRefs, FieldIds, PageIds, CalcIds, ScoringKnown, AsSet, Violated;
    var fieldIds, calcIds := AsSet(FieldIds(spec.pages)), CalcIds(spec.calculations);
    forall e | e in PageErrors(spec.pages) ensures Section(e.code) == 0 { PageSection(spec, e); }
    forall e | e in RefErrors(PagesRefs(spec.pages), fieldIds, UnknownFieldRef) ensures Section(e.code) == 1 { PageRefsSection(spec, e); }
    forall e | e in CalcErrors(spec.calculations, fieldIds, calcIds) ensures Section(e.code) == 2 { CalcSection(spec, e); }
    forall e | e in RefErrors(ActionsRefs(spec.actions), AsSet(PageIds(spec.pages)), UnknownPageRef) ensures Section(e.code) == 3 { ActionSection(spec, e); }
    forall e | e in RefErrors(RulesRefs(Rules(spec)), ScoringKnown(fieldIds, calcIds), ScoringUnknownRef) ensures Section(e.code) == 4 { ScoringSection(spec, e); }
  }

  lemma DistinctMeansNotRepeated(ids: seq<string>)
    ensures Distinct(ids) <==> forall id :: !Repeated(ids, id)
  {
    if !Distinct(ids) {
      var i, j :| 0 <= i < j < |ids| && ids[i] == ids[j];
      assert Repeated(ids, ids[i]);
    }
  }

  lemma NoErrorsNoViolations(spec: FormSpec)
    ensures SpecErrors(spec) == [] <==> forall code, id :: !Violated(spec, code, id)
  {
    if SpecErrors(spec) == [] {
      forall code, id ensures !Violated(spec, code, id) {
        ErrorsAreViolations(spec, GuardError(code, id));
      }
    } else {
      var e := SpecErrors(spec)[0];
      assert e in SpecErrors(spec);
      ErrorsAreViolations(spec, e);
    }
  }

  lemma WellFormedIsUnviolated(spec: FormSpec, code: Code, id: string)
    requires WellFormed(spec)
    ensures !Violated(spec, code, id)
  {
    hide PagePattern, FieldPattern, VarRefs, FormulaRefs, FieldIds, PageIds, Repeated, Distinct, HasField, HasCalc;
    DistinctMeansNotRepeated(PageIds(spec.pages));
    DistinctMeansNotRepeated(FieldIds(spec.pages));
  }

  lemma UnviolatedIsWellFormed(spec: FormSpec)
    requires forall code, id :: !Violated(spec, code, id)
    ensures WellFormed(spec)
  {
    DistinctMeansNotRepeated(PageIds(spec.pages));
    DistinctMeansNotRepeated(FieldIds(spec.pages));
    hide PagePattern, FieldPattern, VarRefs, FormulaRefs, FieldIds, PageIds, Repeated, Distinct, HasField, HasCalc;
    forall id ensures !Repeated(PageIds(spec.pages), id) { assert !Violated(spec, DuplicatePageId, id); }
    forall id ensures !Repeated(FieldIds(spec.pages), id) { assert !Violated(spec, DuplicateFieldId, id); }
    forall p | 0 <= p < |spec.pages| ensures PagePattern(spec.pages[p].id) && spec.pages[p].fields != [] {
      var id := spec.pages[p].id;
      assert HasPage(spec, id) && !Violated(spec, PageIdPattern, id) && !Violated(spec, EmptyPage, id);
    }
    forall id | HasField(spec, id) ensures FieldPattern(id) { assert !Violated(spec, FieldIdPattern, id); }
    forall p, ref | 0 <= p < |spec.pages| && PageRefersTo(spec.pages[p], ref) ensures HasField(spec, ref) {
      assert !Violated(spec, UnknownFieldRef, ref);
    }
    forall c, ref | 0 <= c < |spec.calculations| && ref in FormulaRefs(spec.calculations[c].formula)
      ensures (StartsWith(ref, "fld_") ==> HasField(spec, ref)) && (StartsWith(ref, "calc_") ==> HasCalc(spec, ref))
    {
      assert !Violated(spec, FormulaUnknownRef, ref);
    }
    forall a, id | 0 <= a < |spec.actions| && ActionNames(spec.actions[a], id) ensures HasPage(spec, id) {
      assert !Violated(spec, UnknownPageRef, id);
    }
    forall r, ref | 0 <= r < |Rules(spec)| && ref in VarRefs(Rules(spec)[r].cond) ensures ScoringMayRead(spec, ref) {
      assert !Violated(spec, ScoringUnknownRef, ref);
    }
  }

  /** The guard accepts exactly the well-formed specs. */
  lemma GuardAcceptsExactly(spec: FormSpec)
    ensures SpecErrors(spec) == [] <==> WellFormed(spec)
  {
    NoErrorsNoViolations(spec);
    if WellFormed(spec) {
      forall code, id ensures !Violated(spec, code, id) { WellFormedIsUnviolated(spec, code, id); }
    } else if forall code, id :: !Violated(spec, code, id) {
      UnviolatedIsWellFormed(spec);
    }
  }

  // ---- what acceptance gives the walk, the strip and the calculations ----

  lemma {:induction false} FiredIsAnAction(e: Engine, actions: seq<Action>, id: string, data: Values)
    requires Fired(e, actions, id, data).Some?
    ensures exists a :: 0 <= a < |actions| && actions[a].pageId == id && actions[a].do == Fired(e, actions, id, data).value
  {
    if !(actions[0].pageId == id && Fires(e, actions[0], data)) {
      FiredIsAnAction(e, actions[1..], id, data);
      var a :| 0 <= a < |actions[1..]| && actions[1..][a].pageId == id && actions[1..][a].do == Fired(e, actions, id, data).value;
      assert actions[a + 1] == actions[1..][a];
    }
  }

  /** In an accepted spec every jump that fires lands on the page it declares. */
  lemma AcceptedJumpsLand(e: Engine, spec: FormSpec, data: Values, i: nat, target: string)
    requires SpecErrors(spec) == [] && i < |spec.pages|
    requires Fired(e, spec.actions, spec.pages[i].id, data) == Some(JumpToPage(target))
    ensures OnList(spec, NextIndex(e, spec, data, i)) && spec.pages[NextIndex(e, spec, data, i)].id == target
  {
    GuardAcceptsExactly(spec);
    FiredIsAnAction(e, spec.actions, spec.pages[i].id, data);
    var a :| 0 <= a < |spec.actions| && spec.actions[a].pageId == spec.pages[i].id && spec.actions[a].do == JumpToPage(target);
    assert ActionNames(spec.actions[a], target);
    HasPageIs(spec, target);
    JumpLands(e, spec, data, i, target);
  }

  lemma {:induction false} FieldsBefore(pages: seq<Page>, p: nat, key: string)
    requires p < |pages| && Declares(pages[p], key)
    ensures key in FieldIds(pages)
  {
    DeclaredOrNot(pages, key);
  }

  lemma {:induction false} TwoPagesRepeat(pages: seq<Page>, p: nat, q: nat, key: string)
    requires p < q < |pages| && Declares(pages[p], key) && Declares(pages[q], key)
    ensures Repeated(FieldIds(pages), key)
  {
    var front, last := pages[..|pages| - 1], pages[|pages| - 1];
    var before, onPage := FieldIds(front), PageFieldIds(last.fields);
    var ids := FieldIds(pages);
    assert ids == before + onPage;
    if q < |front| {
      TwoPagesRepeat(front, p, q, key);
      var i, j :| 0 <= i < j < |before| && before[i] == key && before[j] == key;
      assert ids[i] == key && ids[j] == key;
    } else {
      FieldsBefore(front, p, key);
      var i :| 0 <= i < |before| && before[i] == key;
      var j :| 0 <= j < |onPage| && onPage[j] == key;
      assert ids[i] == key && ids[|before| + j] == key;
    }
  }

  /** An accepted spec has distinct page ids and no field on two pages, as the walk and the strip need. */
  lemma AcceptedSpecIsUnambiguous(spec: FormSpec)
    requires SpecErrors(spec) == []
    ensures Distinct(PageIds(spec.pages)) && FieldsOnOnePage(spec.pages)
  {
    GuardAcceptsExactly(spec);
    DistinctMeansNotRepeated(FieldIds(spec.pages));
    forall p, q, key | 0 <= p < q < |spec.pages| && Declares(spec.pages[p], key) ensures !Declares(spec.pages[q], key) {
      if Declares(spec.pages[q], key) { TwoPagesRepeat(spec.pages, p, q, key); }
    }
  }

  /** Field ids of an accepted spec are what the compiler works on, where they end in a word and do not hold another id. */
  lemma AcceptedIdsArePlain(spec: FormSpec)
    requires SpecErrors(spec) == []
    requires forall i :: 0 <= i < |FieldIds(spec.pages)| ==> EndsInItsWord(FieldIds(spec.pages)[i])
    ensures PlainFieldIds(FieldIds(spec.pages))
  {
    GuardAcceptsExactly(spec);
    var ids := FieldIds(spec.pages);
    assert forall id :: HasField(spec, id) ==> FieldPattern(id);
    hide FieldPattern, EndsInItsWord, FieldName, FieldIds, HasField, WellFormed, SpecErrors;
    forall i | 0 <= i < |ids| ensures FieldName(ids[i]) {
      HasFieldIs(spec, ids[i]);
      PatternIsName(ids[i]);
    }
  }

  predicate EndsInItsWord(id: string) {
    id != [] && id[|id| - 1] != '-' && OneIdOnly(id)
  }

  lemma PatternIsName(id: string)
    requires FieldPattern(id) && EndsInItsWord(id)
    ensures FieldName(id)
  {
    hide OneIdOnly;
    assert forall k :: 4 <= k < |id| ==> id[k] == id[4..][k - 4];
  }

  lemma {:induction false} CalcRowsKeys(calcs: seq<Calc>, k: nat, id: string)
    requires k <= |calcs|
    ensures id in CalcRows(calcs, k) <==> exists c :: 0 <= c < k && calcs[c].id == id
  {
    if k > 0 { CalcRowsKeys(calcs, k - 1, id); }
  }

  /** Declared, but only by calculations after the `k`th. */
  predicate OnlyDeclaredLater(spec: FormSpec, k: nat, id: string) {
    HasCalc(spec, id) && !HasField(spec, id) && forall c :: 0 <= c <= k && c < |spec.calculations| ==> spec.calculations[c].id != id
  }

  /** The guard looks references up only when they begin with `fld_` or `calc_` in lower case. */
  predicate Looked(ref: string) {
    StartsWith(ref, "fld_") || StartsWith(ref, "calc_")
  }

  /** Some word that begins with such a prefix, but not all in lower case, is glued to the next. */
  predicate UpperGlued(formula: string) {
    exists i: nat :: i < |formula| && GluedAt(formula, i) && !Looked(formula[i..])
  }

  /** No id of the spec has a hyphen, or any other character that is not of a word. */
  ghost predicate WordIds(spec: FormSpec) {
    forall id :: HasField(spec, id) || HasCalc(spec, id) ==> IsWord(id)
  }

  lemma LookedAhead(s: string, i: nat, end: nat, prefix: string)
    requires i <= end <= |s| && StartsWith(s[i..], prefix) && i + |prefix| <= end
    ensures StartsWith(s[i..end], prefix)
  {
    assert s[i..end][..|prefix|] == s[i..][..|prefix|];
  }

  /** A lower-case glued match would be a declared id with a hyphen in it. */
  lemma AcceptedGlueIsUpper(spec: FormSpec, k: nat)
    requires SpecErrors(spec) == [] && WordIds(spec) && k < |spec.calculations| && Glued(spec.calculations[k].formula)
    ensures UpperGlued(spec.calculations[k].formula)
  {
    var formula := spec.calculations[k].formula;
    var g := GluedGivesHyphen(formula);
    var end := MatchEnd(formula, g).value;
    var ref := formula[g..end];
    assert g < |formula|;
    assert HasField(spec, ref) || HasCalc(spec, ref) ==> IsWord(ref);
    hide *;
    AcceptedRefResolves(spec, k, ref);
    if !UpperGlued(formula) {
      LookedUnlessUpper(formula, g);
      GluedMatchLooked(formula, g);
    }
  }

  lemma AcceptedRefResolves(spec: FormSpec, k: nat, ref: string)
    requires SpecErrors(spec) == [] && k < |spec.calculations| && ref in FormulaRefs(spec.calculations[k].formula)
    ensures Looked(ref) ==> HasField(spec, ref) || HasCalc(spec, ref)
  {
    GuardAcceptsExactly(spec);
    hide FormulaRefs, StartsWith, HasField, HasCalc, PagePattern, FieldPattern;
  }

  lemma LookedUnlessUpper(formula: string, g: nat)
    requires g < |formula| && GluedAt(formula, g) && !UpperGlued(formula)
    ensures Looked(formula[g..])
  {
    hide GluedAt, Looked;
  }

  /** The match of a glued word that begins in lower case begins in lower case. */
  lemma GluedMatchLooked(formula: string, g: nat)
    requires g < |formula| && GluedAt(formula, g) && Looked(formula[g..]) && MatchEnd(formula, g).Some?
    ensures Looked(formula[g..MatchEnd(formula, g).value])
  {
    hide GluedAt, MatchEnd, PrefixAt;
    GluedMatchIsLong(formula, g);
    var end := MatchEnd(formula, g).value;
    if StartsWith(formula[g..], "fld_") { LookedAhead(formula, g, end, "fld_"); } else { LookedAhead(formula, g, end, "calc_"); }
  }

  lemma GluedMatchIsLong(s: string, i: nat)
    requires GluedAt(s, i)
    ensures MatchEnd(s, i).Some? && i + PrefixAt(s, i) <= MatchEnd(s, i).value
    ensures StartsWith(s[i..], "calc_") ==> PrefixAt(s, i) == 5
    ensures StartsWith(s[i..], "fld_") ==> PrefixAt(s, i) == 4
  {
    GluedMatch(s, i);
    PrefixWithinWord(s, i);
    var t := s[i..];
    assert forall j :: 0 <= j < |t| ==> t[j] == s[i + j];
    if StartsWith(t, "calc_") { assert forall j :: 0 <= j < 5 ==> t[j] == t[..5][j]; }
    if StartsWith(t, "fld_") { assert forall j :: 0 <= j < 4 ==> t[j] == t[..4][j]; }
  }

  /** In an accepted spec with hyphen-free ids, the scan of a formula is exact exactly when no upper-case reference in it is glued. */
  lemma AcceptedScanIsExact(spec: FormSpec, k: nat)
    requires SpecErrors(spec) == [] && WordIds(spec) && k < |spec.calculations|
    ensures ScanIsExact(spec.calculations[k].formula) <==> !UpperGlued(spec.calculations[k].formula)
  {
    var formula := spec.calculations[k].formula;
    ScanIsExactExactly(formula);
    if Glued(formula) { AcceptedGlueIsUpper(spec, k); }
  }

  /**
   * In an accepted spec, a lower-case identifier in a formula has a value there,
   * unless it is a calculation that only comes later: the guard lets such a forward
   * reference pass, and the compiler leaves it as a bare word. The formula has no
   * glued word, or, where ids have no hyphens, none that begins in upper case.
   */
  lemma AcceptedReferenceHasAValue(p: Platform, spec: FormSpec, values: Values, k: nat, earlier: seq<CellValue>, w: string)
    requires SpecErrors(spec) == [] && k < |spec.calculations| && |earlier| == k
    requires !Glued(spec.calculations[k].formula) || (WordIds(spec) && !UpperGlued(spec.calculations[k].formula))
    requires Word(w) in FormulaTokens(spec.calculations[k].formula) && Identifier(w) && Looked(w)
    ensures w in SourceEnv(p, FieldIds(spec.pages), spec.calculations, values, k, earlier) <==> !OnlyDeclaredLater(spec, k, w)
  {
    GuardAcceptsExactly(spec);
    ScanIsExactExactly(spec.calculations[k].formula);
    if Glued(spec.calculations[k].formula) { AcceptedScanIsExact(spec, k); }
    assert w in FormulaRefs(spec.calculations[k].formula);
    assert HasField(spec, w) || HasCalc(spec, w);
    EnvHolds(p, spec, values, k, earlier, w);
  }

  /** A word has a value in a formula when a field has that id, or a calculation up to the formula's own. */
  lemma EnvHolds(p: Platform, spec: FormSpec, values: Values, k: nat, earlier: seq<CellValue>, w: string)
    requires k < |spec.calculations| && |earlier| == k
    ensures w in SourceEnv(p, FieldIds(spec.pages), spec.calculations, values, k, earlier) <==>
      HasField(spec, w) || exists c :: 0 <= c <= k && spec.calculations[c].id == w
  {
    FieldMapKeys(FieldIds(spec.pages));
    HasFieldIs(spec, w);
    CalcRowsKeys(spec.calculations, k + 1, w);
  }
}
