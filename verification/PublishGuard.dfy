/** The cross-reference check a spec passes before it is published. */
module PublishGuard {
  import opened FormSpecs
  import opened FormulaScan
  import opened JsonLogic
  import opened PageWalk

  datatype Code =
    | DuplicateFieldId | DuplicatePageId | UnknownFieldRef | FieldIdPattern | PageIdPattern | ArchivedForm | EmptyPage
    | UnknownPageRef | FormulaUnknownRef | ScoringUnknownRef

  /** A code and the id its message names. */
  datatype GuardError = GuardError(code: Code, about: string)

  type Errors = seq<GuardError>

  // ---- id patterns ----

  predicate IdTail(s: string) {
    s != [] && forall i :: 0 <= i < |s| ==> IdChar(s[i])
  }

  /** `/^pg_[a-z0-9_-]+$/i` */
  predicate PagePattern(id: string) {
    && |id| > 3 && (id[0] == 'p' || id[0] == 'P') && (id[1] == 'g' || id[1] == 'G') && id[2] == '_'
    && IdTail(id[3..])
  }

  /** `/^fld_[a-z0-9_-]+$/i` */
  predicate FieldPattern(id: string) {
    FldAt(id, 0) && IdTail(id[4..])
  }

  /** A letter of either case, a digit, an underscore or a hyphen. */
  predicate PatternChar(c: char) {
    'a' <= c <= 'z' || 'A' <= c <= 'Z' || '0' <= c <= '9' || c in ['_', '-']
  }

  /** Both patterns ask for their prefix in any case, and for at least one such character after it and no other. */
  lemma PatternsAre(id: string)
    ensures PagePattern(id) <==>
      |id| >= 4 && id[..3] in ["pg_", "pG_", "Pg_", "PG_"] && forall k :: 3 <= k < |id| ==> PatternChar(id[k])
    ensures FieldPattern(id) <==>
      && |id| >= 5 && id[0] in ['f', 'F'] && id[1] in ['l', 'L'] && id[2] in ['d', 'D'] && id[3] == '_'
      && forall k :: 4 <= k < |id| ==> PatternChar(id[k])
  {
    assert |id| > 3 ==> id[..3] == [id[0], id[1], id[2]];
    assert forall k :: 3 <= k < |id| ==> id[3..][k - 3] == id[k];
    assert forall k :: 4 <= k < |id| ==> id[4..][k - 4] == id[k];
    assert forall k :: 0 <= k < |id| - 3 ==> id[3..][k] == id[k + 3];
    assert forall k :: 0 <= k < |id| - 4 ==> id[4..][k] == id[k + 4];
  }

  predicate StartsWith(s: string, prefix: string) {
    |prefix| <= |s| && s[..|prefix|] == prefix
  }

  // ---- the errors, section by section ----

  function When(condition: bool, code: Code, about: string): (r: Errors) {
    if condition then [GuardError(code, about)] else []
  }

  function FieldErrors(before: seq<string>, ids: seq<string>): Errors {
    if ids == [] then []
    else
      var front, id := ids[..|ids| - 1], ids[|ids| - 1];
      FieldErrors(before, front) + When(id in before + front, DuplicateFieldId, id) + When(!FieldPattern(id), FieldIdPattern, id)
  }

  function PageOwnErrors(before: seq<Page>, page: Page): Errors {
    When(page.id in PageIds(before), DuplicatePageId, page.id)
    + When(!PagePattern(page.id), PageIdPattern, page.id)
    + When(page.fields == [], EmptyPage, page.id)
  }

  function PageErrors(pages: seq<Page>): Errors {
    if pages == [] then []
    else
      var front, page := pages[..|pages| - 1], pages[|pages| - 1];
      PageErrors(front) + PageOwnErrors(front, page) + FieldErrors(FieldIds(front), PageFieldIds(page.fields))
  }

  /** One error for every reference that is not known. */
  function RefErrors(refs: seq<string>, known: set<string>, code: Code): Errors {
    if refs == [] then []
    else RefErrors(refs[..|refs| - 1], known, code) + When(refs[|refs| - 1] !in known, code, refs[|refs| - 1])
  }

  function FieldRefs(field: Field): seq<string> {
    VarRefs(field.showIf) + (if field.rowsFrom.Str? && field.rowsFrom.s != [] then [Head(field.rowsFrom.s)] else [])
  }

  function FieldsRefs(fields: seq<Field>): seq<string> {
    if fields == [] then [] else FieldsRefs(fields[..|fields| - 1]) + FieldRefs(fields[|fields| - 1])
  }

  /** What visibility rules and matrix rows refer to. */
  function PagesRefs(pages: seq<Page>): seq<string> {
    if pages == [] then []
    else PagesRefs(pages[..|pages| - 1]) + VarRefs(pages[|pages| - 1].showIf) + FieldsRefs(pages[|pages| - 1].fields)
  }

  function CalcIds(calcs: seq<Calc>): set<string> {
    set c | c in calcs :: c.id
  }

  predicate FormulaRefUnknown(ref: string, calcId: string, fieldIds: set<string>, calcIds: set<string>) {
    if StartsWith(ref, "fld_") && ref !in fieldIds then true
    else StartsWith(ref, "calc_") && ref != calcId && ref !in calcIds
  }

  function FormulaErrors(refs: seq<string>, calcId: string, fieldIds: set<string>, calcIds: set<string>): Errors {
    if refs == [] then []
    else
      var ref := refs[|refs| - 1];
      FormulaErrors(refs[..|refs| - 1], calcId, fieldIds, calcIds)
      + When(FormulaRefUnknown(ref, calcId, fieldIds, calcIds), FormulaUnknownRef, ref)
  }

  function CalcErrors(calcs: seq<Calc>, fieldIds: set<string>, calcIds: set<string>): Errors {
    if calcs == [] then []
    else
      var last := calcs[|calcs| - 1];
      CalcErrors(calcs[..|calcs| - 1], fieldIds, calcIds) + FormulaErrors(FormulaRefs(last.formula), last.id, fieldIds, calcIds)
  }

  /** The page ids an action names: its own, and its targets; empty targets of a list are passed over. */
  function ActionRefs(a: Action): seq<string> {
    [a.pageId] + match a.do
                 case JumpToPage(target) => [target]
                 case SkipCount(n) => []
                 case SkipList(targets) => NonEmpty(targets)
  }

  function NonEmpty(ids: seq<string>): (r: seq<string>)
    ensures forall id :: id in r <==> id in ids && id != []
  {
    if ids == [] then []
    else NonEmpty(ids[..|ids| - 1]) + (if ids[|ids| - 1] == [] then [] else [ids[|ids| - 1]])
  }

  function ActionsRefs(actions: seq<Action>): seq<string> {
    if actions == [] then [] else ActionsRefs(actions[..|actions| - 1]) + ActionRefs(actions[|actions| - 1])
  }

  function RulesRefs(rules: seq<ScoringRule>): seq<string> {
    if rules == [] then [] else RulesRefs(rules[..|rules| - 1]) + VarRefs(rules[|rules| - 1].cond)
  }

  function WithPrefix(ids: set<string>, prefix: string): set<string> {
    set id {:trigger id in ids} | id in ids && StartsWith(id, prefix)
  }

  /** What a scoring rule may refer to. */
  function ScoringKnown(fieldIds: set<string>, calcIds: set<string>): set<string> {
    {"score"} + WithPrefix(fieldIds, "fld_") + WithPrefix(calcIds, "calc_")
  }

  function AsSet(ids: seq<string>): set<string> {
    set id | id in ids
  }

  /** Every error of a spec, in order. */
  function SpecErrors(spec: FormSpec): Errors {
    var fieldIds, calcIds := AsSet(FieldIds(spec.pages)), CalcIds(spec.calculations);
    PageErrors(spec.pages)
    + RefErrors(PagesRefs(spec.pages), fieldIds, UnknownFieldRef)
    + CalcErrors(spec.calculations, fieldIds, calcIds)
    + RefErrors(ActionsRefs(spec.actions), AsSet(PageIds(spec.pages)), UnknownPageRef)
    + (if spec.scoring.Some? then RefErrors(RulesRefs(spec.scoring.value.rules), ScoringKnown(fieldIds, calcIds), ScoringUnknownRef) else [])
  }

  // ---- the order of the errors ----

  /** The errors are about the unknown references at these places, one for each and in their order. */
  ghost predicate Report(errors: Errors, refs: seq<string>, known: set<string>, code: Code, at: seq<nat>) {
    && |at| == |errors| && (forall k, l :: 0 <= k < l < |at| ==> at[k] < at[l])
    && (forall k :: 0 <= k < |at| ==> at[k] < |refs| && refs[at[k]] !in known && errors[k] == GuardError(code, refs[at[k]]))
    && (forall i: nat :: i < |refs| && refs[i] !in known ==> i in at)
  }

  lemma ReportMore(errors: Errors, refs: seq<string>, known: set<string>, code: Code, at: seq<nat>, last: string)
    requires Report(errors, refs, known, code, at)
    ensures last in known ==> Report(errors, refs + [last], known, code, at)
    ensures last !in known ==> Report(errors + [GuardError(code, last)], refs + [last], known, code, at + [|refs|])
  {
  }

  /** Each unknown reference is reported once for each occurrence, in order, and nothing else is. */
  lemma {:induction false} RefErrorsInOrder(refs: seq<string>, known: set<string>, code: Code) returns (at: seq<nat>)
    ensures Report(RefErrors(refs, known, code), refs, known, code, at)
  {
    at := [];
    if refs != [] {
      var front, last := refs[..|refs| - 1], refs[|refs| - 1];
      RefErrorsSnoc(refs, known, code);
      hide *;
      assert refs == front + [last];
      at := RefErrorsInOrder(front, known, code);
      ReportMore(RefErrors(front, known, code), front, known, code, at, last);
      if last !in known {
        assert RefErrors(refs, known, code) == RefErrors(front, known, code) + [GuardError(code, last)];
        at := at + [|front|];
      }
    }
  }

  /** The errors of two lists of ids are those of the first and then those of the second, which comes after the first. */
  lemma {:induction false} FieldErrorsInOrder(before: seq<string>, a: seq<string>, b: seq<string>)
    ensures FieldErrors(before, a + b) == FieldErrors(before, a) + FieldErrors(before + a, b)
  {
    hide FieldPattern;
    if b == [] {
      assert a + b == a;
    } else {
      var all, front := a + b, b[..|b| - 1];
      assert all[..|all| - 1] == a + front && before + (a + front) == (before + a) + front;
      FieldErrorsInOrder(before, a, front);
      FieldErrorsSnoc(before, all);
      FieldErrorsSnoc(before + a, b);
      hide FieldErrors;
    }
  }

  lemma FieldErrorsSnoc(before: seq<string>, ids: seq<string>)
    requires ids != []
    ensures
      var front, id := ids[..|ids| - 1], ids[|ids| - 1];
      FieldErrors(before, ids) == FieldErrors(before, front)
                                  + (When(id in before + front, DuplicateFieldId, id) + When(!FieldPattern(id), FieldIdPattern, id))
  {
  }

  /** An id that came before is an error, and then one that breaks the pattern is. */
  lemma OneFieldsErrors(before: seq<string>, id: string)
    ensures FieldErrors(before, [id]) ==
      (if id in before then [GuardError(DuplicateFieldId, id)] else []) + (if FieldPattern(id) then [] else [GuardError(FieldIdPattern, id)])
  {
    hide FieldPattern;
    assert [id][..0] == [] && before + [] == before;
    assert FieldErrors(before, []) == [];
  }

  lemma NothingListed(calcId: string, fieldIds: set<string>, calcIds: set<string>)
    ensures FieldsRefs([]) == [] && PagesRefs([]) == [] && ActionsRefs([]) == [] && RulesRefs([]) == []
    ensures FormulaErrors([], calcId, fieldIds, calcIds) == [] && CalcErrors([], fieldIds, calcIds) == []
  {
  }

  lemma FieldsRefsSnoc(front: seq<Field>, last: Field)
    ensures FieldsRefs(front + [last]) == FieldsRefs(front) + FieldRefs(last)
  {
    hide FieldRefs;
    assert (front + [last])[..|front|] == front;
  }

  /** The references of two lists are those of the first and then those of the second. */
  lemma {:induction false} FieldsRefsInOrder(a: seq<Field>, b: seq<Field>)
    ensures FieldsRefs(a + b) == FieldsRefs(a) + FieldsRefs(b)
  {
    hide *;
    NothingListed("", {}, {});
    if b == [] {
      assert a + b == a;
    } else {
      var front, last := b[..|b| - 1], b[|b| - 1];
      assert b == front + [last] && a + b == (a + front) + [last];
      FieldsRefsInOrder(a, front);
      FieldsRefsSnoc(a + front, last);
      FieldsRefsSnoc(front, last);
    }
  }

  lemma PagesRefsSnoc(front: seq<Page>, last: Page)
    ensures PagesRefs(front + [last]) == PagesRefs(front) + (VarRefs(last.showIf) + FieldsRefs(last.fields))
  {
    hide FieldsRefs, VarRefs;
    assert (front + [last])[..|front|] == front;
  }

  lemma {:induction false} PagesRefsInOrder(a: seq<Page>, b: seq<Page>)
    ensures PagesRefs(a + b) == PagesRefs(a) + PagesRefs(b)
  {
    hide *;
    NothingListed("", {}, {});
    if b == [] {
      assert a + b == a;
    } else {
      var front, last := b[..|b| - 1], b[|b| - 1];
      assert b == front + [last] && a + b == (a + front) + [last];
      PagesRefsInOrder(a, front);
      PagesRefsSnoc(a + front, last);
      PagesRefsSnoc(front, last);
    }
  }

  lemma ActionsRefsSnoc(front: seq<Action>, last: Action)
    ensures ActionsRefs(front + [last]) == ActionsRefs(front) + ActionRefs(last)
  {
    hide ActionRefs;
    assert (front + [last])[..|front|] == front;
  }

  lemma {:induction false} ActionsRefsInOrder(a: seq<Action>, b: seq<Action>)
    ensures ActionsRefs(a + b) == ActionsRefs(a) + ActionsRefs(b)
  {
    hide *;
    NothingListed("", {}, {});
    if b == [] {
      assert a + b == a;
    } else {
      var front, last := b[..|b| - 1], b[|b| - 1];
      assert b == front + [last] && a + b == (a + front) + [last];
      ActionsRefsInOrder(a, front);
      ActionsRefsSnoc(a + front, last);
      ActionsRefsSnoc(front, last);
    }
  }

  lemma RulesRefsSnoc(front: seq<ScoringRule>, last: ScoringRule)
    ensures RulesRefs(front + [last]) == RulesRefs(front) + VarRefs(last.cond)
  {
    hide VarRefs;
    assert (front + [last])[..|front|] == front;
  }

  lemma {:induction false} RulesRefsInOrder(a: seq<ScoringRule>, b: seq<ScoringRule>)
    ensures RulesRefs(a + b) == RulesRefs(a) + RulesRefs(b)
  {
    hide *;
    NothingListed("", {}, {});
    if b == [] {
      assert a + b == a;
    } else {
      var front, last := b[..|b| - 1], b[|b| - 1];
      assert b == front + [last] && a + b == (a + front) + [last];
      RulesRefsInOrder(a, front);
      RulesRefsSnoc(a + front, last);
      RulesRefsSnoc(front, last);
    }
  }

  lemma FormulaErrorsSnoc(front: seq<string>, last: string, calcId: string, fieldIds: set<string>, calcIds: set<string>)
    ensures FormulaErrors(front + [last], calcId, fieldIds, calcIds) == FormulaErrors(front, calcId, fieldIds, calcIds) + When(FormulaRefUnknown(last, calcId, fieldIds, calcIds), FormulaUnknownRef, last)
  {
    hide FormulaRefUnknown;
    assert (front + [last])[..|front|] == front;
  }

  /** And so are the errors about formulas. */
  lemma {:induction false} FormulaErrorsInOrder(a: seq<string>, b: seq<string>, calcId: string, fieldIds: set<string>, calcIds: set<string>)
    ensures FormulaErrors(a + b, calcId, fieldIds, calcIds) == FormulaErrors(a, calcId, fieldIds, calcIds) + FormulaErrors(b, calcId, fieldIds, calcIds)
  {
    hide *;
    NothingListed(calcId, fieldIds, calcIds);
    if b == [] {
      assert a + b == a;
    } else {
      var front, last := b[..|b| - 1], b[|b| - 1];
      assert b == front + [last] && a + b == (a + front) + [last];
      FormulaErrorsInOrder(a, front, calcId, fieldIds, calcIds);
      FormulaErrorsSnoc(a + front, last, calcId, fieldIds, calcIds);
      FormulaErrorsSnoc(front, last, calcId, fieldIds, calcIds);
    }
  }

  lemma CalcErrorsSnoc(front: seq<Calc>, last: Calc, fieldIds: set<string>, calcIds: set<string>)
    ensures CalcErrors(front + [last], fieldIds, calcIds) == CalcErrors(front, fieldIds, calcIds) + FormulaErrors(FormulaRefs(last.formula), last.id, fieldIds, calcIds)
  {
    hide FormulaErrors, FormulaRefs;
    assert (front + [last])[..|front|] == front;
  }

  lemma {:induction false} CalcErrorsInOrder(a: seq<Calc>, b: seq<Calc>, fieldIds: set<string>, calcIds: set<string>)
    ensures CalcErrors(a + b, fieldIds, calcIds) == CalcErrors(a, fieldIds, calcIds) + CalcErrors(b, fieldIds, calcIds)
  {
    hide *;
    NothingListed("", fieldIds, calcIds);
    if b == [] {
      assert a + b == a;
    } else {
      var front, last := b[..|b| - 1], b[|b| - 1];
      assert b == front + [last] && a + b == (a + front) + [last];
      CalcErrorsInOrder(a, front, fieldIds, calcIds);
      CalcErrorsSnoc(a + front, last, fieldIds, calcIds);
      CalcErrorsSnoc(front, last, fieldIds, calcIds);
    }
  }

  lemma PageErrorsSnoc(front: seq<Page>, page: Page)
    ensures PageErrors(front) <= PageErrors(front + [page])
  {
    hide PageOwnErrors, FieldErrors, FieldIds;
    assert (front + [page])[..|front|] == front;
  }

  /** The errors of the first pages come first, whatever pages follow. */
  lemma {:induction false} PageErrorsInOrder(a: seq<Page>, b: seq<Page>)
    ensures PageErrors(a) <= PageErrors(a + b)
  {
    if b == [] {
      assert a + b == a;
    } else {
      hide *;
      var front, last := b[..|b| - 1], b[|b| - 1];
      assert a + b == (a + front) + [last];
      PageErrorsInOrder(a, front);
      PageErrorsSnoc(a + front, last);
    }
  }

  /** A page's own errors come before those of its fields. */
  lemma OnePagesErrors(page: Page)
    ensures PageErrors([page]) ==
      (if PagePattern(page.id) then [] else [GuardError(PageIdPattern, page.id)])
      + (if page.fields == [] then [GuardError(EmptyPage, page.id)] else [])
      + FieldErrors([], PageFieldIds(page.fields))
  {
    hide PagePattern, FieldErrors;
    var pages, none: seq<Page> := [page], [];
    assert pages[..0] == none && PageErrors(none) == [] && FieldIds(none) == [] && PageIds(none) == [];
  }

  // ---- the checks themselves ----

  method ValidatePublishableSpec(spec: FormSpec, archived: bool) returns (errors: Errors)
    ensures archived ==> errors == [GuardError(ArchivedForm, "")]
    ensures !archived ==> errors == SpecErrors(spec)
  {
    if archived { return [GuardError(ArchivedForm, "")]; }
    var allFieldIds, seenPageIds;
    errors, allFieldIds, seenPageIds := CheckPages(spec.pages);
    var more := CheckPageRefs(spec.pages, allFieldIds);
    errors := errors + more;
    var allCalcIds := CalcIds(spec.calculations);
    more := CheckCalcs(spec.calculations, allFieldIds, allCalcIds);
    errors := errors + more;
    more := CheckActions(spec.actions, seenPageIds);
    errors := errors + more;
    if spec.scoring.Some? {
      more := CheckRules(spec.scoring.value.rules, allFieldIds, allCalcIds);
      errors := errors + more;
    }
  }

  method CheckPages(pages: seq<Page>) returns (errors: Errors, allFieldIds: set<string>, seenPageIds: set<string>)
    ensures errors == PageErrors(pages)
    ensures allFieldIds == AsSet(FieldIds(pages)) && seenPageIds == AsSet(PageIds(pages))
  {
    errors, allFieldIds, seenPageIds := [], {}, {};
    for p := 0 to |pages|
      invariant errors == PageErrors(pages[..p])
      invariant allFieldIds == AsSet(FieldIds(pages[..p])) && seenPageIds == AsSet(PageIds(pages[..p]))
    {
      var own := CheckPage(pages[..p], pages[p], seenPageIds);
      var onFields;
      onFields, allFieldIds := CheckFields(FieldIds(pages[..p]), pages[p].fields, allFieldIds);
      NextPage(pages, p);
      errors := errors + own + onFields;
      seenPageIds := seenPageIds + {pages[p].id};
    }
    assert pages[..|pages|] == pages;
  }

  lemma NextPage(pages: seq<Page>, p: nat)
    requires p < |pages|
    ensures PageErrors(pages[..p + 1]) == PageErrors(pages[..p]) + PageOwnErrors(pages[..p], pages[p])
                                          + FieldErrors(FieldIds(pages[..p]), PageFieldIds(pages[p].fields))
    ensures FieldIds(pages[..p + 1]) == FieldIds(pages[..p]) + PageFieldIds(pages[p].fields)
    ensures AsSet(PageIds(pages[..p + 1])) == AsSet(PageIds(pages[..p])) + {pages[p].id}
  {
    assert pages[..p + 1][..p] == pages[..p];
    assert PageIds(pages[..p + 1]) == PageIds(pages[..p]) + [pages[p].id];
  }

  method CheckPage(ghost before: seq<Page>, page: Page, seenPageIds: set<string>) returns (errors: Errors)
    requires seenPageIds == AsSet(PageIds(before))
    ensures errors == PageOwnErrors(before, page)
  {
    errors := [];
    if page.id in seenPageIds { errors := errors + [GuardError(DuplicatePageId, page.id)]; }
    if !PagePattern(page.id) { errors := errors + [GuardError(PageIdPattern, page.id)]; }
    if |page.fields| == 0 { errors := errors + [GuardError(EmptyPage, page.id)]; }
  }

  method CheckFields(ghost before: seq<string>, fields: seq<Field>, seen: set<string>) returns (errors: Errors, allFieldIds: set<string>)
    requires seen == AsSet(before)
    ensures errors == FieldErrors(before, PageFieldIds(fields))
    ensures allFieldIds == AsSet(before + PageFieldIds(fields))
  {
    ghost var ids := PageFieldIds(fields);
    errors, allFieldIds := [], seen;
    assert before + ids[..0] == before;
    for f := 0 to |fields|
      invariant errors == FieldErrors(before, ids[..f])
      invariant allFieldIds == AsSet(before + ids[..f])
    {
      assert ids[..f + 1][..f] == ids[..f];
      assert before + ids[..f + 1] == (before + ids[..f]) + [ids[f]];
      var id := fields[f].id;
      var found: Errors := [];
      if id in allFieldIds {
        found := [GuardError(DuplicateFieldId, id)];
      } else {
        allFieldIds := allFieldIds + {id};
      }
      if !FieldPattern(id) { found := found + [GuardError(FieldIdPattern, id)]; }
      errors := errors + found;
    }
    assert ids[..|fields|] == ids;
  }

  lemma {:induction false} RefErrorsConcat(a: seq<string>, b: seq<string>, known: set<string>, code: Code)
    ensures RefErrors(a + b, known, code) == RefErrors(a, known, code) + RefErrors(b, known, code)
  {
    if b == [] {
      assert a + b == a;
    } else {
      var all := a + b;
      assert all[..|all| - 1] == a + b[..|b| - 1];
      RefErrorsConcat(a, b[..|b| - 1], known, code);
      RefErrorsSnoc(all, known, code);
      RefErrorsSnoc(b, known, code);
      hide RefErrors;
    }
  }

  lemma RefErrorsSnoc(refs: seq<string>, known: set<string>, code: Code)
    requires refs != []
    ensures
      var front, last := refs[..|refs| - 1], refs[|refs| - 1];
      RefErrors(refs, known, code) == if last in known then RefErrors(front, known, code) else RefErrors(front, known, code) + [GuardError(code, last)]
  {
  }

  method CheckRefs(refs: seq<string>, known: set<string>, code: Code) returns (errors: Errors)
    ensures errors == RefErrors(refs, known, code)
  {
    errors := [];
    for i := 0 to |refs|
      invariant errors == RefErrors(refs[..i], known, code)
    {
      assert refs[..i + 1][..i] == refs[..i];
      if refs[i] !in known { errors := errors + [GuardError(code, refs[i])]; }
    }
    assert refs[..|refs|] == refs;
  }

  method CheckRule(rule: Val, known: set<string>, code: Code) returns (errors: Errors)
    ensures errors == RefErrors(VarRefs(rule), known, code)
  {
    if rule == Undefined || rule == Null { return []; }
    var refs := CollectVarRefs(rule);
    errors := CheckRefs(refs, known, code);
  }

  method CheckPageRefs(pages: seq<Page>, allFieldIds: set<string>) returns (errors: Errors)
    ensures errors == RefErrors(PagesRefs(pages), allFieldIds, UnknownFieldRef)
  {
    errors := [];
    for p := 0 to |pages|
      invariant errors == RefErrors(PagesRefs(pages[..p]), allFieldIds, UnknownFieldRef)
    {
      assert pages[..p + 1][..p] == pages[..p];
      var onPage := CheckRule(pages[p].showIf, allFieldIds, UnknownFieldRef);
      var onFields := CheckFieldRefs(pages[p].fields, allFieldIds);
      RefErrorsConcat(PagesRefs(pages[..p]), VarRefs(pages[p].showIf), allFieldIds, UnknownFieldRef);
      RefErrorsConcat(PagesRefs(pages[..p]) + VarRefs(pages[p].showIf), FieldsRefs(pages[p].fields), allFieldIds, UnknownFieldRef);
      errors := errors + onPage + onFields;
    }
    assert pages[..|pages|] == pages;
  }

  method CheckFieldRefs(fields: seq<Field>, allFieldIds: set<string>) returns (errors: Errors)
    ensures errors == RefErrors(FieldsRefs(fields), allFieldIds, UnknownFieldRef)
  {
    errors := [];
    for f := 0 to |fields|
      invariant errors == RefErrors(FieldsRefs(fields[..f]), allFieldIds, UnknownFieldRef)
    {
      assert fields[..f + 1][..f] == fields[..f];
      RefErrorsConcat(FieldsRefs(fields[..f]), FieldRefs(fields[f]), allFieldIds, UnknownFieldRef);
      var found := CheckField(fields[f], allFieldIds);
      errors := errors + found;
    }
    assert fields[..|fields|] == fields;
  }

  method CheckField(field: Field, allFieldIds: set<string>) returns (errors: Errors)
    ensures errors == RefErrors(FieldRefs(field), allFieldIds, UnknownFieldRef)
  {
    errors := CheckRule(field.showIf, allFieldIds, UnknownFieldRef);
    if field.rowsFrom.Str? && |field.rowsFrom.s| > 0 {
      var rootRef := Head(field.rowsFrom.s);
      RefErrorsConcat(VarRefs(field.showIf), [rootRef], allFieldIds, UnknownFieldRef);
      assert [rootRef][..0] == [];
      if rootRef !in allFieldIds { errors := errors + [GuardError(UnknownFieldRef, rootRef)]; }
    } else {
      assert FieldRefs(field) == VarRefs(field.showIf);
    }
  }

  method CheckCalcs(calcs: seq<Calc>, allFieldIds: set<string>, allCalcIds: set<string>) returns (errors: Errors)
    ensures errors == CalcErrors(calcs, allFieldIds, allCalcIds)
  {
    errors := [];
    for c := 0 to |calcs|
      invariant errors == CalcErrors(calcs[..c], allFieldIds, allCalcIds)
    {
      assert calcs[..c + 1][..c] == calcs[..c];
      var matches := FormulaRefs(calcs[c].formula);
      var found := CheckFormula(matches, calcs[c].id, allFieldIds, allCalcIds);
      errors := errors + found;
    }
    assert calcs[..|calcs|] == calcs;
  }

  method CheckFormula(matches: seq<string>, calcId: string, allFieldIds: set<string>, allCalcIds: set<string>) returns (errors: Errors)
    ensures errors == FormulaErrors(matches, calcId, allFieldIds, allCalcIds)
  {
    errors := [];
    for i := 0 to |matches|
      invariant errors == FormulaErrors(matches[..i], calcId, allFieldIds, allCalcIds)
    {
      assert matches[..i + 1][..i] == matches[..i];
      var ref := matches[i];
      if StartsWith(ref, "fld_") && ref !in allFieldIds {
        errors := errors + [GuardError(FormulaUnknownRef, ref)];
      } else if StartsWith(ref, "calc_") && ref != calcId && ref !in allCalcIds {
        errors := errors + [GuardError(FormulaUnknownRef, ref)];
      }
    }
    assert matches[..|matches|] == matches;
  }

  method CheckActions(actions: seq<Action>, seenPageIds: set<string>) returns (errors: Errors)
    ensures errors == RefErrors(ActionsRefs(actions), seenPageIds, UnknownPageRef)
  {
    errors := [];
    for a := 0 to |actions|
      invariant errors == RefErrors(ActionsRefs(actions[..a]), seenPageIds, UnknownPageRef)
    {
      assert actions[..a + 1][..a] == actions[..a];
      RefErrorsConcat(ActionsRefs(actions[..a]), ActionRefs(actions[a]), seenPageIds, UnknownPageRef);
      var found := CheckAction(actions[a], seenPageIds);
      errors := errors + found;
    }
    assert actions[..|actions|] == actions;
  }

  lemma {:induction false} OneRef(ref: string, known: set<string>, code: Code)
    ensures RefErrors([ref], known, code) == When(ref !in known, code, ref)
  {
    assert [ref][..0] == [];
  }

  method CheckAction(a: Action, seenPageIds: set<string>) returns (errors: Errors)
    ensures errors == RefErrors(ActionRefs(a), seenPageIds, UnknownPageRef)
  {
    errors := [];
    if a.pageId !in seenPageIds { errors := [GuardError(UnknownPageRef, a.pageId)]; }
    OneRef(a.pageId, seenPageIds, UnknownPageRef);
    match a.do {
      case JumpToPage(target) =>
        RefErrorsConcat([a.pageId], [target], seenPageIds, UnknownPageRef);
        OneRef(target, seenPageIds, UnknownPageRef);
        if target !in seenPageIds { errors := errors + [GuardError(UnknownPageRef, target)]; }
      case SkipCount(n) =>
        assert ActionRefs(a) == [a.pageId];
      case SkipList(targets) =>
        RefErrorsConcat([a.pageId], NonEmpty(targets), seenPageIds, UnknownPageRef);
        var found := CheckTargets(targets, seenPageIds);
        errors := errors + found;
    }
  }

  method CheckTargets(targets: seq<string>, seenPageIds: set<string>) returns (errors: Errors)
    ensures errors == RefErrors(NonEmpty(targets), seenPageIds, UnknownPageRef)
  {
    errors := [];
    for t := 0 to |targets|
      invariant errors == RefErrors(NonEmpty(targets[..t]), seenPageIds, UnknownPageRef)
    {
      assert targets[..t + 1][..t] == targets[..t];
      if targets[t] == [] {
        assert NonEmpty(targets[..t]) + [] == NonEmpty(targets[..t]);
        continue;
      }
      RefErrorsConcat(NonEmpty(targets[..t]), [targets[t]], seenPageIds, UnknownPageRef);
      OneRef(targets[t], seenPageIds, UnknownPageRef);
      if targets[t] !in seenPageIds { errors := errors + [GuardError(UnknownPageRef, targets[t])]; }
    }
    assert targets[..|targets|] == targets;
  }

  method CheckRules(rules: seq<ScoringRule>, allFieldIds: set<string>, allCalcIds: set<string>) returns (errors: Errors)
    ensures errors == RefErrors(RulesRefs(rules), ScoringKnown(allFieldIds, allCalcIds), ScoringUnknownRef)
  {
    ghost var known := ScoringKnown(allFieldIds, allCalcIds);
    errors := [];
    for r := 0 to |rules|
      invariant errors == RefErrors(RulesRefs(rules[..r]), known, ScoringUnknownRef)
    {
      assert rules[..r + 1][..r] == rules[..r];
      var refs := CollectVarRefs(rules[r].cond);
      RefErrorsConcat(RulesRefs(rules[..r]), refs, known, ScoringUnknownRef);
      var found := CheckRuleRefs(refs, allFieldIds, allCalcIds);
      errors := errors + found;
    }
    assert rules[..|rules|] == rules;
  }

  method CheckRuleRefs(refs: seq<string>, allFieldIds: set<string>, allCalcIds: set<string>) returns (errors: Errors)
    ensures errors == RefErrors(refs, ScoringKnown(allFieldIds, allCalcIds), ScoringUnknownRef)
  {
    errors := [];
    for i := 0 to |refs|
      invariant errors == RefErrors(refs[..i], ScoringKnown(allFieldIds, allCalcIds), ScoringUnknownRef)
    {
      assert refs[..i + 1][..i] == refs[..i];
      var ref := refs[i];
      if ref == "score" { continue; }
      if StartsWith(ref, "fld_") && ref in allFieldIds { continue; }
      if StartsWith(ref, "calc_") && ref in allCalcIds { continue; }
      errors := errors + [GuardError(ScoringUnknownRef, ref)];
    }
    assert refs[..|refs|] == refs;
  }
}
