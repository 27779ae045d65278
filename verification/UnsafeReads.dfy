/** Stripping is not stable for every spec: a field that an earlier page's action reads may be stripped itself. */
module UnsafeReads {
  import opened Wrappers
  import opened FormSpecs
  import opened FormulaCompiler
  import opened FieldLayout
  import opened CalcSheet
  import opened JsonLogic
  import opened ScoringRunner
  import opened PageWalk
  import opened PayloadStrip

  const B_IS_SET := Obj([Prop("var", Str("fld_b"))])

  /** From the first page, a field of the second decides whether to jump over it; the second page skips the third. */
  const UNSAFE_SPEC := FormSpec(
    [Page("pg_a", [Field("fld_a", Undefined, Undefined)], Undefined),
     Page("pg_b", [Field("fld_b", Undefined, Undefined)], Undefined),
     Page("pg_c", [Field("fld_c", Undefined, Undefined)], Undefined)],
    [], None,
    [Action("pg_a", B_IS_SET, JumpToPage("pg_c")), Action("pg_b", Undefined, SkipCount(1))])

  lemma UnsafeSpecIsPlain()
    ensures PlainIds(UNSAFE_SPEC) && PlainConditions(UNSAFE_SPEC)
  {
    var pages := UNSAFE_SPEC.pages;
    assert FieldIds(pages[..0]) == [];
    assert pages[..1][..0] == pages[..0] && pages[..2][..1] == pages[..1] && pages[..3][..2] == pages[..2] && pages[..3] == pages;
    assert FieldIds(pages[..1]) == ["fld_a"];
    assert FieldIds(pages[..2]) == ["fld_a", "fld_b"];
    assert FieldIds(pages) == ["fld_a", "fld_b", "fld_c"];
    hide FieldName;
    IdentifierIsName("fld_a");
    IdentifierIsName("fld_b");
    IdentifierIsName("fld_c");
    assert PlainVars(B_IS_SET);
  }

  lemma OneFieldPage(pages: seq<Page>, page: Page, field: Field)
    requires page.fields == [field]
    ensures FieldToPage(pages + [page]) == FieldToPage(pages)[field.id := page.id]
  {
    var more := pages + [page];
    var m := FieldToPage(pages);
    assert more[..|more| - 1] == pages && more[|more| - 1] == page;
    calc {
      FieldToPage(more);
      MapFields(m, page.fields, page.id);
      { assert page.fields[..0] == []; }
      MapFields(m, [], page.id)[field.id := page.id];
      m[field.id := page.id];
    }
  }

  lemma UnsafePageMap()
    ensures FieldToPage(UNSAFE_SPEC.pages) == map["fld_a" := "pg_a", "fld_b" := "pg_b", "fld_c" := "pg_c"]
  {
    var pages := UNSAFE_SPEC.pages;
    OneFieldPage([], pages[0], pages[0].fields[0]);
    OneFieldPage([pages[0]], pages[1], pages[1].fields[0]);
    OneFieldPage([pages[0], pages[1]], pages[2], pages[2].fields[0]);
    assert [] + [pages[0]] == [pages[0]] && [pages[0]] + [pages[1]] == [pages[0], pages[1]];
    assert [pages[0], pages[1]] + [pages[2]] == pages;
  }

  lemma UnsafeCondition(e: Engine, data: Values)
    requires At(data, "fld_b") in {Bool(true), Undefined}
    ensures Met(e, B_IS_SET, data) <==> At(data, "fld_b") == Bool(true)
  {
    assert Head("fld_b") == "fld_b";
  }

  lemma UnsafeFired(e: Engine, data: Values)
    requires At(data, "fld_b") in {Bool(true), Undefined}
    ensures Fired(e, UNSAFE_SPEC.actions, "pg_a", data) == if At(data, "fld_b") == Bool(true) then Some(JumpToPage("pg_c")) else None
    ensures Fired(e, UNSAFE_SPEC.actions, "pg_b", data) == Some(SkipCount(1))
    ensures Fired(e, UNSAFE_SPEC.actions, "pg_c", data) == None
  {
    UnsafeCondition(e, data);
    var actions := UNSAFE_SPEC.actions;
    assert actions[1..][1..] == [];
    assert Fired(e, actions[1..], "pg_a", data) == None && Fired(e, actions[1..], "pg_c", data) == None;
  }

  lemma UnsafeNext(e: Engine, data: Values)
    requires At(data, "fld_b") in {Bool(true), Undefined}
    ensures NextIndex(e, UNSAFE_SPEC, data, 0) == if At(data, "fld_b") == Bool(true) then 2 else 1
    ensures NextIndex(e, UNSAFE_SPEC, data, 1) == 3 && NextIndex(e, UNSAFE_SPEC, data, 2) == 3
  {
    UnsafeFired(e, data);
    assert PageIds(UNSAFE_SPEC.pages) == ["pg_a", "pg_b", "pg_c"];
    assert IndexOf(["pg_a", "pg_b", "pg_c"], "pg_c") == Some(2);
  }

  lemma UnsafeWalk(e: Engine, data: Values)
    requires At(data, "fld_b") in {Bool(true), Undefined}
    ensures Walk(e, UNSAFE_SPEC, data).visited == if At(data, "fld_b") == Bool(true) then ["pg_a", "pg_c"] else ["pg_a", "pg_b"]
  {
    hide NextIndex;
    UnsafeNext(e, data);
    assert [] + ["pg_a"] == ["pg_a"];
    var second := if At(data, "fld_b") == Bool(true) then 2 else 1;
    var both := ["pg_a"] + [UNSAFE_SPEC.pages[second].id];
    assert WalkFrom(e, UNSAFE_SPEC, data, 3, both).0 == both;
    assert WalkFrom(e, UNSAFE_SPEC, data, second, ["pg_a"]).0 == both;
    assert WalkFrom(e, UNSAFE_SPEC, data, 0, []).0 == both;
  }

  lemma UnsafeTraversal(p: Platform, e: Engine, values: Values)
    requires At(values, "fld_b") in {Bool(true), Undefined} && PlainIds(UNSAFE_SPEC)
    ensures TraversalOf(p, e, UNSAFE_SPEC, values).visited ==
      if At(values, "fld_b") == Bool(true) then ["pg_a", "pg_c"] else ["pg_a", "pg_b"]
  {
    var calcResults := FreshResults(p, FieldIds(UNSAFE_SPEC.pages), [], values);
    assert calcResults == map[];
    UnsafeWalk(e, WalkData(values, calcResults, Score(e, None, values, calcResults)));
  }

  /** Without safe reads, what the first run keeps the second can strip. */
  lemma UnsafeReadIsUnstable(p: Platform, e: Engine) returns (raw: Payload)
    ensures PlainIds(UNSAFE_SPEC) && PlainConditions(UNSAFE_SPEC) && !ReadsAreSafe(p, e, UNSAFE_SPEC, raw)
    ensures Stripped(p, e, UNSAFE_SPEC, raw) == ["fld_b"]
    ensures Stripped(p, e, UNSAFE_SPEC, Sanitized(p, e, UNSAFE_SPEC, raw)) == ["fld_c"]
  {
    hide TraversalOf, Kept, Dropped, ReadsAreSafe, PlainIds, PlainConditions, FieldIds, FieldToPage, UNSAFE_SPEC;
    var b, c := Prop("fld_b", Bool(true)), Prop("fld_c", Bool(true));
    raw := [b, c];
    UnsafeSpecIsPlain();
    assert raw[..1] == [b] && raw[..1][..0] == [] && [c][..0] == [];
    assert AsValues(raw[..1]) == map["fld_b" := Bool(true)];
    assert AsValues([c]) == map["fld_c" := Bool(true)];
    UnsafeTraversal(p, e, AsValues(raw));
    UnsafeTraversal(p, e, AsValues([c]));
    UnsafeSplit(b, c);
    StrippingIsStableHere(p, e, raw);
  }

  /** What the two walks keep and drop. */
  lemma UnsafeSplit(b: Prop, c: Prop)
    requires b.name == "fld_b" && c.name == "fld_c"
    ensures Kept(UNSAFE_SPEC.pages, ["pg_a", "pg_c"], [b, c]) == [c]
    ensures Dropped(UNSAFE_SPEC.pages, ["pg_a", "pg_c"], [b, c]) == ["fld_b"]
    ensures Dropped(UNSAFE_SPEC.pages, ["pg_a", "pg_b"], [c]) == ["fld_c"]
  {
    UnsafePageMap();
    var pages, visited := UNSAFE_SPEC.pages, ["pg_a", "pg_c"];
    assert [b, c][..1] == [b] && [b][..0] == [] && [c][..0] == [];
    assert !OnVisitedPage(pages, visited, "fld_b") && OnVisitedPage(pages, visited, "fld_c");
    assert !OnVisitedPage(pages, ["pg_a", "pg_b"], "fld_c");
    assert Kept(pages, visited, [b]) == [] && Dropped(pages, visited, [b]) == ["fld_b"];
  }

  lemma StrippingIsStableHere(p: Platform, e: Engine, raw: Payload)
    requires PlainIds(UNSAFE_SPEC) && PlainConditions(UNSAFE_SPEC)
    ensures ReadsAreSafe(p, e, UNSAFE_SPEC, raw) ==> Stripped(p, e, UNSAFE_SPEC, Sanitized(p, e, UNSAFE_SPEC, raw)) == []
  {
    if ReadsAreSafe(p, e, UNSAFE_SPEC, raw) { StrippingIsStable(p, e, UNSAFE_SPEC, raw); }
  }
}
