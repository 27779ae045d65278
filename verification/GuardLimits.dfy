/** Specs that pass the publish guard and still hold a reference without a value. */
module GuardLimits {
  import opened Wrappers
  import opened FormSpecs
  import opened FormulaText
  import opened FormulaCompiler
  import opened FormulaScan
  import opened CalcSheet
  import opened CalcMeaning
  import opened JsonLogic
  import opened PageWalk
  import opened PublishGuard
  import opened PublishGuardMeaning

  /** One page with one field, and the given calculations. */
  function Small(calcs: seq<Calc>): FormSpec {
    FormSpec([Page("pg_a", [Field("fld_a", Undefined, Undefined)], Undefined)], calcs, None, [])
  }

  lemma SmallFields(calcs: seq<Calc>)
    ensures FieldIds(Small(calcs).pages) == ["fld_a"] && forall id :: HasField(Small(calcs), id) <==> id == "fld_a"
  {
    var pages := Small(calcs).pages;
    assert pages[..0] == [] && FieldIds([]) == [];
    assert PageFieldIds(pages[0].fields) == ["fld_a"] && FieldIds(pages) == [] + ["fld_a"];
    forall id ensures HasField(Small(calcs), id) <==> id == "fld_a" { HasFieldIs(Small(calcs), id); }
  }

  lemma SmallPagesAreFine(calcs: seq<Calc>)
    ensures var spec := Small(calcs);
      && Distinct(PageIds(spec.pages)) && Distinct(FieldIds(spec.pages))
      && PagePattern(spec.pages[0].id) && FieldPattern("fld_a") && forall ref :: !PageRefersTo(spec.pages[0], ref)
  {
    SmallFields(calcs);
    SmallIdsMatch();
    hide PagePattern, FieldPattern;
  }

  /** The guard has nothing to say about a reference of such a spec. */
  predicate Resolves(calcs: seq<Calc>, ref: string) {
    (StartsWith(ref, "fld_") ==> ref == "fld_a") && (StartsWith(ref, "calc_") ==> HasCalc(Small(calcs), ref))
  }

  lemma SmallIsAccepted(calcs: seq<Calc>)
    requires forall c, ref :: 0 <= c < |calcs| && ref in FormulaRefs(calcs[c].formula) ==> Resolves(calcs, ref)
    ensures SpecErrors(Small(calcs)) == []
  {
    hide FormulaRefs, StartsWith, PagePattern, FieldPattern, FieldIds, PageIds, SpecErrors, HasField, HasCalc, PageRefersTo, Distinct, VarRefs;
    SmallPagesAreFine(calcs);
    SmallFields(calcs);
    var spec := Small(calcs);
    assert spec.calculations == calcs && HasField(spec, "fld_a") && HasPage(spec, "pg_a");
    forall c, ref | 0 <= c < |spec.calculations| && ref in FormulaRefs(spec.calculations[c].formula)
      ensures (StartsWith(ref, "fld_") ==> HasField(spec, ref)) && (StartsWith(ref, "calc_") ==> HasCalc(spec, ref))
    {
      assert Resolves(calcs, ref);
    }
    assert WellFormed(spec);
    GuardAcceptsExactly(Small(calcs));
  }

  lemma SmallIdsMatch()
    ensures PagePattern("pg_a") && FieldPattern("fld_a")
  {
    assert "pg_a"[3..] == "a" && "fld_a"[4..] == "a";
  }

  const FORWARD := [Calc("calc_a", "calc_b"), Calc("calc_b", "fld_a")]

  lemma ForwardResolves()
    ensures Resolves(FORWARD, "calc_b") && Resolves(FORWARD, "fld_a") && HasCalc(Small(FORWARD), "calc_b")
  {
    assert "calc_b"[0] == 'c' && "calc_b"[..4][0] == 'c' && "fld_a"[0] == 'f';
    assert Small(FORWARD).calculations[1].id == "calc_b";
  }

  lemma ForwardIsAccepted()
    ensures SpecErrors(Small(FORWARD)) == [] && HasCalc(Small(FORWARD), "calc_b")
  {
    ForwardRefs();
    ForwardResolves();
    hide FormulaRefs, FormulaTokens, SpecErrors, Resolves, HasCalc, Small;
    SmallIsAccepted(FORWARD);
  }

  lemma OnlyLater()
    requires HasCalc(Small(FORWARD), "calc_b")
    ensures OnlyDeclaredLater(Small(FORWARD), 0, "calc_b")
    ensures !exists c :: 0 <= c <= 0 && Small(FORWARD).calculations[c].id == "calc_b"
  {
    SmallFields(FORWARD);
    hide FieldIds;
  }

  /** An accepted spec whose first formula refers to its second calculation, and has no value for it. */
  lemma ForwardReferenceIsAccepted(p: Platform, values: Values)
    ensures SpecErrors(Small(FORWARD)) == [] && OnlyDeclaredLater(Small(FORWARD), 0, "calc_b")
    ensures Word("calc_b") in FormulaTokens(FORWARD[0].formula)
    ensures "calc_b" !in SourceEnv(p, FieldIds(Small(FORWARD).pages), Small(FORWARD).calculations, values, 0, [])
  {
    assert Small(FORWARD).calculations == FORWARD;
    hide *;
    ForwardIsAccepted();
    ForwardRefs();
    OnlyLater();
    SmallFields(FORWARD);
    EnvHolds(p, Small(FORWARD), values, 0, [], "calc_b");
  }

  lemma ForwardRefs()
    ensures FormulaRefs(FORWARD[0].formula) == ["calc_b"] && FormulaRefs(FORWARD[1].formula) == ["fld_a"]
    ensures Word("calc_b") in FormulaTokens(FORWARD[0].formula)
  {
    hide FormulaRefs, FormulaTokens;
    WholeTextMatches("calc_b");
    WholeTextMatches("fld_a");
    OneWordTokens("calc_b");
  }

  lemma OneWordTokens(w: string)
    requires IsWord(w)
    ensures FormulaTokens(w) == [Word(w)]
  {
    WordTokens(w);
    var ts := [Word(w)];
    assert Unlex(ts) == w + Unlex(ts[1..]) && w + [] == w;
    LexOfUnlex(ts);
  }

  const ESCAPED := [Calc("calc_a", "FLD_a-fld_b")]

  lemma EscapedResolves()
    ensures Resolves(ESCAPED, "FLD_a-fld_b")
  {
    assert "FLD_a-fld_b"[..4][0] == 'F' && "FLD_a-fld_b"[..5][0] == 'F';
  }

  lemma EscapedIsAccepted()
    ensures SpecErrors(Small(ESCAPED)) == []
  {
    EscapedRefs();
    EscapedResolves();
    hide FormulaRefs, FormulaTokens, SpecErrors, Resolves, HasCalc, Small;
    SmallIsAccepted(ESCAPED);
  }

  lemma NothingDeclaresIt()
    ensures !HasField(Small(ESCAPED), "fld_b") && !HasCalc(Small(ESCAPED), "fld_b")
    ensures !exists c :: 0 <= c <= 0 && Small(ESCAPED).calculations[c].id == "fld_b"
  {
    SmallFields(ESCAPED);
    hide FieldIds;
  }

  /** An accepted spec in which an upper-case reference, glued to the next, hides an id that nothing declares. */
  lemma UpperGlueHidesReferences(p: Platform, values: Values)
    ensures SpecErrors(Small(ESCAPED)) == [] && UpperGlued(ESCAPED[0].formula)
    ensures Word("fld_b") in FormulaTokens(ESCAPED[0].formula) && !HasField(Small(ESCAPED), "fld_b") && !HasCalc(Small(ESCAPED), "fld_b")
    ensures "fld_b" !in SourceEnv(p, FieldIds(Small(ESCAPED).pages), Small(ESCAPED).calculations, values, 0, [])
  {
    assert Small(ESCAPED).calculations == ESCAPED;
    hide *;
    EscapedIsAccepted();
    EscapedRefs();
    NothingDeclaresIt();
    EnvHolds(p, Small(ESCAPED), values, 0, [], "fld_b");
    GlueIsUpper();
  }

  lemma EscapedRefs()
    ensures FormulaRefs("FLD_a-fld_b") == ["FLD_a-fld_b"] && Word("fld_b") in FormulaTokens("FLD_a-fld_b")
  {
    hide FormulaRefs, FormulaTokens;
    WholeTextMatches("FLD_a-fld_b");
    TiedTokens("FLD_a", "fld_b");
    assert "FLD_a" + "-" + "fld_b" == "FLD_a-fld_b";
  }

  lemma GlueIsUpper()
    ensures UpperGlued("FLD_a-fld_b")
  {
    var s := "FLD_a-fld_b";
    assert s[0..] == s;
    WordRunThen("FLD_a", "-fld_b");
    assert s == "FLD_a" + "-fld_b" && WordEnd(s, 0) == 5;
    assert HyphensThenWord(s, 5) && GluedAt(s, 0) && !Looked(s[0..]);
  }
}
