/** What the publish guard takes for a reference is, in an accepted spec, one word to the compiler, hyphens and all. */
module GuardReferences {
  import opened Wrappers
  import opened FormSpecs
  import opened FormulaText
  import opened FormulaCompiler
  import opened FormulaScan
  import opened FieldLayout
  import opened CalcSheet
  import opened CalcMeaning
  import opened PublishGuard
  import opened PublishGuardMeaning
  import opened Whitespace

  // ---- a match is a run of tokens ----

  /** Tokens that begin with hyphens and then directly a word. */
  predicate Tied(ts: seq<Token>) {
    |ts| > 1 && ts[0] == Mark('-') && (ts[1].Word? || Tied(ts[1..]))
  }

  /** The run of tokens, not tied to what follows it. */
  ghost predicate Stands(ts: seq<Token>, part: seq<Token>) {
    exists a, b :: ts == a + part + b && !Tied(b)
  }

  lemma {:induction false} TiedText(t: string)
    requires Tied(Lex(t))
    ensures HyphensThenWord(t, 0)
    decreases |t|
  {
    LexIsLexed(t);
    var next, rest := LexStep(t);
    assert Lex(t)[1..] == Lex(rest) && t[1..] == rest;
    if Lex(t)[1].Word? {
      LexIsLexed(rest);
    } else {
      TiedText(rest);
      HyphensShift(t, 1, 0);
    }
  }

  lemma {:induction false} HyphensShift(s: string, i: nat, j: nat)
    requires i <= |s| && HyphensThenWord(s[i..], j)
    ensures HyphensThenWord(s, i + j)
    decreases |s| - j
  {
    var t := s[i..];
    assert t[j] == s[i + j] && t[j + 1] == s[i + j + 1];
    if !WordChar(t[j + 1]) { HyphensShift(s, i, j + 1); }
  }

  /** A match that ends in a word is not tied to what follows. */
  lemma MatchIsUntied(s: string, g: nat)
    requires g < |s| && MatchEnd(s, g).Some? && WordChar(s[MatchEnd(s, g).value - 1])
    ensures !HyphensThenWord(s, MatchEnd(s, g).value)
  {
    var prefix, end := PrefixAt(s, g), MatchEnd(s, g).value;
    var from := g + prefix;
    assert Backtrack(s, from, IdEnd(s, from)) == Some(end);
    IdEndSkips(s, from, end);
    if HyphensThenWord(s, end) {
      var k := TiedBoundary(s, end);
    }
  }

  lemma MatchStarts(s: string, g: nat)
    requires g <= |s| && MatchEnd(s, g).Some?
    ensures
      var end := MatchEnd(s, g).value;
      && g < end <= |s| && WordChar(s[g]) && (g == 0 || !WordChar(s[g - 1]))
      && (WordChar(s[end - 1]) ==> end == |s| || !WordChar(s[end]))
  {
    assert Boundary(s, g) && PrefixAt(s, g) > 0;
    assert Boundary(s, MatchEnd(s, g).value);
    hide Boundary;
    assert WordChar(s[g]);
    BoundaryBefore(s, g);
    BoundaryAfter(s, MatchEnd(s, g).value);
  }

  lemma BoundaryAfter(s: string, end: nat)
    requires 0 < end <= |s| && Boundary(s, end)
    ensures WordChar(s[end - 1]) ==> end == |s| || !WordChar(s[end])
  {
  }

  lemma BoundaryBefore(s: string, g: nat)
    requires g < |s| && WordChar(s[g]) && Boundary(s, g)
    ensures g == 0 || !WordChar(s[g - 1])
  {
  }

  lemma PartStands(before: string, r: string, rest: string)
    requires Bounded(r) && (before == [] || !WordChar(before[|before| - 1])) && (rest == [] || !WordChar(rest[0])) && !HyphensThenWord(rest, 0)
    ensures Stands(Lex(before + (r + rest)), Lex(r))
  {
    hide Lex;
    LexConcat(r, rest);
    LexConcat(before, r + rest);
    if Tied(Lex(rest)) { TiedText(rest); }
    assert Lex(before + (r + rest)) == Lex(before) + Lex(r) + Lex(rest);
  }

  lemma EdgesStand(s: string, g: nat, end: nat)
    requires g < end <= |s| && WordChar(s[g]) && WordChar(s[end - 1])
    requires (g == 0 || !WordChar(s[g - 1])) && (end == |s| || !WordChar(s[end])) && !HyphensThenWord(s, end)
    ensures Stands(Lex(s), Lex(s[g..end]))
  {
    hide Lex, Stands, HyphensThenWord, WordChar;
    var before, r, rest := s[..g], s[g..end], s[end..];
    assert r[0] == s[g] && r[|r| - 1] == s[end - 1];
    assert rest != [] ==> rest[0] == s[end];
    assert before != [] ==> before[|before| - 1] == s[g - 1];
    if HyphensThenWord(rest, 0) { HyphensShift(s, end, 0); }
    PartStands(before, r, rest);
    assert s == before + (r + rest);
  }

  lemma MatchStands(s: string, g: nat)
    requires g <= |s| && MatchEnd(s, g).Some? && WordChar(s[MatchEnd(s, g).value - 1])
    ensures Stands(Lex(s), Lex(s[g..MatchEnd(s, g).value]))
  {
    MatchStarts(s, g);
    MatchIsUntied(s, g);
    EdgesStand(s, g, MatchEnd(s, g).value);
  }

  /** Every reference the scan finds is a match somewhere. */
  lemma {:induction false} FoundSomewhere(s: string, i: nat, r: string) returns (g: nat)
    requires i <= |s| && r in RefsFrom(s, i)
    ensures g <= |s| && MatchEnd(s, g).Some? && r == s[g..MatchEnd(s, g).value]
    decreases |s| - i
  {
    hide MatchEnd;
    match MatchEnd(s, i)
    case Some(end) => if r == s[i..end] { g := i; } else { g := FoundSomewhere(s, end, r); }
    case None => g := FoundSomewhere(s, i + 1, r);
  }

  // ---- trimming and the equals sign ----

  lemma {:induction false} TiedMore(ts: seq<Token>, more: seq<Token>)
    requires Tied(ts)
    ensures Tied(ts + more)
  {
    assert (ts + more)[1..] == ts[1..] + more;
    if !ts[1].Word? { TiedMore(ts[1..], more); }
  }

  /** Words at both ends. */
  predicate WordsAround(part: seq<Token>) {
    part != [] && part[0].Word? && part[|part| - 1].Word?
  }

  lemma WithoutFirst(t: Token, ts: seq<Token>, part: seq<Token>)
    requires WordsAround(part) && t.Mark? && Stands([t] + ts, part)
    ensures Stands(ts, part)
  {
    var a, b :| [t] + ts == a + part + b && !Tied(b);
    var all := [t] + ts;
    assert all[|a|] == part[0] && all[0] == t;
    assert ts == all[1..] == a[1..] + part + b;
  }

  lemma WithoutLast(t: Token, ts: seq<Token>, part: seq<Token>)
    requires WordsAround(part) && t.Mark? && Stands(ts + [t], part)
    ensures Stands(ts, part)
  {
    var a, b :| ts + [t] == a + part + b && !Tied(b);
    var all := ts + [t];
    assert all[|a| + |part| - 1] == part[|part| - 1] && all[|all| - 1] == t;
    var shorter := b[..|b| - 1];
    assert b == shorter + [b[|b| - 1]];
    if Tied(shorter) { TiedMore(shorter, [b[|b| - 1]]); }
    assert ts == all[..|all| - 1] == a + part + shorter;
  }

  lemma {:induction false} TrimKeepsStanding(s: string, part: seq<Token>)
    requires WordsAround(part) && Stands(Lex(s), part)
    ensures Stands(Lex(Trim(s)), part)
    decreases |s|
  {
    if s == [] {
    } else if WhiteSpaceCode(s[0] as int) {
      assert Lex(s) == [Mark(s[0])] + Lex(s[1..]);
      hide Stands, Lex;
      WithoutFirst(Mark(s[0]), Lex(s[1..]), part);
      TrimKeepsStanding(s[1..], part);
    } else if WhiteSpaceCode(s[|s| - 1] as int) {
      var front, last := s[..|s| - 1], s[|s| - 1];
      assert s == front + [last];
      LexOfMarked(front, last);
      hide Stands, Lex;
      WithoutLast(Mark(last), Lex(front), part);
      TrimKeepsStanding(front, part);
    }
  }

  lemma StandsInFormula(formula: string, part: seq<Token>)
    requires WordsAround(part) && Stands(Lex(formula), part)
    ensures Stands(FormulaTokens(formula), part)
  {
    TrimKeepsStanding(formula, part);
    var ts := Lex(Trim(formula));
    hide Stands, Lex, Trim;
    if ts != [] && ts[0] == Mark('=') {
      assert ts == [ts[0]] + ts[1..];
      WithoutFirst(ts[0], ts[1..], part);
    }
  }

  // ---- a run that stands is one word ----

  /** The rest of a longer id ties what it follows. */
  lemma {:induction false} RestOfNameTies(ts: seq<Token>)
    requires ts != [] && ts[|ts| - 1].Word? && ts[0].Mark? && forall i :: 0 <= i < |ts| && ts[i].Mark? ==> ts[i].c == '-'
    ensures Tied(ts)
  {
    if !ts[1].Word? { RestOfNameTies(ts[1..]); }
  }

  lemma {:induction false} MarksAreHyphens(s: string)
    requires forall i :: 0 <= i < |s| ==> WordChar(s[i]) || s[i] == '-'
    ensures forall i :: 0 <= i < |Lex(s)| && Lex(s)[i].Mark? ==> Lex(s)[i].c == '-'
    decreases |s|
  {
    if s != [] {
      var t, rest := LexStep(s);
      assert forall i :: 0 <= i < |rest| ==> rest[i] == s[i + |TokenText(t)|];
      MarksAreHyphens(rest);
    }
  }

  lemma NameTokens(id: string)
    requires Name(id)
    ensures WordsAround(Lex(id)) && forall i :: 0 <= i < |Lex(id)| && Lex(id)[i].Mark? ==> Lex(id)[i].c == '-'
  {
    HeadOfName(id);
    LastToken(id);
    MarksAreHyphens(id);
  }

  ghost predicate AllNames(ids: set<string>) {
    forall id :: id in ids ==> Name(id)
  }

  lemma LongerTies(ts: seq<Token>, part: seq<Token>, d: string, m: nat)
    requires Lexed(ts) && |part| < m <= |ts| && WordsAround(part) && ts[..|part|] == part
    requires Name(d) && ts[..m] == Lex(d)
    ensures Tied(ts[|part|..])
  {
    NameTokens(d);
    hide Name, Lex;
    var rest := ts[|part|..m];
    assert forall i :: 0 <= i < |rest| ==> rest[i] == ts[..m][|part| + i];
    assert ts[|part| - 1] == ts[..|part|][|part| - 1];
    RestOfNameTies(rest);
    TiedMore(rest, ts[m..]);
    assert ts[|part|..] == rest + ts[m..];
  }

  /** Where an id stands, no longer one begins. */
  lemma StandingIsLongest(ts: seq<Token>, ids: set<string>, id: string)
    requires AllNames(ids) && id in ids && Lexed(ts) && Begins(ts, Lex(id)) && !Tied(ts[|Lex(id)|..])
    ensures Munch(ts, ids, |ts|) == |Lex(id)|
  {
    var m := Munch(ts, ids, |ts|);
    MunchFinds(ts, ids, id);
    NameTokens(id);
    if m > 0 { MunchIsPart(ts, ids); }
    if m > |Lex(id)| { LongerTies(ts, Lex(id), Unlex(ts[..m]), m); }
  }

  lemma InsideMunch(ts: seq<Token>, ids: set<string>, j: nat)
    requires AllNames(ids) && Lexed(ts) && 0 < j < Munch(ts, ids, |ts|) && ts[j].Word?
    ensures !Prefixed(ts[j].w)
  {
    MunchIsPart(ts, ids);
    var d := Unlex(ts[..Munch(ts, ids, |ts|)]);
    assert Name(d) && OneIdOnly(d) && Lex(d)[j] == ts[j];
  }

  /** An id that begins earlier does not reach into one that follows. */
  lemma NoReach(a: seq<Token>, rest: seq<Token>, ids: set<string>)
    requires AllNames(ids) && a != [] && rest != [] && Lexed(a + rest) && rest[0].Word? && Prefixed(rest[0].w)
    ensures Munch(a + rest, ids, |a + rest|) <= |a|
  {
    var ts := a + rest;
    assert ts[|a|] == rest[0];
    if |a| < Munch(ts, ids, |ts|) { InsideMunch(ts, ids, |a|); }
  }

  lemma GroupedStep(ts: seq<Token>, ids: set<string>)
    requires ts != []
    ensures
      var m := Munch(ts, ids, |ts|);
      Grouped(ts, ids) == if m > 0 then [Word(Unlex(ts[..m]))] + Grouped(ts[m..], ids) else [ts[0]] + Grouped(ts[1..], ids)
  {
  }

  lemma StandsInFront(ts: seq<Token>, ids: set<string>, id: string)
    requires AllNames(ids) && id in ids && Lexed(ts) && Begins(ts, Lex(id)) && !Tied(ts[|Lex(id)|..])
    ensures Word(id) in Grouped(ts, ids)
  {
    HeadOfName(id);
    LexIsLexed(id);
    StandingIsLongest(ts, ids, id);
    hide Lex, Munch, Grouped, Unlex, Lexed, AllNames, Name;
    GroupedStep(ts, ids);
  }

  lemma {:induction false} StandingIsAWord(a: seq<Token>, part: seq<Token>, b: seq<Token>, ids: set<string>, id: string)
    requires AllNames(ids) && id in ids && part == Lex(id) && !Tied(b) && Lexed(a + (part + b))
    ensures Word(id) in Grouped(a + (part + b), ids)
    decreases |a|
  {
    hide Lex, Munch, Grouped, Lexed, Unlex, Name, Prefixed;
    HeadOfName(id);
    hide AllNames;
    var ts := a + (part + b);
    if a == [] {
      assert ts == part + b && ts[..|part|] == part && ts[|part|..] == b;
      StandsInFront(ts, ids, id);
    } else {
      var m := Munch(ts, ids, |ts|);
      NoReach(a, part + b, ids);
      var n := if m > 0 then m else 1;
      LexedParts(ts, n);
      assert ts[n..] == a[n..] + (part + b);
      StandingIsAWord(a[n..], part, b, ids, id);
      GroupedStep(ts, ids);
    }
  }

  lemma ReferenceIsAWord(formula: string, ids: set<string>, r: string)
    requires AllNames(ids) && r in ids && r in FormulaRefs(formula)
    ensures Word(r) in Words(formula, ids)
  {
    var g := FoundSomewhere(formula, 0, r);
    assert Name(r) && Bounded(r);
    NameTokens(r);
    FoundStands(formula, g, r);
    hide MatchEnd, Lex, AllNames, Name, Grouped, Stands, Trim, FormulaTokens, WordsAround;
    StandsInFormula(formula, Lex(r));
    TokensAreLexed(formula);
    StandingInTokens(FormulaTokens(formula), ids, r);
  }

  lemma FoundStands(s: string, g: nat, r: string)
    requires g <= |s| && MatchEnd(s, g).Some? && r == s[g..MatchEnd(s, g).value] && Bounded(r)
    ensures Stands(Lex(s), Lex(r))
  {
    hide Lex, Stands, MatchEnd;
    assert r[|r| - 1] == s[MatchEnd(s, g).value - 1];
    MatchStands(s, g);
  }

  lemma StandingInTokens(ts: seq<Token>, ids: set<string>, r: string)
    requires AllNames(ids) && r in ids && Stands(ts, Lex(r)) && Lexed(ts)
    ensures Word(r) in Grouped(ts, ids)
  {
    hide Lex, AllNames, Grouped, Lexed;
    var a, b :| ts == a + Lex(r) + b && !Tied(b);
    assert ts == a + (Lex(r) + b);
    StandingIsAWord(a, Lex(r), b, ids, r);
  }

  lemma TokensAreLexed(formula: string)
    ensures Lexed(FormulaTokens(formula))
  {
    LexIsLexed(Trim(formula));
  }

  lemma ScopeIsNamed(ids: seq<string>, calcs: seq<Calc>, k: nat)
    requires PlainFieldIds(ids) && PlainCalcIds(calcs) && k < |calcs|
    ensures AllNames(InScope(ids, calcs, k))
  {
    CellsAtNamed(ids, calcs, k);
  }

  /**
   * In an accepted spec, a lower-case reference that the guard finds in a formula is
   * one of its words and has a value there, unless only a later calculation declares it.
   */
  lemma AcceptedReferenceIsAWord(p: Platform, spec: FormSpec, values: Values, k: nat, earlier: seq<CellValue>, r: string)
    requires SpecErrors(spec) == [] && PlainIds(spec) && k < |spec.calculations| && |earlier| == k
    requires r in FormulaRefs(spec.calculations[k].formula) && Looked(r)
    ensures
      var ids := FieldIds(spec.pages);
      (Word(r) in WordsAt(ids, spec.calculations, k) && r in SourceEnv(p, ids, spec.calculations, values, k, earlier))
        <==> !OnlyDeclaredLater(spec, k, r)
  {
    var ids := FieldIds(spec.pages);
    AcceptedRefResolves(spec, k, r);
    EnvHolds(p, spec, values, k, earlier, r);
    ScopeIsNamed(ids, spec.calculations, k);
    if !OnlyDeclaredLater(spec, k, r) {
      assert r in SourceEnv(p, ids, spec.calculations, values, k, earlier);
      assert r in InScope(ids, spec.calculations, k);
      ReferenceIsAWord(spec.calculations[k].formula, InScope(ids, spec.calculations, k), r);
    }
  }
}
