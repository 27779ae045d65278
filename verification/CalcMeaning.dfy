/**
 * What calculations mean without compiling them: a formula's identifiers stand
 * for the submitted values and the results of earlier calculations, a cell its
 * author names for that cell's value, and the rest is the evaluator's. The
 * compiled workbook computes exactly that.
 */
module CalcMeaning {
  import opened FormSpecs
  import opened FormulaText
  import opened FormulaCompiler
  import opened FieldLayout
  import opened CalcSheet

  /** The formula mentions cells through identifiers only, not by an address of its author's. */
  predicate NamesNoCells(ts: seq<Token>) {
    forall i :: 0 <= i < |ts| && ts[i].Word? ==> AddressRow(ts[i].w).None?
  }

  function ReplaceWords(ts: seq<Token>, env: map<string, CellValue>): seq<Atom> {
    if ts == [] then []
    else [if ts[0].Word? && ts[0].w in env then Valued(env[ts[0].w]) else Plain(ts[0])] + ReplaceWords(ts[1..], env)
  }

  /** What identifiers stand for in formula `k`. */
  function SourceEnv(p: Platform, ids: seq<string>, calcs: seq<Calc>, values: Values, k: nat, earlier: seq<CellValue>): map<string, CellValue>
    requires k < |calcs| && |earlier| == k
  {
    var rows := CalcRows(calcs, k + 1);
    map id | id in FieldMapOf(ids).Keys + rows.Keys ::
      if id in rows then (if rows[id] < k then earlier[rows[id]] else Blank)
      else NumberValue(ToHFValue(p, At(values, id)))
  }

  /** The ids formula `k` may use: all fields, and the calculations up to and with its own. */
  function InScope(ids: seq<string>, calcs: seq<Calc>, k: nat): set<string>
    requires k < |calcs|
  {
    FieldMapOf(ids).Keys + CalcRows(calcs, k + 1).Keys
  }

  /** Its words, each of these ids being one. */
  function WordsAt(ids: seq<string>, calcs: seq<Calc>, k: nat): seq<Token>
    requires k < |calcs|
  {
    Words(calcs[k].formula, InScope(ids, calcs, k))
  }

  /** The formula mentions its own identifier, or its author names its own row or a later one. */
  predicate SelfReferring(ids: seq<string>, calcs: seq<Calc>, k: nat)
    requires k < |calcs|
  {
    var ts := WordsAt(ids, calcs, k);
    Word(calcs[k].id) in ts || exists c :: c in NamedCells(ts) && c.CalcCell? && k < c.row <= |calcs|
  }

  /** Calculations in declaration order; one that refers to itself is an error, one that mentions a later one leaves it a bare word. */
  function SourceValues(p: Platform, ids: seq<string>, calcs: seq<Calc>, values: Values, k: nat): (vs: seq<CellValue>)
    requires k <= |calcs|
    ensures |vs| == k
  {
    if k == 0 then []
    else
      var earlier := SourceValues(p, ids, calcs, values, k - 1);
      earlier + [if SelfReferring(ids, calcs, k - 1) then ErrorValue
                 else EvaluateSource(p.eval, calcs[k - 1].formula, SourceEnv(p, ids, calcs, values, k - 1, earlier),
                                     ValueIn(FreshColumn(p, ids, values), earlier))]
  }

  /** Where the author names no cell, the meaning is the plain replacement of identifiers by their values. */
  lemma {:induction false} ResolveIsReplaceWords(ts: seq<Token>, env: map<string, CellValue>, value: Cell -> CellValue)
    requires NamesNoCells(ts)
    ensures ResolveSource(ts, env, value) == ReplaceWords(ts, env)
  {
    if ts != [] {
      assert NamesNoCells(ts[1..]);
      ResolveIsReplaceWords(ts[1..], env, value);
    }
  }

  // ---- the cells a compiled formula names ----

  ghost predicate MentionsCell(ts: seq<Token>, cells: map<string, Cell>, c: Cell) {
    exists w :: w in cells && cells[w] == c && Word(w) in ts
  }

  lemma MentionsPast(ts: seq<Token>, cells: map<string, Cell>, c: Cell, n: nat)
    requires n <= |ts| && forall i :: 0 <= i < n && ts[i].Word? ==> ts[i].w !in cells
    ensures MentionsCell(ts, cells, c) <==> MentionsCell(ts[n..], cells, c)
  {
    var rest := ts[n..];
    forall w | w in cells && Word(w) in ts ensures Word(w) in rest {
      var i :| 0 <= i < |ts| && ts[i] == Word(w);
      assert rest[i - n] == ts[i];
    }
  }

  lemma NoIdentifierInName(ts: seq<Token>, cells: map<string, Cell>)
    requires Named(cells) && ts != [] && CellNamedAt(ts).Some?
    ensures forall i :: 0 <= i < CellNamedAt(ts).value.1 && ts[i].Word? ==> ts[i].w !in cells
  {
    forall id | id in cells ensures AddressRow(id).None? && id != FIELD_SHEET && id != CALC_SHEET { NameIsNoAddress(id); }
  }

  lemma IdentifierNamesNothing(ts: seq<Token>, cells: map<string, Cell>)
    requires Named(cells) && ts != [] && ts[0].Word? && ts[0].w in cells
    ensures CellNamedAt(ts).None?
  {
    NameIsNoAddress(ts[0].w);
  }

  lemma MentionsHead(ts: seq<Token>, cells: map<string, Cell>, c: Cell)
    requires ts != [] && ts[0].Word? && ts[0].w in cells
    ensures MentionsCell(ts, cells, c) <==> cells[ts[0].w] == c || MentionsCell(ts[1..], cells, c)
  {
    assert ts == [ts[0]] + ts[1..];
  }

  /** The compiled formula names the cells of the identifiers the source mentions, those its author names, and no others. */
  lemma {:induction false} NamedCellsAreMentioned(ts: seq<Token>, cells: map<string, Cell>, c: Cell)
    requires Named(cells)
    ensures c in NamedCells(Substitute(ts, References(cells))) <==> MentionsCell(ts, cells, c) || c in NamedCells(ts)
    decreases |ts|
  {
    hide MentionsCell, CellNamedAt, Named;
    if ts == [] {
      NothingMentioned(cells, c);
    } else if ts[0].Word? && ts[0].w in cells {
      var rest := Substitute(ts[1..], References(cells));
      NamedCellsAreMentioned(ts[1..], cells, c);
      IdentifierNamesNothing(ts, cells);
      NamedCellsOfReference(cells[ts[0].w], rest);
      MentionsHead(ts, cells, c);
    } else {
      var n := if CellNamedAt(ts).Some? then CellNamedAt(ts).value.1 else 1;
      NamedCellsAreMentioned(ts[n..], cells, c);
      if CellNamedAt(ts).Some? { NoIdentifierInName(ts, cells); }
      MentionsPast(ts, cells, c, n);
      NamedCellsAtName(ts, cells);
    }
  }

  lemma NothingMentioned(cells: map<string, Cell>, c: Cell)
    ensures !MentionsCell([], cells, c)
  {
  }

  /** What the author names, or leaves unnamed, at the front is named or not in the compiled formula too. */
  lemma NamedCellsAtName(ts: seq<Token>, cells: map<string, Cell>)
    requires Named(cells) && ts != [] && !(ts[0].Word? && ts[0].w in cells)
    ensures
      var s := Substitute(ts, References(cells));
      NamedCells(s) == match CellNamedAt(ts)
        case Some(named) => {named.0} + NamedCells(Substitute(ts[named.1..], References(cells)))
        case None => NamedCells(Substitute(ts[1..], References(cells)))
  {
    hide NamedCells, CellNamedAt, Substitute, Named, References;
    NamesSurvive(ts, cells);
    assert ts == [ts[0]] + ts[1..];
    SubstituteHead(ts[0], ts[1..], cells);
    var s := Substitute(ts, References(cells));
    assert s[1..] == Substitute(ts[1..], References(cells));
    NamedCellsStep(s);
  }

  lemma NamedCellsStep(s: seq<Token>)
    requires s != []
    ensures NamedCells(s) == match CellNamedAt(s) case Some(named) => {named.0} + NamedCells(s[named.1..]) case None => NamedCells(s[1..])
  {
  }

  lemma NamedCellsOfReference(c: Cell, rest: seq<Token>)
    ensures NamedCells(CellTokens(c) + rest) == {c} + NamedCells(rest)
  {
    var s := CellTokens(c) + rest;
    AddressInverts(c.row);
    assert s[0] == CellTokens(c)[0] && s[1] == CellTokens(c)[1] && s[2] == CellTokens(c)[2];
    assert s[3..] == rest;
  }

  lemma FormulaCellsOf(ids: seq<string>, calcs: seq<Calc>, k: nat)
    requires PlainFieldIds(ids) && PlainCalcIds(calcs) && k < |calcs|
    ensures FormulaAt(ids, calcs, k)[0] == '='
    ensures FormulaCells(FormulaAt(ids, calcs, k))
         == NamedCells(Substitute(WordsAt(ids, calcs, k), References(CellsAt(ids, calcs, k))))
  {
    var body := Unlex(CompiledTokens(calcs[k].formula, CellsAt(ids, calcs, k)));
    assert ("=" + body)[1..] == body;
    CellsAtNamed(ids, calcs, k);
    CompiledLexes(calcs[k].formula, CellsAt(ids, calcs, k));
  }

  /** A compiled formula refers to its own row or a later one exactly when its source does. */
  lemma CircularIsSelfMention(ids: seq<string>, calcs: seq<Calc>, k: nat)
    requires PlainFieldIds(ids) && PlainCalcIds(calcs) && k < |calcs|
    ensures NamesOwnOrLater(FormulaCells(FormulaAt(ids, calcs, k)), k, |calcs|) <==> SelfReferring(ids, calcs, k)
  {
    var ts, cells := WordsAt(ids, calcs, k), CellsAt(ids, calcs, k);
    var named := FormulaCells(FormulaAt(ids, calcs, k));
    FormulaCellsOf(ids, calcs, k);
    CellsAtNamed(ids, calcs, k);
    CalcIdHasARow(calcs, k + 1, k);
    CalcCellAt(ids, calcs, k, calcs[k].id);
    hide CellsAt, FormulaAt, WordsAt, FormulaCells, NamedCells, Substitute, References, Named, PlainFieldIds, PlainCalcIds, CalcRows;
    forall c ensures c in named <==> MentionsCell(ts, cells, c) || c in NamedCells(ts) {
      NamedCellsAreMentioned(ts, cells, c);
    }
    if Word(calcs[k].id) in ts { assert CalcCell(k + 1) in named; }
    if c :| c in named && c.CalcCell? && k < c.row <= |calcs| && MentionsCell(ts, cells, c) {
      var w :| w in cells && cells[w] == c && Word(w) in ts;
      OwnerOfLastRow(ids, calcs, k, w);
    }
  }

  lemma OwnerOfLastRow(ids: seq<string>, calcs: seq<Calc>, k: nat, w: string)
    requires PlainFieldIds(ids) && PlainCalcIds(calcs) && k < |calcs|
    requires w in CellsAt(ids, calcs, k) && CellsAt(ids, calcs, k)[w].CalcCell? && k < CellsAt(ids, calcs, k)[w].row
    ensures w == calcs[k].id
  {
    CellsAtNamed(ids, calcs, k);
    if w in CalcRows(calcs, k + 1) {
      CalcCellAt(ids, calcs, k, w);
      CalcRowHasItsId(calcs, k + 1, w);
    } else {
      var r := MappedIdHasARow(ids, w);
      FieldCellAt(ids, calcs, k, r);
    }
  }

  lemma FreshCell(p: Platform, ids: seq<string>, values: Values, r: nat)
    requires Live(ids, r)
    ensures FreshColumn(p, ids, values)[r] == NumberValue(ToHFValue(p, At(values, ids[r])))
  {
    LiveRowHasItsAddress(ids, r);
  }

  lemma EnvMatchesFieldCell(p: Platform, ids: seq<string>, calcs: seq<Calc>, values: Values, k: nat, earlier: seq<CellValue>, id: string)
    requires PlainFieldIds(ids) && PlainCalcIds(calcs) && k < |calcs| && |earlier| == k
    requires id in FieldMapOf(ids) && id !in CalcRows(calcs, k + 1) && id in CellsAt(ids, calcs, k)
    ensures NumberValue(ToHFValue(p, At(values, id))) == ValueIn(FreshColumn(p, ids, values), earlier)(CellsAt(ids, calcs, k)[id])
  {
    var r := MappedIdHasARow(ids, id);
    FieldCellAt(ids, calcs, k, r);
    FreshCell(p, ids, values, r);
  }

  lemma EnvMatchesCells(p: Platform, ids: seq<string>, calcs: seq<Calc>, values: Values, k: nat, earlier: seq<CellValue>, id: string)
    requires PlainFieldIds(ids) && PlainCalcIds(calcs) && k < |calcs| && |earlier| == k
    requires id in CellsAt(ids, calcs, k)
    ensures id in SourceEnv(p, ids, calcs, values, k, earlier)
    ensures SourceEnv(p, ids, calcs, values, k, earlier)[id] == ValueIn(FreshColumn(p, ids, values), earlier)(CellsAt(ids, calcs, k)[id])
  {
    hide CellsAt, FieldMapOf, CalcRows, FreshColumn, ToHFValue;
    CellsAtNamed(ids, calcs, k);
    if id in CalcRows(calcs, k + 1) {
      CalcCellAt(ids, calcs, k, id);
    } else {
      EnvMatchesFieldCell(p, ids, calcs, values, k, earlier, id);
    }
  }

  lemma FormulaMeansItsSource(p: Platform, ids: seq<string>, calcs: seq<Calc>, values: Values, k: nat, earlier: seq<CellValue>)
    requires PlainFieldIds(ids) && PlainCalcIds(calcs) && k < |calcs| && |earlier| == k
    ensures
      var value := ValueIn(FreshColumn(p, ids, values), earlier);
      EvaluateCell(p.eval, FormulaAt(ids, calcs, k), value)
        == EvaluateSource(p.eval, calcs[k].formula, SourceEnv(p, ids, calcs, values, k, earlier), value)
  {
    var cells := CellsAt(ids, calcs, k);
    var env := SourceEnv(p, ids, calcs, values, k, earlier);
    var value := ValueIn(FreshColumn(p, ids, values), earlier);
    CellsAtNamed(ids, calcs, k);
    forall id | id in cells ensures env[id] == value(cells[id]) {
      EnvMatchesCells(p, ids, calcs, values, k, earlier, id);
    }
    CompilePreservesMeaning(p.eval, calcs[k].formula, cells, env, value);
  }

  lemma {:induction false} ValuesMeanTheirSources(p: Platform, ids: seq<string>, calcs: seq<Calc>, values: Values, k: nat)
    requires PlainFieldIds(ids) && PlainCalcIds(calcs) && k <= |calcs|
    ensures CalcValues(p, Formulas(ids, calcs), FreshColumn(p, ids, values), k) == SourceValues(p, ids, calcs, values, k)
  {
    hide FormulaAt, WordsAt, SelfReferring, EvaluateSource, EvaluateCell, NamesOwnOrLater, FormulaCells, SourceEnv, FreshColumn, FirstFormulas;
    if k > 0 {
      ValuesMeanTheirSources(p, ids, calcs, values, k - 1);
      FormulaInRow(ids, calcs, |calcs|, k - 1);
      CircularIsSelfMention(ids, calcs, k - 1);
      FormulaMeansItsSource(p, ids, calcs, values, k - 1, SourceValues(p, ids, calcs, values, k - 1));
    }
  }

  /**
   * The whole runner preserves meaning: through the layout, the compiler and
   * the workbook, every calculation gets the value its source formula has under
   * the submitted values and the earlier calculations, whatever it is.
   */
  lemma CalculationsMeanTheirSources(p: Platform, ids: seq<string>, calcs: seq<Calc>, values: Values)
    requires PlainFieldIds(ids) && PlainCalcIds(calcs)
    ensures FreshResults(p, ids, calcs, values)
         == Results(CalcRows(calcs, |calcs|), SourceValues(p, ids, calcs, values, |calcs|))
  {
    ValuesMeanTheirSources(p, ids, calcs, values, |calcs|);
  }

  /** Every calculation's id has a result, and nothing else has: what its last declaration comes to. */
  lemma ResultsAre(p: Platform, ids: seq<string>, calcs: seq<Calc>, values: Values)
    requires PlainFieldIds(ids) && PlainCalcIds(calcs)
    ensures
      var results, vs := FreshResults(p, ids, calcs, values), SourceValues(p, ids, calcs, values, |calcs|);
      && (forall id :: id in results <==> exists j :: 0 <= j < |calcs| && calcs[j].id == id)
      && (forall j: nat :: j < |calcs| && (forall k :: j < k < |calcs| ==> calcs[k].id != calcs[j].id) ==>
            results[calcs[j].id] == ReadBack(vs[j]))
  {
    hide FreshResults, SourceValues, ReadBack, PlainFieldIds, PlainCalcIds, FieldMapOf, CalcRows;
    CalculationsMeanTheirSources(p, ids, calcs, values);
    LastRows(calcs);
  }

  lemma LastRows(calcs: seq<Calc>)
    ensures
      var rows := CalcRows(calcs, |calcs|);
      && (forall id :: id in rows <==> exists j :: 0 <= j < |calcs| && calcs[j].id == id)
      && (forall j: nat :: j < |calcs| && (forall k :: j < k < |calcs| ==> calcs[k].id != calcs[j].id) ==> rows[calcs[j].id] == j)
  {
    var rows := CalcRows(calcs, |calcs|);
    hide CalcRows;
    forall id | id in rows ensures calcs[rows[id]].id == id { CalcRowHasItsId(calcs, |calcs|, id); }
    forall j: nat | j < |calcs| ensures calcs[j].id in rows && j <= rows[calcs[j].id] { CalcIdHasARow(calcs, |calcs|, j); }
  }

  /** Field `r` by its identifier, or by its cell. */
  predicate RefersToField(ids: seq<string>, ts: seq<Token>, r: nat)
    requires r < |ids|
  {
    Word(ids[r]) in ts || FieldCell(r + 1) in NamedCells(ts)
  }

  /** The fields the calculations read are those some source refers to. */
  lemma ReadFieldsAreMentioned(ids: seq<string>, calcs: seq<Calc>, id: string)
    requires PlainFieldIds(ids) && PlainCalcIds(calcs)
    ensures id in CalcReads(ids, calcs) <==>
      exists r: nat, i: nat :: r < |ids| && i < |calcs| && Live(ids, r) && ids[r] == id && RefersToField(ids, WordsAt(ids, calcs, i), r)
  {
    hide WordsAt, RefersToField, FormulaCells, FormulaAt, PlainFieldIds, PlainCalcIds;
    if id in CalcReads(ids, calcs) {
      var r: nat, i: nat :| r < |ids| && i < |calcs| && Live(ids, r) && ids[r] == id
        && FieldCell(r + 1) in FormulaCells(FormulaAt(ids, calcs, i));
      ReadIsMention(ids, calcs, r, i);
    }
    if r: nat, i: nat :| r < |ids| && i < |calcs| && Live(ids, r) && ids[r] == id && RefersToField(ids, WordsAt(ids, calcs, i), r) {
      ReadIsMention(ids, calcs, r, i);
    }
  }

  lemma ReadIsMention(ids: seq<string>, calcs: seq<Calc>, r: nat, i: nat)
    requires PlainFieldIds(ids) && PlainCalcIds(calcs) && i < |calcs| && r < |ids| && Live(ids, r)
    ensures FieldCell(r + 1) in FormulaCells(FormulaAt(ids, calcs, i)) <==> RefersToField(ids, WordsAt(ids, calcs, i), r)
  {
    var ts, cells := WordsAt(ids, calcs, i), CellsAt(ids, calcs, i);
    FormulaCellsOf(ids, calcs, i);
    CellsAtNamed(ids, calcs, i);
    FieldCellAt(ids, calcs, i, r);
    NamedCellsAreMentioned(ts, cells, FieldCell(r + 1));
    hide CellsAt, FormulaAt, WordsAt, FormulaCells, NamedCells, Substitute, References, Named, PlainFieldIds, PlainCalcIds, CalcRows;
    if w :| w in cells && cells[w] == FieldCell(r + 1) && Word(w) in ts {
      if w in CalcRows(calcs, i + 1) {
        CalcCellAt(ids, calcs, i, w);
      } else {
        var s := MappedIdHasARow(ids, w);
        FieldCellAt(ids, calcs, i, s);
      }
    }
  }
}
