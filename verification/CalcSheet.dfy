/**
 * What a workbook computes: submitted values in the field column, compiled
 * formulas evaluated row by row. HyperFormula is an arbitrary evaluator of
 * formulas in which every cell name is replaced by the cell's value.
 */
module CalcSheet {
  import opened Wrappers
  import opened FormSpecs
  import opened FormulaText
  import opened FormulaCompiler
  import opened FieldLayout

  /** `parseFloat` is None where its result is not finite. */
  datatype Platform = Platform(parseFloat: string -> Option<real>, eval: seq<Atom> -> CellValue)

  function SumNumbers(items: seq<Val>): real {
    if items == [] then 0.0
    else SumNumbers(items[..|items| - 1]) + (if items[|items| - 1].Num? then items[|items| - 1].r else 0.0)
  }

  function ToHFValue(p: Platform, raw: Val): real {
    match raw
    case Num(r) => r
    case Bool(b) => if b then 1.0 else 0.0
    case Str(s) => (match p.parseFloat(s) case Some(n) => n case None => 0.0)
    case Arr(items) => SumNumbers(items)
    case _ => 0.0
  }

  /** What a field counts as: a number as itself, a truth value as 1 or 0, a text as the finite number it begins with, anything else as 0. */
  lemma HFValueIs(p: Platform, raw: Val)
    ensures raw.Num? ==> ToHFValue(p, raw) == raw.r
    ensures raw == Bool(true) ==> ToHFValue(p, raw) == 1.0
    ensures raw == Bool(false) || raw.Undefined? || raw.Null? || raw.NaN? || raw.Infinite? || raw.Obj? ==> ToHFValue(p, raw) == 0.0
    ensures raw.Str? && p.parseFloat(raw.s).Some? ==> Some(ToHFValue(p, raw)) == p.parseFloat(raw.s)
    ensures raw.Str? && p.parseFloat(raw.s).None? ==> ToHFValue(p, raw) == 0.0
  {
  }

  /** A list counts as the sum of the numbers in it: lists put together add up, and an item that is no number adds nothing. */
  lemma {:induction false} ListsAddUp(p: Platform, a: seq<Val>, b: seq<Val>)
    ensures ToHFValue(p, Arr([])) == 0.0
    ensures ToHFValue(p, Arr(a + b)) == ToHFValue(p, Arr(a)) + ToHFValue(p, Arr(b))
    ensures |b| == 1 ==> ToHFValue(p, Arr(b)) == if b[0].Num? then b[0].r else 0.0
  {
    if b == [] {
      assert a + b == a;
    } else {
      var all, front := a + b, b[..|b| - 1];
      assert all[..|all| - 1] == a + front;
      ListsAddUp(p, a, front);
    }
  }

  /** The field sheet's first column, by row from zero. */
  type Column = seq<CellValue>

  /** Zeros in as many rows as there are distinct ids; a repeated id leaves rows below them blank. */
  function BlankColumn(rows: nat, fieldCount: nat): (c: Column)
    ensures |c| == rows
  {
    seq(rows, r => if r < fieldCount then NumberValue(0.0) else Blank)
  }

  /** The column once every field in `done` has its submitted value in its cell. */
  function WrittenColumn(p: Platform, column: Column, ids: seq<string>, done: set<string>, values: Values): (c: Column)
    requires |column| == |ids|
    ensures |c| == |ids|
  {
    seq(|ids|, r requires 0 <= r < |ids| =>
      if Live(ids, r) && ids[r] in done then NumberValue(ToHFValue(p, At(values, ids[r]))) else column[r])
  }

  /** The column of a workbook built for this one submission. */
  function FreshColumn(p: Platform, ids: seq<string>, values: Values): (c: Column)
    ensures |c| == |ids|
  {
    WrittenColumn(p, BlankColumn(|ids|, |FieldMapOf(ids)|), ids, FieldMapOf(ids).Keys, values)
  }

  function ValueIn(column: Column, results: seq<CellValue>): Cell -> CellValue {
    (c: Cell) =>
      match c
      case FieldCell(row) => if 0 < row <= |column| then column[row - 1] else Blank
      case CalcCell(row) => if 0 < row <= |results| then results[row - 1] else Blank
  }

  /** Rows count from one, and a row that is not there is blank. */
  lemma ValueInIs(column: Column, results: seq<CellValue>, r: nat)
    ensures r < |column| ==> ValueIn(column, results)(FieldCell(r + 1)) == column[r]
    ensures r < |results| ==> ValueIn(column, results)(CalcCell(r + 1)) == results[r]
    ensures r > |column| || r == 0 ==> ValueIn(column, results)(FieldCell(r)) == Blank
    ensures r > |results| || r == 0 ==> ValueIn(column, results)(CalcCell(r)) == Blank
  {
  }

  function NamedCells(ts: seq<Token>): set<Cell>
    decreases |ts|
  {
    if ts == [] then {}
    else match CellNamedAt(ts)
      case Some(named) => {named.0} + NamedCells(ts[named.1..])
      case None => NamedCells(ts[1..])
  }

  /** The cells a formula's text names. */
  function FormulaCells(text: string): set<Cell> {
    if text == [] then {} else NamedCells(Lex(text[1..]))
  }

  /** A formula in row `k` (from zero) that names its own row or a later one. */
  predicate NamesOwnOrLater(named: set<Cell>, k: nat, rows: nat) {
    exists c :: c in named && c.CalcCell? && k < c.row <= rows
  }

  /** The calculation sheet row by row; a formula that refers to itself is an error. */
  function CalcValues(p: Platform, formulas: seq<string>, column: Column, k: nat): (vs: seq<CellValue>)
    requires k <= |formulas|
    ensures |vs| == k
  {
    if k == 0 then []
    else
      var earlier := CalcValues(p, formulas, column, k - 1);
      earlier + [if NamesOwnOrLater(FormulaCells(formulas[k - 1]), k - 1, |formulas|) then ErrorValue
                 else EvaluateCell(p.eval, formulas[k - 1], ValueIn(column, earlier))]
  }

  /** What the runner reports for a cell. */
  function ReadBack(v: CellValue): Val {
    match v
    case Blank => Null
    case NumberValue(r) => Num(r)
    case StringValue(s) => Str(s)
    case BooleanValue(b) => Num(if b then 1.0 else 0.0)
    case ErrorValue => Null
  }

  /** A number or text is reported as it is and a truth value as 1 or 0; nothing is reported for an empty cell or an error. */
  lemma ReadBackIs(v: CellValue)
    ensures ReadBack(v) == Null <==> v.Blank? || v.ErrorValue?
    ensures forall r :: ReadBack(v) == Num(r) <==> v == NumberValue(r) || (v == BooleanValue(true) && r == 1.0) || (v == BooleanValue(false) && r == 0.0)
    ensures forall s :: ReadBack(v) == Str(s) <==> v == StringValue(s)
  {
  }

  function Results(rows: map<string, nat>, vs: seq<CellValue>): Values
    requires forall id :: id in rows ==> rows[id] < |vs|
  {
    map id | id in rows :: ReadBack(vs[rows[id]])
  }

  /** The results of a workbook built for this one submission. */
  function FreshResults(p: Platform, ids: seq<string>, calcs: seq<Calc>, values: Values): Values
    requires PlainFieldIds(ids) && PlainCalcIds(calcs)
  {
    Results(CalcRows(calcs, |calcs|), CalcValues(p, Formulas(ids, calcs), FreshColumn(p, ids, values), |calcs|))
  }

  // ---- what a calculation reads ----

  lemma {:induction false} ResolveFrame(ts: seq<Token>, v: Cell -> CellValue, w: Cell -> CellValue)
    requires forall c :: c in NamedCells(ts) ==> v(c) == w(c)
    ensures Resolve(ts, v) == Resolve(ts, w)
    decreases |ts|
  {
    if ts != [] {
      match CellNamedAt(ts)
      case Some(named) => ResolveFrame(ts[named.1..], v, w);
      case None => ResolveFrame(ts[1..], v, w);
    }
  }

  /** Columns that agree on every field cell some formula names give the same calculations. */
  lemma {:induction false} CalcValuesFrame(p: Platform, formulas: seq<string>, a: Column, b: Column, k: nat)
    requires k <= |formulas| && |a| == |b|
    requires forall i: nat, row: nat :: i < k && FieldCell(row) in FormulaCells(formulas[i]) && 0 < row <= |a| ==> a[row - 1] == b[row - 1]
    ensures CalcValues(p, formulas, a, k) == CalcValues(p, formulas, b, k)
  {
    if k > 0 {
      CalcValuesFrame(p, formulas, a, b, k - 1);
      var earlier := CalcValues(p, formulas, a, k - 1);
      var text := formulas[k - 1];
      forall c | c in FormulaCells(text) ensures ValueIn(a, earlier)(c) == ValueIn(b, earlier)(c) {
        if c.FieldCell? { assert FieldCell(c.row) in FormulaCells(formulas[k - 1]); }
      }
      if text != [] && text[0] == '=' {
        ResolveFrame(Lex(text[1..]), ValueIn(a, earlier), ValueIn(b, earlier));
      }
    }
  }

  /** The fields whose cells the calculations name. */
  function CalcReads(ids: seq<string>, calcs: seq<Calc>): set<string>
    requires PlainFieldIds(ids) && PlainCalcIds(calcs)
  {
    set r: nat, i: nat | r < |ids| && i < |calcs| && Live(ids, r) && FieldCell(r + 1) in FormulaCells(FormulaAt(ids, calcs, i)) :: ids[r]
  }

  lemma ReadCellAgrees(p: Platform, ids: seq<string>, calcs: seq<Calc>, v: Values, w: Values, r: nat, i: nat)
    requires PlainFieldIds(ids) && PlainCalcIds(calcs) && i < |calcs| && r < |ids|
    requires forall id :: id in CalcReads(ids, calcs) ==> At(v, id) == At(w, id)
    requires FieldCell(r + 1) in FormulaCells(Formulas(ids, calcs)[i])
    ensures FreshColumn(p, ids, v)[r] == FreshColumn(p, ids, w)[r]
  {
    FormulaInRow(ids, calcs, |calcs|, i);
    if Live(ids, r) { assert ids[r] in CalcReads(ids, calcs); }
  }

  /** The calculations depend on the submitted values of those fields only. */
  lemma FreshResultsFrame(p: Platform, ids: seq<string>, calcs: seq<Calc>, v: Values, w: Values)
    requires PlainFieldIds(ids) && PlainCalcIds(calcs)
    requires forall id :: id in CalcReads(ids, calcs) ==> At(v, id) == At(w, id)
    ensures FreshResults(p, ids, calcs, v) == FreshResults(p, ids, calcs, w)
  {
    hide FreshColumn, CalcValues, FormulaCells, Formulas, CalcReads, CalcRows, PlainFieldIds, PlainCalcIds;
    var a, b := FreshColumn(p, ids, v), FreshColumn(p, ids, w);
    var formulas := Formulas(ids, calcs);
    forall i: nat, row: nat | i < |formulas| && FieldCell(row) in FormulaCells(formulas[i]) && 0 < row <= |a|
      ensures a[row - 1] == b[row - 1]
    {
      ReadCellAgrees(p, ids, calcs, v, w, row - 1, i);
    }
    CalcValuesFrame(p, formulas, a, b, |calcs|);
  }
}
