/** Where fields and calculations live in the workbook. */
module FieldLayout {
  import opened Decimal
  import opened FormSpecs
  import opened FormulaText
  import opened FormulaCompiler

  /** The address each id ends up with; a repeated id keeps its last row. */
  function FieldMapOf(ids: seq<string>): map<string, string> {
    if ids == [] then map[] else FieldMapOf(ids[..|ids| - 1])[ids[|ids| - 1] := Address(|ids|)]
  }

  /** Row `r`, from zero, is the last one that declares its id. */
  predicate Live(ids: seq<string>, r: nat) {
    r < |ids| && ids[r] !in ids[r + 1..]
  }

  lemma FieldMapSnoc(ids: seq<string>, id: string)
    ensures FieldMapOf(ids + [id]) == FieldMapOf(ids)[id := Address(|ids| + 1)]
  {
    var more := ids + [id];
    assert more[..|more| - 1] == ids;
  }

  lemma LiveSnoc(ids: seq<string>, id: string, r: nat)
    requires r < |ids|
    ensures Live(ids + [id], r) <==> Live(ids, r) && ids[r] != id
  {
    var more := ids + [id];
    assert more[r + 1..] == ids[r + 1..] + [id];
  }

  lemma {:induction false} LiveRowHasItsAddress(ids: seq<string>, r: nat)
    requires Live(ids, r)
    ensures ids[r] in FieldMapOf(ids) && FieldMapOf(ids)[ids[r]] == Address(r + 1)
  {
    var front, last := ids[..|ids| - 1], ids[|ids| - 1];
    assert ids == front + [last];
    FieldMapSnoc(front, last);
    if r < |front| {
      LiveSnoc(front, last, r);
      LiveRowHasItsAddress(front, r);
    }
  }

  lemma {:induction false} MappedIdHasARow(ids: seq<string>, id: string) returns (r: nat)
    requires id in FieldMapOf(ids)
    ensures Live(ids, r) && ids[r] == id && FieldMapOf(ids)[id] == Address(r + 1)
  {
    var front, last := ids[..|ids| - 1], ids[|ids| - 1];
    assert ids == front + [last];
    FieldMapSnoc(front, last);
    if id == last {
      r := |front|;
    } else {
      r := MappedIdHasARow(front, id);
      LiveSnoc(front, last, r);
    }
  }

  lemma LaterRowDiffers(ids: seq<string>, r: nat, s: nat)
    requires Live(ids, r) && r < s < |ids|
    ensures ids[s] != ids[r]
  {
    assert ids[r + 1..][s - r - 1] == ids[s];
  }

  lemma LiveRowsDiffer(ids: seq<string>, r: nat, s: nat)
    requires Live(ids, r) && Live(ids, s) && ids[r] == ids[s]
    ensures r == s
  {
    if r < s { LaterRowDiffers(ids, r, s); }
    if s < r { LaterRowDiffers(ids, s, r); }
  }

  /** No two fields share a cell. */
  lemma FieldAddressesDistinct(ids: seq<string>, a: string, b: string)
    requires a in FieldMapOf(ids) && b in FieldMapOf(ids) && a != b
    ensures FieldMapOf(ids)[a] != FieldMapOf(ids)[b]
  {
    var r := MappedIdHasARow(ids, a);
    var s := MappedIdHasARow(ids, b);
    AddressInverts(r + 1);
    AddressInverts(s + 1);
  }

  lemma {:induction false} FieldMapKeys(ids: seq<string>)
    ensures forall id :: id in FieldMapOf(ids) <==> id in ids
  {
    if ids != [] {
      var front, last := ids[..|ids| - 1], ids[|ids| - 1];
      FieldMapKeys(front);
      assert ids == front + [last];
      FieldMapSnoc(front, last);
    }
  }

  method CompileFieldMap(pages: seq<Page>) returns (fieldMap: map<string, string>)
    ensures fieldMap == FieldMapOf(FieldIds(pages))
    ensures forall id :: id in fieldMap <==> id in FieldIds(pages)
    ensures forall r: nat :: Live(FieldIds(pages), r) ==> fieldMap[FieldIds(pages)[r]] == "A" + DecimalString(r + 1)
  {
    fieldMap := map[];
    var row := 1;
    for p := 0 to |pages|
      invariant row == |FieldIds(pages[..p])| + 1
      invariant fieldMap == FieldMapOf(FieldIds(pages[..p]))
    {
      var fields := pages[p].fields;
      ghost var before, onPage := FieldIds(pages[..p]), PageFieldIds(fields);
      assert before + onPage[..0] == before;
      for f := 0 to |fields|
        invariant row == |before| + f + 1
        invariant fieldMap == FieldMapOf(before + onPage[..f])
      {
        FieldMapSnoc(before + onPage[..f], fields[f].id);
        assert before + onPage[..f] + [fields[f].id] == before + onPage[..f + 1];
        fieldMap := fieldMap[fields[f].id := Address(row)];
        row := row + 1;
      }
      assert onPage[..|fields|] == onPage;
      assert pages[..p + 1][..p] == pages[..p];
    }
    assert pages[..|pages|] == pages;
    FieldMapKeys(FieldIds(pages));
    forall r: nat | Live(FieldIds(pages), r) ensures fieldMap[FieldIds(pages)[r]] == "A" + DecimalString(r + 1) {
      LiveRowHasItsAddress(FieldIds(pages), r);
    }
  }

  /** A field's row comes after those of the pages before, in the order of its own page. */
  lemma {:induction false} RowOfField(pages: seq<Page>, p: nat, f: nat)
    requires p < |pages| && f < |pages[p].fields|
    ensures |FieldIds(pages[..p])| + f < |FieldIds(pages)| && FieldIds(pages)[|FieldIds(pages[..p])| + f] == pages[p].fields[f].id
    ensures |FieldIds(pages[..p + 1])| == |FieldIds(pages[..p])| + |pages[p].fields|
  {
    assert pages[..p + 1][..p] == pages[..p];
    var front := pages[..|pages| - 1];
    if p < |front| {
      assert front[..p] == pages[..p] && front[..p + 1] == pages[..p + 1];
      RowOfField(front, p, f);
    } else {
      assert pages[..p] == front;
    }
  }

  function LeadingDigits(s: string): (d: string)
    ensures forall i :: 0 <= i < |d| ==> DigitChar(d[i])
  {
    if s == [] || !DigitChar(s[0]) then [] else [s[0]] + LeadingDigits(s[1..])
  }

  /** "A1" is row 0; text without a number is row 0 too. */
  function AddrToRow(addr: string): int {
    var digits := if addr == [] then [] else LeadingDigits(addr[1..]);
    if digits == [] then 0 else ParseDigits(digits) - 1
  }

  lemma {:induction false} LeadingDigitsOfDigits(s: string)
    requires forall i :: 0 <= i < |s| ==> DigitChar(s[i])
    ensures LeadingDigits(s) == s
  {
    if s != [] { LeadingDigitsOfDigits(s[1..]); }
  }

  /** Reading an address back gives the row it was printed for. */
  lemma AddrToRowInverts(row: nat)
    ensures AddrToRow(Address(row)) == row - 1
  {
    assert Address(row)[1..] == DecimalString(row);
    LeadingDigitsOfDigits(DecimalString(row));
    ParseInvertsDecimal(row);
  }

  /** Which row each calculation id has once the first `k` calculations are read. */
  function CalcRows(calcs: seq<Calc>, k: nat): (rows: map<string, nat>)
    requires k <= |calcs|
    ensures forall id :: id in rows ==> rows[id] < k
  {
    if k == 0 then map[] else CalcRows(calcs, k - 1)[calcs[k - 1].id := k - 1]
  }

  lemma {:induction false} CalcRowHasItsId(calcs: seq<Calc>, k: nat, id: string)
    requires k <= |calcs| && id in CalcRows(calcs, k)
    ensures calcs[CalcRows(calcs, k)[id]].id == id
  {
    if calcs[k - 1].id != id { CalcRowHasItsId(calcs, k - 1, id); }
  }

  lemma {:induction false} CalcIdHasARow(calcs: seq<Calc>, k: nat, j: nat)
    requires j < k <= |calcs|
    ensures calcs[j].id in CalcRows(calcs, k) && j <= CalcRows(calcs, k)[calcs[j].id]
  {
    if j < k - 1 { CalcIdHasARow(calcs, k - 1, j); }
  }

  predicate PlainFieldIds(ids: seq<string>) {
    forall i {:trigger FieldName(ids[i])} :: 0 <= i < |ids| ==> FieldName(ids[i])
  }

  predicate PlainCalcIds(calcs: seq<Calc>) {
    forall i {:trigger CalcName(calcs[i].id)} :: 0 <= i < |calcs| ==> CalcName(calcs[i].id)
  }

  /** Ids match their patterns, do not end in a hyphen and do not hold another. */
  predicate PlainIds(spec: FormSpec) {
    PlainFieldIds(FieldIds(spec.pages)) && PlainCalcIds(spec.calculations)
  }

  lemma PlainIdsReferable(ids: seq<string>, calcs: seq<Calc>, k: nat)
    requires PlainFieldIds(ids) && PlainCalcIds(calcs) && k <= |calcs|
    ensures Referable(FieldMapOf(ids), CalcRows(calcs, k))
  {
    forall id | id in CalcRows(calcs, k) ensures CalcName(id) {
      CalcRowHasItsId(calcs, k, id);
    }
    forall id | id in FieldMapOf(ids)
      ensures FieldName(id) && AddressRow(FieldMapOf(ids)[id]).Some?
      ensures FieldMapOf(ids)[id] == Address(AddressRow(FieldMapOf(ids)[id]).value)
    {
      var r := MappedIdHasARow(ids, id);
      AddressInverts(r + 1);
    }
  }

  /** The cells the identifiers of formula `k` stand for: all fields, and the calculations up to and with its own. */
  function CellsAt(ids: seq<string>, calcs: seq<Calc>, k: nat): map<string, Cell>
    requires PlainFieldIds(ids) && PlainCalcIds(calcs) && k < |calcs|
  {
    PlainIdsReferable(ids, calcs, k + 1);
    AllCells(FieldMapOf(ids), CalcRows(calcs, k + 1))
  }

  lemma CellsAtNamed(ids: seq<string>, calcs: seq<Calc>, k: nat)
    requires PlainFieldIds(ids) && PlainCalcIds(calcs) && k < |calcs|
    ensures Named(CellsAt(ids, calcs, k))
    ensures CellsAt(ids, calcs, k).Keys == FieldMapOf(ids).Keys + CalcRows(calcs, k + 1).Keys
  {
    PlainIdsReferable(ids, calcs, k + 1);
  }

  lemma CalcCellOf(fieldMap: map<string, string>, rows: map<string, nat>, id: string)
    requires Addressed(fieldMap) && id in rows
    ensures id in AllCells(fieldMap, rows) && AllCells(fieldMap, rows)[id] == CalcCell(rows[id] + 1)
  {
    assert id in CalcCells(rows);
  }

  lemma CalcCellAt(ids: seq<string>, calcs: seq<Calc>, k: nat, id: string)
    requires PlainFieldIds(ids) && PlainCalcIds(calcs) && k < |calcs| && id in CalcRows(calcs, k + 1)
    ensures id in CellsAt(ids, calcs, k) && CellsAt(ids, calcs, k)[id] == CalcCell(CalcRows(calcs, k + 1)[id] + 1)
  {
    PlainIdsReferable(ids, calcs, k + 1);
    CalcCellOf(FieldMapOf(ids), CalcRows(calcs, k + 1), id);
  }

  lemma FieldCellAt(ids: seq<string>, calcs: seq<Calc>, k: nat, r: nat)
    requires PlainFieldIds(ids) && PlainCalcIds(calcs) && k < |calcs| && Live(ids, r)
    ensures ids[r] in CellsAt(ids, calcs, k) && CellsAt(ids, calcs, k)[ids[r]] == FieldCell(r + 1)
  {
    PlainIdsReferable(ids, calcs, k + 1);
    LiveRowHasItsAddress(ids, r);
    AddressInverts(r + 1);
    assert FieldName(ids[r]) && ids[r] !in CalcRows(calcs, k + 1);
  }

  function FormulaAt(ids: seq<string>, calcs: seq<Calc>, k: nat): string
    requires PlainFieldIds(ids) && PlainCalcIds(calcs) && k < |calcs|
  {
    "=" + Unlex(CompiledTokens(calcs[k].formula, CellsAt(ids, calcs, k)))
  }

  function FirstFormulas(ids: seq<string>, calcs: seq<Calc>, k: nat): (fs: seq<string>)
    requires PlainFieldIds(ids) && PlainCalcIds(calcs) && k <= |calcs|
    ensures |fs| == k
  {
    if k == 0 then [] else FirstFormulas(ids, calcs, k - 1) + [FormulaAt(ids, calcs, k - 1)]
  }

  /** The calculation sheet's formulas, one row per calculation. */
  function Formulas(ids: seq<string>, calcs: seq<Calc>): (fs: seq<string>)
    requires PlainFieldIds(ids) && PlainCalcIds(calcs)
    ensures |fs| == |calcs|
  {
    FirstFormulas(ids, calcs, |calcs|)
  }

  lemma {:induction false} FormulaInRow(ids: seq<string>, calcs: seq<Calc>, k: nat, i: nat)
    requires PlainFieldIds(ids) && PlainCalcIds(calcs) && i < k <= |calcs|
    ensures FirstFormulas(ids, calcs, k)[i] == FormulaAt(ids, calcs, i)
  {
    hide FormulaAt, PlainFieldIds, PlainCalcIds;
    if i < k - 1 { FormulaInRow(ids, calcs, k - 1, i); }
  }
}
