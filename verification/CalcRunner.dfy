/**
 * The calculation runner: workbooks are kept in a cache and written over by
 * every submission, yet each submission gets what a workbook of its own would
 * have given it.
 */
module CalcRunner {
  import opened Decimal
  import opened FormSpecs
  import opened FormulaText
  import opened FormulaCompiler
  import opened FieldLayout
  import opened CalcSheet

  /** A HyperFormula instance with its maps. */
  class Workbook {
    var column: Column
    const fieldMap: map<string, string>
    const calcRowMap: map<string, nat>
    const formulas: seq<string>

    constructor (column: Column, fieldMap: map<string, string>, calcRowMap: map<string, nat>, formulas: seq<string>)
      ensures this.column == column && this.fieldMap == fieldMap
      ensures this.calcRowMap == calcRowMap && this.formulas == formulas
    {
      this.column, this.fieldMap, this.calcRowMap, this.formulas := column, fieldMap, calcRowMap, formulas;
    }

    /** Built for these fields and calculations; nothing is said about the values left in field cells. */
    ghost predicate Serves(ids: seq<string>, calcs: seq<Calc>)
      reads this
      requires PlainFieldIds(ids) && PlainCalcIds(calcs)
    {
      var blank := BlankColumn(|ids|, |FieldMapOf(ids)|);
      && fieldMap == FieldMapOf(ids)
      && calcRowMap == CalcRows(calcs, |calcs|)
      && formulas == Formulas(ids, calcs)
      && |column| == |ids|
      && (forall r: nat :: r < |ids| && !Live(ids, r) ==> column[r] == blank[r])
    }
  }

  lemma CompiledIsFormulaAt(ids: seq<string>, calcs: seq<Calc>, k: nat, text: string)
    requires PlainFieldIds(ids) && PlainCalcIds(calcs) && k < |calcs|
    requires Addressed(FieldMapOf(ids))
    requires text == "=" + Unlex(CompiledTokens(calcs[k].formula, AllCells(FieldMapOf(ids), CalcRows(calcs, k + 1))))
    ensures text == FormulaAt(ids, calcs, k)
  {
  }

  method BuildHFEntry(spec: FormSpec) returns (w: Workbook)
    requires PlainIds(spec)
    ensures fresh(w) && w.Serves(FieldIds(spec.pages), spec.calculations)
    ensures |w.column| == |FieldIds(spec.pages)|
    ensures forall r :: 0 <= r < |w.column| ==> w.column[r] == if r < |FieldMapOf(FieldIds(spec.pages))| then NumberValue(0.0) else Blank
  {
    ghost var ids := FieldIds(spec.pages);
    var calcs := spec.calculations;
    var fieldMap := CompileFieldMap(spec.pages);
    var rows := CountFields(spec.pages);
    var calcRowMap, formulas := CompileCalcs(ids, calcs, fieldMap);
    w := new Workbook(BlankColumn(rows, |fieldMap|), fieldMap, calcRowMap, formulas);
  }

  method CompileCalcs(ghost ids: seq<string>, calcs: seq<Calc>, fieldMap: map<string, string>)
      returns (calcRowMap: map<string, nat>, formulas: seq<string>)
    requires PlainFieldIds(ids) && PlainCalcIds(calcs) && fieldMap == FieldMapOf(ids)
    ensures calcRowMap == CalcRows(calcs, |calcs|) && formulas == Formulas(ids, calcs)
  {
    hide FormulaAt, FieldMapOf, PlainFieldIds, PlainCalcIds;
    calcRowMap, formulas := map[], [];
    for i := 0 to |calcs|
      invariant calcRowMap == CalcRows(calcs, i)
      invariant formulas == FirstFormulas(ids, calcs, i)
    {
      calcRowMap := calcRowMap[calcs[i].id := i];
      formulas := CompileCalc(ids, calcs, i, fieldMap, calcRowMap, formulas);
    }
  }

  method CompileCalc(ghost ids: seq<string>, calcs: seq<Calc>, i: nat, fieldMap: map<string, string>,
                     calcRowMap: map<string, nat>, formulas: seq<string>) returns (more: seq<string>)
    requires PlainFieldIds(ids) && PlainCalcIds(calcs) && fieldMap == FieldMapOf(ids)
    requires i < |calcs| && calcRowMap == CalcRows(calcs, i + 1) && formulas == FirstFormulas(ids, calcs, i)
    ensures more == FirstFormulas(ids, calcs, i + 1)
  {
    PlainIdsReferable(ids, calcs, i + 1);
    var compiled := CompileFormula(calcs[i].formula, fieldMap, calcRowMap);
    CompiledIsFormulaAt(ids, calcs, i, compiled);
    more := formulas + [compiled];
  }

  /** The row counter's last value. */
  method CountFields(pages: seq<Page>) returns (rows: nat)
    ensures rows == |FieldIds(pages)|
  {
    rows := 0;
    for p := 0 to |pages|
      invariant rows == |FieldIds(pages[..p])|
    {
      rows := rows + |pages[p].fields|;
      assert pages[..p + 1][..p] == pages[..p];
    }
    assert pages[..|pages|] == pages;
  }

  /** `${formId}@${version}` */
  function CacheKey(formId: string, version: nat): string {
    formId + "@" + DecimalString(version)
  }

  /** The key tells form and version apart even when a form id contains an at sign. */
  lemma CacheKeyInjective(f: string, v: nat, g: string, w: nat)
    requires CacheKey(f, v) == CacheKey(g, w)
    ensures f == g && v == w
  {
    var key := CacheKey(f, v);
    var dv, dw := DecimalString(v), DecimalString(w);
    assert key[|f|] == '@' && key[|g|] == '@';
    assert forall i :: |f| < i < |key| ==> key[i] == dv[i - |f| - 1];
    assert forall i :: |g| < i < |key| ==> key[i] == dw[i - |g| - 1];
    assert |f| == |g|;
    assert f == key[..|f|] && g == key[..|g|];
    assert dv == key[|f| + 1..] && dw == key[|g| + 1..];
    ParseInvertsDecimal(v);
    ParseInvertsDecimal(w);
  }

  lemma {:induction false} SubsetSize(a: set<string>, b: set<string>)
    requires a <= b
    ensures |a| <= |b|
  {
    if a != {} {
      var x :| x in a;
      SubsetSize(a - {x}, b - {x});
    }
  }

  lemma EvictableExists(keys: set<string>, key: string)
    requires |keys| > 1
    ensures exists k :: k in keys && k != key
  {
    if forall k :: k in keys ==> k == key {
      SubsetSize(keys, {key});
    }
  }

  /** Whatever a workbook was last used for, writing all field cells makes it the fresh one. */
  lemma WrittenIsFresh(p: Platform, column: Column, ids: seq<string>, values: Values)
    requires |column| == |ids|
    requires forall r: nat :: r < |ids| && !Live(ids, r) ==> column[r] == BlankColumn(|ids|, |FieldMapOf(ids)|)[r]
    ensures WrittenColumn(p, column, ids, FieldMapOf(ids).Keys, values) == FreshColumn(p, ids, values)
  {
    FieldMapKeys(ids);
    var a, b := WrittenColumn(p, column, ids, FieldMapOf(ids).Keys, values), FreshColumn(p, ids, values);
    forall r: nat | r < |ids| ensures a[r] == b[r] {
      assert ids[r] in ids;
    }
  }

  /** Rows that do not count are not written. */
  lemma WrittenKeepsBlanks(p: Platform, column: Column, ids: seq<string>, values: Values)
    requires |column| == |ids|
    ensures forall r: nat :: r < |ids| && !Live(ids, r) ==>
              WrittenColumn(p, column, ids, FieldMapOf(ids).Keys, values)[r] == column[r]
  {
  }

  /** One more write adds one more value: rows that count hold different ids. */
  lemma WriteStep(p: Platform, column: Column, ids: seq<string>, done: set<string>, values: Values, r: nat)
    requires |column| == |ids| && Live(ids, r)
    ensures WrittenColumn(p, column, ids, done, values)[r := NumberValue(ToHFValue(p, At(values, ids[r])))]
         == WrittenColumn(p, column, ids, done + {ids[r]}, values)
  {
    var a := WrittenColumn(p, column, ids, done, values)[r := NumberValue(ToHFValue(p, At(values, ids[r])))];
    var b := WrittenColumn(p, column, ids, done + {ids[r]}, values);
    forall j: nat | j < |ids| ensures a[j] == b[j] {
      if Live(ids, j) && ids[j] == ids[r] { LiveRowsDiffer(ids, j, r); }
    }
  }

  lemma OneEntryLess(cache: map<string, Workbook>, key: string)
    requires key in cache
    ensures |cache - {key}| == |cache| - 1
  {
    assert (cache - {key}).Keys == cache.Keys - {key};
    assert |cache.Keys| == |cache| && |(cache - {key}).Keys| == |cache - {key}|;
  }

  lemma OneEntryMore(cache: map<string, Workbook>, key: string, w: Workbook)
    ensures |cache[key := w]| <= |cache| + 1
  {
    assert cache[key := w].Keys == cache.Keys + {key};
    assert |cache.Keys| == |cache| && |cache[key := w].Keys| == |cache[key := w]|;
  }

  lemma NothingToCalculate(p: Platform, ids: seq<string>, calcs: seq<Calc>, values: Values)
    requires PlainFieldIds(ids) && PlainCalcIds(calcs) && calcs == []
    ensures FreshResults(p, ids, calcs, values) == map[]
  {
  }

  const MAX_ENTRIES := 256

  class CalcService {
    const p: Platform
    /** The spec behind each form and version; that they determine it is assumed. */
    ghost const published: (string, nat) -> FormSpec
    var hfCache: map<string, Workbook>

    constructor (p: Platform, ghost published: (string, nat) -> FormSpec)
      ensures Valid() && this.p == p && this.published == published && hfCache == map[]
    {
      this.p, this.published, this.hfCache := p, published, map[];
    }

    ghost predicate ServedAt(key: string, spec: FormSpec)
      reads this, hfCache.Values
    {
      key in hfCache ==> PlainIds(spec) && hfCache[key].Serves(FieldIds(spec.pages), spec.calculations)
    }

    ghost predicate Valid()
      reads this, hfCache.Values
    {
      && (forall j, k :: j in hfCache && k in hfCache && j != k ==> hfCache[j] != hfCache[k])
      && (forall formId, version :: ServedAt(CacheKey(formId, version), published(formId, version)))
    }

    /** Dropping an entry, as the least-recently-used policy may at any time. */
    method Evict(key: string)
      requires Valid()
      modifies this
      ensures Valid() && hfCache == old(hfCache) - {key}
    {
      hfCache := hfCache - {key};
      assert forall formId, version :: old(ServedAt(CacheKey(formId, version), published(formId, version)));
    }

    /** `hfCache.set`: over capacity, some other entry goes. */
    method Store(key: string, w: Workbook)
      modifies this
      ensures key in hfCache && hfCache[key] == w
      ensures forall k :: k in hfCache && k != key ==> k in old(hfCache) && hfCache[k] == old(hfCache)[k]
      ensures |old(hfCache)[key := w]| <= MAX_ENTRIES ==> hfCache == old(hfCache)[key := w]
      ensures |old(hfCache)[key := w]| > MAX_ENTRIES ==>
        exists victim :: victim in old(hfCache) && victim != key && hfCache == old(hfCache)[key := w] - {victim}
      ensures |old(hfCache)| <= 256 ==> |hfCache| <= 256
    {
      hfCache := hfCache[key := w];
      if |hfCache| > MAX_ENTRIES {
        assert |hfCache.Keys| == |hfCache|;
        EvictableExists(hfCache.Keys, key);
        var victim :| victim in hfCache && victim != key;
        OneEntryLess(hfCache, victim);
        hfCache := hfCache - {victim};
      }
      OneEntryMore(old(hfCache), key, w);
    }

    /** The workbook for a submission, cached or built. */
    method EntryFor(spec: FormSpec, formId: string, version: nat) returns (w: Workbook)
      requires Valid() && PlainIds(spec) && spec == published(formId, version)
      modifies this
      ensures Valid() && w in hfCache.Values && fresh(hfCache.Values - old(hfCache.Values))
      ensures w.Serves(FieldIds(spec.pages), spec.calculations)
      ensures CacheKey(formId, version) in hfCache && hfCache[CacheKey(formId, version)] == w
    {
      hide Workbook.Serves, PlainIds, CacheKey;
      var key := CacheKey(formId, version);
      assert ServedAt(CacheKey(formId, version), published(formId, version));
      if key in hfCache {
        w := hfCache[key];
      } else {
        w := BuildHFEntry(spec);
        Store(key, w);
        forall f, v ensures ServedAt(CacheKey(f, v), published(f, v)) {
          assert old(ServedAt(CacheKey(f, v), published(f, v)));
          if CacheKey(f, v) == key { CacheKeyInjective(f, v, formId, version); }
        }
      }
    }

    /** Served from the cache or not, the results are those of a workbook built for this submission alone. */
    method ComputeCalculationsServer(spec: FormSpec, values: Values, formId: string, version: nat) returns (results: Values)
      requires Valid() && PlainIds(spec) && spec == published(formId, version)
      modifies this, hfCache.Values
      ensures Valid() && fresh(hfCache.Values - old(hfCache.Values))
      ensures results == FreshResults(p, FieldIds(spec.pages), spec.calculations, values)
    {
      ghost var ids := FieldIds(spec.pages);
      var calcs := spec.calculations;
      if |calcs| == 0 {
        NothingToCalculate(p, ids, calcs, values);
        return map[];
      }
      hide FreshColumn, CalcValues, Formulas, FieldMapOf, PlainFieldIds, PlainCalcIds;
      var w := EntryFor(spec, formId, version);
      Refill(w, spec, formId, version, values);
      results := ReadResults(w, calcs);
    }

    /** Puts a submission's values into its form's workbook; what other workbooks serve does not change. */
    method Refill(w: Workbook, ghost spec: FormSpec, ghost formId: string, ghost version: nat, values: Values)
      requires Valid() && PlainIds(spec) && spec == published(formId, version)
      requires CacheKey(formId, version) in hfCache && hfCache[CacheKey(formId, version)] == w
      modifies w
      ensures Valid() && w.Serves(FieldIds(spec.pages), spec.calculations)
      ensures w.column == FreshColumn(p, FieldIds(spec.pages), values)
    {
      ghost var ids := FieldIds(spec.pages);
      assert ServedAt(CacheKey(formId, version), published(formId, version));
      WrittenIsFresh(p, w.column, ids, values);
      label written:
      WriteFields(w, ids, values);
      WrittenKeepsBlanks(p, old(w.column), ids, values);
      forall f, v ensures ServedAt(CacheKey(f, v), published(f, v)) {
        assert old@written(ServedAt(CacheKey(f, v), published(f, v)));
        if CacheKey(f, v) == CacheKey(formId, version) { CacheKeyInjective(f, v, formId, version); }
      }
    }

    /** Writes every field cell; the other cells of the column stay as they were. */
    method WriteFields(w: Workbook, ghost ids: seq<string>, values: Values)
      requires w.fieldMap == FieldMapOf(ids) && |w.column| == |ids|
      modifies w
      ensures w.column == WrittenColumn(p, old(w.column), ids, FieldMapOf(ids).Keys, values)
    {
      ghost var start := w.column;
      ghost var done: set<string> := {};
      var left := w.fieldMap.Keys;
      assert WrittenColumn(p, start, ids, {}, values) == start;
      while left != {}
        invariant left <= w.fieldMap.Keys && done == w.fieldMap.Keys - left
        invariant w.column == WrittenColumn(p, start, ids, done, values)
        decreases left
      {
        var id :| id in left;
        ghost var r := MappedIdHasARow(ids, id);
        AddrToRowInverts(r + 1);
        WriteStep(p, start, ids, done, values, r);
        w.column := w.column[AddrToRow(w.fieldMap[id]) := NumberValue(ToHFValue(p, At(values, id)))];
        left, done := left - {id}, done + {id};
      }
      assert done == FieldMapOf(ids).Keys;
    }

    method ReadResults(w: Workbook, calcs: seq<Calc>) returns (results: Values)
      requires w.calcRowMap == CalcRows(calcs, |calcs|) && |w.formulas| == |calcs|
      ensures results == Results(w.calcRowMap, CalcValues(p, w.formulas, w.column, |calcs|))
    {
      var vs := CalcValues(p, w.formulas, w.column, |calcs|);
      results := map[];
      for i := 0 to |calcs|
        invariant results.Keys == CalcRows(calcs, i).Keys
        invariant forall id :: id in results ==> id in w.calcRowMap && results[id] == ReadBack(vs[w.calcRowMap[id]])
      {
        CalcIdHasARow(calcs, |calcs|, i);
        results := results[calcs[i].id := ReadBack(vs[w.calcRowMap[calcs[i].id]])];
      }
    }
  }

  datatype Request = Request(spec: FormSpec, formId: string, version: nat, values: Values)

  predicate Consistent(requests: seq<Request>, published: (string, nat) -> FormSpec) {
    forall i :: 0 <= i < |requests| ==>
      PlainIds(requests[i].spec) && requests[i].spec == published(requests[i].formId, requests[i].version)
  }

  /** The answers of workbooks each used for one request only. */
  function FreshAnswers(p: Platform, requests: seq<Request>): seq<Values>
    requires forall i :: 0 <= i < |requests| ==> PlainIds(requests[i].spec)
  {
    if requests == [] then []
    else
      var r := requests[|requests| - 1];
      assert PlainIds(r.spec);
      FreshAnswers(p, requests[..|requests| - 1]) + [FreshResults(p, FieldIds(r.spec.pages), r.spec.calculations, r.values)]
  }

  /**
   * A whole history through one service, with entries dropped in between: every
   * answer is that of a workbook of its own.
   */
  method ServeHistory(service: CalcService, requests: seq<Request>, evictions: seq<string>) returns (answers: seq<Values>)
    requires service.Valid() && |evictions| == |requests| && Consistent(requests, service.published)
    modifies service, service.hfCache.Values
    ensures service.Valid() && answers == FreshAnswers(service.p, requests)
  {
    answers := [];
    for n := 0 to |requests|
      invariant service.Valid() && fresh(service.hfCache.Values - old(service.hfCache.Values))
      invariant answers == FreshAnswers(service.p, requests[..n])
    {
      answers := ServeNext(service, requests, n, evictions[n], answers);
    }
    assert requests[..|requests|] == requests;
  }

  method ServeNext(service: CalcService, requests: seq<Request>, n: nat, evicted: string, answers: seq<Values>)
      returns (more: seq<Values>)
    requires service.Valid() && n < |requests| && Consistent(requests, service.published)
    requires answers == FreshAnswers(service.p, requests[..n])
    modifies service, service.hfCache.Values
    ensures service.Valid() && fresh(service.hfCache.Values - old(service.hfCache.Values))
    ensures more == FreshAnswers(service.p, requests[..n + 1])
  {
    hide FreshResults, CalcService.Valid, FieldIds;
    var r := requests[n];
    service.Evict(evicted);
    var answer := service.ComputeCalculationsServer(r.spec, r.values, r.formId, r.version);
    assert requests[..n + 1][..n] == requests[..n];
    more := answers + [answer];
  }
}
