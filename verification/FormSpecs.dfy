/** The parts of a published form spec that the submission logic reads. */
module FormSpecs {
  import opened Wrappers

  /** A JavaScript value in a payload or a rule; Undefined is an absent one. */
  datatype Val =
    | Undefined
    | Null
    | Bool(b: bool)
    | Num(r: real)
    | NaN
    | Infinite
    | Str(s: string)
    | Arr(items: seq<Val>)
    | Obj(props: seq<Prop>)

  datatype Prop = Prop(name: string, value: Val)

  datatype Field = Field(id: string, showIf: Val, rowsFrom: Val)
  datatype Page = Page(id: string, fields: seq<Field>, showIf: Val)
  datatype Calc = Calc(id: string, formula: string)

  datatype Then = Then(set_: Option<real>, add: Option<real>)
  datatype ScoringRule = ScoringRule(cond: Val, then_: Then)
  datatype Bucket = Bucket(min: real, max: real, name: string)
  datatype Scoring = Scoring(enabled: bool, rules: seq<ScoringRule>, buckets: seq<Bucket>)

  /** `skip_pages` is a count or a list of page ids. */
  datatype Do = JumpToPage(target: string) | SkipCount(n: int) | SkipList(targets: seq<string>)
  datatype Action = Action(pageId: string, cond: Val, do: Do)

  datatype FormSpec = FormSpec(
    pages: seq<Page>, calculations: seq<Calc>, scoring: Option<Scoring>, actions: seq<Action>)

  type Values = map<string, Val>

  /** `values[id]` */
  function At(values: Values, id: string): Val {
    if id in values then values[id] else Undefined
  }

  function PageFieldIds(fields: seq<Field>): (ids: seq<string>)
    ensures |ids| == |fields|
    ensures forall i :: 0 <= i < |ids| ==> ids[i] == fields[i].id
  {
    seq(|fields|, i requires 0 <= i < |fields| => fields[i].id)
  }

  /** All field ids in declaration order: pages in order, fields in order within a page. */
  function FieldIds(pages: seq<Page>): seq<string> {
    if pages == [] then []
    else FieldIds(pages[..|pages| - 1]) + PageFieldIds(pages[|pages| - 1].fields)
  }
}
