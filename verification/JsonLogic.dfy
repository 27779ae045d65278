/**
 * json-logic rules as plain values, their evaluation, and the variables a rule
 * refers to. Operators are arbitrary functions of their operands; only `var`
 * (and the operators kept apart below) looks at the data.
 */
module JsonLogic {
  import opened Wrappers
  import opened FormSpecs

  datatype Outcome = Value(v: Val) | Throws

  /**
   * `operate` gets an operator's evaluated operands and the operands as written,
   * so lazy and element-wise operators are covered. `walk` follows the rest of
   * a dotted path inside a value. `read` stands for operators that look at the
   * data other than through a `var` with a non-empty string.
   */
  datatype Engine = Engine(
    operate: (string, seq<Outcome>, seq<Val>) -> Outcome,
    walk: (Val, string) -> Val,
    read: (string, Val, Values) -> Outcome)

  /** The part of a path before its first dot. */
  function Head(path: string): string {
    if path == [] || path[0] == '.' then [] else [path[0]] + Head(path[1..])
  }

  function LookUp(e: Engine, data: Values, path: string): Val {
    var head := Head(path);
    var v := At(data, head);
    if v.Undefined? then Null
    else if head == path then v
    else e.walk(v, path)
  }

  predicate ReadsData(op: string) {
    op == "var" || op == "missing" || op == "missing_some"
  }

  /** `jsonLogic.apply(rule, data)` */
  function Apply(e: Engine, rule: Val, data: Values): Outcome
    decreases rule, 1
  {
    match rule
    case Arr(items) => (match AllValues(ApplyEach(e, items, data)) case Some(vs) => Value(Arr(vs)) case None => Throws)
    case Obj(props) =>
      if |props| != 1 then Value(rule)
      else
        var op, operand := props[0].name, props[0].value;
        if op == "var" && operand.Str? && operand.s != "" then Value(LookUp(e, data, operand.s))
        else if ReadsData(op) then e.read(op, operand, data)
        else if operand.Arr? then e.operate(op, ApplyEach(e, operand.items, data), operand.items)
        else e.operate(op, [Apply(e, operand, data)], [operand])
    case _ => Value(rule)
  }

  function ApplyEach(e: Engine, rules: seq<Val>, data: Values): seq<Outcome>
    decreases rules, 0
  {
    if rules == [] then [] else [Apply(e, rules[0], data)] + ApplyEach(e, rules[1..], data)
  }

  function AllValues(outcomes: seq<Outcome>): Option<seq<Val>> {
    if outcomes == [] then Some([])
    else match (outcomes[0], AllValues(outcomes[1..]))
      case (Value(v), Some(vs)) => Some([v] + vs)
      case _ => None
  }

  /** `Boolean(v)` */
  predicate Truthy(v: Val) {
    match v
    case Undefined => false
    case Null => false
    case Bool(b) => b
    case Num(r) => r != 0.0
    case NaN => false
    case Str(s) => s != ""
    case _ => true
  }

  /** A condition that throws counts as not met. */
  predicate Met(e: Engine, cond: Val, data: Values) {
    match Apply(e, cond, data) case Value(v) => Truthy(v) case Throws => false
  }

  /** The falsy values are these and no others. */
  lemma TruthyExactly(v: Val)
    ensures !Truthy(v) <==> v in [Undefined, Null, Bool(false), Num(0.0), NaN, Str("")]
  {
  }

  /** The part before the first dot, or all of a path without one. */
  lemma {:induction false} HeadIs(path: string)
    ensures
      var n := |Head(path)|;
      && n <= |path| && path[..n] == Head(path) && '.' !in Head(path) && (n < |path| ==> path[n] == '.')
  {
    if path != [] && path[0] != '.' {
      HeadIs(path[1..]);
      var n := |Head(path[1..])|;
      assert path[..n + 1] == [path[0]] + path[1..][..n];
    }
  }

  // ---- collectVarRefs ----

  /** The string under the key `var`, if that is what the object has there. */
  function VarOperand(props: seq<Prop>): Option<string> {
    if props == [] then None
    else if props[0].name == "var" && props[0].value.Str? then Some(props[0].value.s)
    else VarOperand(props[1..])
  }

  /** The root of every `{var: "…"}` in the tree, outermost first. */
  function VarRefs(node: Val): seq<string>
    decreases node, 1
  {
    match node
    case Arr(items) => VarRefsIn(items)
    case Obj(props) =>
      (match VarOperand(props) case Some(path) => [Head(path)] case None => VarRefsUnder(props))
    case _ => []
  }

  function VarRefsIn(items: seq<Val>): seq<string>
    decreases items, 0
  {
    if items == [] then [] else VarRefs(items[0]) + VarRefsIn(items[1..])
  }

  function VarRefsUnder(props: seq<Prop>): seq<string>
    decreases props, 0
  {
    if props == [] then [] else VarRefs(props[0].value) + VarRefsUnder(props[1..])
  }

  lemma {:induction false} VarRefsInSnoc(items: seq<Val>, item: Val)
    ensures VarRefsIn(items + [item]) == VarRefsIn(items) + VarRefs(item)
  {
    if items == [] {
      assert VarRefsIn([item]) == VarRefs(item) + VarRefsIn([]);
    } else {
      var more := items + [item];
      assert more[0] == items[0] && more[1..] == items[1..] + [item];
      VarRefsInSnoc(items[1..], item);
    }
  }

  /** `Object.values` of an array or object. */
  function ChildValues(node: Val): seq<Val> {
    match node
    case Arr(items) => items
    case Obj(props) => seq(|props|, i requires 0 <= i < |props| => props[i].value)
    case _ => []
  }

  lemma {:induction false} VarRefsOfChildren(props: seq<Prop>)
    ensures VarRefsIn(ChildValues(Obj(props))) == VarRefsUnder(props)
  {
    if props != [] {
      VarRefsOfChildren(props[1..]);
      assert ChildValues(Obj(props))[1..] == ChildValues(Obj(props[1..]));
    }
  }

  lemma VarRefsAre(node: Val)
    ensures VarRefs(node) ==
      if node.Obj? && VarOperand(node.props).Some? then [Head(VarOperand(node.props).value)] else VarRefsIn(ChildValues(node))
  {
    if node.Obj? { VarRefsOfChildren(node.props); }
  }

  /** The collector: a `var` string ends the search in its object; array children are searched item by item. */
  method CollectVarRefs(node: Val) returns (refs: seq<string>)
    ensures refs == VarRefs(node)
    decreases node
  {
    hide VarRefs;
    refs := [];
    VarRefsAre(node);
    if !node.Arr? && !node.Obj? { return; }
    if node.Obj? {
      var operand := VarOperand(node.props);
      if operand.Some? { return [Head(operand.value)]; }
    }
    var children := ChildValues(node);
    for i := 0 to |children|
      invariant refs == VarRefsIn(children[..i])
    {
      var v := children[i];
      assert v < node;
      if v.Arr? {
        ghost var before := refs;
        for j := 0 to |v.items|
          invariant refs == before + VarRefsIn(v.items[..j])
        {
          var some := CollectVarRefs(v.items[j]);
          VarRefsInSnoc(v.items[..j], v.items[j]);
          assert v.items[..j + 1] == v.items[..j] + [v.items[j]];
          refs := refs + some;
          assert refs == before + (VarRefsIn(v.items[..j]) + some);
        }
        assert v.items[..|v.items|] == v.items;
        VarRefsAre(v);
      } else {
        var some := CollectVarRefs(v);
        refs := refs + some;
      }
      VarRefsInSnoc(children[..i], v);
      assert children[..i + 1] == children[..i] + [v];
    }
    assert children[..|children|] == children;
  }

  // ---- what is collected ----

  /** The value that child numbers lead to from a rule; nothing is looked for below an object with a `var` string. */
  function Below(node: Val, path: seq<nat>): Option<Val>
    decreases |path|
  {
    if path == [] then Some(node)
    else match node
      case Arr(items) => if path[0] < |items| then Below(items[path[0]], path[1..]) else None
      case Obj(props) =>
        if VarOperand(props).None? && path[0] < |props| then Below(props[path[0]].value, path[1..]) else None
      case _ => None
  }

  /** There stands an object whose `var` is a string with this root. */
  predicate RefersAt(node: Val, path: seq<nat>, root: string) {
    var here := Below(node, path);
    && here.Some? && here.value.Obj? && VarOperand(here.value.props).Some?
    && Head(VarOperand(here.value.props).value) == root
  }

  lemma {:induction false} RefIsReached(node: Val, root: string) returns (path: seq<nat>)
    requires root in VarRefs(node)
    ensures RefersAt(node, path, root)
    decreases node, 1
  {
    path := [];
    if node.Arr? || VarOperand(node.props).None? {
      if node.Obj? { VarRefsOfChildren(node.props); }
      ChildrenAreSmaller(node);
      var i, below := RefIsReachedIn(node, ChildValues(node), root);
      path := [i] + below;
      assert path[1..] == below;
    }
  }

  lemma ChildrenAreSmaller(node: Val)
    ensures forall i :: 0 <= i < |ChildValues(node)| ==> ChildValues(node)[i] < node
  {
  }

  lemma {:induction false} RefIsReachedIn(parent: Val, items: seq<Val>, root: string) returns (i: nat, path: seq<nat>)
    requires root in VarRefsIn(items) && forall j :: 0 <= j < |items| ==> items[j] < parent
    ensures i < |items| && RefersAt(items[i], path, root)
    decreases parent, 0, |items|
  {
    if root in VarRefs(items[0]) {
      i := 0;
      path := RefIsReached(items[0], root);
    } else {
      i, path := RefIsReachedIn(parent, items[1..], root);
      i := i + 1;
    }
  }

  lemma {:induction false} AmongItems(items: seq<Val>, i: nat, root: string)
    requires i < |items| && root in VarRefs(items[i])
    ensures root in VarRefsIn(items)
  {
    if i > 0 { AmongItems(items[1..], i - 1, root); }
  }

  lemma {:induction false} ReachedIsRef(node: Val, path: seq<nat>, root: string)
    requires RefersAt(node, path, root)
    ensures root in VarRefs(node)
    decreases |path|
  {
    if path != [] {
      var children := ChildValues(node);
      ReachedIsRef(children[path[0]], path[1..], root);
      AmongItems(children, path[0], root);
      if node.Obj? { VarRefsOfChildren(node.props); }
    }
  }

  /** Collected are the roots of exactly the `var` strings that can be reached without passing another. */
  lemma CollectedExactly(node: Val, root: string)
    ensures root in VarRefs(node) <==> exists path :: RefersAt(node, path, root)
  {
    if root in VarRefs(node) { var path := RefIsReached(node, root); }
    if path :| RefersAt(node, path, root) { ReachedIsRef(node, path, root); }
  }

  /** An object's `var` string is the value of a property of that name. */
  lemma {:induction false} OperandIs(props: seq<Prop>)
    ensures VarOperand(props).Some? ==> Prop("var", Str(VarOperand(props).value)) in props
    ensures VarOperand(props).None? ==> forall i :: 0 <= i < |props| ==> !(props[i].name == "var" && props[i].value.Str?)
  {
    if props != [] { OperandIs(props[1..]); }
  }

  // ---- evaluation depends on the collected variables only ----

  /** Every data-reading operator that can be evaluated is a `var` with a non-empty string. */
  predicate PlainVars(rule: Val)
    decreases rule, 1
  {
    match rule
    case Arr(items) => PlainVarsIn(items)
    case Obj(props) =>
      |props| == 1 ==>
        if props[0].name == "var" then props[0].value.Str? && props[0].value.s != ""
        else !ReadsData(props[0].name) && PlainVars(props[0].value)
    case _ => true
  }

  predicate PlainVarsIn(items: seq<Val>)
    decreases items, 0
  {
    items == [] || (PlainVars(items[0]) && PlainVarsIn(items[1..]))
  }

  predicate AgreeOn(refs: seq<string>, a: Values, b: Values) {
    forall r :: r in refs ==> At(a, r) == At(b, r)
  }

  lemma {:induction false} ApplyFrame(e: Engine, rule: Val, a: Values, b: Values)
    requires PlainVars(rule) && AgreeOn(VarRefs(rule), a, b)
    ensures Apply(e, rule, a) == Apply(e, rule, b)
    decreases rule, 1
  {
    match rule
    case Arr(items) => ApplyEachFrame(e, items, a, b);
    case Obj(props) =>
      if |props| == 1 {
        var op, operand := props[0].name, props[0].value;
        if op == "var" {
          assert VarOperand(props) == Some(operand.s);
          assert Head(operand.s) in VarRefs(rule);
        } else {
          assert VarOperand(props).None?;
          assert VarRefs(rule) == VarRefs(operand) + VarRefsUnder(props[1..]);
          if operand.Arr? {
            ApplyEachFrame(e, operand.items, a, b);
          } else {
            ApplyFrame(e, operand, a, b);
          }
        }
      }
    case _ =>
  }

  lemma {:induction false} ApplyEachFrame(e: Engine, rules: seq<Val>, a: Values, b: Values)
    requires PlainVarsIn(rules) && AgreeOn(VarRefsIn(rules), a, b)
    ensures ApplyEach(e, rules, a) == ApplyEach(e, rules, b)
    decreases rules, 0
  {
    if rules != [] {
      ApplyFrame(e, rules[0], a, b);
      ApplyEachFrame(e, rules[1..], a, b);
    }
  }

  /** Whether a condition is met depends on the variables the publish guard collects from it, and on no others. */
  lemma MetFrame(e: Engine, cond: Val, a: Values, b: Values)
    requires PlainVars(cond) && AgreeOn(VarRefs(cond), a, b)
    ensures Met(e, cond, a) == Met(e, cond, b)
  {
    ApplyFrame(e, cond, a, b);
  }

  // ---- and on those only where every data-reading operator is a plain `var` ----

  /** An engine whose other data-reading operators throw when `z` is there, and whose operators pass that on. */
  function Alarm(z: string): Engine {
    Engine(
      (op: string, outcomes: seq<Outcome>, operands: seq<Val>) => if Throws in outcomes then Throws else Value(Bool(true)),
      (v: Val, path: string) => Null,
      (op: string, operand: Val, data: Values) => if z in data then Throws else Value(Bool(true)))
  }

  lemma {:induction false} ValuesOrNot(outcomes: seq<Outcome>)
    ensures AllValues(outcomes).None? <==> Throws in outcomes
  {
    if outcomes != [] {
      ValuesOrNot(outcomes[1..]);
      assert outcomes == [outcomes[0]] + outcomes[1..];
    }
  }

  lemma {:induction false} QuietWithout(rule: Val, z: string)
    ensures Apply(Alarm(z), rule, map[]).Value?
    ensures !PlainVars(rule) ==> Truthy(Apply(Alarm(z), rule, map[]).v)
    decreases rule, 1
  {
    match rule
    case Arr(items) =>
      QuietEachWithout(items, z);
      ValuesOrNot(ApplyEach(Alarm(z), items, map[]));
    case Obj(props) =>
      if |props| == 1 && !ReadsData(props[0].name) {
        if props[0].value.Arr? { QuietEachWithout(props[0].value.items, z); } else { QuietWithout(props[0].value, z); }
      }
    case _ =>
  }

  lemma {:induction false} QuietEachWithout(rules: seq<Val>, z: string)
    ensures Throws !in ApplyEach(Alarm(z), rules, map[])
    decreases rules, 0
  {
    if rules != [] {
      QuietWithout(rules[0], z);
      QuietEachWithout(rules[1..], z);
    }
  }

  lemma {:induction false} ThrowsWith(rule: Val, z: string)
    requires !PlainVars(rule)
    ensures Apply(Alarm(z), rule, map[z := Null]) == Throws
    decreases rule, 1
  {
    match rule
    case Arr(items) =>
      ThrowsEachWith(items, z);
      ValuesOrNot(ApplyEach(Alarm(z), items, map[z := Null]));
    case Obj(props) =>
      if !ReadsData(props[0].name) {
        if props[0].value.Arr? { ThrowsEachWith(props[0].value.items, z); } else { ThrowsWith(props[0].value, z); }
      }
  }

  lemma {:induction false} ThrowsEachWith(rules: seq<Val>, z: string)
    requires !PlainVarsIn(rules)
    ensures Throws in ApplyEach(Alarm(z), rules, map[z := Null])
    decreases rules, 0
  {
    if !PlainVars(rules[0]) { ThrowsWith(rules[0], z); } else { ThrowsEachWith(rules[1..], z); }
  }

  /** A name longer than all of them. */
  function Longer(refs: seq<string>): (z: string)
    ensures forall r :: r in refs ==> |r| < |z|
  {
    if refs == [] then "x"
    else
      var z := Longer(refs[1..]);
      assert refs == [refs[0]] + refs[1..];
      if |refs[0]| < |z| then z else refs[0] + "x"
  }

  /**
   * What the publish guard collects is all that a condition looks at, whatever its
   * operators do, exactly when each of its data-reading operators is a plain `var`.
   */
  lemma CollectedIsAllExactly(cond: Val)
    ensures PlainVars(cond) <==>
      forall e: Engine, a: Values, b: Values :: AgreeOn(VarRefs(cond), a, b) ==> Met(e, cond, a) == Met(e, cond, b)
  {
    if PlainVars(cond) {
      forall e: Engine, a: Values, b: Values | AgreeOn(VarRefs(cond), a, b) ensures Met(e, cond, a) == Met(e, cond, b) {
        MetFrame(e, cond, a, b);
      }
    } else {
      var z := Longer(VarRefs(cond));
      var a: Values, b: Values := map[], map[z := Null];
      assert AgreeOn(VarRefs(cond), a, b);
      QuietWithout(cond, z);
      ThrowsWith(cond, z);
      assert Met(Alarm(z), cond, a) && !Met(Alarm(z), cond, b);
    }
  }
}
