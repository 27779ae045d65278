/**
 * The two sorted-key printers: `canonicalJson` of the form types (behind the
 * schema hash) and `canonicalJson` of the webhook signer (behind the HMAC).
 */
module CanonicalJson {
  import opened Wrappers
  import opened KeyedSort
  import opened JsonStrings

  /**
   * A value `JSON.parse` can return, plus the non-finite numbers. A finite
   * number is held as the token `JSON.stringify` writes for it; an object lists
   * its own properties in enumeration order.
   */
  datatype Json =
    | Null
    | Bool(b: bool)
    | Number(token: Text)
    | NonFinite
    | String(s: Text)
    | Array(items: seq<Json>)
    | Object(members: seq<Entry<Json>>)

  /** Number tokens are numbers, and no object names a property twice. */
  predicate ValidJson(v: Json) {
    match v
    case Number(token) => NumberToken(token)
    case Array(items) => forall i :: 0 <= i < |items| ==> ValidJson(items[i])
    case Object(members) =>
      DistinctKeys(members) && forall i :: 0 <= i < |members| ==> ValidJson(members[i].value)
    case _ => true
  }

  predicate AllFinite(v: Json) {
    match v
    case NonFinite => false
    case Array(items) => forall i :: 0 <= i < |items| ==> AllFinite(items[i])
    case Object(members) => forall i :: 0 <= i < |members| ==> AllFinite(members[i].value)
    case _ => true
  }

  const COMMA: CodeUnit := 0x2C
  const COLON: CodeUnit := 0x3A
  const OPEN_BRACKET: CodeUnit := 0x5B
  const CLOSE_BRACKET: CodeUnit := 0x5D
  const OPEN_BRACE: CodeUnit := 0x7B
  const CLOSE_BRACE: CodeUnit := 0x7D
  const NULL_TEXT: Text := [0x6E, 0x75, 0x6C, 0x6C]
  const TRUE_TEXT: Text := [0x74, 0x72, 0x75, 0x65]
  const FALSE_TEXT: Text := [0x66, 0x61, 0x6C, 0x73, 0x65]

  /** `parts.join(',')` */
  function Join(parts: seq<Text>): Text {
    if parts == [] then []
    else if |parts| == 1 then parts[0]
    else parts[0] + [COMMA] + Join(parts[1..])
  }

  /** `JSON.stringify(k) + ':' + …` for each key. */
  function Members(printed: seq<Entry<Text>>): (r: seq<Text>)
    ensures |r| == |printed|
    ensures forall i :: 0 <= i < |r| ==> r[i] == QuoteJson(printed[i].key) + [COLON] + printed[i].value
  {
    if printed == [] then []
    else [QuoteJson(printed[0].key) + [COLON] + printed[0].value] + Members(printed[1..])
  }

  // ---- the printer of the form types ----

  /** A non-finite number prints as `null`, as `JSON.stringify` has it. */
  function PrintSpec(v: Json): Text
    decreases v, 1
  {
    match v
    case Null => NULL_TEXT
    case Bool(b) => if b then TRUE_TEXT else FALSE_TEXT
    case Number(token) => token
    case NonFinite => NULL_TEXT
    case String(s) => QuoteJson(s)
    case Array(items) => [OPEN_BRACKET] + Join(PrintSpecItems(items)) + [CLOSE_BRACKET]
    case Object(members) =>
      [OPEN_BRACE] + Join(Members(SortByKey(PrintSpecMembers(members)))) + [CLOSE_BRACE]
  }

  function PrintSpecItems(items: seq<Json>): (r: seq<Text>)
    ensures |r| == |items|
    decreases items, 0
  {
    if items == [] then [] else [PrintSpec(items[0])] + PrintSpecItems(items[1..])
  }

  function PrintSpecMembers(members: seq<Entry<Json>>): (r: seq<Entry<Text>>)
    decreases members, 0
  {
    if members == [] then []
    else [Entry(members[0].key, PrintSpec(members[0].value))] + PrintSpecMembers(members[1..])
  }

  // ---- the printer of the webhook signer ----

  /** None stands for the error thrown on a non-finite number. */
  function PrintWebhook(v: Json): Option<Text>
    decreases v, 1
  {
    match v
    case Null => Some(NULL_TEXT)
    case NonFinite => None
    case Number(token) => Some(token)
    case String(s) => Some(QuoteJson(s))
    case Bool(b) => Some(if b then TRUE_TEXT else FALSE_TEXT)
    case Array(items) =>
      (match PrintWebhookItems(items)
       case None => None
       case Some(parts) => Some([OPEN_BRACKET] + Join(parts) + [CLOSE_BRACKET]))
    case Object(members) =>
      (match PrintWebhookMembers(members)
       case None => None
       case Some(printed) => Some([OPEN_BRACE] + Join(Members(SortByKey(printed))) + [CLOSE_BRACE]))
  }

  function PrintWebhookItems(items: seq<Json>): Option<seq<Text>>
    decreases items, 0
  {
    if items == [] then Some([])
    else match (PrintWebhook(items[0]), PrintWebhookItems(items[1..]))
      case (Some(first), Some(others)) => Some([first] + others)
      case _ => None
  }

  function PrintWebhookMembers(members: seq<Entry<Json>>): Option<seq<Entry<Text>>>
    decreases members, 0
  {
    if members == [] then Some([])
    else match (PrintWebhook(members[0].value), PrintWebhookMembers(members[1..]))
      case (Some(first), Some(others)) => Some([Entry(members[0].key, first)] + others)
      case _ => None
  }

  /** The signer refuses exactly the values with a non-finite number in them, and agrees with the spec printer on all others. */
  lemma {:induction false} PrintersAgree(v: Json)
    ensures PrintWebhook(v) == if AllFinite(v) then Some(PrintSpec(v)) else None
    decreases v, 1
  {
    match v
    case Array(items) => PrintersAgreeOnItems(items);
    case Object(members) => PrintersAgreeOnMembers(members);
    case _ =>
  }

  lemma {:induction false} PrintersAgreeOnItems(items: seq<Json>)
    ensures PrintWebhookItems(items) ==
      if forall i :: 0 <= i < |items| ==> AllFinite(items[i]) then Some(PrintSpecItems(items)) else None
    decreases items, 0
  {
    if items != [] {
      PrintersAgree(items[0]);
      PrintersAgreeOnItems(items[1..]);
      assert items == [items[0]] + items[1..];
    }
  }

  lemma {:induction false} PrintersAgreeOnMembers(members: seq<Entry<Json>>)
    ensures PrintWebhookMembers(members) ==
      if forall i :: 0 <= i < |members| ==> AllFinite(members[i].value) then Some(PrintSpecMembers(members)) else None
    decreases members, 0
  {
    if members != [] {
      PrintersAgree(members[0].value);
      PrintersAgreeOnMembers(members[1..]);
      assert members == [members[0]] + members[1..];
    }
  }

  // ---- equality up to key order ----

  /** Equal up to the order of object keys at every depth. */
  predicate SameUpToKeyOrder(a: Json, b: Json)
    decreases a
  {
    match (a, b)
    case (Array(xs), Array(ys)) =>
      |xs| == |ys| && forall i :: 0 <= i < |xs| ==> SameUpToKeyOrder(xs[i], ys[i])
    case (Object(ms), Object(ns)) =>
      && (forall m :: m in ms ==> SameInSome(m, ns))
      && (forall n :: n in ns ==> SameForSome(ms, n))
    case _ => a == b
  }

  predicate SameInSome(m: Entry<Json>, ns: seq<Entry<Json>>)
    decreases m, 1
  {
    exists n :: n in ns && SameMember(m, n)
  }

  predicate SameForSome(ms: seq<Entry<Json>>, n: Entry<Json>)
    decreases ms, 0
  {
    exists m :: m in ms && SameMember(m, n)
  }

  predicate SameMember(m: Entry<Json>, n: Entry<Json>)
    decreases m, 0
  {
    m.key == n.key && SameUpToKeyOrder(m.value, n.value)
  }

  /** The value with the keys of every object in sorted order. */
  function Sorted(v: Json): Json
    decreases v, 1
  {
    match v
    case Array(items) => Array(SortedItems(items))
    case Object(members) => Object(SortByKey(SortedMembers(members)))
    case _ => v
  }

  function SortedItems(items: seq<Json>): (r: seq<Json>)
    ensures |r| == |items|
    ensures forall i :: 0 <= i < |r| ==> r[i] == Sorted(items[i])
    decreases items, 0
  {
    if items == [] then [] else [Sorted(items[0])] + SortedItems(items[1..])
  }

  function SortedMembers(members: seq<Entry<Json>>): (r: seq<Entry<Json>>)
    ensures |r| == |members|
    ensures forall i :: 0 <= i < |r| ==> r[i] == Entry(members[i].key, Sorted(members[i].value))
    decreases members, 0
  {
    if members == [] then []
    else [Entry(members[0].key, Sorted(members[0].value))] + SortedMembers(members[1..])
  }

  /** Sorting every object is a complete invariant of equality up to key order. */
  lemma {:induction false} SortedDecidesSameness(a: Json, b: Json)
    requires ValidJson(a) && ValidJson(b)
    ensures SameUpToKeyOrder(a, b) <==> Sorted(a) == Sorted(b)
    decreases a, 1
  {
    match (a, b)
    case (Array(xs), Array(ys)) => SortedDecidesItems(a, b);
    case (Object(ms), Object(ns)) => SortedDecidesMembers(a, b);
    case _ =>
  }

  lemma SortedDecidesItems(a: Json, b: Json)
    requires a.Array? && b.Array? && ValidJson(a) && ValidJson(b)
    ensures SameUpToKeyOrder(a, b) <==> SortedItems(a.items) == SortedItems(b.items)
    decreases a, 0
  {
    var xs, ys := a.items, b.items;
    if |xs| == |ys| {
      forall i | 0 <= i < |xs| ensures SameUpToKeyOrder(xs[i], ys[i]) <==> SortedItems(xs)[i] == SortedItems(ys)[i] {
        SortedDecidesSameness(xs[i], ys[i]);
      }
    }
  }

  lemma SortedDecidesMembers(a: Json, b: Json)
    requires a.Object? && b.Object? && ValidJson(a) && ValidJson(b)
    ensures SameUpToKeyOrder(a, b) <==> SortByKey(SortedMembers(a.members)) == SortByKey(SortedMembers(b.members))
    decreases a, 0
  {
    var ms, ns := a.members, b.members;
    forall m, n | m in ms && n in ns ensures SameMember(m, n) <==> SortedMember(m) == SortedMember(n) {
      SortedDecidesSameness(m.value, n.value);
    }
    PartneredIsIncluded(ms, ns, SameMember, SortedMember, SortedMembers(ms), SortedMembers(ns));
    PartneredIsIncluded(ns, ms, (n, m) => SameMember(m, n), SortedMember, SortedMembers(ns), SortedMembers(ms));
    SameElementsDecideSorted(SortedMembers(ms), SortedMembers(ns));
  }

  /** Each of `ms` has a partner in `ns` exactly when the normal forms `xs` of the first are among those of the second, `ys`. */
  lemma PartneredIsIncluded<A(!new)>(
      ms: seq<A>, ns: seq<A>, same: (A, A) -> bool, norm: A -> A, xs: seq<A>, ys: seq<A>)
    requires forall m, n :: m in ms && n in ns ==> (same(m, n) <==> norm(m) == norm(n))
    requires |xs| == |ms| && forall i :: 0 <= i < |ms| ==> xs[i] == norm(ms[i])
    requires |ys| == |ns| && forall i :: 0 <= i < |ns| ==> ys[i] == norm(ns[i])
    ensures (forall m :: m in ms ==> exists n :: n in ns && same(m, n)) <==> forall e :: e in xs ==> e in ys
  {
    if forall m :: m in ms ==> exists n :: n in ns && same(m, n) {
      forall e | e in xs ensures e in ys {
        var i :| 0 <= i < |xs| && xs[i] == e;
        assert ms[i] in ms;
        var n :| n in ns && same(ms[i], n);
        var j :| 0 <= j < |ns| && ns[j] == n;
        assert ys[j] == e;
      }
    }
    if forall e :: e in xs ==> e in ys {
      forall m | m in ms ensures exists n :: n in ns && same(m, n) {
        var i :| 0 <= i < |ms| && ms[i] == m;
        assert xs[i] in xs;
        var j :| 0 <= j < |ys| && ys[j] == xs[i];
        assert ns[j] in ns && same(m, ns[j]);
      }
    }
  }

  function SortedMember(m: Entry<Json>): Entry<Json> {
    Entry(m.key, Sorted(m.value))
  }

  lemma SameElementsDecideSorted(xs: seq<Entry<Json>>, ys: seq<Entry<Json>>)
    requires DistinctKeys(xs) && DistinctKeys(ys)
    ensures SortByKey(xs) == SortByKey(ys) <==> forall e :: e in xs <==> e in ys
  {
    SortIsSortedPermutation(xs);
    SortIsSortedPermutation(ys);
    SortKeepsElements(xs);
    SortKeepsElements(ys);
    SortKeepsDistinct(xs);
    SortKeepsDistinct(ys);
    if forall e :: e in xs <==> e in ys {
      SortedListingUnique(SortByKey(xs), SortByKey(ys));
    }
  }
}
