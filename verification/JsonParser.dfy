/**
 * A reader for JSON text without insignificant whitespace, and what it shows
 * about the canonical printers: their output determines the value up to the
 * order of object keys, and nothing else.
 */
module JsonParser {
  import opened Wrappers
  import opened KeyedSort
  import opened JsonStrings
  import opened CanonicalJson

  // ---- reading ----

  predicate StartsWith(t: Text, prefix: Text) {
    |prefix| <= |t| && t[..|prefix|] == prefix
  }

  /** One value and the text after it. */
  function ParseValue(t: Text): (r: Option<(Json, Text)>)
    ensures r.Some? ==> |r.value.1| < |t|
    decreases |t|, 0
  {
    if t == [] then None
    else if t[0] == QUOTE then
      (match ReadBody(t[1..]) case None => None case Some(body) => Some((String(body.0), body.1)))
    else if t[0] == OPEN_BRACKET then
      (if |t| > 1 && t[1] == CLOSE_BRACKET then Some((Array([]), t[2..]))
       else match ParseItems(t[1..]) case None => None case Some(r) => Some((Array(r.0), r.1)))
    else if t[0] == OPEN_BRACE then
      (if |t| > 1 && t[1] == CLOSE_BRACE then Some((Object([]), t[2..]))
       else match ParseMembers(t[1..]) case None => None case Some(r) => Some((Object(r.0), r.1)))
    else if StartsWith(t, NULL_TEXT) then Some((Null, t[4..]))
    else if StartsWith(t, TRUE_TEXT) then Some((Bool(true), t[4..]))
    else if StartsWith(t, FALSE_TEXT) then Some((Bool(false), t[5..]))
    else
      var n := NumberRun(t);
      if n > 0 && NumberToken(t[..n]) then Some((Number(t[..n]), t[n..])) else None
  }

  /** One or more values with commas between them, up to and with the closing bracket. */
  function ParseItems(t: Text): (r: Option<(seq<Json>, Text)>)
    ensures r.Some? ==> |r.value.1| < |t|
    decreases |t|, 1
  {
    match ParseValue(t)
    case None => None
    case Some(first) =>
      if first.1 == [] then None
      else if first.1[0] == CLOSE_BRACKET then Some(([first.0], first.1[1..]))
      else if first.1[0] != COMMA then None
      else match ParseItems(first.1[1..])
        case None => None
        case Some(others) => Some(([first.0] + others.0, others.1))
  }

  function ParseMember(t: Text): (r: Option<(Entry<Json>, Text)>)
    ensures r.Some? ==> |r.value.1| < |t|
    decreases |t|, 1
  {
    if t == [] || t[0] != QUOTE then None
    else match ReadBody(t[1..])
      case None => None
      case Some(key) =>
        if key.1 == [] || key.1[0] != COLON then None
        else match ParseValue(key.1[1..])
          case None => None
          case Some(value) => Some((Entry(key.0, value.0), value.1))
  }

  /** One or more members with commas between them, up to and with the closing brace. */
  function ParseMembers(t: Text): (r: Option<(seq<Entry<Json>>, Text)>)
    ensures r.Some? ==> |r.value.1| < |t|
    decreases |t|, 2
  {
    match ParseMember(t)
    case None => None
    case Some(first) =>
      if first.1 == [] then None
      else if first.1[0] == CLOSE_BRACE then Some(([first.0], first.1[1..]))
      else if first.1[0] != COMMA then None
      else match ParseMembers(first.1[1..])
        case None => None
        case Some(others) => Some(([first.0] + others.0, others.1))
  }

  /** A whole text is one value and nothing else. */
  function Parse(t: Text): Option<Json> {
    match ParseValue(t)
    case None => None
    case Some(r) => if r.1 == [] then Some(r.0) else None
  }

  // ---- JSON.stringify, and why a canonical printer is it after sorting ----

  /** `JSON.stringify`: keys in the order the object lists them. */
  function Stringify(v: Json): Text
    decreases v, 1
  {
    match v
    case Null => NULL_TEXT
    case Bool(b) => if b then TRUE_TEXT else FALSE_TEXT
    case Number(token) => token
    case NonFinite => NULL_TEXT
    case String(s) => QuoteJson(s)
    case Array(items) => [OPEN_BRACKET] + Join(StringifyItems(items)) + [CLOSE_BRACKET]
    case Object(members) => [OPEN_BRACE] + Join(StringifyMembers(members)) + [CLOSE_BRACE]
  }

  function StringifyItems(items: seq<Json>): (r: seq<Text>)
    ensures |r| == |items|
    ensures forall i :: 0 <= i < |r| ==> r[i] == Stringify(items[i])
    decreases items, 0
  {
    if items == [] then [] else [Stringify(items[0])] + StringifyItems(items[1..])
  }

  function StringifyMembers(members: seq<Entry<Json>>): (r: seq<Text>)
    ensures |r| == |members|
    ensures forall i :: 0 <= i < |r| ==> r[i] == QuoteJson(members[i].key) + [COLON] + Stringify(members[i].value)
    decreases members, 0
  {
    if members == [] then []
    else [QuoteJson(members[0].key) + [COLON] + Stringify(members[0].value)] + StringifyMembers(members[1..])
  }

  lemma {:induction false} PrintSpecItemsPointwise(items: seq<Json>)
    ensures forall i :: 0 <= i < |items| ==> PrintSpecItems(items)[i] == PrintSpec(items[i])
  {
    if items != [] { PrintSpecItemsPointwise(items[1..]); }
  }

  lemma {:induction false} PrintSpecMembersIsMap(members: seq<Entry<Json>>)
    ensures PrintSpecMembers(members) == MapEntries(PrintSpec, members)
  {
    if members != [] { PrintSpecMembersIsMap(members[1..]); }
  }

  lemma {:induction false} SortedMembersIsMap(members: seq<Entry<Json>>)
    ensures SortedMembers(members) == MapEntries(Sorted, members)
  {
    if members != [] { SortedMembersIsMap(members[1..]); }
  }

  /** Printing canonically is sorting every object and then printing in listing order. */
  lemma {:induction false} CanonicalIsStringifySorted(v: Json)
    ensures PrintSpec(v) == Stringify(Sorted(v))
    decreases v
  {
    match v
    case Array(items) =>
      PrintSpecItemsPointwise(items);
      forall i | 0 <= i < |items| ensures PrintSpec(items[i]) == Stringify(Sorted(items[i])) {
        CanonicalIsStringifySorted(items[i]);
      }
      assert PrintSpecItems(items) == StringifyItems(SortedItems(items));
    case Object(members) =>
      forall m | m in members ensures PrintSpec(m.value) == Stringify(Sorted(m.value)) {
        CanonicalIsStringifySorted(m.value);
      }
      CanonicalMembers(members);
    case _ =>
  }

  lemma CanonicalMembers(members: seq<Entry<Json>>)
    requires forall m :: m in members ==> PrintSpec(m.value) == Stringify(Sorted(m.value))
    ensures Members(SortByKey(PrintSpecMembers(members))) == StringifyMembers(SortByKey(SortedMembers(members)))
  {
    PrintSpecMembersIsMap(members);
    SortedMembersIsMap(members);
    SortCommutesWithMap(PrintSpec, members);
    SortCommutesWithMap(Sorted, members);
    var s := SortByKey(members);
    forall i | 0 <= i < |s| ensures PrintSpec(s[i].value) == Stringify(Sorted(s[i].value)) {
      SortIsSortedPermutation(members);
      assert s[i] in multiset(s);
    }
    assert Members(MapEntries(PrintSpec, s)) == StringifyMembers(MapEntries(Sorted, s));
  }

  // ---- parsing inverts stringifying ----

  predicate ValidTokens(v: Json) {
    match v
    case Number(token) => NumberToken(token)
    case NonFinite => false
    case Array(items) => forall i :: 0 <= i < |items| ==> ValidTokens(items[i])
    case Object(members) => forall i :: 0 <= i < |members| ==> ValidTokens(members[i].value)
    case _ => true
  }

  lemma {:induction false} ParseStringified(v: Json, rest: Text)
    requires ValidTokens(v) && EndsNumber(rest)
    ensures ParseValue(Stringify(v) + rest) == Some((v, rest))
    decreases v, 1, 0
  {
    match v
    case Null => ParseLiteral(v, rest);
    case Bool(b) => ParseLiteral(v, rest);
    case Number(token) => ParseNumber(token, rest);
    case String(s) => ParseQuoted(s, rest);
    case Array(items) =>
      if items == [] {
        ParseEmpty(rest);
      } else {
        ParseStringifiedItems(v, items, rest);
        JoinStarts(items);
        ParseArray(items, Join(StringifyItems(items)), rest);
      }
    case Object(members) =>
      if members == [] {
        ParseEmpty(rest);
      } else {
        ParseStringifiedMembers(v, members, rest);
        ParseObject(members, Join(StringifyMembers(members)), rest);
      }
  }

  lemma ParseLiteral(v: Json, rest: Text)
    requires v.Null? || v.Bool?
    ensures ParseValue(Stringify(v) + rest) == Some((v, rest))
  {
    var t := Stringify(v) + rest;
    assert t[|Stringify(v)|..] == rest && t[..|Stringify(v)|] == Stringify(v);
  }

  lemma ParseEmpty(rest: Text)
    ensures ParseValue(Stringify(Array([])) + rest) == Some((Array([]), rest))
    ensures ParseValue(Stringify(Object([])) + rest) == Some((Object([]), rest))
  {
    assert Stringify(Array([])) == [OPEN_BRACKET, CLOSE_BRACKET];
    assert Stringify(Object([])) == [OPEN_BRACE, CLOSE_BRACE];
    assert ([OPEN_BRACKET, CLOSE_BRACKET] + rest)[2..] == rest;
    assert ([OPEN_BRACE, CLOSE_BRACE] + rest)[2..] == rest;
  }

  lemma ParseArray(items: seq<Json>, written: Text, rest: Text)
    requires written != [] && written[0] != CLOSE_BRACKET
    requires ParseItems(written + ([CLOSE_BRACKET] + rest)) == Some((items, rest))
    ensures ParseValue([OPEN_BRACKET] + written + [CLOSE_BRACKET] + rest) == Some((Array(items), rest))
  {
    hide *;
    var t := [OPEN_BRACKET] + written + [CLOSE_BRACKET] + rest;
    assert t[1..] == written + ([CLOSE_BRACKET] + rest);
    assert t[1] == written[0];
    ArrayBranch(t);
  }

  /** After an opening bracket that no closing one follows, values are read. */
  lemma ArrayBranch(t: Text)
    requires |t| > 1 && t[0] == OPEN_BRACKET && t[1] != CLOSE_BRACKET && ParseItems(t[1..]).Some?
    ensures ParseValue(t) == Some((Array(ParseItems(t[1..]).value.0), ParseItems(t[1..]).value.1))
  {
    hide ParseItems, ParseMembers, ReadBody, NumberToken, NumberRun, StartsWith;
  }

  lemma ParseObject(members: seq<Entry<Json>>, written: Text, rest: Text)
    requires written != [] && written[0] == QUOTE
    requires ParseMembers(written + ([CLOSE_BRACE] + rest)) == Some((members, rest))
    ensures ParseValue([OPEN_BRACE] + written + [CLOSE_BRACE] + rest) == Some((Object(members), rest))
  {
    var t := [OPEN_BRACE] + written + [CLOSE_BRACE] + rest;
    assert t[1..] == written + ([CLOSE_BRACE] + rest);
    assert t[1] == written[0];
  }

  /** No value, and so no list of values, starts with a closing bracket. */
  lemma JoinStarts(items: seq<Json>)
    requires items != [] && ValidTokens(items[0])
    ensures Join(StringifyItems(items)) != [] && Join(StringifyItems(items))[0] != CLOSE_BRACKET
  {
    var first := Stringify(items[0]);
    if items[0].Number? { NumberTokenUnits(items[0].token); }
    assert first != [] && first[0] != CLOSE_BRACKET;
    assert StringifyItems(items)[0] == first;
  }

  lemma ParseNumber(token: Text, rest: Text)
    requires NumberToken(token) && EndsNumber(rest)
    ensures ParseValue(token + rest) == Some((Number(token), rest))
  {
    hide ParseItems, ParseMembers, ReadBody, NumberToken, NumberRun;
    var t := token + rest;
    NumberTokenUnits(token);
    NumberRunStops(token, rest);
    assert t[0] == token[0] && t[..|token|] == token && t[|token|..] == rest;
  }

  lemma ParseQuoted(s: Text, rest: Text)
    ensures ParseValue(QuoteJson(s) + rest) == Some((String(s), rest))
  {
    var t := QuoteJson(s) + rest;
    StringRoundTrip(s, rest);
    hide EscapeAll, ReadBody, ParseItems, ParseMembers, NumberToken, NumberRun;
    assert t[1..] == EscapeAll(s) + ([QUOTE] + rest);
  }

  lemma ParseItemsStep(first: Json, written: Text, others: seq<Json>, tail: Text, rest: Text)
    requires ParseValue(written + ([COMMA] + tail)) == Some((first, [COMMA] + tail))
    requires ParseItems(tail) == Some((others, rest))
    ensures ParseItems(written + ([COMMA] + tail)) == Some(([first] + others, rest))
  {
    assert ([COMMA] + tail)[1..] == tail;
  }

  lemma ParseItemsLast(first: Json, written: Text, rest: Text)
    requires ParseValue(written + ([CLOSE_BRACKET] + rest)) == Some((first, [CLOSE_BRACKET] + rest))
    ensures ParseItems(written + ([CLOSE_BRACKET] + rest)) == Some(([first], rest))
  {
    assert ([CLOSE_BRACKET] + rest)[1..] == rest;
  }

  lemma JoinFirst(parts: seq<Text>, close: Text)
    requires |parts| > 1
    ensures Join(parts) + close == parts[0] + ([COMMA] + (Join(parts[1..]) + close))
  {
    Regroup(parts[0], [COMMA], Join(parts[1..]), close);
  }

  lemma Regroup(a: Text, b: Text, c: Text, d: Text)
    ensures ((a + b) + c) + d == a + (b + (c + d))
  {
  }

  lemma StringifiedItemsFirst(items: seq<Json>, close: Text)
    requires items != []
    ensures
      var written := Join(StringifyItems(items)) + close;
      if |items| == 1 then written == Stringify(items[0]) + close
      else written == Stringify(items[0]) + ([COMMA] + (Join(StringifyItems(items[1..])) + close))
  {
    hide Stringify;
    var parts := StringifyItems(items);
    if |items| > 1 {
      JoinFirst(parts, close);
      assert parts[1..] == StringifyItems(items[1..]);
    }
  }

  lemma {:induction false} ParseStringifiedItems(parent: Json, items: seq<Json>, rest: Text)
    requires items != [] && forall i :: 0 <= i < |items| ==> ValidTokens(items[i]) && items[i] < parent
    ensures ParseItems(Join(StringifyItems(items)) + ([CLOSE_BRACKET] + rest)) == Some((items, rest))
    decreases parent, 0, |items|
  {
    hide ParseValue, ParseItems, Stringify, StringifyItems, Join;
    var first, close := Stringify(items[0]), [CLOSE_BRACKET] + rest;
    StringifiedItemsFirst(items, close);
    if |items| == 1 {
      ParseStringified(items[0], close);
      ParseItemsLast(items[0], first, rest);
      assert items == [items[0]];
    } else {
      var tail := Join(StringifyItems(items[1..])) + close;
      ParseStringifiedItems(parent, items[1..], rest);
      ParseStringified(items[0], [COMMA] + tail);
      ParseItemsStep(items[0], first, items[1..], tail, rest);
      assert [items[0]] + items[1..] == items;
    }
  }

  lemma ParseMemberParts(key: Text, value: Json, written: Text, rest: Text)
    requires ReadBody(EscapeAll(key) + ([QUOTE] + ([COLON] + written))) == Some((key, [COLON] + written))
    requires ParseValue(written) == Some((value, rest))
    ensures ParseMember([QUOTE] + (EscapeAll(key) + ([QUOTE] + ([COLON] + written)))) == Some((Entry(key, value), rest))
  {
    assert ([COLON] + written)[1..] == written;
    var body := EscapeAll(key) + ([QUOTE] + ([COLON] + written));
    assert ([QUOTE] + body)[1..] == body;
  }

  lemma ParseOneMember(m: Entry<Json>, rest: Text)
    requires ParseValue(Stringify(m.value) + rest) == Some((m.value, rest))
    ensures ParseMember((QuoteJson(m.key) + [COLON] + Stringify(m.value)) + rest) == Some((m, rest))
  {
    var written := Stringify(m.value) + rest;
    StringRoundTrip(m.key, [COLON] + written);
    ParseMemberParts(m.key, m.value, written, rest);
    MemberShape(m.key, Stringify(m.value), rest);
  }

  lemma MemberShape(key: Text, value: Text, rest: Text)
    ensures (QuoteJson(key) + [COLON] + value) + rest
         == [QUOTE] + (EscapeAll(key) + ([QUOTE] + ([COLON] + (value + rest))))
  {
  }

  lemma ParseMembersStep(first: Entry<Json>, written: Text, others: seq<Entry<Json>>, tail: Text, rest: Text)
    requires ParseMember(written + ([COMMA] + tail)) == Some((first, [COMMA] + tail))
    requires ParseMembers(tail) == Some((others, rest))
    ensures ParseMembers(written + ([COMMA] + tail)) == Some(([first] + others, rest))
  {
    assert ([COMMA] + tail)[1..] == tail;
  }

  lemma ParseMembersLast(first: Entry<Json>, written: Text, rest: Text)
    requires ParseMember(written + ([CLOSE_BRACE] + rest)) == Some((first, [CLOSE_BRACE] + rest))
    ensures ParseMembers(written + ([CLOSE_BRACE] + rest)) == Some(([first], rest))
  {
    assert ([CLOSE_BRACE] + rest)[1..] == rest;
  }

  function MemberText(m: Entry<Json>): Text {
    QuoteJson(m.key) + [COLON] + Stringify(m.value)
  }

  lemma StringifiedMembersFirst(members: seq<Entry<Json>>, close: Text)
    requires members != []
    ensures
      var written := Join(StringifyMembers(members)) + close;
      if |members| == 1 then written == MemberText(members[0]) + close
      else written == MemberText(members[0]) + ([COMMA] + (Join(StringifyMembers(members[1..])) + close))
  {
    hide Stringify, QuoteJson;
    var parts := StringifyMembers(members);
    assert parts[0] == MemberText(members[0]);
    if |members| > 1 {
      JoinFirst(parts, close);
      assert parts[1..] == StringifyMembers(members[1..]);
    }
  }

  lemma MembersStartQuoted(members: seq<Entry<Json>>)
    requires members != []
    ensures Join(StringifyMembers(members)) != [] && Join(StringifyMembers(members))[0] == QUOTE
  {
    var parts := StringifyMembers(members);
    assert parts[0][0] == QUOTE;
  }

  lemma {:induction false} ParseStringifiedMembers(parent: Json, members: seq<Entry<Json>>, rest: Text)
    requires members != []
    requires forall i :: 0 <= i < |members| ==> ValidTokens(members[i].value) && members[i].value < parent
    ensures Join(StringifyMembers(members)) != [] && Join(StringifyMembers(members))[0] == QUOTE
    ensures ParseMembers(Join(StringifyMembers(members)) + ([CLOSE_BRACE] + rest)) == Some((members, rest))
    decreases parent, 0, |members|
  {
    MembersStartQuoted(members);
    hide ParseValue, ParseMembers, Stringify, StringifyMembers, Join, ValidTokens;
    var m, close := members[0], [CLOSE_BRACE] + rest;
    if |members| == 1 {
      ParseStringified(m.value, close);
      LastMember(m, rest);
      assert members == [m];
    } else {
      var others := members[1..];
      ParseStringifiedMembers(parent, others, rest);
      ParseStringified(m.value, [COMMA] + (Join(StringifyMembers(others)) + close));
      NextMember(m, others, rest);
      assert members == [m] + others;
    }
  }

  lemma LastMember(m: Entry<Json>, rest: Text)
    requires ParseValue(Stringify(m.value) + ([CLOSE_BRACE] + rest)) == Some((m.value, [CLOSE_BRACE] + rest))
    ensures ParseMembers(Join(StringifyMembers([m])) + ([CLOSE_BRACE] + rest)) == Some(([m], rest))
  {
    hide ParseValue, ParseMember, ParseMembers, Stringify, StringifyMembers, Join, QuoteJson;
    StringifiedMembersFirst([m], [CLOSE_BRACE] + rest);
    ParseOneMember(m, [CLOSE_BRACE] + rest);
    ParseMembersLast(m, MemberText(m), rest);
  }

  lemma NextMember(m: Entry<Json>, others: seq<Entry<Json>>, rest: Text)
    requires others != []
    requires
      var tail := Join(StringifyMembers(others)) + ([CLOSE_BRACE] + rest);
      && ParseMembers(tail) == Some((others, rest))
      && ParseValue(Stringify(m.value) + ([COMMA] + tail)) == Some((m.value, [COMMA] + tail))
    ensures ParseMembers(Join(StringifyMembers([m] + others)) + ([CLOSE_BRACE] + rest)) == Some(([m] + others, rest))
  {
    hide ParseValue, ParseMember, ParseMembers, Stringify, StringifyMembers, Join, QuoteJson;
    var close := [CLOSE_BRACE] + rest;
    var tail := Join(StringifyMembers(others)) + close;
    var all := [m] + others;
    assert all[0] == m && all[1..] == others;
    StringifiedMembersFirst(all, close);
    ParseOneMember(m, [COMMA] + tail);
    ParseMembersStep(m, MemberText(m), others, tail, rest);
  }

  // ---- the results ----

  lemma {:induction false} SortedHasValidTokens(v: Json)
    requires ValidJson(v) && AllFinite(v)
    ensures ValidTokens(Sorted(v))
    decreases v
  {
    match v
    case Array(items) =>
      forall i | 0 <= i < |items| ensures ValidTokens(Sorted(items[i])) { SortedHasValidTokens(items[i]); }
    case Object(members) =>
      var sorted := SortByKey(SortedMembers(members));
      forall i | 0 <= i < |members| ensures ValidTokens(SortedMembers(members)[i].value) {
        SortedHasValidTokens(members[i].value);
      }
      forall i | 0 <= i < |sorted| ensures ValidTokens(sorted[i].value) {
        SortIsSortedPermutation(SortedMembers(members));
        assert sorted[i] in multiset(sorted);
      }
    case _ =>
  }

  /** Parsing a canonical text gives the value back, with the keys of every object in order. */
  lemma ParseInvertsCanonical(v: Json)
    requires ValidJson(v) && AllFinite(v)
    ensures Parse(PrintSpec(v)) == Some(Sorted(v))
    ensures SameUpToKeyOrder(v, Sorted(v))
  {
    SortedHasValidTokens(v);
    CanonicalIsStringifySorted(v);
    ParseStringified(Sorted(v), []);
    assert Stringify(Sorted(v)) + [] == Stringify(Sorted(v));
    SortedIsValid(v);
    SortedIsIdempotent(v);
    SortedDecidesSameness(v, Sorted(v));
  }

  lemma {:induction false} SortedIsValid(v: Json)
    requires ValidJson(v)
    ensures ValidJson(Sorted(v))
    decreases v
  {
    match v
    case Array(items) =>
      forall i | 0 <= i < |items| ensures ValidJson(Sorted(items[i])) { SortedIsValid(items[i]); }
    case Object(members) =>
      var plain := SortedMembers(members);
      var sorted := SortByKey(plain);
      forall i | 0 <= i < |members| ensures ValidJson(plain[i].value) { SortedIsValid(members[i].value); }
      SortKeepsDistinct(plain);
      forall i | 0 <= i < |sorted| ensures ValidJson(sorted[i].value) {
        SortIsSortedPermutation(plain);
        assert sorted[i] in multiset(sorted);
      }
    case _ =>
  }

  lemma KeysStay(members: seq<Entry<Json>>)
    requires DistinctKeys(members)
    ensures DistinctKeys(SortedMembers(members))
  {
  }

  lemma FixedMembersStay(ms: seq<Entry<Json>>)
    requires forall i :: 0 <= i < |ms| ==> Sorted(ms[i].value) == ms[i].value
    ensures SortedMembers(ms) == ms
  {
    hide Sorted;
    assert forall i :: 0 <= i < |ms| ==> SortedMembers(ms)[i] == ms[i];
  }

  lemma SortKeepsFixed(plain: seq<Entry<Json>>)
    requires forall i :: 0 <= i < |plain| ==> Sorted(plain[i].value) == plain[i].value
    ensures forall i :: 0 <= i < |SortByKey(plain)| ==> Sorted(SortByKey(plain)[i].value) == SortByKey(plain)[i].value
  {
    hide Sorted, SortByKey;
    SortIsSortedPermutation(plain);
    var sorted := SortByKey(plain);
    forall i | 0 <= i < |sorted| ensures Sorted(sorted[i].value) == sorted[i].value {
      assert sorted[i] in multiset(sorted) && sorted[i] in plain;
      var j :| 0 <= j < |plain| && plain[j] == sorted[i];
    }
  }

  lemma SortedMembersStay(members: seq<Entry<Json>>)
    requires DistinctKeys(members) && forall i :: 0 <= i < |members| ==> Sorted(Sorted(members[i].value)) == Sorted(members[i].value)
    ensures
      var sorted := SortByKey(SortedMembers(members));
      SortedMembers(sorted) == sorted && SortByKey(sorted) == sorted
  {
    KeysStay(members);
    hide Sorted, SortByKey, DistinctKeys;
    var plain := SortedMembers(members);
    SortAgain(plain);
    SortKeepsFixed(plain);
    FixedMembersStay(SortByKey(plain));
  }

  lemma {:induction false} SortedIsIdempotent(v: Json)
    requires ValidJson(v)
    ensures Sorted(Sorted(v)) == Sorted(v)
    decreases v
  {
    match v
    case Array(items) =>
      forall i | 0 <= i < |items| ensures Sorted(Sorted(items[i])) == Sorted(items[i]) { SortedIsIdempotent(items[i]); }
      assert SortedItems(SortedItems(items)) == SortedItems(items);
    case Object(members) =>
      forall i | 0 <= i < |members| ensures Sorted(Sorted(members[i].value)) == Sorted(members[i].value) { SortedIsIdempotent(members[i].value); }
      SortedMembersStay(members);
    case _ =>
  }

  /**
   * Two values have the same canonical text, and so the same schema hash input
   * and the same signed body, exactly when they differ only in key order.
   */
  lemma CanonicalTextDecidesValue(a: Json, b: Json)
    requires ValidJson(a) && ValidJson(b) && AllFinite(a) && AllFinite(b)
    ensures PrintSpec(a) == PrintSpec(b) <==> SameUpToKeyOrder(a, b)
    ensures PrintWebhook(a) == PrintWebhook(b) <==> SameUpToKeyOrder(a, b)
  {
    ParseInvertsCanonical(a);
    ParseInvertsCanonical(b);
    SortedDecidesSameness(a, b);
    CanonicalIsStringifySorted(a);
    CanonicalIsStringifySorted(b);
    PrintersAgree(a);
    PrintersAgree(b);
  }

  // ---- what the canonical text looks like ----

  /** The keys of every object are in the order of their code units. */
  ghost predicate KeysInOrder(v: Json)
    decreases v
  {
    match v
    case Array(items) => forall i :: 0 <= i < |items| ==> KeysInOrder(items[i])
    case Object(members) =>
      && (forall i :: 0 <= i < |members| - 1 ==> members[i].key != members[i + 1].key && NotAfter(members[i].key, members[i + 1].key))
      && (forall i :: 0 <= i < |members| ==> KeysInOrder(members[i].value))
    case _ => true
  }

  lemma {:induction false} SortedIsInOrder(v: Json)
    requires ValidJson(v)
    ensures KeysInOrder(Sorted(v))
    decreases v
  {
    match v
    case Array(items) =>
      forall i | 0 <= i < |items| ensures KeysInOrder(Sorted(items[i])) { SortedIsInOrder(items[i]); }
    case Object(members) =>
      forall i | 0 <= i < |members| ensures KeysInOrder(Sorted(members[i].value)) { SortedIsInOrder(members[i].value); }
      MembersInOrder(members);
    case _ =>
  }

  lemma MembersInOrder(members: seq<Entry<Json>>)
    requires DistinctKeys(members) && forall i :: 0 <= i < |members| ==> KeysInOrder(Sorted(members[i].value))
    ensures KeysInOrder(Object(SortByKey(SortedMembers(members))))
  {
    hide Sorted, SortByKey, KeysInOrder;
    SortPutsInOrder(SortedMembers(members));
  }

  lemma SortPutsInOrder(plain: seq<Entry<Json>>)
    requires DistinctKeys(plain) && forall i :: 0 <= i < |plain| ==> KeysInOrder(plain[i].value)
    ensures KeysInOrder(Object(SortByKey(plain)))
  {
    hide SortByKey, TextLeq, NotAfter, KeysInOrder;
    var sorted := SortByKey(plain);
    SortIsSortedPermutation(plain);
    SortKeepsElements(plain);
    SortKeepsDistinct(plain);
    forall i | 0 <= i < |sorted| - 1 ensures sorted[i].key != sorted[i + 1].key && NotAfter(sorted[i].key, sorted[i + 1].key) {
      TextLeqIs(sorted[i].key, sorted[i + 1].key);
    }
    forall i | 0 <= i < |sorted| ensures KeysInOrder(sorted[i].value) {
      assert sorted[i] in plain;
      var j :| 0 <= j < |plain| && plain[j] == sorted[i];
    }
    ObjectInOrder(sorted);
  }

  lemma ObjectInOrder(members: seq<Entry<Json>>)
    requires forall i :: 0 <= i < |members| - 1 ==> members[i].key != members[i + 1].key && NotAfter(members[i].key, members[i + 1].key)
    requires forall i :: 0 <= i < |members| ==> KeysInOrder(members[i].value)
    ensures KeysInOrder(Object(members))
  {
  }

  /**
   * What either printer writes is the text of a value with the same content, in
   * which of two neighbouring keys of an object the first is a start of the second
   * or has the smaller code unit where they first differ.
   */
  lemma CanonicalTextIsInOrder(v: Json)
    requires ValidJson(v) && AllFinite(v)
    ensures PrintWebhook(v) == Some(PrintSpec(v))
    ensures Parse(PrintSpec(v)).Some? && KeysInOrder(Parse(PrintSpec(v)).value) && SameUpToKeyOrder(v, Parse(PrintSpec(v)).value)
    ensures PrintSpec(v) == Stringify(Parse(PrintSpec(v)).value)
  {
    PrintersAgree(v);
    ParseInvertsCanonical(v);
    CanonicalIsStringifySorted(v);
    SortedIsInOrder(v);
  }

  /** `{"b":1,"a":[null,true,"x"]}` prints as `{"a":[null,true,"x"],"b":1}`. */
  lemma ATextInOrder()
    ensures PrintSpec(Object([Entry([0x62], Number([0x31])), Entry([0x61], Array([Null, Bool(true), String([0x78])]))])) ==
      [0x7B, 0x22, 0x61, 0x22, 0x3A, 0x5B, 0x6E, 0x75, 0x6C, 0x6C, 0x2C, 0x74, 0x72, 0x75, 0x65, 0x2C, 0x22, 0x78, 0x22, 0x5D, 0x2C,
       0x22, 0x62, 0x22, 0x3A, 0x31, 0x7D]
  {
    var items := [Null, Bool(true), String([0x78])];
    var list: Text := [0x5B, 0x6E, 0x75, 0x6C, 0x6C, 0x2C, 0x74, 0x72, 0x75, 0x65, 0x2C, 0x22, 0x78, 0x22, 0x5D];
    ThreeItems();
    var members := [Entry([0x62], Number([0x31])), Entry([0x61], Array(items))];
    var x, y := Entry([0x61], list), Entry([0x62], [0x31]);
    assert PrintSpec(Number([0x31])) == [0x31];
    hide *;
    PrintTwo(members[0], members[1]);
    TwoKeys(y, x);
    QuotePlain(0x61);
    QuotePlain(0x62);
    TwoMemberText(members, x, y);
    PutTogether(list);
  }

  lemma PutTogether(list: Text)
    requires list == [0x5B, 0x6E, 0x75, 0x6C, 0x6C, 0x2C, 0x74, 0x72, 0x75, 0x65, 0x2C, 0x22, 0x78, 0x22, 0x5D]
    ensures [OPEN_BRACE] + ([QUOTE, 0x61, QUOTE] + [COLON] + list + [COMMA] + ([QUOTE, 0x62, QUOTE] + [COLON] + [0x31])) + [CLOSE_BRACE] ==
      [0x7B, 0x22, 0x61, 0x22, 0x3A, 0x5B, 0x6E, 0x75, 0x6C, 0x6C, 0x2C, 0x74, 0x72, 0x75, 0x65, 0x2C, 0x22, 0x78, 0x22, 0x5D, 0x2C,
       0x22, 0x62, 0x22, 0x3A, 0x31, 0x7D]
  {
  }

  lemma PrintTwo(m: Entry<Json>, n: Entry<Json>)
    ensures PrintSpecMembers([m, n]) == [Entry(m.key, PrintSpec(m.value)), Entry(n.key, PrintSpec(n.value))]
  {
    hide PrintSpec;
    assert [m, n][1..] == [n] && [n][1..] == [];
    assert PrintSpecMembers([n]) == [Entry(n.key, PrintSpec(n.value))] + PrintSpecMembers([]);
  }

  lemma TwoMemberText(members: seq<Entry<Json>>, a: Entry<Text>, b: Entry<Text>)
    requires SortByKey(PrintSpecMembers(members)) == [a, b]
    ensures PrintSpec(Object(members)) ==
      [OPEN_BRACE] + (QuoteJson(a.key) + [COLON] + a.value + [COMMA] + (QuoteJson(b.key) + [COLON] + b.value)) + [CLOSE_BRACE]
  {
    hide PrintSpecMembers, SortByKey, Members, QuoteJson, Join;
    TwoMembers(a, b);
  }

  lemma TwoMembers(a: Entry<Text>, b: Entry<Text>)
    ensures Join(Members([a, b])) == QuoteJson(a.key) + [COLON] + a.value + [COMMA] + (QuoteJson(b.key) + [COLON] + b.value)
  {
    var parts := Members([a, b]);
    assert parts[1..] == [parts[1]];
  }

  lemma ThreeItems()
    ensures PrintSpec(Array([Null, Bool(true), String([0x78])])) ==
      [0x5B, 0x6E, 0x75, 0x6C, 0x6C, 0x2C, 0x74, 0x72, 0x75, 0x65, 0x2C, 0x22, 0x78, 0x22, 0x5D]
  {
    QuotePlain(0x78);
    var items := [Null, Bool(true), String([0x78])];
    assert items[1..] == [Bool(true), String([0x78])] && items[1..][1..] == [String([0x78])] && items[1..][1..][1..] == [];
    assert PrintSpecItems(items[1..][1..]) == [PrintSpec(String([0x78]))] + PrintSpecItems([]);
    assert PrintSpecItems(items[1..]) == [TRUE_TEXT] + PrintSpecItems(items[1..][1..]);
    var parts := PrintSpecItems(items);
    assert parts == [NULL_TEXT, TRUE_TEXT, [QUOTE, 0x78, QUOTE]];
    assert parts[1..] == [TRUE_TEXT, [QUOTE, 0x78, QUOTE]] && parts[1..][1..] == [[QUOTE, 0x78, QUOTE]];
    assert Join(parts[1..]) == TRUE_TEXT + [COMMA] + [QUOTE, 0x78, QUOTE];
  }

  lemma QuotePlain(c: CodeUnit)
    requires 0x61 <= c <= 0x7A
    ensures QuoteJson([c]) == [QUOTE, c, QUOTE]
  {
    assert [c][1..] == [] && EscapeAll([c]) == EscapeUnit(c) + EscapeAll([]);
  }

  lemma TwoKeys(b: Entry<Text>, a: Entry<Text>)
    requires |a.key| == 1 && |b.key| == 1 && a.key[0] < b.key[0]
    ensures SortByKey([b, a]) == [a, b]
  {
    assert [b, a][1..] == [a] && [a][1..] == [];
    assert SortByKey([a]) == Insert(a, SortByKey([])) == [a];
    assert !TextLeq(b.key, a.key);
    assert Insert(b, [a]) == [a] + Insert(b, []);
    assert Insert(b, []) == [b];
  }

  /** The value the spec printer cannot tell from `v`: each non-finite number replaced by null. */
  function NullNonFinite(v: Json): Json
    decreases v, 1
  {
    match v
    case NonFinite => Null
    case Array(items) => Array(NullItems(items))
    case Object(members) => Object(NullMembers(members))
    case _ => v
  }

  function NullItems(items: seq<Json>): (r: seq<Json>)
    decreases items, 0
  {
    if items == [] then [] else [NullNonFinite(items[0])] + NullItems(items[1..])
  }

  function NullMembers(members: seq<Entry<Json>>): (r: seq<Entry<Json>>)
    decreases members, 0
  {
    if members == [] then []
    else [Entry(members[0].key, NullNonFinite(members[0].value))] + NullMembers(members[1..])
  }

  /** The spec printer loses one thing more than key order: a non-finite number prints as null. */
  lemma {:induction false} SpecPrinterNullsNonFinite(v: Json)
    ensures PrintSpec(NullNonFinite(v)) == PrintSpec(v)
    ensures AllFinite(NullNonFinite(v))
    decreases v, 1
  {
    match v
    case Array(items) => SpecPrinterNullsItems(items);
    case Object(members) => SpecPrinterNullsMembers(members);
    case _ =>
  }

  lemma {:induction false} SpecPrinterNullsItems(items: seq<Json>)
    ensures PrintSpecItems(NullItems(items)) == PrintSpecItems(items)
    ensures forall i :: 0 <= i < |NullItems(items)| ==> AllFinite(NullItems(items)[i])
    decreases items, 0
  {
    if items != [] {
      SpecPrinterNullsNonFinite(items[0]);
      SpecPrinterNullsItems(items[1..]);
      assert NullItems(items)[1..] == NullItems(items[1..]);
    }
  }

  lemma {:induction false} SpecPrinterNullsMembers(members: seq<Entry<Json>>)
    ensures PrintSpecMembers(NullMembers(members)) == PrintSpecMembers(members)
    ensures forall i :: 0 <= i < |NullMembers(members)| ==> AllFinite(NullMembers(members)[i].value)
    decreases members, 0
  {
    if members != [] {
      SpecPrinterNullsNonFinite(members[0].value);
      SpecPrinterNullsMembers(members[1..]);
      assert NullMembers(members)[1..] == NullMembers(members[1..]);
    }
  }

  lemma {:induction false} NullsKeepValid(v: Json)
    requires ValidJson(v)
    ensures ValidJson(NullNonFinite(v)) && (AllFinite(v) ==> NullNonFinite(v) == v)
    decreases v
  {
    match v
    case Array(items) =>
      NullItemsAre(items);
      forall i | 0 <= i < |items| ensures ValidJson(NullNonFinite(items[i])) && (AllFinite(items[i]) ==> NullNonFinite(items[i]) == items[i]) {
        NullsKeepValid(items[i]);
      }
    case Object(members) =>
      NullMembersAre(members);
      forall i | 0 <= i < |members|
        ensures ValidJson(NullNonFinite(members[i].value)) && (AllFinite(members[i].value) ==> NullNonFinite(members[i].value) == members[i].value)
      {
        NullsKeepValid(members[i].value);
      }
    case _ =>
  }

  lemma {:induction false} NullItemsAre(items: seq<Json>)
    ensures |NullItems(items)| == |items| && forall i :: 0 <= i < |items| ==> NullItems(items)[i] == NullNonFinite(items[i])
  {
    if items != [] { NullItemsAre(items[1..]); }
  }

  lemma {:induction false} NullMembersAre(members: seq<Entry<Json>>)
    ensures |NullMembers(members)| == |members|
    ensures forall i :: 0 <= i < |members| ==> NullMembers(members)[i] == Entry(members[i].key, NullNonFinite(members[i].value))
  {
    if members != [] { NullMembersAre(members[1..]); }
  }

  /**
   * For all values, non-finite numbers included: the spec printer writes the same
   * text exactly when, with those numbers replaced by null, they are equal up to key
   * order; and replacing changes nothing else.
   */
  lemma SpecTextDecidesValue(a: Json, b: Json)
    requires ValidJson(a) && ValidJson(b)
    ensures PrintSpec(a) == PrintSpec(b) <==> SameUpToKeyOrder(NullNonFinite(a), NullNonFinite(b))
    ensures AllFinite(a) ==> NullNonFinite(a) == a
  {
    NullsKeepValid(a);
    NullsKeepValid(b);
    SpecPrinterNullsNonFinite(a);
    SpecPrinterNullsNonFinite(b);
    CanonicalTextDecidesValue(NullNonFinite(a), NullNonFinite(b));
  }
}
