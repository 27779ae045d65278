/**
 * Webhook signatures: the `t=…,v1=…` header is printed by the sender and split
 * again by the receiver. HMAC-SHA-256 is an arbitrary function with a
 * hexadecimal result.
 */
module WebhookSigner {
  import opened Wrappers
  import opened KeyedSort
  import opened JsonStrings
  import opened CanonicalJson
  import JsonParser
  import opened Whitespace
  import Decimal

  datatype JsNumber = NaN | Infinite | Finite(value: real)

  /**
   * What the code takes from the platform: the HMAC digest, and number
   * conversion outside plain integer notation below 2^53.
   */
  datatype Platform = Platform(
    hmac: (Text, Text) -> Text,
    otherNumber: Text -> JsNumber,
    otherText: JsNumber -> Text)

  datatype Verdict = Accepted | MalformedHeader | OutsideTolerance | SignatureMismatch

  datatype SignedRequest = SignedRequest(header: Text, timestamp: nat, body: Text, signature: Text)

  const SAFE_INTEGER_END: nat := 0x20_0000_0000_0000
  const EQUALS: CodeUnit := 0x3D
  const DOT: CodeUnit := 0x2E
  const KEY_T: Text := [0x74]
  const KEY_V1: Text := [0x76, 0x31]

  // ---- numbers in text ----

  function DecimalText(n: nat): (t: Text)
    ensures t != [] && forall i :: 0 <= i < |t| ==> Digit(t[i])
  {
    var ds := Decimal.Digits(n);
    seq(|ds|, i requires 0 <= i < |ds| => 0x30 + ds[i])
  }

  predicate AllDigits(t: Text) {
    t != [] && forall i :: 0 <= i < |t| ==> Digit(t[i])
  }

  function DigitsOf(t: Text): seq<nat>
    requires AllDigits(t)
  {
    seq(|t|, i requires 0 <= i < |t| => t[i] - 0x30)
  }

  lemma DecimalTextInverts(n: nat)
    ensures Decimal.Value(DigitsOf(DecimalText(n))) == n
  {
    Decimal.ValueOfDigits(n);
    assert DigitsOf(DecimalText(n)) == Decimal.Digits(n);
  }

  /** `Number(text)` */
  function ToNumber(p: Platform, t: Text): JsNumber {
    if AllDigits(t) && Decimal.Value(DigitsOf(t)) < SAFE_INTEGER_END
    then Finite(Decimal.Value(DigitsOf(t)) as real)
    else p.otherNumber(t)
  }

  /** A number inside a template literal. */
  function NumberText(p: Platform, n: JsNumber): Text {
    if n.Finite? && 0.0 <= n.value < SAFE_INTEGER_END as real && n.value == n.value.Floor as real
    then DecimalText(n.value.Floor)
    else p.otherText(n)
  }

  // ---- strings ----

  function IndexOf(t: Text, c: CodeUnit): (k: int)
    ensures -1 <= k < |t|
    ensures k >= 0 ==> t[k] == c
    ensures forall i :: 0 <= i < (if k >= 0 then k else |t|) ==> t[i] != c
  {
    if t == [] then -1
    else if t[0] == c then 0
    else var k := IndexOf(t[1..], c); if k < 0 then -1 else k + 1
  }

  /** `text.split(',')` */
  function Split(t: Text): seq<Text>
    decreases |t|
  {
    var k := IndexOf(t, COMMA);
    if k < 0 then [t] else [t[..k]] + Split(t[k + 1..])
  }

  function Trim(t: Text): Text {
    TrimBy(t, (c: CodeUnit) => c)
  }

  /** One `key=value` part; without an equals sign `slice` drops the last character for the key. */
  function KeyValue(part: Text): (Text, Text) {
    var eq := IndexOf(part, EQUALS);
    var key := if eq >= 0 then part[..eq] else if part == [] then [] else part[..|part| - 1];
    (Trim(key), Trim(part[eq + 1..]))
  }

  /** The value the last part with this key gives, as `Object.fromEntries` has it. */
  function LastValue(parts: seq<Text>, key: Text): Option<Text> {
    if parts == [] then None
    else
      var last := KeyValue(parts[|parts| - 1]);
      if last.0 == key then Some(last.1) else LastValue(parts[..|parts| - 1], key)
  }

  /** Splitting takes a text apart at its commas: the parts have none, and joined by commas they are the text. */
  lemma {:induction false} SplitIs(t: Text)
    ensures Split(t) != [] && Join(Split(t)) == t
    ensures forall i, j :: 0 <= i < |Split(t)| && 0 <= j < |Split(t)[i]| ==> Split(t)[i][j] != 0x2C
    decreases |t|
  {
    var k := IndexOf(t, COMMA);
    if k >= 0 {
      SplitIs(t[k + 1..]);
      SplitStep(t, k);
      CutAt(t, k);
      hide *;
      var rest := Split(t[k + 1..]);
      JoinFirst(t[..k], rest);
      forall i, j | 0 <= i < |Split(t)| && 0 <= j < |Split(t)[i]| ensures Split(t)[i][j] != 0x2C {
        if i > 0 { assert Split(t)[i] == rest[i - 1]; }
      }
    }
  }

  lemma SplitStep(t: Text, k: nat)
    requires k == IndexOf(t, COMMA)
    ensures Split(t) == [t[..k]] + Split(t[k + 1..])
  {
    hide IndexOf;
  }

  lemma CutAt(t: Text, k: nat)
    requires k < |t|
    ensures t == t[..k] + [t[k]] + t[k + 1..]
  {
  }

  lemma JoinFirst(first: Text, rest: seq<Text>)
    requires rest != []
    ensures Join([first] + rest) == first + [COMMA] + Join(rest)
  {
    assert ([first] + rest)[1..] == rest;
  }

  /** A part is cut at its first equals sign, and both pieces are trimmed. */
  lemma KeyValueIs(part: Text, k: nat)
    requires k < |part| && part[k] == 0x3D && forall i :: 0 <= i < k ==> part[i] != 0x3D
    ensures KeyValue(part) == (Trim(part[..k]), Trim(part[k + 1..]))
  {
  }

  /** Of several parts with one key the last counts. */
  lemma {:induction false} LastPartCounts(parts: seq<Text>, key: Text, i: nat)
    requires i < |parts| && KeyValue(parts[i]).0 == key && forall j :: i < j < |parts| ==> KeyValue(parts[j]).0 != key
    ensures LastValue(parts, key) == Some(KeyValue(parts[i]).1)
  {
    if i < |parts| - 1 { LastPartCounts(parts[..|parts| - 1], key, i); }
  }

  // ---- signing and verifying ----

  function SignedString(timestamp: Text, body: Text): Text {
    timestamp + [DOT] + body
  }

  function SignHeader(timestamp: nat, signature: Text): Text {
    KEY_T + [EQUALS] + DecimalText(timestamp) + [COMMA] + KEY_V1 + [EQUALS] + signature
  }

  /** None stands for the error on a payload the printer refuses. */
  function SignPayload(p: Platform, payload: Json, secret: Text, nowMillis: nat): Option<SignedRequest> {
    match PrintWebhook(payload)
    case None => None
    case Some(body) =>
      var timestamp := nowMillis / 1000;
      var signature := p.hmac(secret, SignedString(DecimalText(timestamp), body));
      Some(SignedRequest(SignHeader(timestamp, signature), timestamp, body, signature))
  }

  function Distance(now: nat, t: real): real {
    if now as real >= t then now as real - t else t - now as real
  }

  /** `Number(parts['t'])`; a missing part is NaN. */
  function HeaderTime(p: Platform, header: Text): JsNumber {
    match LastValue(Split(header), KEY_T) case None => NaN case Some(v) => ToNumber(p, v)
  }

  function HeaderSignature(header: Text): Option<Text> {
    LastValue(Split(header), KEY_V1)
  }

  function VerifyPayload(p: Platform, rawBody: Text, header: Text, secret: Text, tolerance: nat, nowMillis: nat): Verdict {
    var t := HeaderTime(p, header);
    var v1 := HeaderSignature(header);
    if t.NaN? || t == Finite(0.0) || v1.None? || v1 == Some([]) then MalformedHeader
    else if t.Infinite? || Distance(nowMillis / 1000, t.value) > tolerance as real then OutsideTolerance
    else if p.hmac(secret, SignedString(NumberText(p, t), rawBody)) != v1.value then SignatureMismatch
    else Accepted
  }

  /** A request is signed exactly when its payload has finite numbers; its parts, and the digest's message, written out. */
  lemma SignedRequestIs(p: Platform, payload: Json, secret: Text, nowMillis: nat)
    ensures SignPayload(p, payload, secret, nowMillis).Some? <==> AllFinite(payload)
    ensures AllFinite(payload) ==>
      var r := SignPayload(p, payload, secret, nowMillis).value;
      && 1000 * r.timestamp <= nowMillis < 1000 * (r.timestamp + 1) && Some(r.body) == PrintWebhook(payload)
      && r.signature == p.hmac(secret, DecimalText(r.timestamp) + [0x2E] + r.body)
      && r.header == [0x74, 0x3D] + DecimalText(r.timestamp) + [0x2C, 0x76, 0x31, 0x3D] + r.signature
  {
    PrintersAgree(payload);
    if AllFinite(payload) {
      var r := SignPayload(p, payload, secret, nowMillis).value;
      var d := DecimalText(r.timestamp);
      assert KEY_T + [EQUALS] == [0x74, 0x3D] && [COMMA] + KEY_V1 + [EQUALS] == [0x2C, 0x76, 0x31, 0x3D];
      assert r.header == (KEY_T + [EQUALS]) + d + ([COMMA] + KEY_V1 + [EQUALS]) + r.signature;
    }
  }

  /** The text before the first dot is the timestamp, and all after it is the body. */
  lemma SignedStringParts(timestamp: nat, body: Text)
    ensures
      var m := SignedString(DecimalText(timestamp), body);
      exists k :: 0 <= k < |m| && m[k] == 0x2E && (forall i :: 0 <= i < k ==> m[i] != 0x2E)
        && AllDigits(m[..k]) && Decimal.Value(DigitsOf(m[..k])) == timestamp && m[k + 1..] == body
  {
    var d := DecimalText(timestamp);
    var m := SignedString(d, body);
    DecimalTextInverts(timestamp);
    assert m[..|d|] == d && m[|d| + 1..] == body && m[|d|] == 0x2E;
    assert forall i :: 0 <= i < |d| ==> m[i] == d[i];
  }

  /**
   * A header is accepted exactly when it gives a finite timestamp other than zero
   * that is at most `tolerance` seconds away, and a non-empty `v1` that is the HMAC
   * of that timestamp, a dot and the body.
   */
  lemma AcceptedExactly(p: Platform, rawBody: Text, header: Text, secret: Text, tolerance: nat, nowMillis: nat)
    ensures VerifyPayload(p, rawBody, header, secret, tolerance, nowMillis) == Accepted <==>
      && HeaderTime(p, header).Finite? && HeaderTime(p, header).value != 0.0
      && (nowMillis / 1000) as real - HeaderTime(p, header).value <= tolerance as real
      && HeaderTime(p, header).value - (nowMillis / 1000) as real <= tolerance as real
      && HeaderSignature(header).Some? && HeaderSignature(header).value != []
      && p.hmac(secret, NumberText(p, HeaderTime(p, header)) + [0x2E] + rawBody) == HeaderSignature(header).value
  {
    hide HeaderTime, HeaderSignature, NumberText;
    var now, t := nowMillis / 1000, HeaderTime(p, header);
    if t.Finite? { DistanceIs(now, t.value, tolerance as real); }
    hide Distance;
    assert SignedString(NumberText(p, t), rawBody) == NumberText(p, t) + [0x2E] + rawBody;
    hide SignedString;
  }

  lemma DistanceIs(now: nat, t: real, bound: real)
    ensures Distance(now, t) <= bound <==> now as real - t <= bound && t - now as real <= bound
  {
  }

  // ---- the header comes apart again ----

  predicate HexDigest(t: Text) {
    t != [] && forall i :: 0 <= i < |t| ==> Digit(t[i]) || 0x61 <= t[i] <= 0x66
  }

  lemma {:induction false} IndexOfSkips(a: Text, c: CodeUnit, b: Text)
    requires forall i :: 0 <= i < |a| ==> a[i] != c
    ensures IndexOf(a + [c] + b, c) == |a|
  {
    var t := a + [c] + b;
    assert t[|a|] == c;
    assert forall i :: 0 <= i < |a| ==> t[i] == a[i];
  }

  lemma SplitTwo(a: Text, b: Text)
    requires IndexOf(a, COMMA) < 0 && IndexOf(b, COMMA) < 0
    ensures Split(a + [COMMA] + b) == [a, b]
  {
    IndexOfSkips(a, COMMA, b);
    var t := a + [COMMA] + b;
    assert Split(b) == [b];
    SplitStep(t, |a|);
    hide *;
    assert t[..|a|] == a && t[|a| + 1..] == b;
  }

  lemma KeyValueOf(key: Text, value: Text)
    requires key != [] && value != []
    requires forall i :: 0 <= i < |key| ==> key[i] != EQUALS && !WhiteSpaceCode(key[i])
    requires forall i :: 0 <= i < |value| ==> !WhiteSpaceCode(value[i])
    ensures KeyValue(key + [EQUALS] + value) == (key, value)
  {
    IndexOfSkips(key, EQUALS, value);
    var part := key + [EQUALS] + value;
    assert part[..|key|] == key && part[|key| + 1..] == value;
  }

  lemma HeaderParts(timestamp: nat, signature: Text)
    requires HexDigest(signature)
    ensures LastValue(Split(SignHeader(timestamp, signature)), KEY_T) == Some(DecimalText(timestamp))
    ensures HeaderSignature(SignHeader(timestamp, signature)) == Some(signature)
  {
    var a := KEY_T + [EQUALS] + DecimalText(timestamp);
    var b := KEY_V1 + [EQUALS] + signature;
    assert SignHeader(timestamp, signature) == a + [COMMA] + b;
    SplitTwo(a, b);
    KeyValueOf(KEY_T, DecimalText(timestamp));
    KeyValueOf(KEY_V1, signature);
    hide KeyValue, LastValue, Split, SignHeader, DecimalText;
    LastOfTwo(a, b, KEY_T);
    LastOfTwo(a, b, KEY_V1);
  }

  lemma LastOfTwo(a: Text, b: Text, key: Text)
    ensures LastValue([a, b], key) ==
      if KeyValue(b).0 == key then Some(KeyValue(b).1) else if KeyValue(a).0 == key then Some(KeyValue(a).1) else None
  {
    hide KeyValue;
    var parts := [a, b];
    assert parts[..1] == [a];
    assert LastValue([a], key) == if KeyValue(a).0 == key then Some(KeyValue(a).1) else None;
  }

  lemma TimestampRoundTrip(p: Platform, timestamp: nat)
    requires timestamp < SAFE_INTEGER_END
    ensures ToNumber(p, DecimalText(timestamp)) == Finite(timestamp as real)
    ensures NumberText(p, Finite(timestamp as real)) == DecimalText(timestamp)
  {
    DecimalTextInverts(timestamp);
  }

  /**
   * A delivery signed at a positive timestamp is accepted exactly while the
   * receiver's clock is within tolerance. At timestamp zero it never is: the
   * receiver takes a zero for a missing timestamp.
   */
  lemma SignThenVerify(p: Platform, payload: Json, secret: Text, signMillis: nat, tolerance: nat, verifyMillis: nat)
    requires forall k, m :: HexDigest(p.hmac(k, m))
    requires AllFinite(payload) && signMillis / 1000 < SAFE_INTEGER_END
    ensures SignPayload(p, payload, secret, signMillis).Some?
    ensures
      var signed := SignPayload(p, payload, secret, signMillis).value;
      VerifyPayload(p, signed.body, signed.header, secret, tolerance, verifyMillis) ==
        if signed.timestamp == 0 then MalformedHeader
        else if Distance(verifyMillis / 1000, signed.timestamp as real) > tolerance as real then OutsideTolerance
        else Accepted
  {
    PrintersAgree(payload);
    var signed := SignPayload(p, payload, secret, signMillis).value;
    HeaderParts(signed.timestamp, signed.signature);
    TimestampRoundTrip(p, signed.timestamp);
  }

  /** Timestamp and body can be read back from the string that is signed. */
  lemma SignedStringInjective(t1: nat, body1: Text, t2: nat, body2: Text)
    requires SignedString(DecimalText(t1), body1) == SignedString(DecimalText(t2), body2)
    ensures t1 == t2 && body1 == body2
  {
    var d1, d2 := DecimalText(t1), DecimalText(t2);
    IndexOfSkips(d1, DOT, body1);
    IndexOfSkips(d2, DOT, body2);
    var m := SignedString(d1, body1);
    assert d1 == m[..|d1|] && body1 == m[|d1| + 1..];
    assert d2 == m[..|d2|] && body2 == m[|d2| + 1..];
    DecimalTextInverts(t1);
    DecimalTextInverts(t2);
  }

  /**
   * Whatever header is accepted, its last `v1` is the HMAC of its own timestamp
   * and the body. So a header that is accepted for two bodies exhibits two
   * different messages with one digest.
   */
  lemma OneHeaderTwoBodies(p: Platform, body1: Text, body2: Text, header: Text, secret: Text,
                           tolerance: nat, millis1: nat, millis2: nat)
    requires VerifyPayload(p, body1, header, secret, tolerance, millis1) == Accepted
    requires VerifyPayload(p, body2, header, secret, tolerance, millis2) == Accepted
    ensures
      var stamp := NumberText(p, HeaderTime(p, header));
      var m1, m2 := SignedString(stamp, body1), SignedString(stamp, body2);
      && HeaderSignature(header) == Some(p.hmac(secret, m1)) == Some(p.hmac(secret, m2))
      && (body1 != body2 ==> m1 != m2)
  {
    var stamp := NumberText(p, HeaderTime(p, header));
    assert SignedString(stamp, body1)[|stamp| + 1..] == body1;
    assert SignedString(stamp, body2)[|stamp| + 1..] == body2;
  }

  /**
   * The signed string identifies the payload: two deliveries sign the same
   * string exactly when they share the timestamp and their payloads differ at
   * most in key order.
   */
  lemma SignedStringDecidesPayload(a: Json, b: Json, t1: nat, t2: nat)
    requires ValidJson(a) && ValidJson(b) && AllFinite(a) && AllFinite(b)
    ensures PrintWebhook(a).Some? && PrintWebhook(b).Some?
    ensures SignedString(DecimalText(t1), PrintWebhook(a).value) == SignedString(DecimalText(t2), PrintWebhook(b).value)
       <==> t1 == t2 && SameUpToKeyOrder(a, b)
  {
    PrintersAgree(a);
    PrintersAgree(b);
    JsonParser.CanonicalTextDecidesValue(a, b);
    if SignedString(DecimalText(t1), PrintWebhook(a).value) == SignedString(DecimalText(t2), PrintWebhook(b).value) {
      SignedStringInjective(t1, PrintWebhook(a).value, t2, PrintWebhook(b).value);
    }
  }
}
