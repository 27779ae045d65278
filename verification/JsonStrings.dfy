/**
 * String and number tokens of JSON text: `JSON.stringify` on a string, and the
 * reader that section 7 of RFC 8259 asks of a parser.
 */
module JsonStrings {
  import opened Wrappers
  import opened KeyedSort

  const QUOTE: CodeUnit := 0x22
  const BACKSLASH: CodeUnit := 0x5C
  const LETTER_U: CodeUnit := 0x75

  predicate HighSurrogate(c: CodeUnit) { 0xD800 <= c < 0xDC00 }
  predicate LowSurrogate(c: CodeUnit) { 0xDC00 <= c < 0xE000 }

  // ---- writing ----

  function HexDigit(d: int): CodeUnit
    requires 0 <= d < 16
  {
    if d < 10 then 0x30 + d else 0x57 + d
  }

  function UnicodeEscape(c: CodeUnit): Text {
    [BACKSLASH, LETTER_U, HexDigit(c / 4096), HexDigit(c / 256 % 16), HexDigit(c / 16 % 16), HexDigit(c % 16)]
  }

  /** The short escapes: backspace, tab, line feed, form feed, carriage return, quote, backslash. */
  function ShortEscape(c: CodeUnit): Option<CodeUnit> {
    if c == 0x08 then Some(0x62) else if c == 0x09 then Some(0x74)
    else if c == 0x0A then Some(0x6E) else if c == 0x0C then Some(0x66)
    else if c == 0x0D then Some(0x72) else if c == QUOTE then Some(QUOTE)
    else if c == BACKSLASH then Some(BACKSLASH) else None
  }

  /** How a code unit that is not half of a surrogate pair is written. */
  function EscapeUnit(c: CodeUnit): Text {
    match ShortEscape(c)
    case Some(e) => [BACKSLASH, e]
    case None =>
      if c < 0x20 || HighSurrogate(c) || LowSurrogate(c) then UnicodeEscape(c) else [c]
  }

  /** Surrogate pairs are copied; a lone surrogate is escaped. */
  function EscapeAll(s: Text): Text {
    if s == [] then []
    else if |s| > 1 && HighSurrogate(s[0]) && LowSurrogate(s[1]) then [s[0], s[1]] + EscapeAll(s[2..])
    else EscapeUnit(s[0]) + EscapeAll(s[1..])
  }

  function QuoteJson(s: Text): Text {
    [QUOTE] + EscapeAll(s) + [QUOTE]
  }

  // ---- reading ----

  function HexValue(c: CodeUnit): Option<CodeUnit> {
    if 0x30 <= c <= 0x39 then Some(c - 0x30)
    else if 0x61 <= c <= 0x66 then Some(c - 0x57)
    else if 0x41 <= c <= 0x46 then Some(c - 0x37)
    else None
  }

  function HexQuad(t: Text): (r: Option<CodeUnit>)
    requires |t| >= 4
  {
    match (HexValue(t[0]), HexValue(t[1]), HexValue(t[2]), HexValue(t[3]))
    case (Some(a), Some(b), Some(c), Some(d)) =>
      if a < 16 && b < 16 && c < 16 && d < 16 then Some(a * 4096 + b * 256 + c * 16 + d) else None
    case _ => None
  }

  function ShortUnescape(c: CodeUnit): Option<CodeUnit> {
    if c == 0x62 then Some(0x08) else if c == 0x74 then Some(0x09)
    else if c == 0x6E then Some(0x0A) else if c == 0x66 then Some(0x0C)
    else if c == 0x72 then Some(0x0D) else if c == QUOTE then Some(QUOTE)
    else if c == BACKSLASH then Some(BACKSLASH) else if c == 0x2F then Some(0x2F) else None
  }

  /** One character of a string body and how much text it took. */
  function ReadUnit(t: Text): (r: Option<(CodeUnit, nat)>)
    requires t != [] && t[0] != QUOTE
    ensures r.Some? ==> 0 < r.value.1 <= |t|
  {
    if t[0] < 0x20 then None
    else if t[0] != BACKSLASH then Some((t[0], 1))
    else if |t| < 2 then None
    else if t[1] == LETTER_U then
      if |t| < 6 then None
      else match HexQuad(t[2..]) case Some(c) => Some((c, 6)) case None => None
    else match ShortUnescape(t[1]) case Some(c) => Some((c, 2)) case None => None
  }

  /** The rest of a string after its opening quote, up to and with the closing one. */
  function ReadBody(t: Text): (r: Option<(Text, Text)>)
    ensures r.Some? ==> |r.value.1| < |t|
    decreases |t|
  {
    if t == [] then None
    else if t[0] == QUOTE then Some(([], t[1..]))
    else match ReadUnit(t)
      case None => None
      case Some(unit) =>
        match ReadBody(t[unit.1..])
        case None => None
        case Some(body) => Some(([unit.0] + body.0, body.1))
  }

  // ---- what is escaped, and how ----

  /** A code unit is written as it is unless it is a control, a quote, a backslash or half of a surrogate pair. */
  lemma WrittenPlainly(c: CodeUnit)
    ensures EscapeUnit(c) == [c] <==> c >= 0x20 && c != 0x22 && c != 0x5C && !(0xD800 <= c <= 0xDFFF)
  {
  }

  /** The two-character escapes are `\"`, `\\`, `\b`, `\f`, `\n`, `\r` and `\t`. */
  lemma WrittenShort(c: CodeUnit, e: CodeUnit)
    ensures EscapeUnit(c) == [0x5C, e] <==>
      (c, e) in [(0x22, 0x22), (0x5C, 0x5C), (0x08, 0x62), (0x0C, 0x66), (0x0A, 0x6E), (0x0D, 0x72), (0x09, 0x74)]
  {
  }

  /** Every other one is `\u` and its four hexadecimal digits, letters in lower case. */
  lemma WrittenAsHex(c: CodeUnit)
    ensures |EscapeUnit(c)| > 2 ==>
      && |EscapeUnit(c)| == 6 && EscapeUnit(c)[0] == 0x5C && EscapeUnit(c)[1] == 0x75
      && HexQuad(EscapeUnit(c)[2..]) == Some(c)
      && forall i :: 2 <= i < 6 ==> 0x30 <= EscapeUnit(c)[i] <= 0x39 || 0x61 <= EscapeUnit(c)[i] <= 0x66
  {
    if |EscapeUnit(c)| > 2 {
      HexQuadInverts(c, []);
      assert UnicodeEscape(c)[2..] + [] == UnicodeEscape(c)[2..];
    }
  }

  /** A pair of surrogates is copied, and anything else is written unit by unit. */
  lemma WrittenInOrder(s: Text)
    ensures s != [] && !(|s| > 1 && 0xD800 <= s[0] <= 0xDBFF && 0xDC00 <= s[1] <= 0xDFFF) ==> EscapeAll(s) == EscapeUnit(s[0]) + EscapeAll(s[1..])
    ensures |s| > 1 && 0xD800 <= s[0] <= 0xDBFF && 0xDC00 <= s[1] <= 0xDFFF ==> EscapeAll(s) == s[..2] + EscapeAll(s[2..])
    ensures QuoteJson(s) == [0x22] + EscapeAll(s) + [0x22]
  {
    if |s| > 1 && HighSurrogate(s[0]) && LowSurrogate(s[1]) {
      EscapedPair(s);
    } else if s != [] {
      EscapedFirst(s);
    }
    hide EscapeUnit, EscapeAll;
  }

  lemma EscapedPair(s: Text)
    requires |s| > 1 && HighSurrogate(s[0]) && LowSurrogate(s[1])
    ensures EscapeAll(s) == s[..2] + EscapeAll(s[2..])
  {
    hide EscapeUnit;
    assert s[..2] == [s[0], s[1]];
  }

  // ---- one inverts the other ----

  lemma HexQuadInverts(c: CodeUnit, rest: Text)
    ensures HexQuad(UnicodeEscape(c)[2..] + rest) == Some(c)
  {
    var q := UnicodeEscape(c)[2..] + rest;
    assert q[0] == HexDigit(c / 4096) && q[1] == HexDigit(c / 256 % 16);
    assert q[2] == HexDigit(c / 16 % 16) && q[3] == HexDigit(c % 16);
    HexDigitInverts(c / 4096);
    HexDigitInverts(c / 256 % 16);
    HexDigitInverts(c / 16 % 16);
    HexDigitInverts(c % 16);
    hide HexDigit, HexValue;
    FourHexDigits(c);
  }

  lemma HexDigitInverts(d: int)
    requires 0 <= d < 16
    ensures HexValue(HexDigit(d)) == Some(d)
  {
  }

  lemma FourHexDigits(c: int)
    ensures c == c / 4096 * 4096 + c / 256 % 16 * 256 + c / 16 % 16 * 16 + c % 16
  {
    assert c / 256 / 16 == c / 4096;
  }

  lemma ReadEscapedUnit(c: CodeUnit, rest: Text)
    ensures EscapeUnit(c)[0] != QUOTE
    ensures ReadUnit(EscapeUnit(c) + rest) == Some((c, |EscapeUnit(c)|))
  {
    var t := EscapeUnit(c) + rest;
    if ShortEscape(c).None? && (c < 0x20 || HighSurrogate(c) || LowSurrogate(c)) {
      HexQuadInverts(c, rest);
      assert t[2..] == UnicodeEscape(c)[2..] + rest;
    }
  }

  /** A surrogate is copied when its partner stands beside it. */
  lemma ReadCopiedUnit(c: CodeUnit, rest: Text)
    requires c >= 0x20 && c != QUOTE && c != BACKSLASH
    ensures ReadUnit([c] + rest) == Some((c, 1))
  {
  }

  lemma ReadBodyAfterUnit(c: CodeUnit, written: Text, tail: Text, s: Text, rest: Text)
    requires written != [] && written[0] != QUOTE
    requires ReadUnit(written + tail) == Some((c, |written|))
    requires ReadBody(tail) == Some((s, rest))
    ensures ReadBody(written + tail) == Some(([c] + s, rest))
  {
    assert (written + tail)[|written|..] == tail;
  }

  lemma ReadPair(s: Text, close: Text, rest: Text)
    requires |s| > 1 && HighSurrogate(s[0]) && LowSurrogate(s[1])
    requires ReadBody(EscapeAll(s[2..]) + close) == Some((s[2..], rest))
    ensures ReadBody(EscapeAll(s) + close) == Some((s, rest))
  {
    assert EscapeAll(s) == [s[0], s[1]] + EscapeAll(s[2..]);
    hide ReadBody, ReadUnit, EscapeUnit, EscapeAll;
    var written := EscapeAll(s[2..]) + close;
    ReadCopiedUnit(s[1], written);
    ReadBodyAfterUnit(s[1], [s[1]], written, s[2..], rest);
    ReadCopiedUnit(s[0], [s[1]] + written);
    ReadBodyAfterUnit(s[0], [s[0]], [s[1]] + written, [s[1]] + s[2..], rest);
    PairThen(s[0], s[1], EscapeAll(s[2..]), close);
    assert [s[0], s[1]] + s[2..] == s;
    PairThen(s[0], s[1], [], s[2..]);
  }

  lemma PairThen(a: CodeUnit, b: CodeUnit, t: Text, close: Text)
    ensures ([a, b] + t) + close == [a] + ([b] + (t + close))
    ensures t == [] ==> [a, b] + close == [a] + ([b] + close)
  {
  }

  lemma ReadSingle(s: Text, close: Text, rest: Text)
    requires s != [] && !(|s| > 1 && HighSurrogate(s[0]) && LowSurrogate(s[1]))
    requires ReadBody(EscapeAll(s[1..]) + close) == Some((s[1..], rest))
    ensures ReadBody(EscapeAll(s) + close) == Some((s, rest))
  {
    hide ReadBody, ReadUnit, EscapeUnit;
    EscapedFirst(s);
    hide EscapeAll;
    var written := EscapeAll(s[1..]) + close;
    ReadEscapedUnit(s[0], written);
    ReadBodyAfterUnit(s[0], EscapeUnit(s[0]), written, s[1..], rest);
    assert EscapeAll(s) + close == EscapeUnit(s[0]) + written;
    assert [s[0]] + s[1..] == s;
  }

  lemma EscapedFirst(s: Text)
    requires s != [] && !(|s| > 1 && HighSurrogate(s[0]) && LowSurrogate(s[1]))
    ensures EscapeAll(s) == EscapeUnit(s[0]) + EscapeAll(s[1..])
  {
    hide EscapeUnit;
  }

  /** Reading a written string gives it back, whatever text follows. */
  lemma {:induction false} StringRoundTrip(s: Text, rest: Text)
    ensures ReadBody(EscapeAll(s) + ([QUOTE] + rest)) == Some((s, rest))
    decreases |s|
  {
    var close := [QUOTE] + rest;
    if s == [] {
      assert EscapeAll(s) + close == close && close[1..] == rest;
    } else if |s| > 1 && HighSurrogate(s[0]) && LowSurrogate(s[1]) {
      StringRoundTrip(s[2..], rest);
      ReadPair(s, close, rest);
    } else {
      StringRoundTrip(s[1..], rest);
      ReadSingle(s, close, rest);
    }
  }

  // ---- number tokens, section 6 of RFC 8259 ----

  predicate Digit(c: CodeUnit) { 0x30 <= c <= 0x39 }

  /** Digits, sign, point and exponent marks. */
  predicate NumberUnit(c: CodeUnit) {
    Digit(c) || c == 0x2B || c == 0x2D || c == 0x2E || c == 0x45 || c == 0x65
  }

  function DigitRun(t: Text): (n: nat)
    ensures n <= |t|
    ensures forall i :: 0 <= i < n ==> Digit(t[i])
    ensures n < |t| ==> !Digit(t[n])
  {
    if t == [] || !Digit(t[0]) then 0 else 1 + DigitRun(t[1..])
  }

  predicate ExponentTail(t: Text) {
    t == [] ||
    ((t[0] == 0x65 || t[0] == 0x45) &&
     var u := if |t| > 1 && (t[1] == 0x2B || t[1] == 0x2D) then t[2..] else t[1..];
     u != [] && DigitRun(u) == |u|)
  }

  predicate FractionTail(t: Text) {
    if t != [] && t[0] == 0x2E
    then var n := DigitRun(t[1..]); n > 0 && ExponentTail(t[1 + n..])
    else ExponentTail(t)
  }

  predicate AllNumberUnits(t: Text) {
    forall i :: 0 <= i < |t| ==> NumberUnit(t[i])
  }

  lemma UnitsConcat(a: Text, b: Text)
    requires AllNumberUnits(a) && AllNumberUnits(b)
    ensures AllNumberUnits(a + b)
  {
  }

  lemma ExponentTailUnits(t: Text)
    requires ExponentTail(t)
    ensures AllNumberUnits(t)
  {
    if t != [] {
      var k := if |t| > 1 && (t[1] == 0x2B || t[1] == 0x2D) then 2 else 1;
      UnitsConcat(t[..k], t[k..]);
      assert t == t[..k] + t[k..];
    }
  }

  lemma FractionTailUnits(t: Text)
    requires FractionTail(t)
    ensures AllNumberUnits(t)
  {
    if t != [] && t[0] == 0x2E {
      var n := DigitRun(t[1..]);
      ExponentTailUnits(t[1 + n..]);
      forall i | 0 <= i < |t| ensures NumberUnit(t[i]) {
        if 0 < i < 1 + n { assert t[i] == t[1..][i - 1]; }
        if 1 + n <= i { assert t[i] == t[1 + n..][i - 1 - n]; }
      }
    } else {
      ExponentTailUnits(t);
    }
  }

  function Unsigned(t: Text): Text {
    if t != [] && t[0] == 0x2D then t[1..] else t
  }

  predicate UnsignedToken(u: Text) {
    var n := DigitRun(u);
    n > 0 && (u[0] == 0x30 ==> n == 1) && FractionTail(u[n..])
  }

  predicate NumberToken(t: Text) {
    UnsignedToken(Unsigned(t))
  }

  lemma UnsignedTokenUnits(u: Text)
    requires UnsignedToken(u)
    ensures AllNumberUnits(u) && u != [] && Digit(u[0])
  {
    var n := DigitRun(u);
    FractionTailUnits(u[n..]);
    assert AllNumberUnits(u[..n]);
    UnitsConcat(u[..n], u[n..]);
    assert u == u[..n] + u[n..];
  }

  /** A number token is made of number characters and starts with a digit or a minus sign. */
  lemma NumberTokenUnits(t: Text)
    requires NumberToken(t)
    ensures AllNumberUnits(t) && t != [] && (t[0] == 0x2D || Digit(t[0]))
  {
    var u := Unsigned(t);
    UnsignedTokenUnits(u);
    assert t == u || t == [0x2D] + u;
  }

  /** Length of the longest prefix that could belong to a number token. */
  function NumberRun(t: Text): (n: nat)
    ensures n <= |t|
  {
    if t == [] || !NumberUnit(t[0]) then 0 else 1 + NumberRun(t[1..])
  }

  /** True when what follows cannot lengthen a number token. */
  predicate EndsNumber(rest: Text) {
    rest == [] || !NumberUnit(rest[0])
  }

  lemma {:induction false} NumberRunStops(t: Text, rest: Text)
    requires AllNumberUnits(t) && EndsNumber(rest)
    ensures NumberRun(t + rest) == |t|
  {
    if t == [] {
      assert t + rest == rest;
    } else {
      NumberRunStops(t[1..], rest);
      assert (t + rest)[1..] == t[1..] + rest;
    }
  }
}
