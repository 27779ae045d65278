/** `String.prototype.trim` on any sequence whose elements have a character code. */
module Whitespace {

  predicate WhiteSpaceCode(c: int) {
    0x09 <= c <= 0x0D || c == 0x20 || c == 0xA0 || c == 0x1680 || 0x2000 <= c <= 0x200A
    || c == 0x2028 || c == 0x2029 || c == 0x202F || c == 0x205F || c == 0x3000 || c == 0xFEFF
  }

  function TrimBy<T>(t: seq<T>, code: T -> int): seq<T>
    decreases |t|
  {
    if t == [] then []
    else if WhiteSpaceCode(code(t[0])) then TrimBy(t[1..], code)
    else if WhiteSpaceCode(code(t[|t| - 1])) then TrimBy(t[..|t| - 1], code)
    else t
  }

  predicate AllSpace<T>(t: seq<T>, code: T -> int) {
    forall i :: 0 <= i < |t| ==> WhiteSpaceCode(code(t[i]))
  }

  predicate NoSpaceAround<T>(t: seq<T>, code: T -> int) {
    t != [] ==> !WhiteSpaceCode(code(t[0])) && !WhiteSpaceCode(code(t[|t| - 1]))
  }

  lemma MoreSpace<T>(t: seq<T>, x: T, code: T -> int)
    requires AllSpace(t, code) && WhiteSpaceCode(code(x))
    ensures AllSpace([x] + t, code) && AllSpace(t + [x], code)
  {
    hide WhiteSpaceCode;
  }

  /** What trimming takes away is whitespace at both ends, and all of it. */
  lemma {:induction false} TrimIs<T>(t: seq<T>, code: T -> int) returns (before: seq<T>, after: seq<T>)
    ensures t == before + TrimBy(t, code) + after
    ensures AllSpace(before, code) && AllSpace(after, code) && NoSpaceAround(TrimBy(t, code), code)
    decreases |t|
  {
    before, after := [], [];
    TrimStep(t, code);
    hide TrimBy, AllSpace, NoSpaceAround, WhiteSpaceCode;
    NoSpace(code);
    if t != [] && WhiteSpaceCode(code(t[0])) {
      before, after := TrimIs(t[1..], code);
      MoreSpace(before, t[0], code);
      assert t == [t[0]] + t[1..];
      Around(t[0], t[1..], before, TrimBy(t[1..], code), after);
      before := [t[0]] + before;
    } else if t != [] && WhiteSpaceCode(code(t[|t| - 1])) {
      var front, last := t[..|t| - 1], t[|t| - 1];
      before, after := TrimIs(front, code);
      MoreSpace(after, last, code);
      assert t == front + [last];
      AroundLast(last, front, before, TrimBy(front, code), after);
      after := after + [last];
    } else {
      assert [] + t + [] == t;
    }
  }

  lemma NoSpace<T>(code: T -> int)
    ensures AllSpace([], code)
  {
  }

  lemma TrimStep<T>(t: seq<T>, code: T -> int)
    ensures t != [] && WhiteSpaceCode(code(t[0])) ==> TrimBy(t, code) == TrimBy(t[1..], code)
    ensures t != [] && !WhiteSpaceCode(code(t[0])) && WhiteSpaceCode(code(t[|t| - 1])) ==> TrimBy(t, code) == TrimBy(t[..|t| - 1], code)
    ensures t == [] || (!WhiteSpaceCode(code(t[0])) && !WhiteSpaceCode(code(t[|t| - 1]))) ==> TrimBy(t, code) == t && NoSpaceAround(t, code)
  {
    hide WhiteSpaceCode;
  }

  lemma AroundLast<T>(x: T, rest: seq<T>, before: seq<T>, middle: seq<T>, after: seq<T>)
    requires rest == before + middle + after
    ensures rest + [x] == before + middle + (after + [x])
  {
  }

  lemma Around<T>(x: T, rest: seq<T>, before: seq<T>, middle: seq<T>, after: seq<T>)
    requires rest == before + middle + after
    ensures [x] + rest == ([x] + before) + middle + after
  {
  }
}
