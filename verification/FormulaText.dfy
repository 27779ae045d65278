/**
 * Formula text. The compiler replaces ids with the regular expression `\bid\b`;
 * this module gives that replacement character by character and shows what it
 * does to the words and other characters a formula is made of.
 */
module FormulaText {

  /** `\w` */
  predicate WordChar(c: char) {
    'a' <= c <= 'z' || 'A' <= c <= 'Z' || '0' <= c <= '9' || c == '_'
  }

  /** Digits, capitals, the underscore and small letters, and no other character. */
  lemma WordCharIs(c: char)
    ensures WordChar(c) <==> 48 <= c as int <= 57 || 65 <= c as int <= 90 || c as int == 95 || 97 <= c as int <= 122
  {
  }

  predicate IsWord(w: string) {
    w != [] && forall i :: 0 <= i < |w| ==> WordChar(w[i])
  }

  /** A maximal run of word characters, or one other character. */
  datatype Token = Word(w: string) | Mark(c: char)

  function WordRun(s: string): (n: nat)
    ensures n <= |s|
    ensures forall i :: 0 <= i < n ==> WordChar(s[i])
    ensures n < |s| ==> !WordChar(s[n])
  {
    if s == [] || !WordChar(s[0]) then 0 else 1 + WordRun(s[1..])
  }

  function Lex(s: string): seq<Token>
    decreases |s|
  {
    if s == [] then []
    else if WordChar(s[0]) then
      var n := WordRun(s);
      [Word(s[..n])] + Lex(s[n..])
    else [Mark(s[0])] + Lex(s[1..])
  }

  function TokenText(t: Token): string {
    match t case Word(w) => w case Mark(c) => [c]
  }

  function Unlex(ts: seq<Token>): string {
    if ts == [] then [] else TokenText(ts[0]) + Unlex(ts[1..])
  }

  /** What lexing produces: words of word characters, never two side by side. */
  predicate Lexed(ts: seq<Token>) {
    && (forall i :: 0 <= i < |ts| ==> (ts[i].Word? ==> IsWord(ts[i].w)) && (ts[i].Mark? ==> !WordChar(ts[i].c)))
    && (forall i :: 0 <= i < |ts| - 1 ==> ts[i].Mark? || ts[i + 1].Mark?)
  }

  lemma LexedCons(t: Token, ts: seq<Token>)
    requires Lexed(ts) && (t.Word? ==> IsWord(t.w)) && (t.Mark? ==> !WordChar(t.c))
    requires t.Word? && ts != [] ==> ts[0].Mark?
    ensures Lexed([t] + ts)
  {
    var all := [t] + ts;
    assert forall i :: 0 < i < |all| ==> all[i] == ts[i - 1];
  }

  lemma UnlexCons(t: Token, ts: seq<Token>)
    ensures Unlex([t] + ts) == TokenText(t) + Unlex(ts)
  {
    assert ([t] + ts)[1..] == ts;
  }

  /** The first token of a non-empty text, and the text after it. */
  lemma LexStep(s: string) returns (t: Token, rest: string)
    requires s != []
    ensures |rest| < |s| && Lex(s) == [t] + Lex(rest) && s == TokenText(t) + rest
    ensures (t.Word? ==> IsWord(t.w)) && (t.Mark? ==> !WordChar(t.c))
    ensures t.Word? <==> WordChar(s[0])
    ensures t.Word? && rest != [] ==> !WordChar(rest[0])
  {
    if WordChar(s[0]) {
      var n := WordRun(s);
      t, rest := Word(s[..n]), s[n..];
    } else {
      t, rest := Mark(s[0]), s[1..];
    }
  }

  lemma {:induction false} LexIsLexed(s: string)
    ensures Lexed(Lex(s)) && Unlex(Lex(s)) == s
    ensures s != [] ==> Lex(s) != [] && (Lex(s)[0].Mark? <==> !WordChar(s[0]))
    ensures s == [] ==> Lex(s) == []
    decreases |s|
  {
    hide Lexed, Lex, Unlex;
    if s == [] {
      EmptyIsLexed();
    } else {
      var t, rest := LexStep(s);
      LexIsLexed(rest);
      LexedCons(t, Lex(rest));
      UnlexCons(t, Lex(rest));
    }
  }

  lemma EmptyIsLexed()
    ensures Lexed([]) && Unlex([]) == [] && Lex([]) == []
  {
  }

  lemma {:induction false} LexOfUnlex(ts: seq<Token>)
    requires Lexed(ts)
    ensures Lex(Unlex(ts)) == ts
  {
    if ts != [] {
      var rest := Unlex(ts[1..]);
      assert Lexed(ts[1..]);
      LexOfUnlex(ts[1..]);
      match ts[0]
      case Mark(c) => assert ([c] + rest)[1..] == rest;
      case Word(w) =>
        if |ts| > 1 {
          assert ts[1].Mark? && ts[1..][0] == ts[1];
          assert rest[0] == ts[1].c;
        }
        WordRunThen(w, rest);
        assert (w + rest)[..|w|] == w && (w + rest)[|w|..] == rest;
    }
  }

  lemma {:induction false} WordRunThen(w: string, rest: string)
    requires forall i :: 0 <= i < |w| ==> WordChar(w[i])
    requires rest == [] || !WordChar(rest[0])
    ensures WordRun(w + rest) == |w|
  {
    if w == [] {
      assert w + rest == rest;
    } else {
      WordRunThen(w[1..], rest);
      assert (w + rest)[1..] == w[1..] + rest;
    }
  }

  lemma {:induction false} UnlexConcat(a: seq<Token>, b: seq<Token>)
    ensures Unlex(a + b) == Unlex(a) + Unlex(b)
  {
    if a == [] {
      assert a + b == b;
    } else {
      var c := a + b;
      assert c[0] == a[0] && c[1..] == a[1..] + b;
      UnlexConcat(a[1..], b);
      calc {
        Unlex(c);
        TokenText(a[0]) + Unlex(c[1..]);
        TokenText(a[0]) + (Unlex(a[1..]) + Unlex(b));
        (TokenText(a[0]) + Unlex(a[1..])) + Unlex(b);
      }
    }
  }

  lemma LexedConcat(a: seq<Token>, b: seq<Token>)
    requires Lexed(a) && Lexed(b) && (a == [] || b == [] || a[|a| - 1].Mark? || b[0].Mark?)
    ensures Lexed(a + b)
  {
    var c := a + b;
    forall i | 0 <= i < |c| - 1 ensures c[i].Mark? || c[i + 1].Mark? {
      if i >= |a| { assert c[i] == b[i - |a|] && c[i + 1] == b[i + 1 - |a|]; }
    }
  }

  lemma LexedParts(ts: seq<Token>, n: nat)
    requires Lexed(ts) && n <= |ts|
    ensures Lexed(ts[..n]) && Lexed(ts[n..])
  {
  }

  /** A text that ends in a word character ends in a word. */
  lemma LastToken(s: string)
    requires s != []
    ensures Lex(s) != [] && (Lex(s)[|Lex(s)| - 1].Word? <==> WordChar(s[|s| - 1]))
  {
    LexIsLexed(s);
    hide Lex;
    LastCharacter(Lex(s));
  }

  lemma LastCharacter(ts: seq<Token>)
    requires Lexed(ts) && ts != []
    ensures Unlex(ts) != [] && (ts[|ts| - 1].Word? <==> WordChar(Unlex(ts)[|Unlex(ts)| - 1]))
  {
    var front, last := ts[..|ts| - 1], ts[|ts| - 1];
    assert ts == front + [last];
    UnlexConcat(front, [last]);
    UnlexCons(last, []);
    assert [last] + [] == [last] && TokenText(last) + Unlex([]) == TokenText(last);
    var text := TokenText(last);
    hide Unlex;
    assert Unlex(ts)[|Unlex(ts)| - 1] == text[|text| - 1];
  }

  /** Two texts put together have the tokens of both, unless a word would run across. */
  lemma LexConcat(a: string, b: string)
    requires a == [] || b == [] || !WordChar(a[|a| - 1]) || !WordChar(b[0])
    ensures Lex(a + b) == Lex(a) + Lex(b)
  {
    LexIsLexed(a);
    LexIsLexed(b);
    if a != [] { LastToken(a); }
    hide Lex;
    LexedConcat(Lex(a), Lex(b));
    UnlexConcat(Lex(a), Lex(b));
    LexOfUnlex(Lex(a) + Lex(b));
  }

  // ---- regular-expression replacement ----

  /** `\b` between positions `i - 1` and `i` */
  predicate Boundary(s: string, i: int)
    requires 0 <= i <= |s|
  {
    (i > 0 && WordChar(s[i - 1])) != (i < |s| && WordChar(s[i]))
  }

  predicate MatchesAt(s: string, id: string, i: int)
    requires 0 <= i <= |s|
  {
    && i + |id| <= |s| && s[i..i + |id|] == id
    && Boundary(s, i) && Boundary(s, i + |id|)
  }

  /** `s.replace(/\bid\b/g, text)` with `i` characters already passed. */
  function ReplaceFrom(s: string, id: string, text: string, i: int): string
    requires 0 <= i <= |s| && id != []
    decreases |s| - i
  {
    if i == |s| then []
    else if MatchesAt(s, id, i) then text + ReplaceFrom(s, id, text, i + |id|)
    else [s[i]] + ReplaceFrom(s, id, text, i + 1)
  }

  function ReplaceWord(s: string, id: string, text: string): string
    requires id != []
  {
    ReplaceFrom(s, id, text, 0)
  }

  /** A text with a word character at both ends. */
  predicate Bounded(id: string) {
    id != [] && WordChar(id[0]) && WordChar(id[|id| - 1])
  }

  predicate Begins(ts: seq<Token>, part: seq<Token>) {
    |part| <= |ts| && ts[..|part|] == part
  }

  /** Each run of tokens that is `part` is replaced, from left to right. */
  function SubstituteRun(ts: seq<Token>, part: seq<Token>, tokens: seq<Token>): seq<Token>
    requires part != []
  {
    if ts == [] then []
    else if Begins(ts, part) then tokens + SubstituteRun(ts[|part|..], part, tokens)
    else [ts[0]] + SubstituteRun(ts[1..], part, tokens)
  }

  /** Each word that `refs` names is replaced by the tokens it stands for, all at once. */
  function Substitute(ts: seq<Token>, refs: map<string, seq<Token>>): seq<Token> {
    if ts == [] then []
    else (if ts[0].Word? && ts[0].w in refs then refs[ts[0].w] else [ts[0]]) + Substitute(ts[1..], refs)
  }

  /** Inside a word nothing matches. */
  lemma {:induction false} InteriorCopied(s: string, id: string, text: string, i: int, end: int)
    requires id != [] && 0 < i <= end <= |s|
    requires forall k :: i - 1 <= k < end ==> WordChar(s[k])
    ensures ReplaceFrom(s, id, text, i) == s[i..end] + ReplaceFrom(s, id, text, end)
    decreases end - i
  {
    hide MatchesAt;
    if i < end {
      NoMatchInside(s, id, i);
      InteriorCopied(s, id, text, i + 1, end);
      ConcatHead(s[i], s[i + 1..end], ReplaceFrom(s, id, text, end));
      assert s[i..end] == [s[i]] + s[i + 1..end];
    } else {
      assert s[i..end] == [];
    }
  }

  lemma NoMatchInside(s: string, id: string, i: int)
    requires 0 < i < |s| && WordChar(s[i - 1]) && WordChar(s[i])
    ensures !MatchesAt(s, id, i)
  {
    assert !Boundary(s, i);
  }

  predicate TokenStart(s: string, i: int)
    requires 0 <= i <= |s|
  {
    i == 0 || i == |s| || !(WordChar(s[i - 1]) && WordChar(s[i]))
  }

  /** Where the expression matches, the text's tokens begin with the id's. */
  lemma MatchBegins(s: string, id: string, i: int)
    requires Bounded(id) && 0 <= i <= |s| && MatchesAt(s, id, i)
    ensures i + |id| <= |s| && Lex(s[i..]) == Lex(id) + Lex(s[i + |id|..]) && TokenStart(s, i + |id|)
  {
    var rest := s[i + |id|..];
    assert s[i..] == id + rest;
    assert rest != [] ==> rest[0] == s[i + |id|];
    assert s[i + |id| - 1] == s[i..i + |id|][|id| - 1];
    assert !(i + |id| < |s| && WordChar(s[i + |id|]));
    LexConcat(id, rest);
  }

  lemma AfterAWord(part: seq<Token>, after: seq<Token>)
    requires Lexed(part + after) && part != [] && part[|part| - 1].Word?
    ensures Unlex(after) == [] || !WordChar(Unlex(after)[0])
  {
    var ts := part + after;
    if after != [] {
      assert ts[|part|] == after[0] && ts[|part| - 1] == part[|part| - 1];
    }
  }

  lemma ConcatPrefix(t: string, id: string, rest: string)
    requires t == id + rest && (rest == [] || !WordChar(rest[0]))
    ensures |id| <= |t| && t[..|id|] == id && (|id| < |t| ==> !WordChar(t[|id|]))
  {
  }

  lemma TextOfTokens(t: string, id: string, part: seq<Token>, after: seq<Token>)
    requires Lexed(part + after) && Unlex(part + after) == t && Unlex(part) == id
    requires part != [] && part[|part| - 1].Word?
    ensures |id| <= |t| && t[..|id|] == id && (|id| < |t| ==> !WordChar(t[|id|]))
  {
    hide *;
    UnlexConcat(part, after);
    AfterAWord(part, after);
    ConcatPrefix(t, id, Unlex(after));
  }

  lemma TextBegins(t: string, id: string)
    requires Bounded(id) && Begins(Lex(t), Lex(id))
    ensures |id| <= |t| && t[..|id|] == id && (|id| < |t| ==> !WordChar(t[|id|]))
  {
    hide Lex, Unlex, Lexed, WordChar;
    var ts, part := Lex(t), Lex(id);
    LexIsLexed(t);
    LexIsLexed(id);
    LastToken(id);
    var after := ts[|part|..];
    assert ts == part + after;
    TextOfTokens(t, id, part, after);
  }

  /** And where they do, it matches. */
  lemma BeginsMatches(s: string, id: string, i: int)
    requires Bounded(id) && 0 <= i <= |s| && TokenStart(s, i) && Begins(Lex(s[i..]), Lex(id))
    ensures MatchesAt(s, id, i)
  {
    var t := s[i..];
    TextBegins(t, id);
    assert s[i..i + |id|] == t[..|id|];
    assert s[i] == t[0] && t[0] == t[..|id|][0];
    assert s[i + |id| - 1] == t[|id| - 1] && t[|id| - 1] == t[..|id|][|id| - 1];
    assert |id| < |t| ==> s[i + |id|] == t[|id|];
  }

  lemma LexWordFirst(s: string, i: nat, next: nat)
    requires i < |s| && WordChar(s[i]) && next == i + WordRun(s[i..])
    ensures next <= |s| && Lex(s[i..]) == [Word(s[i..][..next - i])] + Lex(s[next..])
  {
    var t := s[i..];
    assert t[next - i..] == s[next..];
  }

  lemma FirstToken(s: string, i: nat) returns (next: nat)
    requires i < |s|
    ensures i < next <= |s| && Lex(s[i..]) == [if WordChar(s[i]) then Word(s[i..next]) else Mark(s[i])] + Lex(s[next..])
    ensures WordChar(s[i]) ==> forall k :: i <= k < next ==> WordChar(s[k])
    ensures !WordChar(s[i]) ==> next == i + 1
    ensures TokenStart(s, next)
  {
    var t := s[i..];
    if WordChar(s[i]) {
      next := i + WordRun(t);
      WordRunEnds(s, i);
      assert t[next - i..] == s[next..] && t[..next - i] == s[i..next];
    } else {
      next := i + 1;
      assert t[1..] == s[next..];
    }
  }

  lemma WordRunEnds(s: string, i: nat)
    requires i < |s| && WordChar(s[i])
    ensures i < i + WordRun(s[i..]) <= |s|
    ensures forall k :: i <= k < i + WordRun(s[i..]) ==> WordChar(s[k])
    ensures i + WordRun(s[i..]) == |s| || !WordChar(s[i + WordRun(s[i..])])
  {
    var t := s[i..];
    assert forall k :: i <= k < |s| ==> t[k - i] == s[k];
  }

  /** Without a match, a token is copied. */
  lemma TokenCopied(s: string, id: string, text: string, i: int, next: int)
    requires id != [] && 0 <= i < next <= |s| && !MatchesAt(s, id, i)
    requires next == i + 1 || forall k :: i <= k < next ==> WordChar(s[k])
    ensures ReplaceFrom(s, id, text, i) == s[i..next] + ReplaceFrom(s, id, text, next)
  {
    hide MatchesAt;
    if next == i + 1 {
      assert s[i..next] == [s[i]];
    } else {
      InteriorCopied(s, id, text, i + 1, next);
      ConcatHead(s[i], s[i + 1..next], ReplaceFrom(s, id, text, next));
      assert s[i..next] == [s[i]] + s[i + 1..next];
    }
  }

  lemma ConcatHead(c: char, w: string, rest: string)
    ensures [c] + (w + rest) == ([c] + w) + rest
  {
  }

  lemma RunHere(part: seq<Token>, rest: seq<Token>, tokens: seq<Token>)
    requires part != []
    ensures Unlex(SubstituteRun(part + rest, part, tokens)) == Unlex(tokens) + Unlex(SubstituteRun(rest, part, tokens))
  {
    assert (part + rest)[..|part|] == part && (part + rest)[|part|..] == rest;
    UnlexConcat(tokens, SubstituteRun(rest, part, tokens));
  }

  lemma NoRunHere(t: Token, rest: seq<Token>, part: seq<Token>, tokens: seq<Token>)
    requires part != [] && !Begins([t] + rest, part)
    ensures Unlex(SubstituteRun([t] + rest, part, tokens)) == TokenText(t) + Unlex(SubstituteRun(rest, part, tokens))
  {
    assert ([t] + rest)[1..] == rest;
    UnlexCons(t, SubstituteRun(rest, part, tokens));
  }

  lemma ReplaceAtMatch(s: string, id: string, tokens: seq<Token>, i: int)
    requires Bounded(id) && Lex(id) != [] && 0 <= i < |s| && MatchesAt(s, id, i)
    requires ReplaceFrom(s, id, Unlex(tokens), i + |id|) == Unlex(SubstituteRun(Lex(s[i + |id|..]), Lex(id), tokens))
    ensures ReplaceFrom(s, id, Unlex(tokens), i) == Unlex(SubstituteRun(Lex(s[i..]), Lex(id), tokens))
  {
    MatchBegins(s, id, i);
    hide Lex, SubstituteRun, Unlex, MatchesAt;
    RunHere(Lex(id), Lex(s[i + |id|..]), tokens);
  }

  lemma ReplaceElsewhere(s: string, id: string, tokens: seq<Token>, i: int, next: int)
    requires Bounded(id) && Lex(id) != [] && 0 <= i < next <= |s| && TokenStart(s, i) && !MatchesAt(s, id, i)
    requires if WordChar(s[i]) then forall k :: i <= k < next ==> WordChar(s[k]) else next == i + 1
    requires Lex(s[i..]) == [if WordChar(s[i]) then Word(s[i..next]) else Mark(s[i])] + Lex(s[next..])
    requires ReplaceFrom(s, id, Unlex(tokens), next) == Unlex(SubstituteRun(Lex(s[next..]), Lex(id), tokens))
    ensures ReplaceFrom(s, id, Unlex(tokens), i) == Unlex(SubstituteRun(Lex(s[i..]), Lex(id), tokens))
  {
    hide MatchesAt, Lex, SubstituteRun, Unlex, Begins, ReplaceFrom;
    if Begins(Lex(s[i..]), Lex(id)) { BeginsMatches(s, id, i); }
    TokenCopied(s, id, Unlex(tokens), i, next);
    NoRunHere(if WordChar(s[i]) then Word(s[i..next]) else Mark(s[i]), Lex(s[next..]), Lex(id), tokens);
    assert !WordChar(s[i]) ==> s[i..next] == [s[i]];
  }

  lemma ReplaceAtEnd(s: string, id: string, tokens: seq<Token>)
    requires id != [] && Lex(id) != []
    ensures ReplaceFrom(s, id, Unlex(tokens), |s|) == Unlex(SubstituteRun(Lex(s[|s|..]), Lex(id), tokens))
  {
    assert s[|s|..] == [] && Lex([]) == [];
  }

  lemma {:induction false} ReplaceIsSubstituteFrom(s: string, id: string, tokens: seq<Token>, i: int)
    requires Bounded(id) && Lex(id) != [] && 0 <= i <= |s| && TokenStart(s, i)
    ensures ReplaceFrom(s, id, Unlex(tokens), i) == Unlex(SubstituteRun(Lex(s[i..]), Lex(id), tokens))
    decreases |s| - i
  {
    hide MatchesAt, SubstituteRun, ReplaceFrom, Lex, Unlex, TokenStart;
    if i == |s| {
      ReplaceAtEnd(s, id, tokens);
    } else if MatchesAt(s, id, i) {
      MatchBegins(s, id, i);
      ReplaceIsSubstituteFrom(s, id, tokens, i + |id|);
      ReplaceAtMatch(s, id, tokens, i);
    } else {
      var next := FirstToken(s, i);
      ReplaceIsSubstituteFrom(s, id, tokens, next);
      ReplaceElsewhere(s, id, tokens, i, next);
    }
  }

  /** Replacing an id in a text replaces it, as a run of tokens, among the text's tokens. */
  lemma ReplaceIsSubstitute(s: string, id: string, tokens: seq<Token>)
    requires Bounded(id)
    ensures Lex(id) != [] && ReplaceWord(s, id, Unlex(tokens)) == Unlex(SubstituteRun(Lex(s), Lex(id), tokens))
  {
    LastToken(id);
    ReplaceIsSubstituteFrom(s, id, tokens, 0);
    assert s[0..] == s;
  }
}
