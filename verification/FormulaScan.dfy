/**
 * The references the publish guard finds in a formula: the matches of
 * `\b(fld_[a-z0-9_-]+|calc_[a-z0-9_-]+)\b`, in any case, from left to right.
 */
module FormulaScan {
  import opened Wrappers
  import opened FormulaText
  import opened FormulaCompiler
  import opened Whitespace

  /** `[a-z0-9_-]`, in any case */
  predicate IdChar(c: char) {
    WordChar(c) || c == '-'
  }

  /** Where the run of id characters from `i` ends. */
  function IdEnd(s: string, i: nat): (n: nat)
    requires i <= |s|
    ensures i <= n <= |s|
    ensures forall k :: i <= k < n ==> IdChar(s[k])
    ensures n < |s| ==> !IdChar(s[n])
    decreases |s| - i
  {
    if i == |s| || !IdChar(s[i]) then i else IdEnd(s, i + 1)
  }

  predicate FldAt(s: string, i: nat) {
    && i + 4 <= |s| && (s[i] == 'f' || s[i] == 'F') && (s[i + 1] == 'l' || s[i + 1] == 'L')
    && (s[i + 2] == 'd' || s[i + 2] == 'D') && s[i + 3] == '_'
  }

  predicate CalcAt(s: string, i: nat) {
    && i + 5 <= |s| && (s[i] == 'c' || s[i] == 'C') && (s[i + 1] == 'a' || s[i + 1] == 'A')
    && (s[i + 2] == 'l' || s[i + 2] == 'L') && (s[i + 3] == 'c' || s[i + 3] == 'C') && s[i + 4] == '_'
  }

  /** Length of `fld_` or `calc_` at a position, or 0. */
  function PrefixAt(s: string, i: nat): (n: nat)
    requires i <= |s|
    ensures i + n <= |s|
  {
    if FldAt(s, i) then 4 else if CalcAt(s, i) then 5 else 0
  }

  /** The last boundary after `lo` and not after `k`: a greedy run gives characters back until one is found. */
  function Backtrack(s: string, lo: nat, k: nat): (r: Option<nat>)
    requires k <= |s|
    ensures r.Some? ==> lo < r.value <= k && Boundary(s, r.value) && forall j :: r.value < j <= k ==> !Boundary(s, j)
    ensures r.None? ==> forall j :: lo < j <= k ==> !Boundary(s, j)
  {
    if k <= lo then None else if Boundary(s, k) then Some(k) else Backtrack(s, lo, k - 1)
  }

  /** Where a match that starts at `i` ends. */
  function MatchEnd(s: string, i: nat): (r: Option<nat>)
    requires i <= |s|
    ensures r.Some? ==> i < r.value <= |s|
  {
    var prefix := PrefixAt(s, i);
    if !Boundary(s, i) || prefix == 0 then None else Backtrack(s, i + prefix, IdEnd(s, i + prefix))
  }

  function RefsFrom(s: string, i: nat): seq<string>
    requires i <= |s|
    decreases |s| - i
  {
    if i == |s| then []
    else match MatchEnd(s, i)
      case Some(end) => [s[i..end]] + RefsFrom(s, end)
      case None => RefsFrom(s, i + 1)
  }

  /** `formula.matchAll(FORMULA_ID_RE)` */
  function FormulaRefs(s: string): seq<string> {
    RefsFrom(s, 0)
  }

  // ---- the scan is that of the expression ----

  /** `s[i..end]` matches the expression: the prefix in any case, one or more id characters, a word boundary at both ends. */
  predicate Matches(s: string, i: nat, end: nat) {
    && i < end <= |s| && Boundary(s, i) && Boundary(s, end)
    && (FldAt(s, i) || CalcAt(s, i))
    && i + (if FldAt(s, i) then 4 else 5) < end
    && forall k :: i + (if FldAt(s, i) then 4 else 5) <= k < end ==> IdChar(s[k])
  }

  /** The longest match at `i`. */
  predicate MatchesLongest(s: string, i: nat, end: nat) {
    Matches(s, i, end) && forall more :: end < more <= |s| ==> !Matches(s, i, more)
  }

  lemma RunGoesThatFar(s: string, lo: nat, end: nat)
    requires lo <= end <= |s| && forall k :: lo <= k < end ==> IdChar(s[k])
    ensures end <= IdEnd(s, lo)
  {
  }

  /** A greedy match is the longest there is. */
  lemma MatchIsLongest(s: string, i: nat)
    requires i <= |s|
    ensures MatchEnd(s, i).Some? ==> MatchesLongest(s, i, MatchEnd(s, i).value)
    ensures MatchEnd(s, i).None? ==> forall end :: i < end <= |s| ==> !Matches(s, i, end)
  {
    var lo := i + PrefixAt(s, i);
    forall end | lo < end <= |s| && Matches(s, i, end) ensures end <= IdEnd(s, lo) { RunGoesThatFar(s, lo, end); }
  }

  /** From `from` on, these are the places of the leftmost longest matches, none overlapping the one before. */
  predicate Scans(s: string, from: nat, places: seq<(nat, nat)>)
    decreases |places|
  {
    if places == [] then forall i, end :: from <= i < end <= |s| ==> !Matches(s, i, end)
    else
      var (i, end) := places[0];
      && from <= i && MatchesLongest(s, i, end)
      && (forall j, e :: from <= j < i && j < e <= |s| ==> !Matches(s, j, e))
      && Scans(s, end, places[1..])
  }

  function TextsAt(s: string, places: seq<(nat, nat)>): (texts: seq<string>)
    requires forall k :: 0 <= k < |places| ==> places[k].0 <= places[k].1 <= |s|
    ensures |texts| == |places|
  {
    seq(|places|, k requires 0 <= k < |places| => s[places[k].0..places[k].1])
  }

  lemma {:induction false} ScansFrom(s: string, from: nat) returns (places: seq<(nat, nat)>)
    requires from <= |s|
    ensures forall k :: 0 <= k < |places| ==> places[k].0 <= places[k].1 <= |s|
    ensures Scans(s, from, places) && RefsFrom(s, from) == TextsAt(s, places)
    decreases |s| - from
  {
    places := [];
    MatchIsLongest(s, from);
    hide MatchEnd, Matches, MatchesLongest, TextsAt;
    if from == |s| {
      assert TextsAt(s, places) == [];
    } else if MatchEnd(s, from).Some? {
      var end := MatchEnd(s, from).value;
      var rest := ScansFrom(s, end);
      places := [(from, end)] + rest;
      assert places[1..] == rest;
      FirstText(s, from, end, rest);
    } else {
      places := ScansFrom(s, from + 1);
      NoneStartsHere(s, from, places);
    }
  }

  lemma FirstText(s: string, i: nat, end: nat, rest: seq<(nat, nat)>)
    requires i <= end <= |s| && forall k :: 0 <= k < |rest| ==> rest[k].0 <= rest[k].1 <= |s|
    ensures TextsAt(s, [(i, end)] + rest) == [s[i..end]] + TextsAt(s, rest)
  {
  }

  lemma NoneStartsHere(s: string, i: nat, places: seq<(nat, nat)>)
    requires i < |s| && Scans(s, i + 1, places) && forall end :: i < end <= |s| ==> !Matches(s, i, end)
    ensures Scans(s, i, places)
  {
    hide Matches, MatchesLongest;
  }

  /** The references found are the texts of the leftmost longest matches of the expression, from left to right. */
  lemma RefsAreMatches(formula: string)
    ensures exists places: seq<(nat, nat)> ::
      && (forall k :: 0 <= k < |places| ==> places[k].0 <= places[k].1 <= |formula|)
      && Scans(formula, 0, places) && FormulaRefs(formula) == TextsAt(formula, places)
  {
    var places := ScansFrom(formula, 0);
  }

  // ---- glued words ----

  /** From `j` come one or more hyphens and then directly a word character. */
  predicate HyphensThenWord(s: string, j: nat)
    decreases |s| - j
  {
    j + 1 < |s| && s[j] == '-' && (WordChar(s[j + 1]) || HyphensThenWord(s, j + 1))
  }

  predicate WordStart(s: string, i: nat) {
    i < |s| && WordChar(s[i]) && (i == 0 || !WordChar(s[i - 1]))
  }

  function WordEnd(s: string, i: nat): (n: nat)
    requires i <= |s|
    ensures i <= n <= |s|
  {
    i + WordRun(s[i..])
  }

  /** A word that begins with `fld_` or `calc_`, in any case, is tied to the next by hyphens. */
  predicate GluedAt(s: string, i: nat) {
    WordStart(s, i) && PrefixAt(s, i) > 0 && HyphensThenWord(s, WordEnd(s, i))
  }

  predicate Glued(s: string) {
    exists i: nat :: i < |s| && GluedAt(s, i)
  }

  lemma {:induction false} IdEndSkips(s: string, i: nat, j: nat)
    requires i <= j <= |s| && forall k :: i <= k < j ==> IdChar(s[k])
    ensures IdEnd(s, i) == IdEnd(s, j)
    decreases j - i
  {
    if i < j { IdEndSkips(s, i + 1, j); }
  }

  /** Hyphens that tie nothing have no boundary after the first. */
  lemma {:induction false} LooseHyphens(s: string, j: nat)
    requires j <= |s| && (j == |s| || !WordChar(s[j])) && !HyphensThenWord(s, j)
    ensures forall k :: j < k <= IdEnd(s, j) ==> !Boundary(s, k)
    decreases |s| - j
  {
    if j < |s| && s[j] == '-' { LooseHyphens(s, j + 1); }
  }

  lemma {:induction false} TiedBoundary(s: string, j: nat) returns (k: nat)
    requires HyphensThenWord(s, j)
    ensures j < k < |s| && k <= IdEnd(s, j) && Boundary(s, k)
    decreases |s| - j
  {
    if WordChar(s[j + 1]) {
      k := j + 1;
    } else {
      k := TiedBoundary(s, j + 1);
    }
  }

  lemma WordEndIs(s: string, i: nat)
    requires WordStart(s, i)
    ensures i < WordEnd(s, i) && forall k :: i <= k < WordEnd(s, i) ==> WordChar(s[k])
    ensures WordEnd(s, i) == |s| || !WordChar(s[WordEnd(s, i)])
    ensures Boundary(s, i) && Boundary(s, WordEnd(s, i))
  {
    WordRunEnds(s, i);
  }

  lemma PrefixWithinWord(s: string, i: nat)
    requires WordStart(s, i)
    ensures i + PrefixAt(s, i) <= WordEnd(s, i)
    ensures IsWord(s[i..WordEnd(s, i)])
    ensures Identifier(s[i..WordEnd(s, i)]) <==> PrefixAt(s, i) > 0 && i + PrefixAt(s, i) < WordEnd(s, i)
  {
    WordEndIs(s, i);
    hide WordEnd;
    var next := WordEnd(s, i);
    var w := s[i..next];
    assert forall k :: 0 <= k < |w| ==> w[k] == s[i + k];
  }

  /** A run of id characters from within a word goes on where the word ends. */
  lemma RunFromWord(s: string, i: nat)
    requires WordStart(s, i) && PrefixAt(s, i) > 0
    ensures i + PrefixAt(s, i) <= WordEnd(s, i)
    ensures MatchEnd(s, i) == Backtrack(s, i + PrefixAt(s, i), IdEnd(s, WordEnd(s, i)))
  {
    WordEndIs(s, i);
    PrefixWithinWord(s, i);
    hide WordEnd, Backtrack, Boundary, PrefixAt;
    IdEndSkips(s, i + PrefixAt(s, i), WordEnd(s, i));
  }

  /** At the start of a word that is not glued there is a match exactly when the whole word is an identifier, and then that is what it matches. */
  lemma MatchIsIdentifierWord(s: string, i: nat)
    requires WordStart(s, i) && !GluedAt(s, i)
    ensures MatchEnd(s, i) == if Identifier(s[i..WordEnd(s, i)]) then Some(WordEnd(s, i)) else None
  {
    WordEndIs(s, i);
    PrefixWithinWord(s, i);
    if PrefixAt(s, i) > 0 {
      LooseHyphens(s, WordEnd(s, i));
      RunFromWord(s, i);
      hide WordEnd, Boundary, PrefixAt, MatchEnd, Identifier, IdEnd;
    }
  }

  /** A glued word's match goes on past the hyphens. */
  lemma GluedMatch(s: string, i: nat)
    requires GluedAt(s, i)
    ensures MatchEnd(s, i).Some? && WordEnd(s, i) < MatchEnd(s, i).value && s[WordEnd(s, i)] == '-'
  {
    WordEndIs(s, i);
    var k := TiedBoundary(s, WordEnd(s, i));
    RunFromWord(s, i);
    hide WordEnd, Boundary, PrefixAt, MatchEnd, IdEnd;
  }

  // ---- the words that look like identifiers ----

  function IdentifierWords(ts: seq<Token>): seq<string> {
    if ts == [] then []
    else (if ts[0].Word? && Identifier(ts[0].w) then [ts[0].w] else []) + IdentifierWords(ts[1..])
  }

  lemma {:induction false} NoMatchInWord(s: string, i: nat, end: nat)
    requires 0 < i <= end <= |s|
    requires forall k :: i - 1 <= k < end ==> WordChar(s[k])
    ensures RefsFrom(s, i) == RefsFrom(s, end)
    decreases end - i
  {
    if i < end {
      assert !Boundary(s, i);
      NoMatchInWord(s, i + 1, end);
    }
  }

  lemma IdentifierWordsStep(t: Token, ts: seq<Token>)
    ensures IdentifierWords([t] + ts) == (if t.Word? && Identifier(t.w) then [t.w] else []) + IdentifierWords(ts)
  {
    assert ([t] + ts)[1..] == ts;
  }

  predicate BetweenWords(s: string, i: nat) {
    i <= |s| && (i == 0 || i == |s| || !(WordChar(s[i - 1]) && WordChar(s[i])))
  }

  /** The scan passes a word that is not glued, taking it when it is an identifier. */
  lemma RefsPastWord(s: string, i: nat)
    requires WordStart(s, i) && !GluedAt(s, i)
    ensures BetweenWords(s, WordEnd(s, i))
    ensures RefsFrom(s, i) ==
      (if Identifier(s[i..WordEnd(s, i)]) then [s[i..WordEnd(s, i)]] else []) + RefsFrom(s, WordEnd(s, i))
  {
    WordEndIs(s, i);
    MatchIsIdentifierWord(s, i);
    hide WordEnd, MatchEnd, Identifier;
    if !Identifier(s[i..WordEnd(s, i)]) {
      NoMatchInWord(s, i + 1, WordEnd(s, i));
      assert [] + RefsFrom(s, WordEnd(s, i)) == RefsFrom(s, WordEnd(s, i));
    }
  }

  lemma RefsPastMark(s: string, i: nat)
    requires i < |s| && !WordChar(s[i])
    ensures BetweenWords(s, i + 1) && RefsFrom(s, i) == RefsFrom(s, i + 1)
  {
  }

  lemma WordsPastWord(s: string, i: nat)
    requires WordStart(s, i)
    ensures IdentifierWords(Lex(s[i..])) ==
      (if Identifier(s[i..WordEnd(s, i)]) then [s[i..WordEnd(s, i)]] else []) + IdentifierWords(Lex(s[WordEnd(s, i)..]))
  {
    WordEndIs(s, i);
    var next := WordEnd(s, i);
    LexWordFirst(s, i, next);
    assert s[i..][..next - i] == s[i..next];
    hide Lex, Identifier, WordEnd;
    IdentifierWordsStep(Word(s[i..next]), Lex(s[next..]));
  }

  lemma WordsPastMark(s: string, i: nat)
    requires i < |s| && !WordChar(s[i])
    ensures IdentifierWords(Lex(s[i..])) == IdentifierWords(Lex(s[i + 1..]))
  {
    var t := s[i..];
    assert t[0] == s[i] && t[1..] == s[i + 1..];
    assert Lex(t) == [Mark(s[i])] + Lex(t[1..]);
    hide Lex;
    IdentifierWordsStep(Mark(s[i]), Lex(s[i + 1..]));
  }

  lemma {:induction false} RefsFromAreWords(s: string, i: nat)
    requires BetweenWords(s, i) && forall k: nat :: i <= k < |s| ==> !GluedAt(s, k)
    ensures RefsFrom(s, i) == IdentifierWords(Lex(s[i..]))
    decreases |s| - i
  {
    if i == |s| {
      assert s[i..] == [];
    } else if WordChar(s[i]) {
      WordEndIs(s, i);
      hide WordEnd, GluedAt, Identifier, RefsFrom, IdentifierWords, Lex;
      RefsPastWord(s, i);
      WordsPastWord(s, i);
      RefsFromAreWords(s, WordEnd(s, i));
    } else {
      hide GluedAt, RefsFrom, IdentifierWords, Lex;
      RefsPastMark(s, i);
      WordsPastMark(s, i);
      RefsFromAreWords(s, i + 1);
    }
  }

  /** The scan reaches the first glued word and takes its match. */
  lemma {:induction false} GluedMatchIsFound(s: string, i: nat, g: nat)
    requires BetweenWords(s, i) && i <= g && GluedAt(s, g) && forall k: nat :: i <= k < g ==> !GluedAt(s, k)
    ensures MatchEnd(s, g).Some? && s[g..MatchEnd(s, g).value] in RefsFrom(s, i)
    decreases g - i
  {
    hide *;
    GluedMatchIsNext(s, g);
    if i < g && WordChar(s[i]) {
      LooseWordFirst(s, i, g);
      GluedMatchIsFound(s, WordEnd(s, i), g);
    } else if i < g {
      RefsPastMark(s, i);
      GluedMatchIsFound(s, i + 1, g);
    }
  }

  lemma GluedMatchIsNext(s: string, g: nat)
    requires GluedAt(s, g)
    ensures g < |s| && MatchEnd(s, g).Some? && s[g..MatchEnd(s, g).value] in RefsFrom(s, g)
  {
    GluedMatch(s, g);
    hide MatchEnd;
  }

  lemma LooseWordFirst(s: string, i: nat, g: nat)
    requires BetweenWords(s, i) && i < g && GluedAt(s, g) && !GluedAt(s, i) && WordChar(s[i])
    ensures WordEnd(s, i) <= g && BetweenWords(s, WordEnd(s, i)) && i < WordEnd(s, i)
    ensures forall x :: x in RefsFrom(s, WordEnd(s, i)) ==> x in RefsFrom(s, i)
  {
    WordEndIs(s, i);
    hide WordEnd, RefsFrom, PrefixAt, Identifier;
    StartsAfterWord(s, i, g);
    RefsPastWord(s, i);
  }

  lemma StartsAfterWord(s: string, i: nat, g: nat)
    requires WordStart(s, i) && WordStart(s, g) && i < g
    ensures WordEnd(s, i) <= g
  {
    WordEndIs(s, i);
    hide WordEnd;
  }

  lemma {:induction false} FirstGlued(s: string, n: nat) returns (g: nat)
    requires n < |s| && GluedAt(s, n)
    ensures g < |s| && GluedAt(s, g) && forall k: nat :: k < g ==> !GluedAt(s, k)
    decreases n
  {
    hide GluedAt;
    if k: nat :| k < n && GluedAt(s, k) {
      g := FirstGlued(s, k);
    } else {
      g := n;
    }
  }

  // ---- trimming changes no word ----

  lemma LexOfMarked(s: string, c: char)
    requires !WordChar(c)
    ensures Lex(s + [c]) == Lex(s) + [Mark(c)]
  {
    LexIsLexed(s);
    var ts := Lex(s) + [Mark(c)];
    UnlexConcat(Lex(s), [Mark(c)]);
    assert Unlex([Mark(c)]) == [c] + Unlex([Mark(c)][1..]);
    assert Unlex(ts) == s + [c];
    LexOfUnlex(ts);
  }

  lemma {:induction false} IdentifierWordsOfMarked(ts: seq<Token>, c: char)
    ensures IdentifierWords(ts + [Mark(c)]) == IdentifierWords(ts)
  {
    var more := ts + [Mark(c)];
    if ts == [] {
      IdentifierWordsStep(Mark(c), []);
    } else {
      assert more == [ts[0]] + (ts[1..] + [Mark(c)]) && ts == [ts[0]] + ts[1..];
      IdentifierWordsStep(ts[0], ts[1..] + [Mark(c)]);
      IdentifierWordsStep(ts[0], ts[1..]);
      IdentifierWordsOfMarked(ts[1..], c);
    }
  }

  lemma {:induction false} TrimKeepsWords(s: string)
    ensures IdentifierWords(Lex(Trim(s))) == IdentifierWords(Lex(s))
    decreases |s|
  {
    if s == [] {
    } else if WhiteSpaceCode(s[0] as int) {
      TrimKeepsWords(s[1..]);
      assert Lex(s) == [Mark(s[0])] + Lex(s[1..]);
      IdentifierWordsStep(Mark(s[0]), Lex(s[1..]));
    } else if WhiteSpaceCode(s[|s| - 1] as int) {
      var front, last := s[..|s| - 1], s[|s| - 1];
      TrimKeepsWords(front);
      assert s == front + [last];
      LexOfMarked(front, last);
      IdentifierWordsOfMarked(Lex(front), last);
    }
  }

  lemma {:induction false} IdentifierWordsAre(ts: seq<Token>, w: string)
    ensures w in IdentifierWords(ts) <==> Word(w) in ts && Identifier(w)
  {
    if ts != [] {
      IdentifierWordsAre(ts[1..], w);
      IdentifierWordsStep(ts[0], ts[1..]);
      assert ts == [ts[0]] + ts[1..];
    }
  }

  /** The guard sees exactly the identifiers among the formula's words. */
  ghost predicate ScanIsExact(formula: string) {
    forall w :: w in FormulaRefs(formula) <==> Word(w) in FormulaTokens(formula) && Identifier(w)
  }

  lemma TokensKeepWords(formula: string, w: string)
    ensures w in IdentifierWords(Lex(formula)) <==> Word(w) in FormulaTokens(formula) && Identifier(w)
    ensures Word(w) in FormulaTokens(formula) ==> IsWord(w)
  {
    TrimKeepsWords(formula);
    var ts := Lex(Trim(formula));
    LexIsLexed(Trim(formula));
    IdentifierWordsAre(ts, w);
    if ts != [] && ts[0] == Mark('=') {
      assert ts == [ts[0]] + ts[1..];
    }
  }

  /** A formula in which some word is glued gives the guard a reference with a hyphen in it. */
  lemma GluedGivesHyphen(formula: string) returns (g: nat)
    requires Glued(formula)
    ensures GluedAt(formula, g) && MatchEnd(formula, g).Some?
    ensures var ref := formula[g..MatchEnd(formula, g).value]; ref in FormulaRefs(formula) && '-' in ref && !IsWord(ref)
  {
    var n: nat :| n < |formula| && GluedAt(formula, n);
    hide GluedAt, MatchEnd, WordEnd, RefsFrom;
    g := FirstGlued(formula, n);
    GluedMatchIsFound(formula, 0, g);
    GluedMatch(formula, g);
    GluedWordBegins(formula, g);
    var ref := formula[g..MatchEnd(formula, g).value];
    assert ref[WordEnd(formula, g) - g] == '-';
  }

  lemma GluedWordBegins(s: string, i: nat)
    requires GluedAt(s, i)
    ensures i < WordEnd(s, i)
  {
    WordEndIs(s, i);
  }

  /** The scan is exact exactly when no word is glued. */
  lemma ScanIsExactExactly(formula: string)
    ensures ScanIsExact(formula) <==> !Glued(formula)
  {
    hide FormulaTokens, Identifier;
    if Glued(formula) {
      var g := GluedGivesHyphen(formula);
      TokensKeepWords(formula, formula[g..MatchEnd(formula, g).value]);
    } else {
      RefsFromAreWords(formula, 0);
      assert formula[0..] == formula;
      forall w ensures w in FormulaRefs(formula) <==> Word(w) in FormulaTokens(formula) && Identifier(w) {
        TokensKeepWords(formula, w);
      }
    }
  }

  /** What has no hyphen has no glued word. */
  lemma NoHyphenNotGlued(formula: string)
    requires forall i :: 0 <= i < |formula| ==> formula[i] != '-'
    ensures !Glued(formula)
  {
  }

  // ---- three formulas ----

  lemma WholeTextMatches(s: string)
    requires s != [] && (forall i :: 0 <= i < |s| ==> IdChar(s[i])) && WordChar(s[0]) && WordChar(s[|s| - 1])
    requires 0 < PrefixAt(s, 0) < |s|
    ensures FormulaRefs(s) == [s]
  {
    IdEndSkips(s, PrefixAt(s, 0), |s|);
    assert Boundary(s, 0) && Boundary(s, |s|) && MatchEnd(s, 0) == Some(|s|);
    assert s[0..|s|] == s && RefsFrom(s, |s|) == [];
  }

  lemma TiedTokens(a: string, b: string)
    requires IsWord(a) && IsWord(b)
    ensures FormulaTokens(a + "-" + b) == [Word(a), Mark('-'), Word(b)]
  {
    var ts := [Word(a), Mark('-'), Word(b)];
    assert ts[1..] == [Mark('-'), Word(b)] && ts[2..] == [Word(b)];
    calc {
      Unlex(ts);
      a + Unlex(ts[1..]);
      { assert ts[1..][1..] == [Word(b)]; }
      a + ("-" + Unlex([Word(b)]));
      { assert Unlex([Word(b)]) == b + Unlex([]); }
      a + ("-" + b);
      a + "-" + b;
    }
    LexOfUnlex(ts);
    hide Lex, Unlex;
    WordTokens(a + "-" + b);
  }

  /** A text between two word characters is lexed as it is. */
  lemma NothingToTrim(s: string)
    requires s != [] && WordChar(s[0]) && WordChar(s[|s| - 1])
    ensures Trim(s) == s
  {
  }

  lemma WordTokens(s: string)
    requires s != [] && WordChar(s[0]) && WordChar(s[|s| - 1])
    ensures FormulaTokens(s) == Lex(s)
  {
    hide Lex, Trim;
    NothingToTrim(s);
    hide WordChar;
    var t, rest := LexStep(s);
  }

  /** Without spaces around its sign, a difference is one reference to the guard and three tokens to the compiler. */
  lemma HyphenJoinsReferences()
    ensures FormulaRefs("fld_a-1") == ["fld_a-1"]
    ensures FormulaTokens("fld_a-1") == [Word("fld_a"), Mark('-'), Word("1")]
  {
    hide FormulaRefs, FormulaTokens;
    WholeTextMatches("fld_a-1");
    TiedTokens("fld_a", "1");
    assert "fld_a" + "-" + "1" == "fld_a-1";
  }
}
