/**
 * The formula compiler: ids become cell references one id at a time, longest
 * first. The result is one simultaneous substitution, the longest id wherever
 * several begin, and the compiled formula means in the workbook what the source
 * formula means under the values its ids stand for.
 */
module FormulaCompiler {
  import opened Wrappers
  import opened FormulaText
  import opened Whitespace
  import opened Decimal

  // ---- identifiers and addresses ----

  /** `fld_`, in any case */
  predicate FieldPrefix(w: string) {
    && |w| >= 4
    && (w[0] == 'f' || w[0] == 'F') && (w[1] == 'l' || w[1] == 'L') && (w[2] == 'd' || w[2] == 'D') && w[3] == '_'
  }

  /** `calc_`, in any case */
  predicate CalcPrefix(w: string) {
    && |w| >= 5
    && (w[0] == 'c' || w[0] == 'C') && (w[1] == 'a' || w[1] == 'A') && (w[2] == 'l' || w[2] == 'L')
    && (w[3] == 'c' || w[3] == 'C') && w[4] == '_'
  }

  predicate Prefixed(w: string) {
    FieldPrefix(w) || CalcPrefix(w)
  }

  /** A word that an id pattern matches. */
  predicate Identifier(id: string) {
    IsWord(id) && ((|id| > 4 && FieldPrefix(id)) || (|id| > 5 && CalcPrefix(id)))
  }

  /** No word after a hyphen starts an id or names a sheet. */
  predicate OneIdOnly(id: string) {
    var ts := Lex(id);
    forall j :: 0 < j < |ts| && ts[j].Word? ==> !Prefixed(ts[j].w) && ts[j].w != FIELD_SHEET && ts[j].w != CALC_SHEET
  }

  /** Words and hyphens, with a word at the end. */
  predicate NameText(id: string) {
    Bounded(id) && (forall i :: 0 <= i < |id| ==> WordChar(id[i]) || id[i] == '-') && OneIdOnly(id)
  }

  /** An id that matches its pattern, does not end in a hyphen and does not hold another. */
  predicate FieldName(id: string): (r: bool)
    ensures r ==> id != []
  {
    |id| > 4 && FieldPrefix(id) && NameText(id)
  }

  predicate CalcName(id: string): (r: bool)
    ensures r ==> id != []
  {
    |id| > 5 && CalcPrefix(id) && NameText(id)
  }

  predicate Name(id: string): (r: bool)
    ensures r ==> id != []
  {
    FieldName(id) || CalcName(id)
  }

  lemma IdentifierIsName(id: string)
    requires Identifier(id)
    ensures if FieldPrefix(id) then FieldName(id) else CalcName(id)
  {
    WordRunThen(id, []);
    assert id + [] == id && id[|id|..] == [] && Lex([]) == [];
    assert Lex(id) == [Word(id)];
  }

  /** A cell of column A; rows count from one. */
  datatype Cell = FieldCell(row: nat) | CalcCell(row: nat)

  const FIELD_SHEET := "Sheet1"
  const CALC_SHEET := "Calcs"

  function Address(row: nat): string {
    "A" + DecimalString(row)
  }

  /** The row an address names, when the word is an address. */
  function AddressRow(w: string): Option<nat> {
    if |w| > 1 && w[0] == 'A' && forall i :: 0 <= i < |w[1..]| ==> DigitChar(w[1..][i])
    then Some(ParseDigits(w[1..])) else None
  }

  lemma AddressInverts(row: nat)
    ensures AddressRow(Address(row)) == Some(row) && IsWord(Address(row))
  {
    ParseInvertsDecimal(row);
    assert Address(row)[1..] == DecimalString(row);
  }

  lemma NameIsNoAddress(id: string)
    requires Name(id)
    ensures AddressRow(id).None? && id != FIELD_SHEET && id != CALC_SHEET
    ensures forall row :: id != Address(row)
  {
  }

  function CellTokens(c: Cell): seq<Token> {
    [Word(if c.FieldCell? then FIELD_SHEET else CALC_SHEET), Mark('!'), Word(Address(c.row))]
  }

  function References(cells: map<string, Cell>): map<string, seq<Token>> {
    map id | id in cells :: CellTokens(cells[id])
  }

  predicate Named(cells: map<string, Cell>) {
    forall id :: id in cells ==> Name(id)
  }

  // ---- the ids in a formula ----

  /** How many tokens the longest of the ids that the tokens begin with has, or 0. */
  function Munch(ts: seq<Token>, ids: set<string>, n: nat): (m: nat)
    requires n <= |ts|
    ensures m <= n && (m > 0 ==> Unlex(ts[..m]) in ids)
    ensures forall j :: m < j <= n ==> Unlex(ts[..j]) !in ids
  {
    if n == 0 then 0 else if Unlex(ts[..n]) in ids then n else Munch(ts, ids, n - 1)
  }

  /** Each id, hyphens and all, as one word; of several at one place, the longest. */
  function Grouped(ts: seq<Token>, ids: set<string>): seq<Token> {
    if ts == [] then []
    else
      var m := Munch(ts, ids, |ts|);
      if m > 0 then [Word(Unlex(ts[..m]))] + Grouped(ts[m..], ids) else [ts[0]] + Grouped(ts[1..], ids)
  }

  /** The ids replaced by their cells, all at once. */
  function Munched(ts: seq<Token>, cells: map<string, Cell>): seq<Token> {
    if ts == [] then []
    else
      var m := Munch(ts, cells.Keys, |ts|);
      if m > 0 then CellTokens(cells[Unlex(ts[..m])]) + Munched(ts[m..], cells) else [ts[0]] + Munched(ts[1..], cells)
  }

  lemma OneTokenText(t: Token)
    ensures Unlex([t]) == TokenText(t)
  {
    assert [t][1..] == [];
    assert TokenText(t) + [] == TokenText(t);
  }

  lemma {:induction false} MunchedIsSubstitute(ts: seq<Token>, cells: map<string, Cell>)
    ensures Munched(ts, cells) == Substitute(Grouped(ts, cells.Keys), References(cells))
  {
    if ts != [] {
      var m := Munch(ts, cells.Keys, |ts|);
      var rest := Grouped(if m > 0 then ts[m..] else ts[1..], cells.Keys);
      var head := if m > 0 then Word(Unlex(ts[..m])) else ts[0];
      MunchedIsSubstitute(if m > 0 then ts[m..] else ts[1..], cells);
      assert Grouped(ts, cells.Keys) == [head] + rest && ([head] + rest)[1..] == rest;
      if m == 0 {
        assert ts[..1] == [ts[0]];
        OneTokenText(ts[0]);
      }
    }
  }

  lemma PartIsText(ts: seq<Token>, id: string, m: nat)
    requires Lexed(ts) && m <= |ts|
    ensures Unlex(ts[..m]) == id <==> ts[..m] == Lex(id)
  {
    LexedParts(ts, m);
    LexOfUnlex(ts[..m]);
    LexIsLexed(id);
  }

  lemma HeadOfName(id: string)
    requires Name(id)
    ensures
      var ts := Lex(id);
      && ts != [] && ts[0].Word? && Prefixed(ts[0].w) && ts[0].w != FIELD_SHEET && ts[0].w != CALC_SHEET
      && (FieldPrefix(ts[0].w) <==> FieldName(id)) && (CalcPrefix(ts[0].w) <==> CalcName(id))
  {
    hide OneIdOnly;
    var n := WordRun(id);
    assert n < |id| ==> !WordChar(id[n]);
    assert Lex(id)[0] == Word(id[..n]);
  }

  lemma MunchFinds(ts: seq<Token>, ids: set<string>, id: string)
    requires Lexed(ts) && id in ids && Begins(ts, Lex(id))
    ensures Munch(ts, ids, |ts|) >= |Lex(id)|
  {
    PartIsText(ts, id, |Lex(id)|);
  }

  /** What is munched is the id's tokens. */
  lemma MunchIsPart(ts: seq<Token>, ids: set<string>)
    requires Lexed(ts) && Munch(ts, ids, |ts|) > 0
    ensures
      var m := Munch(ts, ids, |ts|);
      ts[..m] == Lex(Unlex(ts[..m])) && Unlex(ts[..m]) in ids && ts[0] == Lex(Unlex(ts[..m]))[0]
  {
    var m := Munch(ts, ids, |ts|);
    PartIsText(ts, Unlex(ts[..m]), m);
    assert ts[..m][0] == ts[0];
  }

  /** No id begins at a character that is not of a word, or at a word without a prefix. */
  lemma NoMunchAt(ts: seq<Token>, cells: map<string, Cell>)
    requires Lexed(ts) && Named(cells) && ts != [] && (ts[0].Word? ==> !Prefixed(ts[0].w))
    ensures Munch(ts, cells.Keys, |ts|) == 0
  {
    var m := Munch(ts, cells.Keys, |ts|);
    if m > 0 {
      MunchIsPart(ts, cells.Keys);
      HeadOfName(Unlex(ts[..m]));
    }
  }

  // ---- one at a time or all at once ----

  predicate SheetWord(t: Token) {
    t == Word(FIELD_SHEET) || t == Word(CALC_SHEET)
  }

  /** Up to the first sheet name nothing was replaced. */
  lemma {:induction false} UntouchedBefore(ts: seq<Token>, cells: map<string, Cell>, n: nat)
    requires n <= |Munched(ts, cells)| && forall j :: 0 <= j < n ==> !SheetWord(Munched(ts, cells)[j])
    ensures n <= |ts| && ts[..n] == Munched(ts, cells)[..n]
  {
    if n > 0 {
      var s := Munched(ts, cells);
      assert !SheetWord(s[0]);
      var rest := Munched(ts[1..], cells);
      assert s == [ts[0]] + rest;
      forall j | 0 <= j < n - 1 ensures !SheetWord(rest[j]) { assert rest[j] == s[j + 1]; }
      UntouchedBefore(ts[1..], cells, n - 1);
      assert ts[..n] == [ts[0]] + ts[1..][..n - 1];
    }
  }

  /** Tokens at which no id begins are left. */
  lemma {:induction false} Passed(ts: seq<Token>, cells: map<string, Cell>, n: nat)
    requires n <= |ts| && forall j :: 0 <= j < n ==> Munch(ts[j..], cells.Keys, |ts| - j) == 0
    ensures Munched(ts, cells) == ts[..n] + Munched(ts[n..], cells)
  {
    hide Munch, Munched;
    if n == 0 {
      assert ts[0..] == ts && ts[..0] == [];
    } else {
      var front := ts[..n - 1];
      Passed(ts, cells, n - 1);
      PassedOne(ts[n - 1..], cells);
      assert ts[n - 1..][1..] == ts[n..];
      assert ts[..n] == front + [ts[n - 1]];
      assert front + ([ts[n - 1]] + Munched(ts[n..], cells)) == (front + [ts[n - 1]]) + Munched(ts[n..], cells);
    }
  }

  lemma PassedOne(ts: seq<Token>, cells: map<string, Cell>)
    requires ts != [] && Munch(ts, cells.Keys, |ts|) == 0
    ensures Munched(ts, cells) == [ts[0]] + Munched(ts[1..], cells)
  {
  }

  lemma NoRun(t: Token, rest: seq<Token>, part: seq<Token>, tokens: seq<Token>)
    requires part != [] && !Begins([t] + rest, part)
    ensures SubstituteRun([t] + rest, part, tokens) == [t] + SubstituteRun(rest, part, tokens)
  {
    assert ([t] + rest)[1..] == rest;
  }

  lemma SameHead(t: Token, rest: seq<Token>, part: seq<Token>)
    requires part != []
    ensures Begins([t] + rest, part) ==> part[0] == t
  {
    if Begins([t] + rest, part) { assert ([t] + rest)[..|part|][0] == t; }
  }

  /** A reference that is already in place holds no id to replace. */
  lemma ReferenceIsFinal(c: Cell, rest: seq<Token>, id: string, tokens: seq<Token>)
    requires Name(id)
    ensures Lex(id) != [] && SubstituteRun(CellTokens(c) + rest, Lex(id), tokens) == CellTokens(c) + SubstituteRun(rest, Lex(id), tokens)
  {
    var ts, part := CellTokens(c), Lex(id);
    HeadOfName(id);
    hide Name, CellTokens, SubstituteRun, Begins;
    ReferenceTokens(c);
    SameHead(ts[0], [ts[1]] + ([ts[2]] + rest), part);
    SameHead(ts[1], [ts[2]] + rest, part);
    SameHead(ts[2], rest, part);
    NoRun(ts[0], [ts[1]] + ([ts[2]] + rest), part, tokens);
    NoRun(ts[1], [ts[2]] + rest, part, tokens);
    NoRun(ts[2], rest, part, tokens);
    assert ts + rest == [ts[0]] + ([ts[1]] + ([ts[2]] + rest));
    var after := SubstituteRun(rest, part, tokens);
    assert ts + after == [ts[0]] + ([ts[1]] + ([ts[2]] + after));
  }

  lemma ReferenceTokens(c: Cell)
    ensures
      var ts := CellTokens(c);
      |ts| == 3 && SheetWord(ts[0]) && ts[1] == Mark('!') && ts[2].Word? && !Prefixed(ts[2].w)
  {
  }

  /** The tokens of `x` are the first of `y`'s, and not all. */
  predicate ProperPart(x: string, y: string) {
    |Lex(x)| < |Lex(y)| && Begins(Lex(y), Lex(x))
  }

  lemma KeysOneMore(cells: map<string, Cell>, id: string, c: Cell)
    ensures cells[id := c].Keys == cells.Keys + {id}
  {
  }

  lemma StartOfOther(ts: seq<Token>, d: string, id: string, m: nat, n: nat)
    requires m < n <= |ts| && ts[..m] == Lex(d) && ts[..n] == Lex(id)
    ensures ProperPart(d, id)
  {
    assert ts[..n][..m] == ts[..m];
  }

  lemma MunchMore(ts: seq<Token>, ids: set<string>, id: string)
    requires Lexed(ts) && id !in ids && (forall d :: d in ids ==> !ProperPart(d, id))
    ensures
      var m := Munch(ts, ids, |ts|);
      Munch(ts, ids + {id}, |ts|) == if m == 0 && Begins(ts, Lex(id)) then |Lex(id)| else m
  {
    var m, n := Munch(ts, ids, |ts|), Munch(ts, ids + {id}, |ts|);
    LexIsLexed(id);
    if Begins(ts, Lex(id)) { MunchFinds(ts, ids + {id}, id); }
    if n > 0 { MunchIsPart(ts, ids + {id}); }
    if m > 0 {
      MunchIsPart(ts, ids);
      assert m <= n;
      if n > m {
        assert Unlex(ts[..n]) == id;
        StartOfOther(ts, Unlex(ts[..m]), id, m, n);
      }
    } else if n > 0 {
      assert Unlex(ts[..n]) == id;
    }
  }

  /** Inside an id's own tokens no id begins. */
  lemma NoMunchInside(ts: seq<Token>, cells: map<string, Cell>, id: string, j: nat)
    requires Lexed(ts) && Named(cells) && Name(id) && Begins(ts, Lex(id)) && 0 < j < |Lex(id)|
    ensures Munch(ts[j..], cells.Keys, |ts| - j) == 0
  {
    LexedParts(ts, j);
    assert ts[j..][0] == ts[j] && ts[j] == ts[..|Lex(id)|][j];
    NoMunchAt(ts[j..], cells);
  }

  lemma PassedId(ts: seq<Token>, cells: map<string, Cell>, id: string)
    requires Lexed(ts) && Named(cells) && Name(id) && Begins(ts, Lex(id)) && Munch(ts, cells.Keys, |ts|) == 0
    ensures Munched(ts, cells) == Lex(id) + Munched(ts[|Lex(id)|..], cells)
  {
    hide Name, Named, Munch;
    forall j | 0 <= j < |Lex(id)| ensures Munch(ts[j..], cells.Keys, |ts| - j) == 0 {
      if j > 0 { NoMunchInside(ts, cells, id, j); } else { assert ts[0..] == ts; }
    }
    Passed(ts, cells, |Lex(id)|);
  }

  /** An id that the text does not begin with does not begin it once others are replaced. */
  lemma NothingArises(ts: seq<Token>, cells: map<string, Cell>, id: string)
    requires Name(id) && Begins(Munched(ts, cells), Lex(id))
    ensures Begins(ts, Lex(id))
  {
    var s, n := Munched(ts, cells), |Lex(id)|;
    HeadOfName(id);
    forall j | 0 <= j < n ensures !SheetWord(s[j]) { assert s[j] == s[..n][j]; }
    UntouchedBefore(ts, cells, n);
  }

  /** Replacing one more id afterwards is replacing it with the others, unless one of them was the start of it. */
  lemma {:induction false} MunchOneMore(ts: seq<Token>, cells: map<string, Cell>, id: string, c: Cell)
    requires Lexed(ts) && Named(cells) && Name(id) && id !in cells && (forall d :: d in cells ==> !ProperPart(d, id))
    ensures Lex(id) != [] && SubstituteRun(Munched(ts, cells), Lex(id), CellTokens(c)) == Munched(ts, cells[id := c])
  {
    HeadOfName(id);
    KeysOneMore(cells, id, c);
    hide Name, Named, CellTokens, ProperPart, Lexed;
    var part := Lex(id);
    if ts != [] {
      var m := Munch(ts, cells.Keys, |ts|);
      MunchMore(ts, cells.Keys, id);
      if m > 0 {
        LexedParts(ts, m);
        MunchOneMore(ts[m..], cells, id, c);
        ReferenceIsFinal(cells[Unlex(ts[..m])], Munched(ts[m..], cells), id, CellTokens(c));
      } else if Begins(ts, part) {
        LexedParts(ts, |part|);
        MunchOneMore(ts[|part|..], cells, id, c);
        PassedId(ts, cells, id);
        RunReplaced(part, Munched(ts[|part|..], cells), CellTokens(c));
        PartIsText(ts, id, |part|);
      } else {
        LexedParts(ts, 1);
        MunchOneMore(ts[1..], cells, id, c);
        if Begins(Munched(ts, cells), part) { NothingArises(ts, cells, id); }
        NoRun(ts[0], Munched(ts[1..], cells), part, CellTokens(c));
      }
    }
  }

  lemma RunReplaced(part: seq<Token>, rest: seq<Token>, tokens: seq<Token>)
    requires part != []
    ensures SubstituteRun(part + rest, part, tokens) == tokens + SubstituteRun(rest, part, tokens)
  {
    assert (part + rest)[..|part|] == part && (part + rest)[|part|..] == rest;
  }

  lemma {:induction false} MunchedIsLexed(ts: seq<Token>, cells: map<string, Cell>)
    requires Lexed(ts) && Named(cells)
    ensures Lexed(Munched(ts, cells))
    ensures ts != [] ==> Munched(ts, cells) != [] && (Munched(ts, cells)[0].Mark? <==> ts[0].Mark?)
    ensures ts != [] && ts[0].Mark? ==> Munched(ts, cells) == [ts[0]] + Munched(ts[1..], cells)
  {
    if ts != [] {
      var m := Munch(ts, cells.Keys, |ts|);
      if m > 0 {
        MunchIsPart(ts, cells.Keys);
        var id := Unlex(ts[..m]);
        HeadOfName(id);
        LastToken(id);
        LexedParts(ts, m);
        assert ts[..m][0] == ts[0] && ts[..m][m - 1] == ts[m - 1];
        MunchedIsLexed(ts[m..], cells);
        CellTokensLexed(cells[id]);
        hide CellTokens, Name, Named;
        var rest := Munched(ts[m..], cells);
        assert m < |ts| ==> ts[m..][0] == ts[m] && ts[m].Mark?;
        LexedConcat(CellTokens(cells[id]), rest);
      } else {
        LexedParts(ts, 1);
        MunchedIsLexed(ts[1..], cells);
        var rest := Munched(ts[1..], cells);
        assert |ts| > 1 ==> ts[1..][0] == ts[1];
        LexedConcat([ts[0]], rest);
      }
    }
  }

  lemma CellTokensLexed(c: Cell)
    ensures var ts := CellTokens(c); Lexed(ts) && ts != [] && ts[0].Word? && ts[|ts| - 1].Word?
  {
    AddressInverts(c.row);
  }

  /** One `replace` call, on a text where some ids are already replaced. */
  lemma ReplaceOneMore(s: string, cells: map<string, Cell>, id: string, c: Cell)
    requires Named(cells) && Name(id) && id !in cells && (forall d :: d in cells ==> !ProperPart(d, id))
    ensures ReplaceWord(Unlex(Munched(Lex(s), cells)), id, Unlex(CellTokens(c))) == Unlex(Munched(Lex(s), cells[id := c]))
  {
    var ts := Munched(Lex(s), cells);
    assert Bounded(id);
    hide Name, Named, ProperPart, Lexed, Lex, Unlex, Munched, CellTokens;
    LexIsLexed(s);
    MunchedIsLexed(Lex(s), cells);
    LexOfUnlex(ts);
    ReplaceIsSubstitute(Unlex(ts), id, CellTokens(c));
    MunchOneMore(Lex(s), cells, id, c);
  }

  /** Replacing the ids in the listed order. */
  function ReplaceEach(s: string, ids: seq<string>, cells: map<string, Cell>): string
    requires forall i :: 0 <= i < |ids| ==> ids[i] in cells && ids[i] != []
  {
    if ids == [] then s
    else
      var last := ids[|ids| - 1];
      ReplaceWord(ReplaceEach(s, ids[..|ids| - 1], cells), last, Unlex(CellTokens(cells[last])))
  }

  function Restrict(cells: map<string, Cell>, ids: seq<string>): map<string, Cell> {
    map id | id in cells && id in ids :: cells[id]
  }

  lemma RestrictSnoc(cells: map<string, Cell>, front: seq<string>, last: string)
    requires last in cells && last !in front
    ensures last !in Restrict(cells, front)
    ensures Restrict(cells, front + [last]) == Restrict(cells, front)[last := cells[last]]
  {
  }

  lemma LastNotBefore(ids: seq<string>)
    requires ids != [] && forall i, j :: 0 <= i < j < |ids| ==> ids[i] != ids[j]
    ensures ids[|ids| - 1] !in ids[..|ids| - 1]
  {
  }

  lemma {:induction false} MunchedByNothing(ts: seq<Token>)
    ensures Munched(ts, map[]) == ts
  {
    if ts != [] { MunchedByNothing(ts[1..]); }
  }

  lemma ReplaceNone(s: string, cells: map<string, Cell>)
    ensures ReplaceEach(s, [], cells) == Unlex(Munched(Lex(s), Restrict(cells, [])))
  {
    LexIsLexed(s);
    MunchedByNothing(Lex(s));
    assert Restrict(cells, []) == map[];
  }

  /** No id is listed before one that it is the start of. */
  predicate ExtensionsFirst(ids: seq<string>) {
    forall i, j :: 0 <= i < j < |ids| ==> !ProperPart(ids[i], ids[j])
  }

  /** Listed so, replacing one id at a time is replacing them all at once, the longest wherever several begin. */
  lemma {:induction false} ReplacedInOrder(s: string, ids: seq<string>, cells: map<string, Cell>)
    requires Named(cells)
    requires forall i :: 0 <= i < |ids| ==> ids[i] in cells
    requires forall i, j :: 0 <= i < j < |ids| ==> ids[i] != ids[j]
    requires ExtensionsFirst(ids)
    ensures ReplaceEach(s, ids, cells) == Unlex(Munched(Lex(s), Restrict(cells, ids)))
  {
    hide Name, ProperPart, Munched, Lex, Unlex, CellTokens, ReplaceWord;
    if ids == [] {
      ReplaceNone(s, cells);
    } else {
      var front, last := ids[..|ids| - 1], ids[|ids| - 1];
      ReplacedInOrder(s, front, cells);
      LastNotBefore(ids);
      NoStartBefore(ids, cells);
      assert ids == front + [last];
      RestrictSnoc(cells, front, last);
      hide Restrict, Named, ExtensionsFirst;
      ReplaceOneMore(s, Restrict(cells, front), last, cells[last]);
    }
  }

  lemma NoStartBefore(ids: seq<string>, cells: map<string, Cell>)
    requires Named(cells) && ids != [] && ExtensionsFirst(ids) && ids[|ids| - 1] in cells
    ensures
      var earlier := Restrict(cells, ids[..|ids| - 1]);
      Named(earlier) && Name(ids[|ids| - 1]) && forall d :: d in earlier ==> !ProperPart(d, ids[|ids| - 1])
  {
    hide Name, ProperPart;
  }

  // ---- why the longest come first ----

  predicate NoPrefix(ts: seq<Token>) {
    forall j :: 0 <= j < |ts| && ts[j].Word? ==> !Prefixed(ts[j].w)
  }

  lemma {:induction false} NothingToReplace(ts: seq<Token>, id: string, tokens: seq<Token>)
    requires NoPrefix(ts) && Name(id)
    ensures Lex(id) != [] && SubstituteRun(ts, Lex(id), tokens) == ts
  {
    HeadOfName(id);
    if ts != [] {
      assert ts == [ts[0]] + ts[1..];
      SameHead(ts[0], ts[1..], Lex(id));
      NothingToReplace(ts[1..], id, tokens);
    }
  }

  lemma TailOfName(s: string, m: nat)
    requires Name(s) && 0 < m <= |Lex(s)|
    ensures NoPrefix(Lex(s)[m..])
  {
    assert OneIdOnly(s);
    var ts := Lex(s);
    forall j | 0 <= j < |ts[m..]| && ts[m..][j].Word? ensures !Prefixed(ts[m..][j].w) { assert ts[m..][j] == ts[m + j]; }
  }

  /** The reference of an id that only starts `s`, and what is left of `s`. */
  ghost predicate Spoilt(t: string, s: string) {
    exists c, m :: 0 < m < |Lex(s)| && Lex(t) == CellTokens(c) + Lex(s)[m..]
  }

  /** What is spoilt is not repaired. */
  lemma SpoiltStays(t: string, s: string, id: string, c: Cell)
    requires Name(s) && Name(id) && Spoilt(t, s)
    ensures id != [] && ReplaceWord(t, id, Unlex(CellTokens(c))) == t
  {
    var d, m :| 0 < m < |Lex(s)| && Lex(t) == CellTokens(d) + Lex(s)[m..];
    var rest := Lex(s)[m..];
    TailOfName(s, m);
    assert Bounded(id);
    hide Name, Lex, CellTokens, SubstituteRun, NoPrefix, Unlex;
    ReferenceIsFinal(d, rest, id, CellTokens(c));
    NothingToReplace(rest, id, CellTokens(c));
    ReplaceIsSubstitute(t, id, CellTokens(c));
    LexIsLexed(t);
  }

  lemma RunInName(s: string, id: string, tokens: seq<Token>)
    requires Name(s) && Name(id)
    ensures Lex(id) != []
    ensures SubstituteRun(Lex(s), Lex(id), tokens) == if Begins(Lex(s), Lex(id)) then tokens + Lex(s)[|Lex(id)|..] else Lex(s)
  {
    var ts, part := Lex(s), Lex(id);
    HeadOfName(s);
    HeadOfName(id);
    TailOfName(s, if Begins(ts, part) then |part| else 1);
    hide Name, Lex, NoPrefix;
    if Begins(ts, part) {
      NothingToReplace(ts[|part|..], id, tokens);
    } else {
      NothingToReplace(ts[1..], id, tokens);
    }
  }

  /** On the text of an id, another id that starts it leaves it spoilt, and one that does not leaves it. */
  lemma ReplaceInName(s: string, id: string, c: Cell)
    requires Name(s) && Name(id) && id != s
    ensures id != []
    ensures
      var t := ReplaceWord(s, id, Unlex(CellTokens(c)));
      if Begins(Lex(s), Lex(id)) then Spoilt(t, s) else t == s
  {
    var ts, part := Lex(s), Lex(id);
    assert Bounded(id) && Bounded(s);
    RunInName(s, id, CellTokens(c));
    ReplaceIsSubstitute(s, id, CellTokens(c));
    LexIsLexed(s);
    LexIsLexed(id);
    LastToken(id);
    CellTokensLexed(c);
    hide Name, Lex, CellTokens, SubstituteRun, ReplaceWord;
    if Begins(ts, part) {
      assert |part| == |ts| ==> part == ts;
      var rest := ts[|part|..];
      LexedParts(ts, |part|);
      assert rest[0] == ts[|part|] && ts[|part| - 1] == part[|part| - 1];
      LexedConcat(CellTokens(c), rest);
      LexOfUnlex(CellTokens(c) + rest);
    }
  }

  lemma {:induction false} WholeOrSpoilt(s: string, ids: seq<string>, cells: map<string, Cell>)
    requires Named(cells) && Name(s) && s !in ids && forall i :: 0 <= i < |ids| ==> ids[i] in cells
    ensures ReplaceEach(s, ids, cells) == s || Spoilt(ReplaceEach(s, ids, cells), s)
  {
    hide Name, Spoilt, ReplaceWord;
    if ids != [] {
      var front, last := ids[..|ids| - 1], ids[|ids| - 1];
      assert last in ids && Name(last);
      WholeOrSpoilt(s, front, cells);
      ReplaceInName(s, last, cells[last]);
      if Spoilt(ReplaceEach(s, front, cells), s) { SpoiltStays(ReplaceEach(s, front, cells), s, last, cells[last]); }
    }
  }

  lemma {:induction false} StartSpoils(s: string, ids: seq<string>, cells: map<string, Cell>, i: nat)
    requires Named(cells) && Name(s) && forall k :: 0 <= k < |ids| ==> ids[k] in cells
    requires i < |ids| && Begins(Lex(s), Lex(ids[i])) && s !in ids[..i + 1]
    ensures Spoilt(ReplaceEach(s, ids, cells), s)
  {
    hide Name, Spoilt, ReplaceWord;
    var front, last := ids[..|ids| - 1], ids[|ids| - 1];
    assert Name(last);
    var t := ReplaceEach(s, front, cells);
    if i < |front| {
      assert front[..i + 1] == ids[..i + 1];
      StartSpoils(s, front, cells, i);
      SpoiltStays(t, s, last, cells[last]);
    } else {
      assert ids[..i + 1] == ids && last in ids;
      WholeOrSpoilt(s, front, cells);
      ReplaceInName(s, last, cells[last]);
      if Spoilt(t, s) { SpoiltStays(t, s, last, cells[last]); }
    }
  }

  lemma NotItsCell(t: string, s: string, c: Cell)
    requires Spoilt(t, s)
    ensures t != Unlex(CellTokens(c))
  {
    CellTokensLexed(c);
    hide Lex;
    LexOfUnlex(CellTokens(c));
  }

  /** The text of an id becomes its cell when ids are replaced all at once. */
  lemma NameIsMunched(s: string, cells: map<string, Cell>)
    requires s in cells && s != []
    ensures Munched(Lex(s), cells) == CellTokens(cells[s])
  {
    LexIsLexed(s);
    hide CellTokens;
    var ts := Lex(s);
    assert ts[..|ts|] == ts && ts[|ts|..] == [];
    assert Munch(ts, cells.Keys, |ts|) == |ts|;
  }

  /**
   * Replacing one id at a time is replacing them all at once, in every text, exactly
   * when no id is listed before one that it is the start of.
   */
  lemma OrderMattersExactly(ids: seq<string>, cells: map<string, Cell>)
    requires Named(cells)
    requires forall i :: 0 <= i < |ids| ==> ids[i] in cells
    requires forall i, j :: 0 <= i < j < |ids| ==> ids[i] != ids[j]
    ensures ExtensionsFirst(ids) <==> forall s :: ReplaceEach(s, ids, cells) == Unlex(Munched(Lex(s), Restrict(cells, ids)))
  {
    if ExtensionsFirst(ids) {
      forall s ensures ReplaceEach(s, ids, cells) == Unlex(Munched(Lex(s), Restrict(cells, ids))) {
        ReplacedInOrder(s, ids, cells);
      }
    } else {
      var i, j :| 0 <= i < j < |ids| && ProperPart(ids[i], ids[j]);
      var s := ids[j];
      assert Name(s) && s !in ids[..i + 1];
      hide Name, Lex, Unlex, ReplaceEach, Spoilt, Munched;
      StartSpoils(s, ids, cells, i);
      NameIsMunched(s, Restrict(cells, ids));
      NotItsCell(ReplaceEach(s, ids, cells), s, cells[s]);
    }
  }

  // ---- compileFormula ----

  function Trim(s: string): string {
    TrimBy(s, (c: char) => c as int)
  }

  /** The words of a formula, without surrounding space and without a leading equals sign. */
  function FormulaTokens(formula: string): seq<Token> {
    var ts := Lex(Trim(formula));
    if ts != [] && ts[0] == Mark('=') then ts[1..] else ts
  }

  /** The same with each of the ids as one word. */
  function Words(formula: string, ids: set<string>): seq<Token> {
    Grouped(FormulaTokens(formula), ids)
  }

  function CompiledTokens(formula: string, cells: map<string, Cell>): seq<Token> {
    Substitute(Words(formula, cells.Keys), References(cells))
  }

  predicate Addressed(fieldMap: map<string, string>) {
    forall id :: id in fieldMap ==>
      FieldName(id) && AddressRow(fieldMap[id]).Some? && fieldMap[id] == Address(AddressRow(fieldMap[id]).value)
  }

  function FieldCells(fieldMap: map<string, string>): map<string, Cell>
    requires Addressed(fieldMap)
  {
    map id | id in fieldMap :: FieldCell(AddressRow(fieldMap[id]).value)
  }

  function CalcCells(calcRowMap: map<string, nat>): map<string, Cell> {
    map id | id in calcRowMap :: CalcCell(calcRowMap[id] + 1)
  }

  lemma LongestExists(ids: set<string>)
    requires ids != {}
    ensures exists id :: Longest(ids, id)
  {
    var id :| id in ids;
    if ids == {id} {
      assert Longest(ids, id);
    } else {
      LongestExists(ids - {id});
      var best :| Longest(ids - {id}, best);
      var longest := if |best| <= |id| then id else best;
      assert forall o :: o in ids ==> o == id || o in ids - {id};
      assert Longest(ids, longest);
    }
  }

  /** The text when all ids but the remaining ones have been replaced. */
  ghost function PartlyReplaced(source: string, cells: map<string, Cell>, remaining: set<string>): string {
    Unlex(Munched(Lex(source), cells - remaining))
  }

  lemma ReplaceStep(source: string, cells: map<string, Cell>, remaining: set<string>, id: string, text: string)
    requires Named(cells) && id in cells && id in remaining && text == Unlex(CellTokens(cells[id]))
    requires forall d :: d in cells && d !in remaining ==> !ProperPart(d, id)
    ensures ReplaceWord(PartlyReplaced(source, cells, remaining), id, text)
         == PartlyReplaced(source, cells, remaining - {id})
  {
    hide ProperPart, Name;
    ReplaceOneMore(source, cells - remaining, id, cells[id]);
    assert (cells - remaining)[id := cells[id]] == cells - (remaining - {id});
  }

  lemma NothingReplaced(source: string, cells: map<string, Cell>)
    ensures PartlyReplaced(source, cells, cells.Keys) == source
  {
    LexIsLexed(source);
    MunchedByNothing(Lex(source));
    assert cells - cells.Keys == map[];
  }

  lemma TextOfTokensIsThere(ts: seq<Token>)
    requires Lexed(ts) && ts != []
    ensures Unlex(ts) != []
  {
  }

  /** No id is the start of one that is not longer. */
  lemma LongerIsNoStart(d: string, id: string)
    requires |id| <= |d|
    ensures !ProperPart(d, id)
  {
    if ProperPart(d, id) {
      var part, after := Lex(d), Lex(id)[|Lex(d)|..];
      assert Lex(id) == part + after;
      LexIsLexed(d);
      LexIsLexed(id);
      LexedParts(Lex(id), |part|);
      UnlexConcat(part, after);
      TextOfTokensIsThere(after);
    }
  }

  lemma FieldIsNoStart(d: string, id: string)
    requires FieldName(d) && CalcName(id)
    ensures !ProperPart(d, id)
  {
    HeadOfName(d);
    HeadOfName(id);
    SameHead(Lex(id)[0], Lex(id)[1..], Lex(d));
    assert Lex(id) == [Lex(id)[0]] + Lex(id)[1..];
  }

  function AllCells(fieldMap: map<string, string>, calcRowMap: map<string, nat>): map<string, Cell>
    requires Addressed(fieldMap)
  {
    FieldCells(fieldMap) + CalcCells(calcRowMap)
  }

  predicate Referable(fieldMap: map<string, string>, calcRowMap: map<string, nat>) {
    Addressed(fieldMap) && forall id :: id in calcRowMap ==> CalcName(id)
  }

  lemma AllNamed(fieldMap: map<string, string>, calcRowMap: map<string, nat>)
    requires Referable(fieldMap, calcRowMap)
    ensures Named(AllCells(fieldMap, calcRowMap)) && AllCells(fieldMap, calcRowMap).Keys == fieldMap.Keys + calcRowMap.Keys
  {
  }

  lemma FieldText(fieldMap: map<string, string>, calcRowMap: map<string, nat>, id: string)
    requires Referable(fieldMap, calcRowMap) && id in fieldMap
    ensures id !in calcRowMap && id in AllCells(fieldMap, calcRowMap)
    ensures "Sheet1!" + fieldMap[id] == Unlex(CellTokens(AllCells(fieldMap, calcRowMap)[id]))
  {
    CellText(AllCells(fieldMap, calcRowMap)[id]);
    hide Unlex, CellTokens;
  }

  lemma CalcText(fieldMap: map<string, string>, calcRowMap: map<string, nat>, id: string)
    requires Referable(fieldMap, calcRowMap) && id in calcRowMap
    ensures id in AllCells(fieldMap, calcRowMap)
    ensures "Calcs!A" + DecimalString(calcRowMap[id] + 1) == Unlex(CellTokens(AllCells(fieldMap, calcRowMap)[id]))
  {
    CellText(AllCells(fieldMap, calcRowMap)[id]);
    hide Unlex, CellTokens;
    assert "Calcs!" + Address(calcRowMap[id] + 1) == "Calcs!A" + DecimalString(calcRowMap[id] + 1);
  }

  /** Of the listed ids, those not in `remaining` are at least as long as those in it. */
  predicate LongestFirst(ids: set<string>, remaining: set<string>) {
    forall d, r :: d in ids && d !in remaining && r in remaining ==> |r| <= |d|
  }

  lemma ReplaceFieldStep(source: string, cells: map<string, Cell>, fields: set<string>, calcs: set<string>, fieldIds: set<string>, id: string, text: string)
    requires Named(cells) && cells.Keys == fields + calcs && LongestFirst(fields, fieldIds)
    requires id in fields && id in fieldIds && id !in calcs && text == Unlex(CellTokens(cells[id]))
    ensures id != []
    ensures ReplaceWord(PartlyReplaced(source, cells, fieldIds + calcs), id, text) == PartlyReplaced(source, cells, (fieldIds - {id}) + calcs)
  {
    assert id in cells && Name(id);
    hide *;
    NoFieldIsStart(fields, calcs, fieldIds, id);
    ReplaceStep(source, cells, fieldIds + calcs, id, text);
    assert fieldIds + calcs - {id} == (fieldIds - {id}) + calcs;
  }

  lemma NoFieldIsStart(fields: set<string>, calcs: set<string>, remaining: set<string>, id: string)
    requires LongestFirst(fields, remaining) && id in remaining
    ensures forall d :: d in fields + calcs && d !in remaining + calcs ==> !ProperPart(d, id)
  {
    forall d | d in fields + calcs && d !in remaining + calcs ensures !ProperPart(d, id) { LongerIsNoStart(d, id); }
  }

  lemma ReplaceCalcStep(source: string, cells: map<string, Cell>, fields: set<string>, calcs: set<string>, remaining: set<string>, id: string, text: string)
    requires Named(cells) && cells.Keys == fields + calcs && LongestFirst(calcs, remaining)
    requires (forall d :: d in fields ==> FieldName(d)) && CalcName(id) && id in calcs && id in remaining
    requires text == Unlex(CellTokens(cells[id]))
    ensures ReplaceWord(PartlyReplaced(source, cells, remaining), id, text) == PartlyReplaced(source, cells, remaining - {id})
  {
    forall d | d in fields + calcs && d !in remaining ensures !ProperPart(d, id) {
      if d in calcs { LongerIsNoStart(d, id); } else { FieldIsNoStart(d, id); }
    }
    hide *;
    ReplaceStep(source, cells, remaining, id, text);
  }

  lemma CompiledIsMunched(formula: string, cells: map<string, Cell>)
    ensures CompiledTokens(formula, cells) == Munched(FormulaTokens(formula), cells)
  {
    MunchedIsSubstitute(FormulaTokens(formula), cells);
  }

  lemma Finished(formula: string, cells: map<string, Cell>)
    requires Named(cells)
    ensures
      var f := PartlyReplaced(Trim(formula), cells, {});
      (if f != [] && f[0] == '=' then f else "=" + f) == "=" + Unlex(CompiledTokens(formula, cells))
  {
    EqualsSign(Trim(formula), cells);
    CompiledIsMunched(formula, cells);
    assert cells - {} == cells;
  }

  lemma NoneDone(ids: set<string>)
    ensures LongestFirst(ids, ids)
  {
  }

  predicate Longest(ids: set<string>, id: string) {
    id in ids && forall o :: o in ids ==> |o| <= |id|
  }

  lemma RestLongestFirst(ids: set<string>, remaining: set<string>, id: string)
    requires LongestFirst(ids, remaining) && Longest(remaining, id)
    ensures LongestFirst(ids, remaining - {id})
  {
  }

  lemma FieldTurn(source: string, fieldMap: map<string, string>, calcRowMap: map<string, nat>, fieldIds: set<string>, id: string)
    requires Referable(fieldMap, calcRowMap) && fieldIds <= fieldMap.Keys && LongestFirst(fieldMap.Keys, fieldIds) && Longest(fieldIds, id)
    ensures id != [] && LongestFirst(fieldMap.Keys, fieldIds - {id})
    ensures
      var cells := AllCells(fieldMap, calcRowMap);
      ReplaceWord(PartlyReplaced(source, cells, fieldIds + calcRowMap.Keys), id, "Sheet1!" + fieldMap[id])
        == PartlyReplaced(source, cells, (fieldIds - {id}) + calcRowMap.Keys)
  {
    AllNamed(fieldMap, calcRowMap);
    FieldText(fieldMap, calcRowMap, id);
    var cells, text := AllCells(fieldMap, calcRowMap), "Sheet1!" + fieldMap[id];
    assert id in fieldMap && id in fieldIds;
    RestLongestFirst(fieldMap.Keys, fieldIds, id);
    hide LongestFirst, Longest, AllCells, Referable, Named, PartlyReplaced, ReplaceWord, CellTokens, Unlex;
    ReplaceFieldStep(source, cells, fieldMap.Keys, calcRowMap.Keys, fieldIds, id, text);
  }

  lemma CalcTurn(source: string, fieldMap: map<string, string>, calcRowMap: map<string, nat>, calcIds: set<string>, id: string)
    requires Referable(fieldMap, calcRowMap) && calcIds <= calcRowMap.Keys && LongestFirst(calcRowMap.Keys, calcIds) && Longest(calcIds, id)
    ensures id != [] && LongestFirst(calcRowMap.Keys, calcIds - {id})
    ensures
      var cells := AllCells(fieldMap, calcRowMap);
      ReplaceWord(PartlyReplaced(source, cells, calcIds), id, "Calcs!A" + DecimalString(calcRowMap[id] + 1))
        == PartlyReplaced(source, cells, calcIds - {id})
  {
    AllNamed(fieldMap, calcRowMap);
    CalcText(fieldMap, calcRowMap, id);
    var cells, text := AllCells(fieldMap, calcRowMap), "Calcs!A" + DecimalString(calcRowMap[id] + 1);
    assert id in calcRowMap && CalcName(id) && forall d :: d in fieldMap ==> FieldName(d);
    assert id in calcIds;
    RestLongestFirst(calcRowMap.Keys, calcIds, id);
    hide LongestFirst, Longest, AllCells, Referable, FieldName, CalcName, Named, PartlyReplaced, ReplaceWord, CellTokens, Unlex;
    ReplaceCalcStep(source, cells, fieldMap.Keys, calcRowMap.Keys, calcIds, id, text);
  }

  /** Ids are taken longest first; equally long ones come in any order. */
  method CompileFormula(formula: string, fieldMap: map<string, string>, calcRowMap: map<string, nat>) returns (f: string)
    requires Referable(fieldMap, calcRowMap)
    ensures f == "=" + Unlex(CompiledTokens(formula, AllCells(fieldMap, calcRowMap)))
  {
    assert Addressed(fieldMap);
    AllNamed(fieldMap, calcRowMap);
    hide FieldName, CalcName, Named, Addressed, Referable, LongestFirst, ReplaceWord, PartlyReplaced, CompiledTokens, AllCells, CellTokens, Unlex, Trim, DecimalString;
    var source := Trim(formula);
    ghost var cells := AllCells(fieldMap, calcRowMap);
    var fieldIds, calcIds := fieldMap.Keys, calcRowMap.Keys;
    f := source;
    NothingReplaced(source, cells);
    assert LongestFirst(fieldMap.Keys, fieldIds) && LongestFirst(calcRowMap.Keys, calcIds) by { NoneDone(fieldIds); NoneDone(calcIds); }
    assert cells.Keys == fieldIds + calcIds;
    while fieldIds != {}
      invariant fieldIds <= fieldMap.Keys && LongestFirst(fieldMap.Keys, fieldIds)
      invariant f == PartlyReplaced(source, cells, fieldIds + calcIds)
      decreases fieldIds
    {
      LongestExists(fieldIds);
      var id :| Longest(fieldIds, id);
      FieldTurn(source, fieldMap, calcRowMap, fieldIds, id);
      f := ReplaceWord(f, id, "Sheet1!" + fieldMap[id]);
      fieldIds := fieldIds - {id};
    }
    assert {} + calcIds == calcIds;
    while calcIds != {}
      invariant calcIds <= calcRowMap.Keys && LongestFirst(calcRowMap.Keys, calcIds)
      invariant f == PartlyReplaced(source, cells, calcIds)
      decreases calcIds
    {
      LongestExists(calcIds);
      var id :| Longest(calcIds, id);
      CalcTurn(source, fieldMap, calcRowMap, calcIds, id);
      f := ReplaceWord(f, id, "Calcs!A" + DecimalString(calcRowMap[id] + 1));
      calcIds := calcIds - {id};
    }
    Finished(formula, cells);
    if !(|f| > 0 && f[0] == '=') {
      f := "=" + f;
    }
  }

  lemma CellText(c: Cell)
    ensures Unlex(CellTokens(c)) == (if c.FieldCell? then "Sheet1!" else "Calcs!") + Address(c.row)
  {
    var ts := CellTokens(c);
    assert ts[1..] == [ts[1], ts[2]] && ts[1..][1..] == [ts[2]];
    assert Unlex([ts[2]]) == Address(c.row);
  }

  /** A leading equals sign is there after replacing exactly when it was there before. */
  lemma EqualsSign(source: string, cells: map<string, Cell>)
    requires Named(cells)
    ensures
      var f := Unlex(Munched(Lex(source), cells));
      var ts := Lex(source);
      if ts != [] && ts[0] == Mark('=')
      then f == "=" + Unlex(Munched(ts[1..], cells))
      else f == [] || f[0] != '='
  {
    var ts := Lex(source);
    assert Munched([], cells) == [];
    hide Lex, Munched, Named;
    LexIsLexed(source);
    MunchedIsLexed(ts, cells);
    var s := Munched(ts, cells);
    if ts != [] {
      if ts[0].Mark? {
        assert s[0] == ts[0] && s[1..] == Munched(ts[1..], cells);
      } else {
        assert s[0].Word? && IsWord(s[0].w);
      }
    }
  }

  // ---- meaning ----

  datatype CellValue = Blank | NumberValue(r: real) | StringValue(s: string) | BooleanValue(b: bool) | ErrorValue

  /** What an evaluator is given: values where cells were named, and the rest of the formula as it stands. */
  datatype Atom = Valued(v: CellValue) | Plain(t: Token)

  /** The cell that a formula names at this point, and how many tokens name it; a bare address is one of the calculation sheet. */
  function CellNamedAt(ts: seq<Token>): (r: Option<(Cell, nat)>)
    requires ts != []
    ensures r.Some? ==> 0 < r.value.1 <= |ts|
  {
    if ts[0].Mark? then None
    else if |ts| >= 3 && ts[0].w in {FIELD_SHEET, CALC_SHEET} && ts[1] == Mark('!') && ts[2].Word? && AddressRow(ts[2].w).Some? then
      var row := AddressRow(ts[2].w).value;
      Some((if ts[0].w == FIELD_SHEET then FieldCell(row) else CalcCell(row), 3))
    else if AddressRow(ts[0].w).Some? then Some((CalcCell(AddressRow(ts[0].w).value), 1))
    else None
  }

  /** A workbook formula with the values of the cells it names. */
  function Resolve(ts: seq<Token>, value: Cell -> CellValue): seq<Atom>
    decreases |ts|
  {
    if ts == [] then []
    else match CellNamedAt(ts)
      case Some(named) => [Valued(value(named.0))] + Resolve(ts[named.1..], value)
      case None => [Plain(ts[0])] + Resolve(ts[1..], value)
  }

  /** A source formula with the values its identifiers stand for; cells its author names directly are those of the workbook. */
  function ResolveSource(ts: seq<Token>, env: map<string, CellValue>, value: Cell -> CellValue): seq<Atom>
    decreases |ts|
  {
    if ts == [] then []
    else if ts[0].Word? && ts[0].w in env then [Valued(env[ts[0].w])] + ResolveSource(ts[1..], env, value)
    else match CellNamedAt(ts)
      case Some(named) => [Valued(value(named.0))] + ResolveSource(ts[named.1..], env, value)
      case None => [Plain(ts[0])] + ResolveSource(ts[1..], env, value)
  }

  /** The value of a workbook cell holding a formula, for any evaluator of resolved formulas. */
  function EvaluateCell(eval: seq<Atom> -> CellValue, text: string, value: Cell -> CellValue): CellValue {
    if text != [] && text[0] == '=' then eval(Resolve(Lex(text[1..]), value)) else StringValue(text)
  }

  function EvaluateSource(eval: seq<Atom> -> CellValue, formula: string, env: map<string, CellValue>, value: Cell -> CellValue): CellValue {
    eval(ResolveSource(Words(formula, env.Keys), env, value))
  }

  lemma {:induction false} ResolveSubstituted(
      ts: seq<Token>, cells: map<string, Cell>, env: map<string, CellValue>, value: Cell -> CellValue)
    requires Named(cells) && env.Keys == cells.Keys
    requires forall id :: id in cells ==> env[id] == value(cells[id])
    ensures Resolve(Substitute(ts, References(cells)), value) == ResolveSource(ts, env, value)
    decreases |ts|
  {
    var refs := References(cells);
    if ts == [] {
    } else if ts[0].Word? && ts[0].w in cells {
      var c := cells[ts[0].w];
      var s := CellTokens(c) + Substitute(ts[1..], refs);
      AddressInverts(c.row);
      assert s[0] == CellTokens(c)[0] && s[1] == CellTokens(c)[1] && s[2] == CellTokens(c)[2];
      assert s[3..] == Substitute(ts[1..], refs);
      ResolveSubstituted(ts[1..], cells, env, value);
    } else {
      NamesSurvive(ts, cells);
      var s := Substitute(ts, refs);
      assert s == [ts[0]] + Substitute(ts[1..], refs);
      if CellNamedAt(ts).Some? {
        ResolveSubstituted(ts[CellNamedAt(ts).value.1..], cells, env, value);
      } else {
        ResolveSubstituted(ts[1..], cells, env, value);
        assert s[1..] == Substitute(ts[1..], refs);
      }
    }
  }

  lemma SubstituteHead(t: Token, ts: seq<Token>, cells: map<string, Cell>)
    requires !(t.Word? && t.w in cells)
    ensures Substitute([t] + ts, References(cells)) == [t] + Substitute(ts, References(cells))
  {
    assert ([t] + ts)[1..] == ts;
  }

  /** A name of three tokens: sheet, exclamation mark, address. */
  lemma SheetNameSurvives(ts: seq<Token>, cells: map<string, Cell>)
    requires Named(cells) && |ts| >= 2 && ts[1] == Mark('!') && !(ts[0].Word? && ts[0].w in cells)
    ensures
      var s := Substitute(ts, References(cells));
      |s| >= 2 && s[0] == ts[0] && s[1] == ts[1] && s[2..] == Substitute(ts[2..], References(cells))
  {
    assert ts == [ts[0]] + ([ts[1]] + ts[2..]);
    SubstituteHead(ts[0], [ts[1]] + ts[2..], cells);
    SubstituteHead(ts[1], ts[2..], cells);
  }

  /** Substitution neither makes nor breaks an address at the front. */
  lemma AddressSurvives(ts: seq<Token>, cells: map<string, Cell>)
    requires Named(cells)
    ensures
      var s := Substitute(ts, References(cells));
      if ts != [] && ts[0].Word? && AddressRow(ts[0].w).Some?
      then s == [ts[0]] + Substitute(ts[1..], References(cells))
      else s == [] || s[0].Mark? || AddressRow(s[0].w).None?
  {
    if ts != [] && ts[0].Word? && ts[0].w in cells {
      NameIsNoAddress(ts[0].w);
      assert Substitute(ts, References(cells))[0] == CellTokens(cells[ts[0].w])[0];
    }
  }

  /** The front of a formula and what substitution makes of it, as far as cell names are concerned. */
  ghost predicate SameName(ts: seq<Token>, s: seq<Token>, cells: map<string, Cell>)
    requires ts != []
  {
    s != [] && CellNamedAt(s) == CellNamedAt(ts)
    && (CellNamedAt(ts).Some? ==>
          s[CellNamedAt(ts).value.1..] == Substitute(ts[CellNamedAt(ts).value.1..], References(cells)))
  }

  /** The row after a sheet's name and an exclamation mark. */
  function RowAfterMark(ts: seq<Token>): Option<nat> {
    if |ts| >= 3 && ts[1] == Mark('!') && ts[2].Word? then AddressRow(ts[2].w) else None
  }

  lemma NameFromParts(ts: seq<Token>, s: seq<Token>)
    requires ts != [] && s != [] && s[0] == ts[0] && RowAfterMark(s) == RowAfterMark(ts)
    ensures CellNamedAt(s) == CellNamedAt(ts)
    ensures CellNamedAt(ts).Some? ==> CellNamedAt(ts).value.1 == 1 || (CellNamedAt(ts).value.1 == 3 && RowAfterMark(ts).Some?)
  {
    hide AddressRow;
  }

  lemma MarkedSurvives(ts: seq<Token>, cells: map<string, Cell>)
    requires Named(cells) && |ts| >= 2 && ts[1] == Mark('!') && !(ts[0].Word? && ts[0].w in cells)
    ensures
      var s := Substitute(ts, References(cells));
      s != [] && RowAfterMark(s) == RowAfterMark(ts) && (RowAfterMark(ts).Some? ==> s[3..] == Substitute(ts[3..], References(cells)))
  {
    SheetNameSurvives(ts, cells);
    AddressSurvives(ts[2..], cells);
    hide Substitute, AddressRow, Named, References;
    var s := Substitute(ts, References(cells));
    var tail, rest := s[2..], ts[2..];
    assert |s| >= 3 ==> s[2] == tail[0] && s[3..] == tail[1..];
    assert |ts| >= 3 ==> rest[0] == ts[2] && rest[1..] == ts[3..];
  }

  lemma UnmarkedSurvives(ts: seq<Token>, cells: map<string, Cell>)
    requires ts != [] && (|ts| >= 2 ==> ts[1] != Mark('!')) && !(ts[0].Word? && ts[0].w in cells)
    ensures RowAfterMark(ts).None? && RowAfterMark(Substitute(ts, References(cells))).None?
  {
    assert ts == [ts[0]] + ts[1..];
    SubstituteHead(ts[0], ts[1..], cells);
    if |ts| >= 2 {
      SecondToken(ts[1..], cells);
    } else {
      assert Substitute(ts[1..], References(cells)) == [];
    }
    hide Substitute, AddressRow, References;
    var s := Substitute(ts, References(cells));
    assert |s| >= 2 ==> s[1] == s[1..][0];
  }

  /** Substitution neither makes nor breaks a cell name the author wrote. */
  lemma NamesSurvive(ts: seq<Token>, cells: map<string, Cell>)
    requires Named(cells) && ts != [] && !(ts[0].Word? && ts[0].w in cells)
    ensures SameName(ts, Substitute(ts, References(cells)), cells)
  {
    hide Substitute, Named, References, RowAfterMark, CellNamedAt;
    assert ts == [ts[0]] + ts[1..];
    SubstituteHead(ts[0], ts[1..], cells);
    var s := Substitute(ts, References(cells));
    assert s[1..] == Substitute(ts[1..], References(cells));
    if |ts| >= 2 && ts[1] == Mark('!') {
      MarkedSurvives(ts, cells);
    } else {
      UnmarkedSurvives(ts, cells);
    }
    NameFromParts(ts, s);
  }

  lemma SecondToken(ts: seq<Token>, cells: map<string, Cell>)
    requires ts != [] && ts[0] != Mark('!')
    ensures Substitute(ts, References(cells)) != [] && Substitute(ts, References(cells))[0] != Mark('!')
  {
    if ts[0].Word? && ts[0].w in cells {
      assert Substitute(ts, References(cells))[0] == CellTokens(cells[ts[0].w])[0];
    }
  }

  lemma CompiledLexes(formula: string, cells: map<string, Cell>)
    requires Named(cells)
    ensures Lex(Unlex(CompiledTokens(formula, cells))) == CompiledTokens(formula, cells)
  {
    LexIsLexed(Trim(formula));
    assert Lexed(FormulaTokens(formula));
    CompiledIsMunched(formula, cells);
    MunchedIsLexed(FormulaTokens(formula), cells);
    LexOfUnlex(CompiledTokens(formula, cells));
  }

  /**
   * Compiling preserves meaning: for every evaluator that sees a cell through
   * its value, the compiled text evaluates in the workbook to what the source
   * formula evaluates to when each identifier stands for its cell's value.
   */
  lemma CompilePreservesMeaning(
      eval: seq<Atom> -> CellValue, formula: string, cells: map<string, Cell>,
      env: map<string, CellValue>, value: Cell -> CellValue)
    requires Named(cells) && env.Keys == cells.Keys
    requires forall id :: id in cells ==> env[id] == value(cells[id])
    ensures EvaluateCell(eval, "=" + Unlex(CompiledTokens(formula, cells)), value)
         == EvaluateSource(eval, formula, env, value)
  {
    var body := Unlex(CompiledTokens(formula, cells));
    assert ("=" + body)[1..] == body;
    CompiledLexes(formula, cells);
    ResolveSubstituted(Words(formula, cells.Keys), cells, env, value);
  }
}
