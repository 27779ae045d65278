/** Refresh-token sessions: issued at login, rotated one into the next, revoked. */
module Sessions {
  import opened Wrappers

  type Token = string

  datatype Session = Session(
    accountId: string, issuedAt: int, expiresAt: int, revokedAt: Option<int>, userAgent: string, ipHash: string)

  type Table = map<Token, Session>

  datatype RefreshError = InvalidRefreshToken | RefreshTokenRevoked | RefreshTokenExpired | TokenTaken

  predicate Live(table: Table, t: Token, now: int) {
    t in table && table[t].revokedAt.None? && table[t].expiresAt >= now
  }

  // ---- lineages ----

  /** Every login's tokens in the order they were issued, and where each token stands. */
  datatype Lineages = Lineages(chains: seq<seq<Token>>, at: map<Token, (nat, nat)>)

  predicate Stands(l: Lineages, c: nat, i: nat) {
    c < |l.chains| && i < |l.chains[c]|
  }

  /** The token at a place stands nowhere else, belongs to its chain's account, and is revoked unless it is the chain's last. */
  ghost predicate PlaceIsRight(table: Table, l: Lineages, c: nat, i: nat)
    requires Stands(l, c, i)
  {
    var first, t := l.chains[c][0], l.chains[c][i];
    && t in l.at && l.at[t] == (c, i) && t in table && first in table
    && table[t].accountId == table[first].accountId
    && (i + 1 < |l.chains[c]| ==> table[t].revokedAt.Some?)
  }

  /** Every session's place is known, and is its place. */
  predicate Located(table: Table, l: Lineages) {
    && l.at.Keys == table.Keys
    && forall t :: t in l.at ==> Stands(l, l.at[t].0, l.at[t].1) && l.chains[l.at[t].0][l.at[t].1] == t
  }

  /** Each session stands in exactly one place of one chain, and each place is right. */
  ghost predicate Chained(table: Table, l: Lineages) {
    Located(table, l) && forall c: nat, i: nat :: Stands(l, c, i) ==> PlaceIsRight(table, l, c, i)
  }

  /** Of one login at most one session is unrevoked. */
  lemma OneUnrevokedPerLogin(table: Table, l: Lineages, s: Token, t: Token)
    requires Chained(table, l) && s in table && t in table && l.at[s].0 == l.at[t].0
    requires table[s].revokedAt.None? && table[t].revokedAt.None?
    ensures s == t
  {
    hide Chained, PlaceIsRight;
    UnrevokedIsLast(table, l, s);
    UnrevokedIsLast(table, l, t);
    PlaceOf(table, l, s);
    PlaceOf(table, l, t);
  }

  /** All sessions of one login belong to one account. */
  lemma OneAccountPerLogin(table: Table, l: Lineages, s: Token, t: Token)
    requires Chained(table, l) && s in table && t in table && l.at[s].0 == l.at[t].0
    ensures table[s].accountId == table[t].accountId
  {
    assert PlaceIsRight(table, l, l.at[s].0, l.at[s].1) && PlaceIsRight(table, l, l.at[t].0, l.at[t].1);
  }

  function Started(l: Lineages, t: Token): Lineages {
    Lineages(l.chains + [[t]], l.at[t := (|l.chains|, 0)])
  }

  function Extended(l: Lineages, c: nat, t: Token): Lineages
    requires c < |l.chains|
  {
    Lineages(l.chains[c := l.chains[c] + [t]], l.at[t := (c, |l.chains[c]|)])
  }

  function Revoked(table: Table, t: Token, now: int): Table
    requires t in table
  {
    table[t := table[t].(revokedAt := Some(now))]
  }

  lemma StartedPlaces(l: Lineages, t: Token, c: nat, i: nat)
    ensures var after := Started(l, t);
      Stands(after, c, i) <==> Stands(l, c, i) || (c == |l.chains| && i == 0)
    ensures Stands(l, c, i) ==> Started(l, t).chains[c] == l.chains[c]
    ensures Started(l, t).chains[|l.chains|] == [t]
  {
  }

  lemma StartedPlaceIsRight(table: Table, l: Lineages, t: Token, s: Session, c: nat, i: nat)
    requires t !in table && Stands(Started(l, t), c, i)
    requires Stands(l, c, i) ==> PlaceIsRight(table, l, c, i)
    ensures PlaceIsRight(table[t := s], Started(l, t), c, i)
  {
    StartedPlaces(l, t, c, i);
  }

  lemma StartLocates(table: Table, l: Lineages, t: Token, s: Session)
    requires Located(table, l) && t !in table
    ensures Located(table[t := s], Started(l, t))
  {
    var after := Started(l, t);
    forall x | x in after.at ensures Stands(after, after.at[x].0, after.at[x].1) && after.chains[after.at[x].0][after.at[x].1] == x {
      StartedPlaces(l, t, after.at[x].0, after.at[x].1);
    }
  }

  lemma StartKeeps(table: Table, l: Lineages, t: Token, s: Session)
    requires Chained(table, l) && t !in table
    ensures Chained(table[t := s], Started(l, t))
  {
    StartLocates(table, l, t, s);
    hide PlaceIsRight, Started, Stands, Located;
    forall c: nat, i: nat | Stands(Started(l, t), c, i) ensures PlaceIsRight(table[t := s], Started(l, t), c, i) {
      StartedPlaceIsRight(table, l, t, s, c, i);
    }
  }

  lemma RevokedPlaceIsRight(table: Table, l: Lineages, t: Token, now: int, c: nat, i: nat)
    requires t in table && Stands(l, c, i) && PlaceIsRight(table, l, c, i)
    ensures PlaceIsRight(Revoked(table, t, now), l, c, i)
  {
  }

  lemma RevokeKeeps(table: Table, l: Lineages, t: Token, now: int)
    requires Chained(table, l) && t in table
    ensures Chained(Revoked(table, t, now), l)
  {
    hide *;
    ChainedIsLocated(table, l);
    RevokedStaysLocated(table, l, t, now);
    forall c: nat, i: nat | Stands(l, c, i) ensures PlaceIsRight(Revoked(table, t, now), l, c, i) {
      PlaceAt(table, l, c, i);
      RevokedPlaceIsRight(table, l, t, now, c, i);
    }
    ChainedFrom(Revoked(table, t, now), l);
  }

  lemma RevokedStaysLocated(table: Table, l: Lineages, t: Token, now: int)
    requires Located(table, l) && t in table
    ensures Located(Revoked(table, t, now), l)
  {
  }

  lemma ChainedFrom(table: Table, l: Lineages)
    requires Located(table, l) && forall c: nat, i: nat :: Stands(l, c, i) ==> PlaceIsRight(table, l, c, i)
    ensures Chained(table, l)
  {
  }

  lemma ExtendedPlaces(l: Lineages, home: nat, t: Token, c: nat, i: nat)
    requires home < |l.chains|
    ensures var after := Extended(l, home, t);
      Stands(after, c, i) <==> Stands(l, c, i) || (c == home && i == |l.chains[home]|)
    ensures Stands(l, c, i) ==> Extended(l, home, t).chains[c][i] == l.chains[c][i]
    ensures c < |l.chains| ==> |Extended(l, home, t).chains[c]| == |l.chains[c]| + if c == home then 1 else 0
    ensures Extended(l, home, t).chains[home][|l.chains[home]|] == t
  {
  }

  lemma ExtendedPlaceIsRight(table: Table, l: Lineages, home: nat, t: Token, s: Session, c: nat, i: nat)
    requires t !in table && home < |l.chains| && l.chains[home] != [] && Stands(Extended(l, home, t), c, i)
    requires Stands(l, c, i) ==> PlaceIsRight(table, l, c, i)
    requires PlaceIsRight(table, l, home, |l.chains[home]| - 1)
    requires table[l.chains[home][|l.chains[home]| - 1]].revokedAt.Some? && s.accountId == table[l.chains[home][0]].accountId
    ensures PlaceIsRight(table[t := s], Extended(l, home, t), c, i)
  {
    ExtendedPlaces(l, home, t, c, i);
    ExtendedPlaces(l, home, t, c, 0);
    ExtendedPlaces(l, home, t, home, 0);
  }

  lemma ExtendLocates(table: Table, l: Lineages, home: nat, t: Token, s: Session)
    requires Located(table, l) && t !in table && home < |l.chains|
    ensures Located(table[t := s], Extended(l, home, t))
  {
    var after := Extended(l, home, t);
    forall x | x in after.at ensures Stands(after, after.at[x].0, after.at[x].1) && after.chains[after.at[x].0][after.at[x].1] == x {
      ExtendedPlaces(l, home, t, after.at[x].0, after.at[x].1);
    }
  }

  lemma ExtendKeeps(table: Table, l: Lineages, last: Token, t: Token, s: Session)
    requires Chained(table, l) && last in table && t !in table && s.accountId == table[last].accountId
    requires table[last].revokedAt.Some? && l.at[last].1 + 1 == |l.chains[l.at[last].0]|
    ensures Chained(table[t := s], Extended(l, l.at[last].0, t))
  {
    hide *;
    PlaceOf(table, l, last);
    ChainedIsLocated(table, l);
    FirstsAccount(table, l, last);
    var (home, place) := l.at[last];
    ExtendLocates(table, l, home, t, s);
    forall c: nat, i: nat | Stands(Extended(l, home, t), c, i) ensures PlaceIsRight(table[t := s], Extended(l, home, t), c, i) {
      if Stands(l, c, i) { PlaceAt(table, l, c, i); }
      ExtendedPlaceIsRight(table, l, home, t, s, c, i);
    }
    ChainedFrom(table[t := s], Extended(l, home, t));
  }

  lemma FirstsAccount(table: Table, l: Lineages, t: Token)
    requires Chained(table, l) && t in table
    ensures t in l.at && l.at[t].0 < |l.chains| && l.chains[l.at[t].0] != []
    ensures l.chains[l.at[t].0][0] in table && table[l.chains[l.at[t].0][0]].accountId == table[t].accountId
  {
    assert PlaceIsRight(table, l, l.at[t].0, l.at[t].1);
  }

  /** An unrevoked token is the last of its chain. */
  lemma UnrevokedIsLast(table: Table, l: Lineages, t: Token)
    requires Chained(table, l) && t in table && table[t].revokedAt.None?
    ensures t in l.at && l.at[t].0 < |l.chains| && l.at[t].1 + 1 == |l.chains[l.at[t].0]|
  {
    assert PlaceIsRight(table, l, l.at[t].0, l.at[t].1);
  }

  // ---- the operations ----

  /** Rows stay, and what is revoked stays as it was revoked. */
  predicate History(before: Table, after: Table) {
    forall t :: t in before ==>
      (t in after && after[t].accountId == before[t].accountId && (before[t].revokedAt.Some? ==> after[t] == before[t]))
  }

  /** The token at a place became the next of its chain, if there is one, and nothing else. */
  ghost predicate SuccessorIsRight(l: Lineages, becameOf: map<Token, Token>, c: nat, i: nat)
    requires Stands(l, c, i)
  {
    var t := l.chains[c][i];
    && (t in becameOf <==> i + 1 < |l.chains[c]|)
    && (t in becameOf ==> becameOf[t] == l.chains[c][i + 1])
  }

  ghost predicate Successors(l: Lineages, becameOf: map<Token, Token>) {
    becameOf.Keys <= l.at.Keys && forall c: nat, i: nat :: Stands(l, c, i) ==> SuccessorIsRight(l, becameOf, c, i)
  }

  lemma StartKeepsSuccessors(table: Table, l: Lineages, becameOf: map<Token, Token>, t: Token)
    requires Located(table, l) && Successors(l, becameOf) && t !in table
    ensures Successors(Started(l, t), becameOf)
  {
    hide Located;
    assert t !in becameOf by { LocatedKeys(table, l); }
    forall c: nat, i: nat | Stands(Started(l, t), c, i) ensures SuccessorIsRight(Started(l, t), becameOf, c, i) {
      StartedPlaces(l, t, c, i);
    }
  }

  lemma ChainedIsLocated(table: Table, l: Lineages)
    requires Chained(table, l)
    ensures Located(table, l)
  {
  }

  lemma LocatedKeys(table: Table, l: Lineages)
    requires Located(table, l)
    ensures l.at.Keys == table.Keys
  {
  }

  lemma ExtendedSuccessorIsRight(table: Table, l: Lineages, becameOf: map<Token, Token>, last: Token, home: nat, t: Token, c: nat, i: nat)
    requires home < |l.chains| && l.chains[home] != [] && l.chains[home][|l.chains[home]| - 1] == last
    requires t !in table && t !in becameOf && t != last && Stands(Extended(l, home, t), c, i)
    requires Stands(l, c, i) ==> SuccessorIsRight(l, becameOf, c, i) && PlaceIsRight(table, l, c, i)
    requires PlaceIsRight(table, l, home, |l.chains[home]| - 1)
    ensures SuccessorIsRight(Extended(l, home, t), becameOf[last := t], c, i)
  {
    ExtendedPlaces(l, home, t, c, i);
    ExtendedPlaces(l, home, t, c, i + 1);
  }

  lemma ExtendKeepsSuccessors(table: Table, l: Lineages, becameOf: map<Token, Token>, last: Token, t: Token)
    requires Chained(table, l) && Successors(l, becameOf) && last in table && t !in table
    requires l.at[last].1 + 1 == |l.chains[l.at[last].0]|
    ensures last !in becameOf && Successors(Extended(l, l.at[last].0, t), becameOf[last := t])
  {
    hide *;
    PlaceOf(table, l, last);
    var (home, place) := l.at[last];
    SuccessorAt(l, becameOf, home, place);
    NewToken(table, l, becameOf, last, t);
    LastDidNotBecome(l, becameOf, home, place);
    forall c: nat, i: nat | Stands(Extended(l, home, t), c, i) ensures SuccessorIsRight(Extended(l, home, t), becameOf[last := t], c, i) {
      if Stands(l, c, i) {
        SuccessorAt(l, becameOf, c, i);
        PlaceAt(table, l, c, i);
      }
      ExtendedSuccessorIsRight(table, l, becameOf, last, home, t, c, i);
    }
    SuccessorsFrom(l, becameOf, last, home, t);
  }

  lemma PlaceOf(table: Table, l: Lineages, t: Token)
    requires Chained(table, l) && t in table
    ensures t in l.at && Stands(l, l.at[t].0, l.at[t].1) && l.at[t].0 < |l.chains| && l.at[t].1 < |l.chains[l.at[t].0]|
    ensures l.chains[l.at[t].0][l.at[t].1] == t && PlaceIsRight(table, l, l.at[t].0, l.at[t].1)
  {
  }

  lemma PlaceAt(table: Table, l: Lineages, c: nat, i: nat)
    requires Chained(table, l) && Stands(l, c, i)
    ensures PlaceIsRight(table, l, c, i)
  {
  }

  lemma SuccessorAt(l: Lineages, becameOf: map<Token, Token>, c: nat, i: nat)
    requires Successors(l, becameOf) && Stands(l, c, i)
    ensures SuccessorIsRight(l, becameOf, c, i)
  {
  }

  lemma NewToken(table: Table, l: Lineages, becameOf: map<Token, Token>, last: Token, t: Token)
    requires Chained(table, l) && Successors(l, becameOf) && last in table && t !in table
    ensures t !in becameOf && t != last && becameOf.Keys <= l.at.Keys
  {
  }

  lemma LastDidNotBecome(l: Lineages, becameOf: map<Token, Token>, c: nat, i: nat)
    requires Stands(l, c, i) && SuccessorIsRight(l, becameOf, c, i) && c < |l.chains| && i + 1 == |l.chains[c]|
    ensures l.chains[c][i] !in becameOf
  {
  }

  lemma SuccessorsFrom(l: Lineages, becameOf: map<Token, Token>, last: Token, home: nat, t: Token)
    requires home < |l.chains| && becameOf.Keys <= l.at.Keys && last in l.at
    requires forall c: nat, i: nat :: Stands(Extended(l, home, t), c, i) ==> SuccessorIsRight(Extended(l, home, t), becameOf[last := t], c, i)
    ensures Successors(Extended(l, home, t), becameOf[last := t])
  {
  }

  /** The token revoked, and its successor for the same account beside it. */
  function Rotated(table: Table, token: Token, newId: Token, now: int, ttlSeconds: nat, userAgent: Option<string>, ipHash: Option<string>): Table
    requires token in table
  {
    var was := table[token];
    Revoked(table, token, now)[newId :=
      Session(was.accountId, now, now + ttlSeconds, None, Or(userAgent, was.userAgent), Or(ipHash, was.ipHash))]
  }

  /**
   * What a rotation does, row by row: the old token is revoked and otherwise as it
   * was, its successor lives a whole lifetime from now, and every other row stays.
   */
  ghost predicate Rotates(before: Table, after: Table, token: Token, newId: Token, now: int, ttlSeconds: nat,
                          userAgent: Option<string>, ipHash: Option<string>)
  {
    && token in before && newId !in before && after.Keys == before.Keys + {newId}
    && after[token] == before[token].(revokedAt := Some(now))
    && (forall t :: t in before && t != token ==> after[t] == before[t])
    && after[newId].accountId == before[token].accountId
    && after[newId].issuedAt == now && after[newId].expiresAt == now + ttlSeconds && after[newId].revokedAt.None?
    && after[newId].userAgent == (match userAgent case Some(given) => given case None => before[token].userAgent)
    && after[newId].ipHash == (match ipHash case Some(given) => given case None => before[token].ipHash)
  }

  /** What a login does: one row more, unrevoked, for a whole lifetime from now. */
  ghost predicate Issues(before: Table, after: Table, sub: string, id: Token, now: int, ttlSeconds: nat,
                         userAgent: Option<string>, ipHash: Option<string>)
  {
    && id !in before && after.Keys == before.Keys + {id}
    && (forall t :: t in before ==> after[t] == before[t])
    && after[id].accountId == sub && after[id].issuedAt == now && after[id].expiresAt == now + ttlSeconds && after[id].revokedAt.None?
    && after[id].userAgent == (match userAgent case Some(given) => given case None => "unknown")
    && after[id].ipHash == (match ipHash case Some(given) => given case None => "unknown")
  }

  /** What a logout does to an unrevoked token. */
  ghost predicate Revokes(before: Table, after: Table, token: Token, now: int) {
    && token in before && after.Keys == before.Keys
    && after[token] == before[token].(revokedAt := Some(now))
    && forall t :: t in before && t != token ==> after[t] == before[t]
  }

  class SessionDb {
    var table: Table
    ghost var lineages: Lineages
    /** Which token each rotated token became. */
    ghost var becameOf: map<Token, Token>

    ghost predicate Valid()
      reads this
    {
      Chained(table, lineages) && Successors(lineages, becameOf)
    }

    constructor ()
      ensures Valid() && Logins(table, lineages, becameOf) == NONE
    {
      table, lineages, becameOf := map[], Lineages([], map[]), map[];
    }

    /** The id is the primary key: one that exists is refused. */
    method IssueSession(sub: string, id: Token, now: int, ttlSeconds: nat, userAgent: Option<string>, ipHash: Option<string>)
        returns (r: Result<Token, RefreshError>)
      requires Valid()
      modifies this
      ensures Valid() && History(old(table), table) && becameOf == old(becameOf)
      ensures r.Ok? <==> id !in old(table)
      ensures r.Ok? ==> r.value == id && lineages == Started(old(lineages), id)
      ensures r.Ok? ==> table == old(table)[id := Session(sub, now, now + ttlSeconds, None, OrUnknown(userAgent), OrUnknown(ipHash))]
      ensures r.Ok? ==> Issues(old(table), table, sub, id, now, ttlSeconds, userAgent, ipHash)
      ensures r.Err? ==> r.error == TokenTaken && table == old(table) && lineages == old(lineages)
    {
      hide Chained, Successors, Started;
      var session := Session(sub, now, now + ttlSeconds, None, OrUnknown(userAgent), OrUnknown(ipHash));
      if id in table { return Err(TokenTaken); }
      StartKeeps(table, lineages, id, session);
      ChainedIsLocated(table, lineages);
      StartKeepsSuccessors(table, lineages, becameOf, id);
      table := table[id := session];
      lineages := Started(lineages, id);
      r := Ok(id);
    }

    /**
     * One transaction. The successor joins the token's own chain; the token is
     * revoked, so it can never be rotated again.
     */
    method RotateRefreshToken(token: Token, newId: Token, now: int, ttlSeconds: nat, userAgent: Option<string>, ipHash: Option<string>)
        returns (r: Result<Token, RefreshError>)
      requires Valid()
      modifies this
      ensures Valid() && History(old(table), table)
      ensures r.Ok? <==>
        && token in old(table) && old(table)[token].revokedAt.None? && now <= old(table)[token].expiresAt
        && newId !in old(table)
      ensures r.Ok? ==> r.value == newId && token !in old(becameOf) && becameOf == old(becameOf)[token := newId]
      ensures r.Ok? ==> Rotates(old(table), table, token, newId, now, ttlSeconds, userAgent, ipHash)
      ensures r.Ok? ==> table == Rotated(old(table), token, newId, now, ttlSeconds, userAgent, ipHash)
      ensures r.Ok? ==> token in old(lineages).at && old(lineages).at[token].0 < |old(lineages).chains|
      ensures r.Ok? ==> lineages == Extended(old(lineages), old(lineages).at[token].0, newId)
      ensures r.Ok? ==> Live(table, newId, now) && !Live(table, token, now)
      ensures r.Err? ==> table == old(table) && lineages == old(lineages) && becameOf == old(becameOf)
      ensures token !in old(table) ==> r == Err(InvalidRefreshToken)
      ensures token in old(table) && old(table)[token].revokedAt.Some? ==> r == Err(RefreshTokenRevoked)
      ensures token in old(table) && old(table)[token].revokedAt.None? && old(table)[token].expiresAt < now ==> r == Err(RefreshTokenExpired)
      ensures token in old(table) && old(table)[token].revokedAt.None? && now <= old(table)[token].expiresAt && newId in old(table) ==>
        r == Err(TokenTaken)
    {
      hide Chained, Successors, Extended;
      if token !in table { return Err(InvalidRefreshToken); }
      var existing := table[token];
      if existing.revokedAt.Some? { return Err(RefreshTokenRevoked); }
      if existing.expiresAt < now { return Err(RefreshTokenExpired); }
      var tx := Revoked(table, token, now);
      var successor := Session(existing.accountId, now, now + ttlSeconds, None, Or(userAgent, existing.userAgent), Or(ipHash, existing.ipHash));
      if newId in tx { return Err(TokenTaken); }
      UnrevokedIsLast(table, lineages, token);
      RevokeKeeps(table, lineages, token, now);
      ExtendKeeps(tx, lineages, token, newId, successor);
      ExtendKeepsSuccessors(table, lineages, becameOf, token, newId);
      table := tx[newId := successor];
      lineages := Extended(lineages, lineages.at[token].0, newId);
      becameOf := becameOf[token := newId];
      r := Ok(newId);
    }

    /** Nothing happens to a token that does not exist or is revoked already. */
    method RevokeRefreshToken(token: Token, now: int)
      requires Valid()
      modifies this
      ensures Valid() && History(old(table), table) && lineages == old(lineages) && becameOf == old(becameOf)
      ensures table == if token in old(table) && old(table)[token].revokedAt.None? then Revoked(old(table), token, now) else old(table)
      ensures token in old(table) && old(table)[token].revokedAt.None? ==> Revokes(old(table), table, token, now)
    {
      hide Chained, Successors;
      if token in table && table[token].revokedAt.None? {
        RevokeKeeps(table, lineages, token, now);
        table := Revoked(table, token, now);
      }
    }
  }

  function Or(given: Option<string>, otherwise: string): string {
    if given.Some? then given.value else otherwise
  }

  function OrUnknown(given: Option<string>): string {
    Or(given, "unknown")
  }

  // ---- whole runs ----

  datatype Op =
    | Issue(sub: string, id: Token, now: int, ttlSeconds: nat, userAgent: Option<string>, ipHash: Option<string>)
    | Rotate(token: Token, id: Token, now: int, ttlSeconds: nat, userAgent: Option<string>, ipHash: Option<string>)
    | Revoke(token: Token, now: int)

  /** The session table with its chains. */
  datatype Logins = Logins(table: Table, lineages: Lineages, becameOf: map<Token, Token>)

  const NONE := Logins(map[], Lineages([], map[]), map[])

  /** The sessions after one operation; one that is refused leaves them as they were. */
  function After(s: Logins, op: Op): Logins {
    match op
    case Issue(sub, id, now, ttlSeconds, userAgent, ipHash) =>
      if id in s.table then s
      else Logins(s.table[id := Session(sub, now, now + ttlSeconds, None, OrUnknown(userAgent), OrUnknown(ipHash))],
                  Started(s.lineages, id), s.becameOf)
    case Rotate(token, id, now, ttlSeconds, userAgent, ipHash) =>
      if Live(s.table, token, now) && id !in s.table && token in s.lineages.at && s.lineages.at[token].0 < |s.lineages.chains|
      then Logins(Rotated(s.table, token, id, now, ttlSeconds, userAgent, ipHash),
                  Extended(s.lineages, s.lineages.at[token].0, id), s.becameOf[token := id])
      else s
    case Revoke(token, now) =>
      if token in s.table && s.table[token].revokedAt.None? then s.(table := Revoked(s.table, token, now)) else s
  }

  /** The sessions a list of operations leads to from none. */
  function RunOf(ops: seq<Op>): Logins {
    if ops == [] then NONE else After(RunOf(ops[..|ops| - 1]), ops[|ops| - 1])
  }

  /** What the operation does to the sessions when it goes through, and that it does nothing otherwise. */
  ghost predicate Does(before: Table, op: Op, after: Table) {
    match op
    case Issue(sub, id, now, ttlSeconds, userAgent, ipHash) =>
      if id in before then after == before else Issues(before, after, sub, id, now, ttlSeconds, userAgent, ipHash)
    case Rotate(token, id, now, ttlSeconds, userAgent, ipHash) =>
      if token in before && before[token].revokedAt.None? && now <= before[token].expiresAt && id !in before
      then Rotates(before, after, token, id, now, ttlSeconds, userAgent, ipHash) else after == before
    case Revoke(token, now) =>
      if token in before && before[token].revokedAt.None? then Revokes(before, after, token, now) else after == before
  }

  lemma AfterDoes(s: Logins, op: Op)
    requires Good(s)
    ensures Does(s.table, op, After(s, op).table)
  {
    hide Good, Started, Extended, Successors;
    if op.Rotate? && op.token in s.table && s.table[op.token].revokedAt.None? && op.id !in s.table {
      RotateKeeps(s, op.token, op.id, op.now, op.ttlSeconds, op.userAgent, op.ipHash);
    }
  }

  /** In every run each operation does to the sessions before it what it should. */
  lemma EveryStepDoes(ops: seq<Op>, i: nat)
    requires i < |ops|
    ensures Does(RunOf(ops[..i]).table, ops[i], RunOf(ops[..i + 1]).table)
  {
    assert ops[..i + 1][..i] == ops[..i];
    EveryRunIsGood(ops[..i]);
    hide Good, After;
    AfterDoes(RunOf(ops[..i]), ops[i]);
  }

  /** The operation that made a session: it lives the operation's lifetime from the operation's time on. */
  predicate MadeBy(op: Op, t: Token, s: Session) {
    match op
    case Issue(sub, id, now, ttlSeconds, _, _) => id == t && s.accountId == sub && s.issuedAt == now && s.expiresAt == now + ttlSeconds
    case Rotate(_, id, now, ttlSeconds, _, _) => id == t && s.issuedAt == now && s.expiresAt == now + ttlSeconds
    case Revoke(_, _) => false
  }

  predicate RevokedBy(op: Op, t: Token, at: int) {
    match op
    case Issue(_, _, _, _, _, _) => false
    case Rotate(token, _, now, _, _, _) => token == t && now == at
    case Revoke(token, now) => token == t && now == at
  }

  predicate SomeMade(ops: seq<Op>, t: Token, s: Session) {
    exists i :: 0 <= i < |ops| && MadeBy(ops[i], t, s)
  }

  predicate SomeRevoked(ops: seq<Op>, t: Token, at: int) {
    exists i :: 0 <= i < |ops| && RevokedBy(ops[i], t, at)
  }

  lemma MoreOps(ops: seq<Op>, op: Op, t: Token, s: Session, at: int)
    ensures SomeMade(ops, t, s) || MadeBy(op, t, s) ==> SomeMade(ops + [op], t, s)
    ensures SomeRevoked(ops, t, at) || RevokedBy(op, t, at) ==> SomeRevoked(ops + [op], t, at)
  {
    var more := ops + [op];
    assert more[|ops|] == op && forall i :: 0 <= i < |ops| ==> more[i] == ops[i];
  }

  /** In every run each session has the times of the operation that made it, and was revoked when some operation on it says. */
  lemma {:induction false} EverySessionHasItsTimes(ops: seq<Op>, t: Token)
    requires t in RunOf(ops).table
    ensures
      var s := RunOf(ops).table[t];
      SomeMade(ops, t, s) && (s.revokedAt.Some? ==> SomeRevoked(ops, t, s.revokedAt.value))
  {
    if ops != [] {
      var front, last := ops[..|ops| - 1], ops[|ops| - 1];
      assert ops == front + [last] && ops[..|ops|] == ops;
      EveryStepDoes(ops, |front|);
      var s := RunOf(ops).table[t];
      var at := if s.revokedAt.Some? then s.revokedAt.value else 0;
      MoreOps(front, last, t, s, at);
      hide RunOf, SomeMade, SomeRevoked;
      if t in RunOf(front).table {
        EverySessionHasItsTimes(front, t);
        SameMaker(front, last, t, RunOf(front).table[t], s, at);
      }
    }
  }

  /** Revoking a session does not change who made it. */
  lemma SameMaker(front: seq<Op>, last: Op, t: Token, was: Session, s: Session, at: int)
    requires SomeMade(front, t, was) && (s == was || s == was.(revokedAt := s.revokedAt))
    ensures SomeMade(front, t, s) && SomeMade(front + [last], t, s)
  {
    var i :| 0 <= i < |front| && MadeBy(front[i], t, was);
    assert MadeBy(front[i], t, s);
    MoreOps(front, last, t, s, at);
  }

  ghost predicate Good(s: Logins) {
    Chained(s.table, s.lineages) && Successors(s.lineages, s.becameOf)
  }

  predicate Grown(a: map<Token, Token>, b: map<Token, Token>) {
    forall t :: t in a ==> t in b && b[t] == a[t]
  }

  lemma IssueKeeps(s: Logins, id: Token, session: Session)
    requires Good(s) && id !in s.table
    ensures Good(Logins(s.table[id := session], Started(s.lineages, id), s.becameOf))
  {
    hide Chained, Successors, Started;
    StartKeeps(s.table, s.lineages, id, session);
    ChainedIsLocated(s.table, s.lineages);
    StartKeepsSuccessors(s.table, s.lineages, s.becameOf, id);
  }

  lemma RotateKeeps(s: Logins, token: Token, id: Token, now: int, ttlSeconds: nat, userAgent: Option<string>, ipHash: Option<string>)
    requires Good(s) && token in s.table && s.table[token].revokedAt.None? && id !in s.table
    ensures token in s.lineages.at && s.lineages.at[token].0 < |s.lineages.chains| && token !in s.becameOf
    ensures Good(Logins(Rotated(s.table, token, id, now, ttlSeconds, userAgent, ipHash),
                        Extended(s.lineages, s.lineages.at[token].0, id), s.becameOf[token := id]))
  {
    hide Chained, Successors, Extended;
    var was, tx := s.table[token], Revoked(s.table, token, now);
    UnrevokedIsLast(s.table, s.lineages, token);
    RevokeKeeps(s.table, s.lineages, token, now);
    ExtendKeeps(tx, s.lineages, token, id,
                Session(was.accountId, now, now + ttlSeconds, None, Or(userAgent, was.userAgent), Or(ipHash, was.ipHash)));
    ExtendKeepsSuccessors(s.table, s.lineages, s.becameOf, token, id);
  }

  lemma RevokeKeepsGood(s: Logins, token: Token, now: int)
    requires Good(s) && token in s.table
    ensures Good(s.(table := Revoked(s.table, token, now)))
  {
    hide Chained, Successors;
    RevokeKeeps(s.table, s.lineages, token, now);
  }

  lemma AfterIsGood(s: Logins, op: Op)
    requires Good(s)
    ensures Good(After(s, op))
  {
    hide Good, Started, Extended, Rotated, Revoked;
    match op
    case Issue(sub, id, now, ttlSeconds, userAgent, ipHash) =>
      if id !in s.table { IssueKeeps(s, id, Session(sub, now, now + ttlSeconds, None, OrUnknown(userAgent), OrUnknown(ipHash))); }
    case Rotate(token, id, now, ttlSeconds, userAgent, ipHash) =>
      if Live(s.table, token, now) && id !in s.table { RotateKeeps(s, token, id, now, ttlSeconds, userAgent, ipHash); }
    case Revoke(token, now) =>
      if token in s.table { RevokeKeepsGood(s, token, now); }
  }

  /** No operation undoes a revocation or a rotation. */
  lemma AfterUndoesNothing(s: Logins, op: Op)
    requires Good(s)
    ensures History(s.table, After(s, op).table) && Grown(s.becameOf, After(s, op).becameOf)
  {
    hide Good, Started, Extended;
    if op.Rotate? && Live(s.table, op.token, op.now) && op.id !in s.table {
      RotateKeeps(s, op.token, op.id, op.now, op.ttlSeconds, op.userAgent, op.ipHash);
    }
  }

  /** In every run each login is a simple chain for one account, with all but its last session revoked. */
  lemma {:induction false} EveryRunIsGood(ops: seq<Op>)
    ensures Good(RunOf(ops))
  {
    hide Good, After;
    if ops == [] {
      NoneIsGood();
    } else {
      EveryRunIsGood(ops[..|ops| - 1]);
      AfterIsGood(RunOf(ops[..|ops| - 1]), ops[|ops| - 1]);
    }
  }

  lemma NoneIsGood()
    ensures Good(NONE)
  {
  }

  /** However a run goes on, what is revoked stays revoked the same way, and a token that became another became that one for good. */
  lemma {:induction false} RevokedForGood(ops: seq<Op>, cut: nat)
    requires cut <= |ops|
    ensures History(RunOf(ops[..cut]).table, RunOf(ops).table) && Grown(RunOf(ops[..cut]).becameOf, RunOf(ops).becameOf)
  {
    if cut == |ops| {
      assert ops[..cut] == ops;
    } else {
      var front, last := ops[..|ops| - 1], ops[|ops| - 1];
      assert front[..cut] == ops[..cut] && RunOf(ops) == After(RunOf(front), last);
      hide *;
      RevokedForGood(front, cut);
      EveryRunIsGood(front);
      AfterUndoesNothing(RunOf(front), last);
      UndoneNowhere(RunOf(ops[..cut]), RunOf(front), RunOf(ops));
    }
  }

  lemma UndoneNowhere(a: Logins, b: Logins, c: Logins)
    requires History(a.table, b.table) && History(b.table, c.table) && Grown(a.becameOf, b.becameOf) && Grown(b.becameOf, c.becameOf)
    ensures History(a.table, c.table) && Grown(a.becameOf, c.becameOf)
  {
  }

  method Perform(db: SessionDb, op: Op)
    requires db.Valid()
    modifies db
    ensures db.Valid() && Logins(db.table, db.lineages, db.becameOf) == After(old(Logins(db.table, db.lineages, db.becameOf)), op)
  {
    hide SessionDb.Valid, History, Started, Extended, Revoked, Rotated;
    match op {
      case Issue(sub, id, now, ttlSeconds, userAgent, ipHash) => var _ := db.IssueSession(sub, id, now, ttlSeconds, userAgent, ipHash);
      case Rotate(token, id, now, ttlSeconds, userAgent, ipHash) => var _ := db.RotateRefreshToken(token, id, now, ttlSeconds, userAgent, ipHash);
      case Revoke(token, now) => db.RevokeRefreshToken(token, now);
    }
  }

  /** The operations one after the other; the table half-way is that of the run so far. */
  method Run(ops: seq<Op>, cut: nat) returns (db: SessionDb, tableThen: Table)
    requires cut <= |ops|
    ensures db.Valid() && Logins(db.table, db.lineages, db.becameOf) == RunOf(ops)
    ensures tableThen == RunOf(ops[..cut]).table
  {
    hide SessionDb.Valid, After;
    db := new SessionDb();
    tableThen := db.table;
    for i := 0 to |ops|
      invariant db.Valid() && Logins(db.table, db.lineages, db.becameOf) == RunOf(ops[..i])
      invariant tableThen == RunOf(ops[..if i <= cut then 0 else cut]).table
    {
      if i == cut { tableThen := db.table; }
      Perform(db, ops[i]);
      assert ops[..i + 1][..i] == ops[..i];
    }
    assert ops[..|ops|] == ops;
    if cut == |ops| { tableThen := db.table; }
  }
}
