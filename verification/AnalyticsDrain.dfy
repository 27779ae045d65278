/**
 * The nightly drain: one workspace's funnel events are copied page by page from
 * Postgres to ClickHouse, and deleted behind the copy when so configured. Any
 * call may fail, the process may die at any call, and new events may arrive
 * before any call; failed jobs are retried.
 */
module AnalyticsDrain {
  import opened Wrappers
  import opened EventOrder

  /** How an outside call ends; a call that throws, or whose reply the process does not live to see, may have taken effect. */
  datatype Reply = Done | Thrown(applied: bool, message: string) | Crashed(applied: bool)

  /** Events stored just before a call, and how the call ends. */
  datatype Move = Move(arrivals: map<nat, int>, reply: Reply)

  datatype Job = Job(from: int, to: int)

  /** The drain's row: the failed run's message, or none. */
  datatype DrainState = DrainState(lastDrainedAt: Option<int>, totalRowsDrained: nat, lastError: Option<string>)

  function Applied(reply: Reply): bool {
    reply.Done? || reply.applied
  }

  /** Rows of the workspace by id, with the time each occurred. */
  type Events = map<nat, int>

  function Rows(pg: Events): set<Event> {
    set id | id in pg :: Event(pg[id], id)
  }

  lemma RowsAre(pg: Events, e: Event)
    ensures e in Rows(pg) <==> e.id in pg && pg[e.id] == e.occurredAt
  {
  }

  /** The query's condition: later than the cursor, and within the window. */
  function After(pg: Events, cursor: Event, to: int): set<Event> {
    set e | e in Rows(pg) && Less(cursor, e) && e.occurredAt <= to
  }

  /** The cursor before the first page: the window's start and the all-zero id. */
  function Start(job: Job): Event {
    Event(job.from, 0)
  }

  function Window(pg: Events, job: Job): set<Event> {
    After(pg, Start(job), job.to)
  }

  function Ids(events: seq<Event>): set<nat> {
    set e | e in events :: e.id
  }

  class Tables {
    var pg: Events
    var ch: seq<Event>
    var state: Option<DrainState>

    /** Rows stored by others; an id that exists is refused. */
    method Receive(arrivals: Events)
      modifies `pg
      ensures pg == arrivals + old(pg)
    {
      pg := arrivals + pg;
    }

    /** `findMany` with its condition, order and limit. */
    method FindMany(cursor: Event, to: int, take: nat) returns (rows: seq<Event>)
      ensures rows == Sorted(After(pg, cursor, to))[..if take <= |After(pg, cursor, to)| then take else |After(pg, cursor, to)|]
    {
      var left := After(pg, cursor, to);
      ghost var all := left;
      hide After, Sorted, Less;
      rows := [];
      while left != {} && |rows| < take
        invariant |rows| + |left| == |all| && |rows| <= take
        invariant rows + Sorted(left) == Sorted(all)
        decreases |left|
      {
        LeastExists(left);
        var e :| e in left && forall x :: x in left && x != e ==> Less(e, x);
        SortedStep(left, e);
        assert rows + ([e] + Sorted(left - {e})) == (rows + [e]) + Sorted(left - {e});
        rows, left := rows + [e], left - {e};
      }
      assert (rows + Sorted(left))[..|rows|] == rows;
    }

    method Insert(rows: seq<Event>)
      modifies `ch
      ensures ch == old(ch) + rows
    {
      ch := ch + rows;
    }

    method DeleteMany(ids: set<nat>)
      modifies `pg
      ensures pg == old(pg) - ids
    {
      pg := pg - ids;
    }

    method Upsert(totalInserted: nat, lastError: Option<string>, now: int)
      modifies `state
      ensures state == Some(Updated(old(state), totalInserted, lastError, now))
    {
      state := Some(Updated(state, totalInserted, lastError, now));
    }
  }

  /** An error with an empty message does not count as one here. */
  function Updated(state: Option<DrainState>, inserted: nat, lastError: Option<string>, now: int): DrainState {
    var failed := lastError.Some? && lastError.value != "";
    match state
    case None => DrainState(if failed then None else Some(now), inserted, lastError)
    case Some(s) => DrainState(if failed then s.lastDrainedAt else Some(now), s.totalRowsDrained + inserted, lastError)
  }

  datatype Ending = Finished | Failed(message: string) | Died

  function NextMove(moves: seq<Move>, i: nat): Move {
    if i < |moves| then moves[i] else Move(map[], Crashed(false))
  }

  /** Ids that arrive before some call. */
  ghost function ArrivedIds(moves: seq<Move>): set<nat> {
    set i, id | 0 <= i < |moves| && id in moves[i].arrivals :: id
  }

  lemma NextArrivals(moves: seq<Move>, i: nat)
    ensures NextMove(moves, i).arrivals.Keys <= ArrivedIds(moves)
  {
  }

  function EndingOf(reply: Reply): Ending {
    match reply case Done => Finished case Thrown(_, message) => Failed(message) case Crashed(_) => Died
  }

  /** Call `i` ends so: it goes through, throws with that message, or the process does not live to see its end. */
  predicate Ends(moves: seq<Move>, i: nat, ending: Ending) {
    match ending
    case Finished => i < |moves| && moves[i].reply.Done?
    case Failed(message) => i < |moves| && moves[i].reply.Thrown? && moves[i].reply.message == message
    case Died => i < |moves| ==> moves[i].reply.Crashed?
  }

  /** The first `n` calls go through. */
  predicate Fine(moves: seq<Move>, n: nat) {
    n <= |moves| && forall i :: 0 <= i < n ==> moves[i].reply.Done?
  }

  /** The first call that does not go through. */
  function FirstTrouble(moves: seq<Move>): (n: nat)
    ensures Fine(moves, n) && (n < |moves| ==> !moves[n].reply.Done?)
  {
    if moves == [] || !moves[0].reply.Done? then 0
    else
      assert forall i :: 0 < i < |moves| ==> moves[i] == moves[1..][i - 1];
      1 + FirstTrouble(moves[1..])
  }

  /** Calls that all go through, or all but the last, which then is the first trouble. */
  lemma TroubleIsLast(moves: seq<Move>, n: nat, ending: Ending)
    requires Fine(moves, n) && Ends(moves, n, ending)
    ensures ending.Finished? ==> Fine(moves, n + 1)
    ensures !ending.Finished? ==> FirstTrouble(moves) == n
  {
  }

  // ---- what holds whenever the copy loop stands still ----

  ghost predicate Prefix(a: seq<Event>, b: seq<Event>) {
    |a| <= |b| && b[..|a|] == a
  }

  /** No event stored at the start is lost. */
  ghost predicate Kept(start: Events, pg: Events, ch: seq<Event>) {
    forall e :: e in Rows(start) ==> e in Rows(pg) || e in ch
  }

  /** Events of the start's window are copied or still ahead of the cursor. */
  ghost predicate CopiedOrAhead(start: Events, job: Job, pg: Events, ch: seq<Event>, cursor: Event) {
    forall e :: e in Window(start, job) ==> e in ch || e in After(pg, cursor, job.to)
  }

  /** What is written lies in the window. */
  ghost predicate WithinWindow(job: Job, before: seq<Event>, ch: seq<Event>) {
    forall i :: |before| <= i < |ch| ==> Less(Start(job), ch[i]) && ch[i].occurredAt <= job.to
  }

  lemma ArrivalsKeep(start: Events, job: Job, pg: Events, ch: seq<Event>, cursor: Event, arrivals: Events)
    requires Kept(start, pg, ch) && CopiedOrAhead(start, job, pg, ch, cursor)
    ensures Kept(start, arrivals + pg, ch) && CopiedOrAhead(start, job, arrivals + pg, ch, cursor)
  {
    forall e | e in Rows(pg) ensures e in Rows(arrivals + pg) { RowsAre(pg, e); }
    forall e | e in After(pg, cursor, job.to) ensures e in After(arrivals + pg, cursor, job.to) { assert e in Rows(pg); }
  }

  /** The page that was read: the first rows of all that lie ahead. */
  ghost predicate PageOf(pg: Events, cursor: Event, to: int, rows: seq<Event>) {
    var ahead := After(pg, cursor, to);
    |rows| <= |ahead| && rows == Sorted(ahead)[..|rows|]
  }

  lemma PageRows(pg: Events, cursor: Event, to: int, rows: seq<Event>)
    requires PageOf(pg, cursor, to, rows)
    ensures forall e :: e in rows ==> e in After(pg, cursor, to)
  {
    var ahead := After(pg, cursor, to);
    SortedIsSorted(ahead);
    forall e | e in rows ensures e in ahead {
      var i :| 0 <= i < |rows| && rows[i] == e;
      assert Sorted(ahead)[i] == e;
    }
  }

  /** Once a page is copied, what it did not hold lies after its last row. */
  lemma PageCopied(start: Events, job: Job, pg: Events, ch: seq<Event>, cursor: Event, rows: seq<Event>)
    requires CopiedOrAhead(start, job, pg, ch, cursor) && PageOf(pg, cursor, job.to, rows) && rows != []
    ensures CopiedOrAhead(start, job, pg, ch + rows, rows[|rows| - 1])
  {
    var ahead := After(pg, cursor, job.to);
    forall e | e in Window(start, job) && e !in ch + rows ensures e in After(pg, rows[|rows| - 1], job.to) {
      LaterRowsGreater(ahead, |rows|, e);
    }
  }

  /** A short page holds everything ahead. */
  lemma ShortPageCopiesAll(start: Events, job: Job, pg: Events, ch: seq<Event>, cursor: Event, rows: seq<Event>)
    requires CopiedOrAhead(start, job, pg, ch, cursor) && PageOf(pg, cursor, job.to, rows)
    requires |rows| == |After(pg, cursor, job.to)|
    ensures forall e :: e in Window(start, job) ==> e in ch + rows
  {
    var ahead := After(pg, cursor, job.to);
    SortedIsSorted(ahead);
    assert rows == Sorted(ahead);
  }

  /** A stored row that is not on the page shares no id with it. */
  lemma IdsApart(pg: Events, rows: seq<Event>, e: Event)
    requires forall r :: r in rows ==> r in Rows(pg)
    requires e in Rows(pg) && e !in rows
    ensures e.id !in Ids(rows)
  {
    RowsAre(pg, e);
    forall r | r in rows ensures r.id != e.id { RowsAre(pg, r); }
  }

  /** Deleting copied rows loses nothing. */
  lemma DeleteKeeps(start: Events, job: Job, pg: Events, ch: seq<Event>, cursor: Event, rows: seq<Event>)
    requires Kept(start, pg, ch) && CopiedOrAhead(start, job, pg, ch, cursor)
    requires forall e :: e in rows ==> e in Rows(pg) && e in ch
    ensures Kept(start, pg - Ids(rows), ch) && CopiedOrAhead(start, job, pg - Ids(rows), ch, cursor)
  {
    var left := pg - Ids(rows);
    forall e | e in Rows(pg) && e !in ch ensures e in Rows(left) {
      IdsApart(pg, rows, e);
      RowsAre(pg, e);
      RowsAre(left, e);
    }
    forall e | e in After(pg, cursor, job.to) && e !in ch ensures e in After(left, cursor, job.to) {
      assert e in Rows(pg) && e in Rows(left);
    }
  }

  // ---- the copy loop ----

  ghost predicate Quiet(moves: seq<Move>) {
    forall i :: 0 <= i < |moves| ==> moves[i] == Move(map[], Done)
  }

  /** No call took effect without its caller learning of it. */
  ghost predicate Honest(moves: seq<Move>) {
    forall i :: 0 <= i < |moves| ==> moves[i].reply.Done? || !moves[i].reply.applied
  }

  /** What an undisturbed run leaves behind after its first `k` rows. */
  ghost predicate QuietSoFar(start: Events, job: Job, deleteSource: bool, before: seq<Event>, pg: Events, ch: seq<Event>, cursor: Event, k: nat) {
    var window := Sorted(Window(start, job));
    && k <= |window| && ch == before + window[..k]
    && pg == (if deleteSource then start - Ids(window[..k]) else start)
    && Sorted(After(pg, cursor, job.to)) == window[k..]
  }

  /** One page of an undisturbed run. */
  lemma QuietPage(start: Events, job: Job, deleteSource: bool, before: seq<Event>, pg: Events, ch: seq<Event>, cursor: Event, k: nat, rows: seq<Event>)
    requires QuietSoFar(start, job, deleteSource, before, pg, ch, cursor, k)
    requires PageOf(pg, cursor, job.to, rows) && rows != []
    ensures k + |rows| <= |Sorted(Window(start, job))|
    ensures QuietSoFar(start, job, deleteSource, before, if deleteSource then pg - Ids(rows) else pg, ch + rows, rows[|rows| - 1], k + |rows|)
  {
    var window := Sorted(Window(start, job));
    var ahead := After(pg, cursor, job.to);
    var last, n := rows[|rows| - 1], |rows|;
    var left := if deleteSource then pg - Ids(rows) else pg;
    QuietRest(pg, left, cursor, job.to, rows);
    SortedTail(ahead, n, After(left, last, job.to));
    hide Sorted, After, Window, Ids, Rows;
    QuietLists(start, deleteSource, before, pg, ch, window, k, rows);
  }

  lemma QuietLists(start: Events, deleteSource: bool, before: seq<Event>, pg: Events, ch: seq<Event>, window: seq<Event>, k: nat, rows: seq<Event>)
    requires k <= |window| && |rows| <= |window[k..]| && rows == window[k..][..|rows|]
    requires ch == before + window[..k]
    requires pg == if deleteSource then start - Ids(window[..k]) else start
    ensures ch + rows == before + window[..k + |rows|]
    ensures (if deleteSource then pg - Ids(rows) else pg) == if deleteSource then start - Ids(window[..k + |rows|]) else start
    ensures window[k..][|rows|..] == window[k + |rows|..]
  {
    hide Ids;
    TakeMore(window, k, |rows|, rows);
    IdsConcat(window[..k], rows);
    DeleteTwice(start, Ids(window[..k]), Ids(rows));
    Regroup(before, window[..k], rows);
  }

  lemma DeleteTwice(pg: Events, a: set<nat>, b: set<nat>)
    ensures (pg - a) - b == pg - (a + b)
  {
  }

  lemma Regroup(a: seq<Event>, b: seq<Event>, c: seq<Event>)
    ensures (a + b) + c == a + (b + c)
  {
  }

  lemma TakeMore(s: seq<Event>, k: nat, n: nat, rows: seq<Event>)
    requires k <= |s| && n <= |s[k..]| && rows == s[k..][..n]
    ensures s[..k + n] == s[..k] + rows && s[k..][n..] == s[k + n..]
  {
  }

  lemma IdsConcat(a: seq<Event>, b: seq<Event>)
    ensures Ids(a + b) == Ids(a) + Ids(b)
  {
    forall id ensures id in Ids(a + b) <==> id in Ids(a) || id in Ids(b) {
      if id in Ids(a) {
        var e :| e in a && e.id == id;
        assert e in a + b;
      }
      if id in Ids(b) {
        var e :| e in b && e.id == id;
        assert e in a + b;
      }
    }
  }

  /** What lies after a page's last row is what was ahead and not on the page. */
  lemma QuietRest(pg: Events, left: Events, cursor: Event, to: int, rows: seq<Event>)
    requires PageOf(pg, cursor, to, rows) && rows != []
    requires left == pg || left == pg - Ids(rows)
    ensures After(left, rows[|rows| - 1], to) == set e | e in After(pg, cursor, to) && e !in Sorted(After(pg, cursor, to))[..|rows|]
  {
    var ahead := After(pg, cursor, to);
    var last := rows[|rows| - 1];
    SortedIsSorted(ahead);
    PageRows(pg, cursor, to, rows);
    assert Ascending(rows) by { PrefixAscending(Sorted(ahead), |rows|); }
    forall e | e in ahead && e !in rows ensures Less(last, e) { LaterRowsGreater(ahead, |rows|, e); }
    hide Sorted;
    forall e ensures e in After(left, last, to) <==> e in ahead && e !in rows {
      RestAt(pg, left, cursor, to, rows, e);
    }
  }

  lemma PrefixAscending(s: seq<Event>, k: nat)
    requires Ascending(s) && k <= |s|
    ensures Ascending(s[..k])
  {
  }

  lemma RestAt(pg: Events, left: Events, cursor: Event, to: int, rows: seq<Event>, e: Event)
    requires rows != [] && Ascending(rows) && forall r :: r in rows ==> r in After(pg, cursor, to)
    requires e in After(pg, cursor, to) && e !in rows ==> Less(rows[|rows| - 1], e)
    requires left == pg || left == pg - Ids(rows)
    ensures e in After(left, rows[|rows| - 1], to) <==> e in After(pg, cursor, to) && e !in rows
  {
    var last := rows[|rows| - 1];
    assert last in After(pg, cursor, to);
    RowsAre(pg, e);
    RowsAre(left, e);
    if e in rows { NotAfterLast(rows, |rows|, e); }
    if e in After(pg, cursor, to) && e !in rows { IdsApart(pg, rows, e); }
  }

  lemma NotAfterLast(s: seq<Event>, k: nat, e: Event)
    requires Ascending(s) && 0 < k <= |s| && e in s[..k]
    ensures !Less(s[k - 1], e)
  {
    var j :| 0 <= j < k && s[..k][j] == e;
    assert e == s[j];
  }

  /** What holds of the tables wherever an attempt may stop. */
  ghost predicate Sound(start: Events, job: Job, before: seq<Event>, pg: Events, ch: seq<Event>) {
    Kept(start, pg, ch) && Prefix(before, ch) && WithinWindow(job, before, ch)
  }

  ghost predicate WindowCopied(start: Events, job: Job, ch: seq<Event>) {
    forall e :: e in Window(start, job) ==> e in ch
  }

  /** An undisturbed run copied the window once, in order, and deleted it exactly when it should. */
  ghost predicate CopiedExactly(start: Events, job: Job, deleteSource: bool, before: seq<Event>, pg: Events, ch: seq<Event>) {
    && ch == before + Sorted(Window(start, job))
    && pg == (if deleteSource then start - Ids(Sorted(Window(start, job))) else start)
  }

  lemma ArrivalsSound(start: Events, job: Job, before: seq<Event>, pg: Events, ch: seq<Event>, cursor: Event, arrivals: Events)
    requires Sound(start, job, before, pg, ch) && CopiedOrAhead(start, job, pg, ch, cursor)
    ensures Sound(start, job, before, arrivals + pg, ch) && CopiedOrAhead(start, job, arrivals + pg, ch, cursor)
    ensures forall e :: e in Rows(pg) ==> e in Rows(arrivals + pg)
  {
    ArrivalsKeep(start, job, pg, ch, cursor, arrivals);
    forall e | e in Rows(pg) ensures e in Rows(arrivals + pg) { RowsAre(pg, e); }
  }

  lemma InsertSound(start: Events, job: Job, before: seq<Event>, pg: Events, ch: seq<Event>, cursor: Event, rows: seq<Event>)
    requires Sound(start, job, before, pg, ch) && CopiedOrAhead(start, job, pg, ch, cursor)
    requires forall e :: e in rows ==> Less(Start(job), e) && e.occurredAt <= job.to
    ensures Sound(start, job, before, pg, ch + rows) && CopiedOrAhead(start, job, pg, ch + rows, cursor)
  {
    var more := ch + rows;
    assert forall i :: |ch| <= i < |more| ==> more[i] == rows[i - |ch|] && more[i] in rows;
    assert more[..|before|] == ch[..|before|];
  }

  /** The cursor never moves back before the window. */
  lemma AheadIsInWindow(pg: Events, job: Job, cursor: Event, rows: seq<Event>)
    requires PageOf(pg, cursor, job.to, rows) && (cursor == Start(job) || Less(Start(job), cursor))
    ensures forall e :: e in rows ==> e in Rows(pg) && Less(Start(job), e) && e.occurredAt <= job.to
  {
    PageRows(pg, cursor, job.to, rows);
  }

  ghost predicate Between(start: Events, job: Job, before: seq<Event>, pg: Events, ch: seq<Event>, cursor: Event) {
    && Sound(start, job, before, pg, ch) && CopiedOrAhead(start, job, pg, ch, cursor)
    && (cursor == Start(job) || Less(Start(job), cursor))
  }

  /**
   * One turn of the loop after its read: copy the page, then delete it if so
   * configured. `inserted` counts rows whose insertion was confirmed.
   */
  method CopyPage(t: Tables, ghost start: Events, job: Job, deleteSource: bool, ghost before: seq<Event>, cursor: Event,
                  rows: seq<Event>, moves: seq<Move>, first: nat) returns (ending: Ending, inserted: nat, used: nat)
    requires Between(start, job, before, t.pg, t.ch, cursor) && PageOf(t.pg, cursor, job.to, rows) && rows != []
    modifies t`pg, t`ch
    ensures used == first + (if inserted > 0 && deleteSource then 2 else 1)
    ensures Fine(moves, first) ==> if ending.Finished? then Fine(moves, used) else Ends(moves, FirstTrouble(moves), ending)
    ensures old(|t.ch|) + inserted <= |t.ch|
    ensures t.pg.Keys <= old(t.pg.Keys) + ArrivedIds(moves)
    ensures Sound(start, job, before, t.pg, t.ch) && CopiedOrAhead(start, job, t.pg, t.ch, cursor)
    ensures Honest(moves) ==> |t.ch| == old(|t.ch|) + inserted
    ensures inserted == 0 || inserted == |rows|
    ensures ending.Finished? ==>
      && inserted == |rows| && used <= |moves|
      && Between(start, job, before, t.pg, t.ch, rows[|rows| - 1])
      && (|rows| == |After(old(t.pg), cursor, job.to)| ==> WindowCopied(start, job, t.ch))
    ensures Quiet(moves) && first + (if deleteSource then 2 else 1) <= |moves| ==>
      && ending.Finished? && t.ch == old(t.ch) + rows
      && t.pg == if deleteSource then old(t.pg) - Ids(rows) else old(t.pg)
  {
    AheadIsInWindow(t.pg, job, cursor, rows);
    PageCopied(start, job, t.pg, t.ch, cursor, rows);
    if |rows| == |After(t.pg, cursor, job.to)| { ShortPageCopiesAll(start, job, t.pg, t.ch, cursor, rows); }
    LastIsLater(t.pg, cursor, job, rows);
    BetweenIsSound(start, job, before, t.pg, t.ch, cursor);
    ghost var last := rows[|rows| - 1];
    ending := InsertPage(t, start, job, before, cursor, last, rows, moves, first);
    used := first + 1;
    if Fine(moves, first) { TroubleIsLast(moves, first, ending); }
    if !ending.Finished? { return ending, 0, used; }
    inserted := |rows|;
    if deleteSource {
      ending, used := DeletePage(t, start, job, before, cursor, last, rows, moves, used);
      if Fine(moves, first) { TroubleIsLast(moves, first + 1, ending); }
    }
  }

  lemma LastIsLater(pg: Events, cursor: Event, job: Job, rows: seq<Event>)
    requires PageOf(pg, cursor, job.to, rows) && rows != [] && (cursor == Start(job) || Less(Start(job), cursor))
    ensures Less(Start(job), rows[|rows| - 1])
  {
    PageRows(pg, cursor, job.to, rows);
    assert rows[|rows| - 1] in rows;
  }

  method InsertPage(t: Tables, ghost start: Events, job: Job, ghost before: seq<Event>, ghost cursor: Event, ghost last: Event,
                    rows: seq<Event>, moves: seq<Move>, first: nat) returns (ending: Ending)
    requires Sound(start, job, before, t.pg, t.ch)
    requires CopiedOrAhead(start, job, t.pg, t.ch, cursor) && CopiedOrAhead(start, job, t.pg, t.ch + rows, last)
    requires forall e :: e in rows ==> e in Rows(t.pg) && Less(Start(job), e) && e.occurredAt <= job.to
    modifies t`pg, t`ch
    ensures Sound(start, job, before, t.pg, t.ch) && CopiedOrAhead(start, job, t.pg, t.ch, cursor)
    ensures ending.Finished? ==> first < |moves| && t.ch == old(t.ch) + rows && CopiedOrAhead(start, job, t.pg, t.ch, last)
    ensures Ends(moves, first, ending) && old(|t.ch|) <= |t.ch|
    ensures forall e :: e in rows ==> e in Rows(t.pg)
    ensures t.pg.Keys <= old(t.pg.Keys) + ArrivedIds(moves)
    ensures Honest(moves) && !ending.Finished? ==> t.ch == old(t.ch)
    ensures Quiet(moves) && first < |moves| ==> ending.Finished? && t.pg == old(t.pg)
  {
    NextArrivals(moves, first);
    hide Sound, CopiedOrAhead, ArrivedIds;
    var move := NextMove(moves, first);
    ArrivalsSound(start, job, before, t.pg, t.ch, cursor, move.arrivals);
    ArrivalsKeepAhead(start, job, t.pg, t.ch + rows, last, move.arrivals);
    t.Receive(move.arrivals);
    if Applied(move.reply) {
      InsertSound(start, job, before, t.pg, t.ch, cursor, rows);
      t.Insert(rows);
    }
    ending := EndingOf(move.reply);
  }

  lemma ArrivalsKeepAhead(start: Events, job: Job, pg: Events, ch: seq<Event>, cursor: Event, arrivals: Events)
    requires CopiedOrAhead(start, job, pg, ch, cursor)
    ensures CopiedOrAhead(start, job, arrivals + pg, ch, cursor)
  {
    forall e | e in After(pg, cursor, job.to) ensures e in After(arrivals + pg, cursor, job.to) {
      assert e in Rows(pg);
      RowsAre(pg, e);
      RowsAre(arrivals + pg, e);
    }
  }

  method DeletePage(t: Tables, ghost start: Events, job: Job, ghost before: seq<Event>, ghost cursor: Event, ghost last: Event,
                    rows: seq<Event>, moves: seq<Move>, first: nat) returns (ending: Ending, used: nat)
    requires Sound(start, job, before, t.pg, t.ch)
    requires CopiedOrAhead(start, job, t.pg, t.ch, cursor) && CopiedOrAhead(start, job, t.pg, t.ch, last)
    requires forall e :: e in rows ==> e in Rows(t.pg) && e in t.ch
    modifies t`pg
    ensures used == first + 1 && Ends(moves, first, ending)
    ensures t.pg.Keys <= old(t.pg.Keys) + ArrivedIds(moves)
    ensures Sound(start, job, before, t.pg, t.ch)
    ensures CopiedOrAhead(start, job, t.pg, t.ch, cursor) && CopiedOrAhead(start, job, t.pg, t.ch, last)
    ensures ending.Finished? ==> used <= |moves|
    ensures Quiet(moves) && used <= |moves| ==> ending.Finished? && t.pg == old(t.pg) - Ids(rows)
  {
    NextArrivals(moves, first);
    hide ArrivedIds;
    var move := NextMove(moves, first);
    used := first + 1;
    ArrivalsSound(start, job, before, t.pg, t.ch, cursor, move.arrivals);
    ArrivalsKeepAhead(start, job, t.pg, t.ch, last, move.arrivals);
    t.Receive(move.arrivals);
    if Applied(move.reply) {
      DeleteKeeps(start, job, t.pg, t.ch, cursor, rows);
      DeleteKeeps(start, job, t.pg, t.ch, last, rows);
      t.DeleteMany(Ids(rows));
    }
    ending := EndingOf(move.reply);
  }

  /** Calls an undisturbed run makes at most: three for each row, and a last read. */
  ghost predicate LongEnough(moves: seq<Move>, start: Events, job: Job) {
    |moves| >= 3 * |Sorted(Window(start, job))| + 1
  }

  lemma StartIsBetween(start: Events, job: Job, deleteSource: bool, before: seq<Event>)
    ensures Between(start, job, before, start, before, Start(job))
    ensures QuietSoFar(start, job, deleteSource, before, start, before, Start(job), 0)
  {
    assert before + Sorted(Window(start, job))[..0] == before;
    assert start - Ids([]) == start;
  }

  lemma NothingAhead(start: Events, job: Job, deleteSource: bool, before: seq<Event>, pg: Events, ch: seq<Event>, cursor: Event, k: nat)
    requires CopiedOrAhead(start, job, pg, ch, cursor) && After(pg, cursor, job.to) == {}
    ensures WindowCopied(start, job, ch)
    ensures QuietSoFar(start, job, deleteSource, before, pg, ch, cursor, k) ==> CopiedExactly(start, job, deleteSource, before, pg, ch)
  {
    var window := Sorted(Window(start, job));
    assert k == |window| ==> window[..k] == window;
  }

  lemma ShortPageEndsQuietRun(start: Events, job: Job, deleteSource: bool, before: seq<Event>, pg: Events, ch: seq<Event>, cursor: Event, k: nat, rows: seq<Event>)
    requires QuietSoFar(start, job, deleteSource, before, pg, ch, cursor, k)
    requires PageOf(pg, cursor, job.to, rows) && rows != [] && |rows| == |After(pg, cursor, job.to)|
    ensures CopiedExactly(start, job, deleteSource, before, if deleteSource then pg - Ids(rows) else pg, ch + rows)
  {
    QuietPage(start, job, deleteSource, before, pg, ch, cursor, k, rows);
    var window := Sorted(Window(start, job));
    assert |rows| == |window[k..]|;
    assert window[..k + |rows|] == window;
  }

  /**
   * The copy loop. However it ends, nothing of the start is lost and only rows of
   * the window are written; when it finishes, the window is copied; undisturbed,
   * it finishes whatever the page size, and copies the window once and in order.
   */
  method CopyWindow(t: Tables, job: Job, batchSize: nat, deleteSource: bool, moves: seq<Move>) returns (ending: Ending, inserted: nat, used: nat)
    requires batchSize >= 1
    modifies t`pg, t`ch
    ensures Sound(old(t.pg), job, old(t.ch), t.pg, t.ch)
    ensures ending.Finished? ==> WindowCopied(old(t.pg), job, t.ch)
    ensures t.pg.Keys <= old(t.pg.Keys) + ArrivedIds(moves)
    ensures ending.Finished? || Ends(moves, FirstTrouble(moves), ending)
    ensures old(|t.ch|) + inserted <= |t.ch|
    ensures Honest(moves) ==> |t.ch| == old(|t.ch|) + inserted
    ensures Quiet(moves) && LongEnough(moves, old(t.pg), job) ==>
      ending.Finished? && CopiedExactly(old(t.pg), job, deleteSource, old(t.ch), t.pg, t.ch)
  {
    hide ArrivedIds, Between, QuietSoFar, CopiedExactly, Sound, WindowCopied, After, Window, Sorted, PageOf, Quiet, Honest, LongEnough, CopiedOrAhead,
      FirstTrouble, Ends;
    ghost var start, before := t.pg, t.ch;
    var cursor := Start(job);
    inserted, used := 0, 0;
    StartIsBetween(start, job, deleteSource, before);
    while true
      invariant Fine(moves, used)
      invariant |before| + inserted <= |t.ch|
      invariant Between(start, job, before, t.pg, t.ch, cursor)
      invariant t.pg.Keys <= start.Keys + ArrivedIds(moves)
      invariant Honest(moves) ==> |t.ch| == |before| + inserted
      invariant Quiet(moves) && LongEnough(moves, start, job) ==>
        QuietSoFar(start, job, deleteSource, before, t.pg, t.ch, cursor, inserted) && used <= 3 * inserted
      decreases |moves| - used
    {
      if Quiet(moves) && LongEnough(moves, start, job) {
        QuietRead(start, job, deleteSource, before, t.pg, t.ch, cursor, inserted, moves, used);
      }
      var rows;
      ending, rows := ReadPage(t, start, job, before, cursor, batchSize, moves, used);
      TroubleIsLast(moves, used, ending);
      used := used + 1;
      if !ending.Finished? { return; }
      if |rows| == 0 {
        NothingAhead(start, job, deleteSource, before, t.pg, t.ch, cursor, inserted);
        return;
      }
      if Quiet(moves) && LongEnough(moves, start, job) {
        QuietTurn(start, job, deleteSource, before, t.pg, t.ch, cursor, inserted, rows, moves, used);
      }
      var copied;
      ending, copied, used := CopyPage(t, start, job, deleteSource, before, cursor, rows, moves, used);
      inserted := inserted + copied;
      if !ending.Finished? { return; }
      cursor := rows[|rows| - 1];
      if |rows| < batchSize {
        BetweenIsSound(start, job, before, t.pg, t.ch, cursor);
        return;
      }
    }
  }

  lemma BetweenIsSound(start: Events, job: Job, before: seq<Event>, pg: Events, ch: seq<Event>, cursor: Event)
    requires Between(start, job, before, pg, ch, cursor)
    ensures Sound(start, job, before, pg, ch) && CopiedOrAhead(start, job, pg, ch, cursor)
  {
  }

  method ReadPage(t: Tables, ghost start: Events, job: Job, ghost before: seq<Event>, cursor: Event, batchSize: nat, moves: seq<Move>, used: nat)
      returns (ending: Ending, rows: seq<Event>)
    requires batchSize >= 1 && Between(start, job, before, t.pg, t.ch, cursor)
    modifies t`pg
    ensures t.pg.Keys <= old(t.pg.Keys) + ArrivedIds(moves)
    ensures Between(start, job, before, t.pg, t.ch, cursor)
    ensures Sound(start, job, before, t.pg, t.ch) && CopiedOrAhead(start, job, t.pg, t.ch, cursor)
    ensures Ends(moves, used, ending) && t.ch == old(t.ch)
    ensures ending.Finished? ==> used < |moves| && PageOf(t.pg, cursor, job.to, rows)
    ensures ending.Finished? && rows == [] ==> After(t.pg, cursor, job.to) == {}
    ensures ending.Finished? && |rows| < batchSize ==> |rows| == |After(t.pg, cursor, job.to)|
    ensures Quiet(moves) && used < |moves| ==> ending.Finished? && t.pg == old(t.pg)
  {
    NextArrivals(moves, used);
    hide ArrivedIds;
    var move := NextMove(moves, used);
    ArrivalsBetween(start, job, before, t.pg, t.ch, cursor, move.arrivals);
    assert Quiet(moves) && used < |moves| ==> move == Move(map[], Done) && move.arrivals + t.pg == t.pg;
    hide Between, Sound, CopiedOrAhead, After, Sorted, Quiet;
    t.Receive(move.arrivals);
    ending, rows := EndingOf(move.reply), [];
    if ending.Finished? {
      rows := t.FindMany(cursor, job.to, batchSize);
    }
  }

  lemma ArrivalsBetween(start: Events, job: Job, before: seq<Event>, pg: Events, ch: seq<Event>, cursor: Event, arrivals: Events)
    requires Between(start, job, before, pg, ch, cursor)
    ensures Between(start, job, before, arrivals + pg, ch, cursor)
    ensures Sound(start, job, before, arrivals + pg, ch) && CopiedOrAhead(start, job, arrivals + pg, ch, cursor)
  {
    ArrivalsSound(start, job, before, pg, ch, cursor, arrivals);
  }

  /** An undisturbed run never runs out of calls. */
  lemma QuietRead(start: Events, job: Job, deleteSource: bool, before: seq<Event>, pg: Events, ch: seq<Event>, cursor: Event, k: nat,
                  moves: seq<Move>, used: nat)
    requires QuietSoFar(start, job, deleteSource, before, pg, ch, cursor, k)
    requires LongEnough(moves, start, job) && used <= 3 * k
    ensures used < |moves|
  {
  }

  lemma QuietTurn(start: Events, job: Job, deleteSource: bool, before: seq<Event>, pg: Events, ch: seq<Event>, cursor: Event, k: nat,
                  rows: seq<Event>, moves: seq<Move>, used: nat)
    requires QuietSoFar(start, job, deleteSource, before, pg, ch, cursor, k)
    requires PageOf(pg, cursor, job.to, rows) && rows != []
    requires LongEnough(moves, start, job) && used <= 3 * k + 1
    ensures used + 2 <= |moves|
    ensures QuietSoFar(start, job, deleteSource, before, if deleteSource then pg - Ids(rows) else pg, ch + rows, rows[|rows| - 1], k + |rows|)
    ensures |rows| == |After(pg, cursor, job.to)| ==>
      CopiedExactly(start, job, deleteSource, before, if deleteSource then pg - Ids(rows) else pg, ch + rows)
  {
    QuietPage(start, job, deleteSource, before, pg, ch, cursor, k, rows);
    if |rows| == |After(pg, cursor, job.to)| { ShortPageEndsQuietRun(start, job, deleteSource, before, pg, ch, cursor, k, rows); }
  }

  datatype Attempt = Attempt(moves: seq<Move>, upsert: Reply, now: int)

  function LastDrained(state: Option<DrainState>): Option<int> {
    match state case None => None case Some(s) => s.lastDrainedAt
  }

  /** The state row after copying that ended so: a failure with a message is recorded and leaves the time as it was. */
  predicate Recorded(before: Option<DrainState>, after: Option<DrainState>, copying: Ending, now: int) {
    && after.Some?
    && after.value.lastError == (match copying case Failed(message) => Some(message) case _ => None)
    && after.value.lastDrainedAt == if copying.Failed? && copying.message != "" then LastDrained(before) else Some(now)
  }

  /**
   * One job run: the loop, and the state row written whether it failed or not, but
   * not when the process died. `copying` is how the loop ended: with the first call
   * that did not go through, if it met one.
   */
  method RunWorkspaceDrain(t: Tables, job: Job, batchSize: nat, deleteSource: bool, attempt: Attempt) returns (ending: Ending, copying: Ending)
    requires batchSize >= 1
    modifies t
    ensures Sound(old(t.pg), job, old(t.ch), t.pg, t.ch)
    ensures t.pg.Keys <= old(t.pg.Keys) + ArrivedIds(attempt.moves)
    ensures copying.Finished? ==> WindowCopied(old(t.pg), job, t.ch)
    ensures copying.Finished? || Ends(attempt.moves, FirstTrouble(attempt.moves), copying)
    ensures copying.Died? ==> ending.Died? && t.state == old(t.state)
    ensures !copying.Died? ==> ending == match attempt.upsert
      case Done => copying
      case Thrown(_, message) => Failed(message)
      case Crashed(_) => Died
    ensures !copying.Died? && (attempt.upsert.Done? || attempt.upsert.applied) ==> Recorded(old(t.state), t.state, copying, attempt.now)
    ensures !attempt.upsert.Done? && !attempt.upsert.applied ==> t.state == old(t.state)
    ensures Total(old(t.state)) <= Total(t.state) <= Total(old(t.state)) + |t.ch| - old(|t.ch|)
    ensures Honest(attempt.moves) && attempt.upsert.Done? && !ending.Died? ==> Total(t.state) == Total(old(t.state)) + |t.ch| - old(|t.ch|)
    ensures Quiet(attempt.moves) && attempt.upsert.Done? && LongEnough(attempt.moves, old(t.pg), job) ==>
      ending.Finished? && CopiedExactly(old(t.pg), job, deleteSource, old(t.ch), t.pg, t.ch)
  {
    hide Sound, WindowCopied, CopiedExactly, Quiet, Honest, LongEnough, ArrivedIds, Ends, FirstTrouble;
    var inserted, used;
    copying, inserted, used := CopyWindow(t, job, batchSize, deleteSource, attempt.moves);
    ending := copying;
    if copying.Died? { return; }
    var lastError := if copying.Failed? then Some(copying.message) else None;
    if Applied(attempt.upsert) { t.Upsert(inserted, lastError, attempt.now); }
    if !attempt.upsert.Done? { ending := EndingOf(attempt.upsert); }
  }

  // ---- the same in plain terms ----

  /** From the job's first moment to its last, both included; at the first moment the all-zero id is left out. */
  predicate InWindow(pg: Events, job: Job, id: nat) {
    id in pg && job.from <= pg[id] <= job.to && (pg[id] == job.from ==> id > 0)
  }

  lemma WindowIs(pg: Events, job: Job, e: Event)
    ensures e in Window(pg, job) <==> InWindow(pg, job, e.id) && e.occurredAt == pg[e.id]
  {
    RowsAre(pg, e);
  }

  /** A window is copied when each of its rows has an event in the copy. */
  lemma WindowCopiedMeans(start: Events, job: Job, ch: seq<Event>)
    ensures WindowCopied(start, job, ch) <==> forall id :: InWindow(start, job, id) ==> Event(start[id], id) in ch
  {
    forall e ensures e in Window(start, job) <==> InWindow(start, job, e.id) && e.occurredAt == start[e.id] { WindowIs(start, job, e); }
    hide Window, InWindow;
    if WindowCopied(start, job, ch) {
      forall id | InWindow(start, job, id) ensures Event(start[id], id) in ch { assert Event(start[id], id) in Window(start, job); }
    }
  }

  /** After an undisturbed run the copy has grown by the window's rows, once each and in order, and those alone may be gone from the source. */
  lemma CopiedExactlyMeans(start: Events, job: Job, deleteSource: bool, before: seq<Event>, pg: Events, ch: seq<Event>)
    requires CopiedExactly(start, job, deleteSource, before, pg, ch)
    ensures |before| <= |ch| && ch[..|before|] == before
    ensures forall i, j :: |before| <= i < j < |ch| ==>
      ch[i].occurredAt < ch[j].occurredAt || (ch[i].occurredAt == ch[j].occurredAt && ch[i].id < ch[j].id)
    ensures forall e :: e in ch[|before|..] <==> InWindow(start, job, e.id) && e.occurredAt == start[e.id]
    ensures forall id :: id in pg <==> id in start && !(deleteSource && InWindow(start, job, id))
    ensures forall id :: id in pg ==> pg[id] == start[id]
  {
    var window := Sorted(Window(start, job));
    SortedIsSorted(Window(start, job));
    assert ch[|before|..] == window;
    forall i, j | |before| <= i < j < |ch| ensures Less(ch[i], ch[j]) {
      assert ch[i] == window[i - |before|] && ch[j] == window[j - |before|];
    }
    forall e ensures e in window <==> InWindow(start, job, e.id) && e.occurredAt == start[e.id] { WindowIs(start, job, e); }
    hide Window, Sorted, InWindow;
    forall id | id in start ensures id in Ids(window) <==> InWindow(start, job, id) {
      if InWindow(start, job, id) { assert Event(start[id], id) in window; }
    }
  }

  function Total(state: Option<DrainState>): nat {
    match state case None => 0 case Some(s) => s.totalRowsDrained
  }

  lemma SoundThenSound(start: Events, job: Job, before: seq<Event>, pg: Events, ch: seq<Event>, pg': Events, ch': seq<Event>)
    requires Sound(start, job, before, pg, ch) && Sound(pg, job, ch, pg', ch')
    ensures Sound(start, job, before, pg', ch')
    ensures WindowCopied(start, job, ch) ==> WindowCopied(start, job, ch')
  {
    assert forall e :: e in ch ==> e in ch' by {
      forall e | e in ch ensures e in ch' {
        var i :| 0 <= i < |ch| && ch[i] == e;
        assert ch'[..|ch|][i] == e;
      }
    }
    assert ch'[..|before|] == ch[..|before|];
    forall i | |before| <= i < |ch'| ensures Less(Start(job), ch'[i]) && ch'[i].occurredAt <= job.to {
      if i < |ch| { assert ch'[..|ch|][i] == ch'[i]; }
    }
  }

  /** A later attempt finds in its window whatever of the first one's is not copied yet. */
  lemma LaterWindow(start: Events, job: Job, before: seq<Event>, pg: Events, ch: seq<Event>, ch': seq<Event>)
    requires Sound(start, job, before, pg, ch) && Prefix(ch, ch') && WindowCopied(pg, job, ch')
    ensures WindowCopied(start, job, ch')
  {
    forall e | e in Window(start, job) ensures e in ch' {
      assert e in Rows(start);
      if e in ch {
        var i :| 0 <= i < |ch| && ch[i] == e;
        assert ch'[..|ch|][i] == e;
      } else {
        assert e in Window(pg, job);
      }
    }
  }

  /** Every reply was known, and every attempt lived to write its state. */
  ghost predicate AllKnown(attempts: seq<Attempt>) {
    forall i :: 0 <= i < |attempts| ==> Honest(attempts[i].moves) && attempts[i].upsert.Done?
  }

  /** Ids that are stored at the start or arrive during some of the attempts. */
  ghost function SeenIds(start: Events, attempts: seq<Attempt>): set<nat> {
    if attempts == [] then start.Keys else SeenIds(start, attempts[..|attempts| - 1]) + ArrivedIds(attempts[|attempts| - 1].moves)
  }

  lemma {:induction false} SubsetSize(a: set<nat>, b: set<nat>)
    requires a <= b
    ensures |a| <= |b|
  {
    if a != {} {
      var x :| x in a;
      SubsetSize(a - {x}, b - {x});
    }
  }

  lemma {:induction false} DistinctIdsSize(events: set<Event>, ids: set<nat>)
    requires forall e :: e in events ==> e.id in ids
    requires forall e, f :: e in events && f in events && e.id == f.id ==> e == f
    ensures |events| <= |ids|
  {
    if events != {} {
      var e :| e in events;
      DistinctIdsSize(events - {e}, ids - {e.id});
    }
  }

  /** A window holds at most one event for each id that was seen. */
  lemma WindowSize(pg: Events, job: Job, ids: set<nat>)
    requires pg.Keys <= ids
    ensures |Sorted(Window(pg, job))| <= |ids|
  {
    DistinctIdsSize(Window(pg, job), ids);
  }

  /** Nothing disturbs the attempt, its state is written, and it has calls enough for whatever can be stored by then. */
  ghost predicate Undisturbed(start: Events, attempts: seq<Attempt>, i: nat)
    requires i < |attempts|
  {
    Quiet(attempts[i].moves) && attempts[i].upsert.Done? && |attempts[i].moves| >= 3 * |SeenIds(start, attempts[..i])| + 1
  }

  ghost predicate NoneUndisturbed(start: Events, attempts: seq<Attempt>, n: nat)
    requires n <= |attempts|
  {
    forall i :: 0 <= i < n ==> !Undisturbed(start, attempts, i)
  }

  /** Every attempt writes its state, and what is thrown has a message. */
  ghost predicate AllSpoken(attempts: seq<Attempt>) {
    forall i :: 0 <= i < |attempts| ==>
      attempts[i].upsert.Done? && forall j :: 0 <= j < |attempts[i].moves| && attempts[i].moves[j].reply.Thrown? ==> attempts[i].moves[j].reply.message != ""
  }

  /** The attempt's failure is in the state row, and the time in it is the one there was. */
  ghost predicate FailureRecorded(before: Option<DrainState>, after: Option<DrainState>, attempt: Attempt) {
    var n := FirstTrouble(attempt.moves);
    && after.Some? && after.value.lastDrainedAt == LastDrained(before)
    && n < |attempt.moves| && attempt.moves[n].reply.Thrown? && after.value.lastError == Some(attempt.moves[n].reply.message)
  }

  /** After `i` failed attempts. */
  ghost predicate FailedSoFar(first: Option<DrainState>, state: Option<DrainState>, attempts: seq<Attempt>, i: nat)
    requires i <= |attempts|
  {
    if i == 0 then state == first else FailureRecorded(first, state, attempts[i - 1])
  }

  /**
   * A job with its retries, cut off anywhere: no event that was stored at the
   * start is lost, and once an attempt has ended without an error all events of
   * the window are copied. It succeeds when any attempt is undisturbed; when the
   * first one is, the window is copied once and in order. If no attempt died and
   * every failure was a plain error, the stored total is the number of rows
   * inserted over all attempts. While attempts only fail, the stored time does not
   * move and the stored error is the last one's.
   */
  method RunJob(t: Tables, job: Job, batchSize: nat, deleteSource: bool, attempts: seq<Attempt>) returns (succeeded: bool, died: bool)
    requires batchSize >= 1
    modifies t
    ensures Sound(old(t.pg), job, old(t.ch), t.pg, t.ch)
    ensures succeeded ==> WindowCopied(old(t.pg), job, t.ch)
    ensures !NoneUndisturbed(old(t.pg), attempts, |attempts|) ==> succeeded
    ensures |attempts| > 0 && Undisturbed(old(t.pg), attempts, 0) ==>
      CopiedExactly(old(t.pg), job, deleteSource, old(t.ch), t.pg, t.ch)
    ensures AllKnown(attempts) && !died ==> Total(t.state) == Total(old(t.state)) + |t.ch| - old(|t.ch|)
    ensures !succeeded && !died && AllSpoken(attempts) && |attempts| > 0 ==> FailureRecorded(old(t.state), t.state, attempts[|attempts| - 1])
  {
    ghost var start, before := t.pg, t.ch;
    StartIsBetween(start, job, deleteSource, before);
    succeeded, died := false, false;
    hide Sound, WindowCopied, CopiedExactly, Undisturbed, Honest, SeenIds, AllSpoken, AllKnown, FailureRecorded, FailedSoFar, NoneUndisturbed, Total, ArrivedIds;
    NoneSeenYet(start, attempts);
    NoneDisturbedYet(start, attempts);
    NoneFailedYet(t.state, attempts);
    for i := 0 to |attempts|
      invariant Sound(start, job, before, t.pg, t.ch)
      invariant i == 0 ==> t.pg == start && t.ch == before
      invariant t.pg.Keys <= SeenIds(start, attempts[..i])
      invariant NoneUndisturbed(start, attempts, i)
      invariant AllKnown(attempts) && !died ==> Total(t.state) == Total(old(t.state)) + |t.ch| - |before|
      invariant !died && AllSpoken(attempts) ==> FailedSoFar(old(t.state), t.state, attempts, i)
    {
      ghost var was := t.state;
      if AllKnown(attempts) { KnownAt(attempts, i); }
      var ending := RunAttempt(t, job, batchSize, deleteSource, attempts, i, start, before);
      if ending.Finished? {
        succeeded := true;
        return;
      }
      DisturbedToo(start, attempts, i);
      if ending.Died? { died := true; }
      if !died && AllSpoken(attempts) { FailedAgain(old(t.state), was, t.state, attempts, i); }
    }
    if !died && AllSpoken(attempts) { FailedToTheEnd(old(t.state), t.state, attempts); }
  }

  lemma KnownAt(attempts: seq<Attempt>, i: nat)
    requires AllKnown(attempts) && i < |attempts|
    ensures Honest(attempts[i].moves) && attempts[i].upsert.Done?
  {
  }

  lemma NoneDisturbedYet(start: Events, attempts: seq<Attempt>)
    ensures NoneUndisturbed(start, attempts, 0)
  {
  }

  lemma DisturbedToo(start: Events, attempts: seq<Attempt>, i: nat)
    requires i < |attempts| && NoneUndisturbed(start, attempts, i) && !Undisturbed(start, attempts, i)
    ensures NoneUndisturbed(start, attempts, i + 1)
  {
  }

  lemma NoneFailedYet(state: Option<DrainState>, attempts: seq<Attempt>)
    ensures FailedSoFar(state, state, attempts, 0)
  {
  }

  /** Recording one failure after another still leaves the time as it was at first. */
  lemma FailedAgain(first: Option<DrainState>, was: Option<DrainState>, now: Option<DrainState>, attempts: seq<Attempt>, i: nat)
    requires i < |attempts| && FailedSoFar(first, was, attempts, i) && FailureRecorded(was, now, attempts[i])
    ensures FailedSoFar(first, now, attempts, i + 1)
  {
  }

  lemma FailedToTheEnd(first: Option<DrainState>, now: Option<DrainState>, attempts: seq<Attempt>)
    requires FailedSoFar(first, now, attempts, |attempts|)
    ensures |attempts| > 0 ==> FailureRecorded(first, now, attempts[|attempts| - 1])
  {
  }

  lemma NoneSeenYet(start: Events, attempts: seq<Attempt>)
    ensures SeenIds(start, attempts[..0]) == start.Keys
  {
  }

  lemma SeenNext(start: Events, attempts: seq<Attempt>, i: nat)
    requires i < |attempts|
    ensures SeenIds(start, attempts[..i + 1]) == SeenIds(start, attempts[..i]) + ArrivedIds(attempts[i].moves)
  {
    assert attempts[..i + 1][..i] == attempts[..i];
  }

  /** One attempt among others: what it adds to what held before it. */
  method RunAttempt(t: Tables, job: Job, batchSize: nat, deleteSource: bool, attempts: seq<Attempt>, i: nat,
                    ghost start: Events, ghost before: seq<Event>) returns (ending: Ending)
    requires batchSize >= 1 && i < |attempts|
    requires Sound(start, job, before, t.pg, t.ch) && t.pg.Keys <= SeenIds(start, attempts[..i])
    modifies t
    ensures Sound(start, job, before, t.pg, t.ch) && t.pg.Keys <= SeenIds(start, attempts[..i + 1])
    ensures ending.Finished? ==> WindowCopied(start, job, t.ch)
    ensures Undisturbed(start, attempts, i) ==> ending.Finished?
    ensures Undisturbed(start, attempts, i) && old(t.pg) == start && old(t.ch) == before ==>
      CopiedExactly(start, job, deleteSource, before, t.pg, t.ch)
    ensures Honest(attempts[i].moves) && attempts[i].upsert.Done? && !ending.Died? ==> Total(t.state) == Total(old(t.state)) + |t.ch| - old(|t.ch|)
    ensures AllSpoken(attempts) && ending.Failed? ==> FailureRecorded(old(t.state), t.state, attempts[i])
  {
    hide Sound, WindowCopied, CopiedExactly, Quiet, Honest, LongEnough, ArrivedIds, SeenIds;
    ghost var pg, ch := t.pg, t.ch;
    if Undisturbed(start, attempts, i) { EnoughCalls(attempts[i].moves, pg, job, SeenIds(start, attempts[..i])); }
    var copying;
    ending, copying := RunWorkspaceDrain(t, job, batchSize, deleteSource, attempts[i]);
    SoundThenSound(start, job, before, pg, ch, t.pg, t.ch);
    SeenNext(start, attempts, i);
    if ending.Finished? { LaterFinish(start, job, before, pg, ch, t.pg, t.ch); }
  }

  lemma EnoughCalls(moves: seq<Move>, pg: Events, job: Job, ids: set<nat>)
    requires pg.Keys <= ids && |moves| >= 3 * |ids| + 1
    ensures LongEnough(moves, pg, job)
  {
    WindowSize(pg, job, ids);
  }

  lemma LaterFinish(start: Events, job: Job, before: seq<Event>, pg: Events, ch: seq<Event>, pg': Events, ch': seq<Event>)
    requires Sound(start, job, before, pg, ch) && Sound(pg, job, ch, pg', ch') && WindowCopied(pg, job, ch')
    ensures WindowCopied(start, job, ch')
  {
    LaterWindow(start, job, before, pg, ch, ch');
  }
}
