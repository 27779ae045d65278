/**
 * The monthly submission quota: a counter in Redis that is checked before a
 * submission is stored and incremented after, by requests that interleave with
 * each other, with the clock and with the expiry of keys.
 */
module Quota {
  import opened Wrappers

  const DAY := 24 * 60 * 60
  const EXPIRE_SECONDS := 32 * DAY

  /** When each month begins, in seconds; months have at least 1 and at most 31 days. */
  type Calendar = nat -> nat

  ghost predicate IsCalendar(starts: Calendar) {
    forall m: nat :: starts(m) < starts(m + 1) <= starts(m) + 31 * DAY
  }

  // ---- Redis ----

  datatype Entry = Entry(count: nat, expiresAt: Option<nat>)

  /** One workspace's counters by month. */
  type Counters = map<nat, Entry>

  function Get(r: Counters, month: nat): nat {
    if month in r then r[month].count else 0
  }

  /** `INCR` creates a missing key without expiry. */
  function Incr(r: Counters, month: nat): Counters {
    r[month := if month in r then r[month].(count := r[month].count + 1) else Entry(1, None)]
  }

  /** `EXPIRE key seconds NX` */
  function ExpireNX(r: Counters, month: nat, time: nat): Counters {
    if month in r && r[month].expiresAt.None? then r[month := r[month].(expiresAt := Some(time + EXPIRE_SECONDS))] else r
  }

  /** What is left when the clock shows `time`. */
  function Unexpired(r: Counters, time: nat): Counters {
    map m | m in r && (r[m].expiresAt.None? || time < r[m].expiresAt.value) :: r[m]
  }

  /** A key goes when its time has come, and no other does; what stays is as it was. */
  lemma UnexpiredIs(r: Counters, time: nat, month: nat)
    ensures month in Unexpired(r, time) <==> month in r && !(r[month].expiresAt.Some? && r[month].expiresAt.value <= time)
    ensures month in Unexpired(r, time) ==> Unexpired(r, time)[month] == r[month]
  {
  }

  /** Whether one more submission may be stored. */
  predicate BelowQuota(r: Counters, month: nat, quota: nat) {
    Get(r, month) < quota
  }

  /** The counters after one more submission. */
  function WithOneMore(r: Counters, month: nat, time: nat): Counters {
    ExpireNX(Incr(r, month), month, time)
  }

  // ---- the service, uninterrupted ----

  datatype QuotaError = QuotaExhausted(current: nat, limit: nat, resetAt: nat)

  class PlanService {
    const starts: Calendar
    const monthlySubmissionQuota: nat
    var redis: Counters

    constructor (starts: Calendar, monthlySubmissionQuota: nat)
      ensures this.starts == starts && this.monthlySubmissionQuota == monthlySubmissionQuota && redis == map[]
    {
      this.starts, this.monthlySubmissionQuota, redis := starts, monthlySubmissionQuota, map[];
    }

    method AssertCanAcceptSubmission(month: nat) returns (r: Result<(), QuotaError>)
      ensures r.Ok? <==> BelowQuota(redis, month, monthlySubmissionQuota)
      ensures
        var current := if month in redis then redis[month].count else 0;
        && (r.Ok? <==> current < monthlySubmissionQuota)
        && (r.Err? ==> r.error.current == current && r.error.limit == monthlySubmissionQuota && r.error.resetAt == starts(month + 1))
    {
      var current := Get(redis, month);
      if current >= monthlySubmissionQuota {
        return Err(QuotaExhausted(current, monthlySubmissionQuota, starts(month + 1)));
      }
      r := Ok(());
    }

    method RecordSubmission(month: nat, time: nat) returns (monthCount: nat)
      modifies this
      ensures redis == WithOneMore(old(redis), month, time)
      ensures monthCount == 1 + (if month in old(redis) then old(redis)[month].count else 0)
      ensures month in redis && redis[month].count == monthCount
      ensures redis[month].expiresAt ==
        if month in old(redis) && old(redis)[month].expiresAt.Some? then old(redis)[month].expiresAt else Some(time + 32 * 24 * 60 * 60)
      ensures forall m :: m != month ==> (m in redis <==> m in old(redis)) && (m in redis ==> redis[m] == old(redis)[m])
    {
      redis := Incr(redis, month);
      monthCount := Get(redis, month);
      redis := ExpireNX(redis, month, time);
    }
  }

  // ---- interleavings ----

  /**
   * A request takes the month's key, reads the counter, then, when its submission
   * is stored, takes the key again, increments and sets the expiry.
   */
  datatype Phase = Keyed(month: nat) | Passed | Stamped(month: nat) | Counted(month: nat) | Ended

  datatype State = State(time: nat, month: nat, calls: map<nat, Phase>, redis: Counters, recorded: map<nat, nat>)

  datatype Step = Arrive(call: nat) | Advance(call: nat) | GiveUp(call: nat) | Clock(time: nat, month: nat)

  predicate InFlightPhase(p: Phase) {
    p.Keyed? || p.Passed? || p.Stamped?
  }

  /** Requests between taking the key for the check and the increment. */
  function InFlight(calls: map<nat, Phase>): set<nat> {
    set c | c in calls && InFlightPhase(calls[c])
  }

  function RecordedIn(s: State, month: nat): nat {
    if month in s.recorded then s.recorded[month] else 0
  }

  function AdvanceCall(quota: nat, s: State, call: nat): State
    requires call in s.calls
  {
    match s.calls[call]
    case Keyed(month) => s.(calls := s.calls[call := if Get(s.redis, month) < quota then Passed else Ended])
    case Passed => s.(calls := s.calls[call := Stamped(s.month)])
    case Stamped(month) =>
      s.(calls := s.calls[call := Counted(month)], redis := Incr(s.redis, month), recorded := s.recorded[month := RecordedIn(s, month) + 1])
    case Counted(month) => s.(calls := s.calls[call := Ended], redis := ExpireNX(s.redis, month, s.time))
    case Ended => s
  }

  /** No more than `limit` requests are ever in flight; the clock only moves forward. */
  ghost function Next(starts: Calendar, quota: nat, limit: nat, s: State, step: Step): State {
    match step
    case Arrive(call) =>
      if call in s.calls || |InFlight(s.calls)| >= limit then s else s.(calls := s.calls[call := Keyed(s.month)])
    case Advance(call) => if call in s.calls then AdvanceCall(quota, s, call) else s
    case GiveUp(call) => if call in s.calls then s.(calls := s.calls[call := Ended]) else s
    case Clock(time, month) =>
      if s.time <= time && s.month <= month && starts(month) <= time < starts(month + 1)
      then s.(time := time, month := month, redis := Unexpired(s.redis, time)) else s
  }

  ghost function Run(starts: Calendar, quota: nat, limit: nat, s: State, steps: seq<Step>): State {
    if steps == [] then s
    else Next(starts, quota, limit, Run(starts, quota, limit, s, steps[..|steps| - 1]), steps[|steps| - 1])
  }

  function AdvanceTwice(quota: nat, s: State, call: nat): State
    requires call in s.calls
  {
    var t := AdvanceCall(quota, s, call);
    assert call in t.calls;
    AdvanceCall(quota, t, call)
  }

  lemma TwoSteps(starts: Calendar, quota: nat, limit: nat, s: State, steps: seq<Step>, now: State, call: nat)
    requires Run(starts, quota, limit, s, steps) == now && call in now.calls
    ensures Run(starts, quota, limit, s, steps + [Advance(call)] + [Advance(call)]) == AdvanceTwice(quota, now, call)
  {
    var next := AdvanceCall(quota, now, call);
    assert call in next.calls;
    hide Run, AdvanceCall;
    Then(starts, quota, limit, s, steps, now, Advance(call));
    Then(starts, quota, limit, s, steps + [Advance(call)], next, Advance(call));
  }

  lemma CheckAndStamp(quota: nat, s: State, call: nat)
    requires call in s.calls && s.calls[call] == Keyed(s.month)
    ensures AdvanceTwice(quota, s, call) ==
      s.(calls := s.calls[call := if BelowQuota(s.redis, s.month, quota) then Stamped(s.month) else Ended])
  {
    var m := s.month;
    assert s.calls[call := Ended][call := Ended] == s.calls[call := Ended];
    assert s.calls[call := Passed][call := Stamped(m)] == s.calls[call := Stamped(m)];
  }

  lemma IncrementAndExpire(quota: nat, s: State, call: nat)
    requires call in s.calls && s.calls[call].Stamped?
    ensures
      var m := s.calls[call].month;
      AdvanceTwice(quota, s, call) ==
        s.(calls := s.calls[call := Ended], redis := WithOneMore(s.redis, m, s.time), recorded := s.recorded[m := RecordedIn(s, m) + 1])
  {
    hide Incr, ExpireNX, RecordedIn;
    var m := s.calls[call].month;
    assert s.calls[call := Counted(m)][call := Ended] == s.calls[call := Ended];
  }

  lemma EndedStays(quota: nat, s: State, call: nat)
    requires call in s.calls && s.calls[call].Ended?
    ensures AdvanceTwice(quota, s, call) == s
  {
  }

  /** A request that nothing interrupts does what the two calls of the service do one after the other. */
  lemma UninterruptedRequest(starts: Calendar, quota: nat, limit: nat, s: State, call: nat)
    requires call in s.calls && s.calls[call] == Keyed(s.month)
    ensures
      var step := Advance(call);
      Run(starts, quota, limit, s, [step, step, step, step]) ==
        if BelowQuota(s.redis, s.month, quota)
        then s.(calls := s.calls[call := Ended], redis := WithOneMore(s.redis, s.month, s.time),
                recorded := s.recorded[s.month := RecordedIn(s, s.month) + 1])
        else s.(calls := s.calls[call := Ended])
  {
    var step := Advance(call);
    assert [] + [step] + [step] == [step, step] && [step, step] + [step] + [step] == [step, step, step, step];
    assert Run(starts, quota, limit, s, []) == s;
    hide Run, AdvanceTwice, WithOneMore, BelowQuota, RecordedIn;
    var half := AdvanceTwice(quota, s, call);
    CheckAndStamp(quota, s, call);
    TwoSteps(starts, quota, limit, s, [], s, call);
    TwoSteps(starts, quota, limit, s, [step, step], half, call);
    if half.calls[call].Stamped? {
      IncrementAndExpire(quota, half, call);
      assert s.calls[call := Stamped(s.month)][call := Ended] == s.calls[call := Ended];
    } else {
      EndedStays(quota, half, call);
    }
  }

  /** Requests that can still increment the month's counter without looking at it again. */
  function Could(calls: map<nat, Phase>, current: nat, month: nat): set<nat> {
    set c | c in calls && CouldPhase(calls[c], current, month)
  }

  predicate CouldPhase(p: Phase, current: nat, month: nat) {
    match p
    case Keyed(m) => current == month && m != month
    case Passed => current == month
    case Stamped(m) => m == month
    case _ => false
  }

  ghost predicate Timely(starts: Calendar, s: State) {
    && starts(s.month) <= s.time < starts(s.month + 1)
    && (forall c :: c in s.calls && s.calls[c].Keyed? ==> s.calls[c].month <= s.month)
    && (forall c :: c in s.calls && s.calls[c].Stamped? ==> s.calls[c].month <= s.month)
    && (forall c :: c in s.calls && s.calls[c].Counted? ==> s.calls[c].month <= s.month)
    && (forall m :: m in s.redis ==> m <= s.month)
    && (forall m :: m in s.recorded ==> m <= s.month)
    && (forall m :: m in s.redis && s.redis[m].expiresAt.Some? ==> s.redis[m].expiresAt.value >= starts(m) + EXPIRE_SECONDS)
  }

  /** In its own month the counter says how many submissions were recorded. */
  ghost predicate CounterIsTrue(s: State) {
    Get(s.redis, s.month) == RecordedIn(s, s.month)
  }

  ghost predicate Bounded(quota: nat, limit: nat, s: State) {
    && |InFlight(s.calls)| <= limit
    && forall m: nat :: RecordedIn(s, m) + |Could(s.calls, s.month, m)| <= quota - 1 + limit
  }

  ghost predicate Good(starts: Calendar, quota: nat, limit: nat, s: State) {
    Timely(starts, s) && CounterIsTrue(s) && Bounded(quota, limit, s)
  }

  lemma {:induction false} MonthsInOrder(starts: Calendar, m: nat, n: nat)
    requires IsCalendar(starts) && m <= n
    ensures starts(m) <= starts(n)
  {
    if m < n { MonthsInOrder(starts, m, n - 1); }
  }

  lemma {:induction false} SubsetIsSmaller(a: set<nat>, b: set<nat>)
    requires a <= b
    ensures |a| <= |b|
  {
    if a != {} {
      var x :| x in a;
      SubsetIsSmaller(a - {x}, b - {x});
    }
  }

  lemma CouldAreInFlight(calls: map<nat, Phase>, current: nat, month: nat)
    ensures |Could(calls, current, month)| <= |InFlight(calls)|
  {
    SubsetIsSmaller(Could(calls, current, month), InFlight(calls));
  }

  function Bit(b: bool): nat {
    if b then 1 else 0
  }

  function Only(b: bool, call: nat): set<nat> {
    if b then {call} else {}
  }

  lemma OneElementDiffers(before: set<nat>, after: set<nat>, call: nat, b: bool, c: bool)
    requires forall x :: x != call ==> (x in before <==> x in after)
    requires (call in before <==> b) && (call in after <==> c)
    ensures |after| == |before| - Bit(b) + Bit(c)
  {
    var rest := before - {call};
    assert before == rest + Only(b, call) && after == rest + Only(c, call);
    assert rest + {} == rest;
  }

  lemma CouldMoves(calls: map<nat, Phase>, call: nat, p: Phase, current: nat, month: nat)
    requires call in calls
    ensures |Could(calls[call := p], current, month)|
         == |Could(calls, current, month)| - Bit(CouldPhase(calls[call], current, month)) + Bit(CouldPhase(p, current, month))
  {
    hide CouldPhase;
    OneElementDiffers(Could(calls, current, month), Could(calls[call := p], current, month), call,
                      CouldPhase(calls[call], current, month), CouldPhase(p, current, month));
  }

  lemma InFlightMoves(calls: map<nat, Phase>, call: nat, p: Phase)
    requires call in calls
    ensures |InFlight(calls[call := p])| == |InFlight(calls)| - Bit(InFlightPhase(calls[call])) + Bit(InFlightPhase(p))
  {
    hide InFlightPhase;
    OneElementDiffers(InFlight(calls), InFlight(calls[call := p]), call, InFlightPhase(calls[call]), InFlightPhase(p));
  }

  /** A month's sum does not grow, unless the month's counter was just seen below the quota. */
  ghost predicate SumsHold(quota: nat, s: State, t: State, call: nat)
    requires call in s.calls && call in t.calls
  {
    forall m: nat ::
      || RecordedIn(t, m) + Bit(CouldPhase(t.calls[call], s.month, m)) <= RecordedIn(s, m) + Bit(CouldPhase(s.calls[call], s.month, m))
      || RecordedIn(t, m) <= quota - 1
  }

  lemma BoundHolds(quota: nat, limit: nat, s: State, t: State, call: nat)
    requires Bounded(quota, limit, s) && call in s.calls && call in t.calls
    requires t.month == s.month && t.calls == s.calls[call := t.calls[call]]
    requires InFlightPhase(t.calls[call]) ==> InFlightPhase(s.calls[call])
    requires SumsHold(quota, s, t, call)
    ensures Bounded(quota, limit, t)
  {
    var p := t.calls[call];
    InFlightMoves(s.calls, call, p);
    forall m: nat ensures RecordedIn(t, m) + |Could(t.calls, t.month, m)| <= quota - 1 + limit {
      CouldMoves(s.calls, call, p, s.month, m);
      CouldAreInFlight(t.calls, t.month, m);
      assert RecordedIn(s, m) + |Could(s.calls, s.month, m)| <= quota - 1 + limit;
    }
  }

  lemma ArriveTimely(starts: Calendar, s: State, call: nat)
    requires Timely(starts, s) && CounterIsTrue(s) && call !in s.calls
    ensures
      var t := s.(calls := s.calls[call := Keyed(s.month)]);
      Timely(starts, t) && CounterIsTrue(t)
  {
  }

  lemma ArriveKeeps(starts: Calendar, quota: nat, limit: nat, s: State, call: nat)
    requires quota >= 1 && Good(starts, quota, limit, s) && call !in s.calls && |InFlight(s.calls)| < limit
    ensures Good(starts, quota, limit, Next(starts, quota, limit, s, Arrive(call)))
  {
    var t := s.(calls := s.calls[call := Keyed(s.month)]);
    ArriveTimely(starts, s, call);
    hide Timely, CounterIsTrue;
    assert InFlight(t.calls) == InFlight(s.calls) + {call};
    forall m: nat ensures RecordedIn(t, m) + |Could(t.calls, t.month, m)| <= quota - 1 + limit {
      assert Could(t.calls, t.month, m) == Could(s.calls, s.month, m);
      assert RecordedIn(s, m) + |Could(s.calls, s.month, m)| <= quota - 1 + limit;
    }
  }

  lemma GiveUpKeeps(starts: Calendar, quota: nat, limit: nat, s: State, call: nat)
    requires Good(starts, quota, limit, s) && call in s.calls
    ensures Good(starts, quota, limit, Next(starts, quota, limit, s, GiveUp(call)))
  {
    var t := s.(calls := s.calls[call := Ended]);
    hide Timely;
    BoundHolds(quota, limit, s, t, call);
    CallsTimely(starts, s, t, call);
  }

  /** A call's phase may carry the current month or the one it had. */
  lemma CallsTimely(starts: Calendar, s: State, t: State, call: nat)
    requires Timely(starts, s) && call in s.calls && call in t.calls
    requires t.(calls := s.calls) == s && t.calls == s.calls[call := t.calls[call]]
    requires t.calls[call].Ended? || t.calls[call].Passed? || (t.calls[call].Stamped? && t.calls[call].month == s.month)
    ensures Timely(starts, t)
  {
  }

  /** A key outlives its month: it is set to expire 32 days after some moment of it or later. */
  lemma KeyOutlivesItsMonth(starts: Calendar, s: State)
    requires IsCalendar(starts) && Timely(starts, s) && s.month in s.redis
    ensures s.month in Unexpired(s.redis, s.time)
  {
    assert starts(s.month + 1) <= starts(s.month) + 31 * DAY;
  }

  function At(s: State, time: nat, month: nat): State {
    s.(time := time, month := month, redis := Unexpired(s.redis, time))
  }

  predicate Forward(starts: Calendar, s: State, time: nat, month: nat) {
    s.time <= time && s.month <= month && starts(month) <= time < starts(month + 1)
  }

  lemma ClockTimely(starts: Calendar, s: State, time: nat, month: nat)
    requires Timely(starts, s) && Forward(starts, s, time, month)
    ensures Timely(starts, At(s, time, month))
  {
  }

  lemma ClockCounts(starts: Calendar, s: State, time: nat, month: nat)
    requires IsCalendar(starts) && Timely(starts, s) && CounterIsTrue(s) && Forward(starts, s, time, month)
    ensures CounterIsTrue(At(s, time, month))
  {
    if month == s.month && month in s.redis {
      KeyOutlivesItsMonth(starts, s.(time := time));
    }
  }

  lemma ClockBounded(starts: Calendar, quota: nat, limit: nat, s: State, time: nat, month: nat)
    requires quota >= 1 && Timely(starts, s) && Bounded(quota, limit, s) && Forward(starts, s, time, month)
    ensures Bounded(quota, limit, At(s, time, month))
  {
    var t := At(s, time, month);
    assert month > s.month ==> month !in s.recorded;
    hide Timely, Unexpired;
    forall m: nat ensures RecordedIn(t, m) + |Could(t.calls, t.month, m)| <= quota - 1 + limit {
      CouldAreInFlight(t.calls, t.month, m);
      assert RecordedIn(s, m) + |Could(s.calls, s.month, m)| <= quota - 1 + limit;
      if m != month || month == s.month {
        SubsetIsSmaller(Could(t.calls, t.month, m), Could(s.calls, s.month, m));
      }
    }
  }

  lemma ClockKeeps(starts: Calendar, quota: nat, limit: nat, s: State, time: nat, month: nat)
    requires IsCalendar(starts) && quota >= 1 && Good(starts, quota, limit, s) && Forward(starts, s, time, month)
    ensures Good(starts, quota, limit, Next(starts, quota, limit, s, Clock(time, month)))
  {
    hide Timely, CounterIsTrue, Bounded, Unexpired;
    ClockTimely(starts, s, time, month);
    ClockCounts(starts, s, time, month);
    ClockBounded(starts, quota, limit, s, time, month);
  }

  /** Of a call that passes, the counter it read was the month's own. */
  lemma CheckKeeps(starts: Calendar, quota: nat, limit: nat, s: State, call: nat)
    requires quota >= 1 && Good(starts, quota, limit, s) && call in s.calls && s.calls[call].Keyed?
    ensures Good(starts, quota, limit, AdvanceCall(quota, s, call))
  {
    var t := AdvanceCall(quota, s, call);
    hide Timely;
    BoundHolds(quota, limit, s, t, call);
    CallsTimely(starts, s, t, call);
  }

  lemma StampKeeps(starts: Calendar, quota: nat, limit: nat, s: State, call: nat)
    requires Good(starts, quota, limit, s) && call in s.calls && s.calls[call].Passed?
    ensures Good(starts, quota, limit, AdvanceCall(quota, s, call))
  {
    var t := AdvanceCall(quota, s, call);
    hide Timely;
    BoundHolds(quota, limit, s, t, call);
    CallsTimely(starts, s, t, call);
  }

  lemma IncrementTimely(starts: Calendar, quota: nat, s: State, call: nat)
    requires Timely(starts, s) && CounterIsTrue(s) && call in s.calls && s.calls[call].Stamped?
    ensures Timely(starts, AdvanceCall(quota, s, call)) && CounterIsTrue(AdvanceCall(quota, s, call))
  {
    var t := AdvanceCall(quota, s, call);
    assert forall m :: m in t.redis && m in s.redis ==> t.redis[m].expiresAt == s.redis[m].expiresAt;
  }

  lemma IncrementKeeps(starts: Calendar, quota: nat, limit: nat, s: State, call: nat)
    requires Good(starts, quota, limit, s) && call in s.calls && s.calls[call].Stamped?
    ensures Good(starts, quota, limit, AdvanceCall(quota, s, call))
  {
    var t := AdvanceCall(quota, s, call);
    IncrementTimely(starts, quota, s, call);
    hide Timely, CounterIsTrue;
    BoundHolds(quota, limit, s, t, call);
  }

  lemma ExpiryTimely(starts: Calendar, quota: nat, s: State, call: nat)
    requires IsCalendar(starts) && Timely(starts, s) && CounterIsTrue(s) && call in s.calls && s.calls[call].Counted?
    ensures Timely(starts, AdvanceCall(quota, s, call)) && CounterIsTrue(AdvanceCall(quota, s, call))
  {
    MonthsInOrder(starts, s.calls[call].month, s.month);
  }

  lemma ExpiryKeeps(starts: Calendar, quota: nat, limit: nat, s: State, call: nat)
    requires IsCalendar(starts) && Good(starts, quota, limit, s) && call in s.calls && s.calls[call].Counted?
    ensures Good(starts, quota, limit, AdvanceCall(quota, s, call))
  {
    var t := AdvanceCall(quota, s, call);
    ExpiryTimely(starts, quota, s, call);
    hide Timely, CounterIsTrue;
    BoundHolds(quota, limit, s, t, call);
  }

  lemma StepKeeps(starts: Calendar, quota: nat, limit: nat, s: State, step: Step)
    requires IsCalendar(starts) && quota >= 1 && Good(starts, quota, limit, s)
    ensures Good(starts, quota, limit, Next(starts, quota, limit, s, step))
  {
    hide Good;
    match step
    case Arrive(call) =>
      if call !in s.calls && |InFlight(s.calls)| < limit { ArriveKeeps(starts, quota, limit, s, call); }
    case GiveUp(call) =>
      if call in s.calls { GiveUpKeeps(starts, quota, limit, s, call); }
    case Clock(time, month) =>
      if s.time <= time && s.month <= month && starts(month) <= time < starts(month + 1) { ClockKeeps(starts, quota, limit, s, time, month); }
    case Advance(call) =>
      if call in s.calls {
        match s.calls[call]
        case Keyed(_) => CheckKeeps(starts, quota, limit, s, call);
        case Passed => StampKeeps(starts, quota, limit, s, call);
        case Stamped(_) => IncrementKeeps(starts, quota, limit, s, call);
        case Counted(_) => ExpiryKeeps(starts, quota, limit, s, call);
        case Ended =>
      }
  }

  ghost predicate AtStart(starts: Calendar, s: State) {
    starts(s.month) <= s.time < starts(s.month + 1) && s.calls == map[] && s.redis == map[] && s.recorded == map[]
  }

  lemma {:induction false} EveryRunIsGood(starts: Calendar, quota: nat, limit: nat, s: State, steps: seq<Step>)
    requires IsCalendar(starts) && quota >= 1 && AtStart(starts, s)
    ensures Good(starts, quota, limit, Run(starts, quota, limit, s, steps))
  {
    if steps == [] {
      assert forall m: nat :: Could(s.calls, s.month, m) == {};
      assert InFlight(s.calls) == {};
    } else {
      EveryRunIsGood(starts, quota, limit, s, steps[..|steps| - 1]);
      StepKeeps(starts, quota, limit, Run(starts, quota, limit, s, steps[..|steps| - 1]), steps[|steps| - 1]);
    }
  }

  /**
   * However requests, month ends and expiries interleave, no month records more
   * than the quota less one plus the requests that may be in flight at once, and
   * within a month the counter is exact.
   */
  lemma OvershootBound(starts: Calendar, quota: nat, limit: nat, s: State, steps: seq<Step>, month: nat)
    requires IsCalendar(starts) && quota >= 1 && AtStart(starts, s)
    ensures
      var end := Run(starts, quota, limit, s, steps);
      RecordedIn(end, month) <= quota - 1 + limit && Get(end.redis, end.month) == RecordedIn(end, end.month)
  {
    EveryRunIsGood(starts, quota, limit, s, steps);
    var end := Run(starts, quota, limit, s, steps);
    assert RecordedIn(end, month) + |Could(end.calls, end.month, month)| <= quota - 1 + limit;
  }

  // ---- the bound is reached ----

  /** `k` requests from `u` on have passed their check and none other is in flight; ids from `b` on are unused. */
  ghost predicate Waiting(s: State, u: nat, k: nat, b: nat) {
    && u + k <= b
    && (forall c :: c in s.calls ==> c < b && (InFlightPhase(s.calls[c]) <==> u <= c < u + k))
    && (forall c: nat :: u <= c < u + k ==> c in s.calls && s.calls[c].Passed?)
    && CounterIsTrue(s)
  }

  ghost function Range(u: nat, k: nat): (r: set<nat>)
    ensures |r| == k
    ensures forall c :: c in r <==> u <= c < u + k
  {
    if k == 0 then {} else Range(u, k - 1) + {u + k - 1}
  }

  lemma WaitingCount(s: State, u: nat, k: nat, b: nat)
    requires Waiting(s, u, k, b)
    ensures |InFlight(s.calls)| == k
  {
    assert InFlight(s.calls) == Range(u, k);
  }

  function ArrivedAndPassed(s: State, call: nat): State {
    s.(calls := s.calls[call := Passed])
  }

  /** One more request arrives and passes its check. */
  lemma PassOne(starts: Calendar, quota: nat, limit: nat, s: State, u: nat, k: nat)
    requires Waiting(s, u, k, u + k) && k < limit && RecordedIn(s, s.month) < quota
    ensures Next(starts, quota, limit, Next(starts, quota, limit, s, Arrive(u + k)), Advance(u + k)) == ArrivedAndPassed(s, u + k)
    ensures Waiting(ArrivedAndPassed(s, u + k), u, k + 1, u + k + 1)
  {
    WaitingCount(s, u, k, u + k);
    var arrived := Next(starts, quota, limit, s, Arrive(u + k));
    assert arrived == s.(calls := s.calls[u + k := Keyed(s.month)]);
    assert arrived.calls[u + k := Passed] == s.calls[u + k := Passed];
  }

  function RecordedOnce(s: State, call: nat): State {
    s.(calls := s.calls[call := Counted(s.month)], redis := Incr(s.redis, s.month),
       recorded := s.recorded[s.month := RecordedIn(s, s.month) + 1])
  }

  /** The last request that waits is recorded. */
  lemma CountOne(starts: Calendar, quota: nat, limit: nat, s: State, u: nat, k: nat, b: nat)
    requires Waiting(s, u, k + 1, b)
    ensures Next(starts, quota, limit, Next(starts, quota, limit, s, Advance(u + k)), Advance(u + k)) == RecordedOnce(s, u + k)
    ensures Waiting(RecordedOnce(s, u + k), u, k, b)
    ensures RecordedIn(RecordedOnce(s, u + k), s.month) == RecordedIn(s, s.month) + 1
  {
    var stamped := Next(starts, quota, limit, s, Advance(u + k));
    assert stamped == s.(calls := s.calls[u + k := Stamped(s.month)]);
    assert stamped.calls[u + k := Counted(s.month)] == s.calls[u + k := Counted(s.month)];
  }

  lemma Then(starts: Calendar, quota: nat, limit: nat, s: State, steps: seq<Step>, now: State, step: Step)
    requires Run(starts, quota, limit, s, steps) == now
    ensures Run(starts, quota, limit, s, steps + [step]) == Next(starts, quota, limit, now, step)
  {
    var more := steps + [step];
    assert more[..|more| - 1] == steps;
  }

  /**
   * The bound is exact: for every quota and every number of requests that may be
   * in flight, some run records that many. First one by one, then all at once.
   */
  lemma BoundIsReached(starts: Calendar, quota: nat, limit: nat, s: State) returns (steps: seq<Step>)
    requires quota >= 1 && limit >= 1 && AtStart(starts, s)
    ensures RecordedIn(Run(starts, quota, limit, s, steps), s.month) == quota - 1 + limit
  {
    var now, next := s, 0;
    steps := [];
    while next < quota - 1
      invariant next <= quota - 1
      invariant Run(starts, quota, limit, s, steps) == now && now.month == s.month
      invariant Waiting(now, next, 0, next) && RecordedIn(now, s.month) == next
    {
      steps, now := PassAnother(starts, quota, limit, s, steps, now, next, 0);
      steps, now := CountAnother(starts, quota, limit, s, steps, now, next, 0, next + 1);
      next := next + 1;
    }
    var k := 0;
    while k < limit
      invariant k <= limit
      invariant Run(starts, quota, limit, s, steps) == now && now.month == s.month
      invariant Waiting(now, next, k, next + k) && RecordedIn(now, s.month) == quota - 1
    {
      steps, now := PassAnother(starts, quota, limit, s, steps, now, next, k);
      k := k + 1;
    }
    while k > 0
      invariant k <= limit
      invariant Run(starts, quota, limit, s, steps) == now && now.month == s.month
      invariant Waiting(now, next, k, next + limit) && RecordedIn(now, s.month) == quota - 1 + (limit - k)
    {
      k := k - 1;
      steps, now := CountAnother(starts, quota, limit, s, steps, now, next, k, next + limit);
    }
  }

  lemma PassAnother(starts: Calendar, quota: nat, limit: nat, s: State, steps: seq<Step>, now: State, u: nat, k: nat)
      returns (more: seq<Step>, after: State)
    requires Run(starts, quota, limit, s, steps) == now && Waiting(now, u, k, u + k) && k < limit && RecordedIn(now, now.month) < quota
    ensures Run(starts, quota, limit, s, more) == after && Waiting(after, u, k + 1, u + k + 1)
    ensures after.month == now.month && RecordedIn(after, now.month) == RecordedIn(now, now.month)
  {
    PassOne(starts, quota, limit, now, u, k);
    Then(starts, quota, limit, s, steps, now, Arrive(u + k));
    Then(starts, quota, limit, s, steps + [Arrive(u + k)], Next(starts, quota, limit, now, Arrive(u + k)), Advance(u + k));
    more, after := steps + [Arrive(u + k)] + [Advance(u + k)], ArrivedAndPassed(now, u + k);
  }

  lemma CountAnother(starts: Calendar, quota: nat, limit: nat, s: State, steps: seq<Step>, now: State, u: nat, k: nat, b: nat)
      returns (more: seq<Step>, after: State)
    requires Run(starts, quota, limit, s, steps) == now && Waiting(now, u, k + 1, b)
    ensures Run(starts, quota, limit, s, more) == after && Waiting(after, u, k, b)
    ensures after.month == now.month && RecordedIn(after, now.month) == RecordedIn(now, now.month) + 1
    ensures k == 0 ==> Waiting(after, b, 0, b)
  {
    CountOne(starts, quota, limit, now, u, k, b);
    Then(starts, quota, limit, s, steps, now, Advance(u + k));
    Then(starts, quota, limit, s, steps + [Advance(u + k)], Next(starts, quota, limit, now, Advance(u + k)), Advance(u + k));
    more, after := steps + [Advance(u + k)] + [Advance(u + k)], RecordedOnce(now, u + k);
  }
}
