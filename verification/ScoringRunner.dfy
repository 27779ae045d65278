/** The score: a fold over matching rules, then the first bucket that holds the total. */
module ScoringRunner {
  import opened Wrappers
  import opened FormSpecs
  import opened JsonLogic

  type Thens = seq<Then>

  /** Field values and calculation results, the latter taking precedence. */
  function ScoreData(values: Values, calcResults: Values): Values {
    values + calcResults
  }

  /** The clauses of the rules whose conditions are met, in order. */
  function MatchingThens(e: Engine, rules: seq<ScoringRule>, data: Values): Thens {
    if rules == [] then []
    else
      var last := rules[|rules| - 1];
      MatchingThens(e, rules[..|rules| - 1], data) + (if Met(e, last.cond, data) then [last.then_] else [])
  }

  /** Position after the last clause that sets the total; 0 when none does. */
  function AfterLastSet(ts: Thens): (k: nat)
    ensures k <= |ts|
    ensures k > 0 ==> ts[k - 1].set_.Some?
    ensures forall i :: k <= i < |ts| ==> ts[i].set_.None?
  {
    if ts == [] then 0
    else if ts[|ts| - 1].set_.Some? then |ts|
    else AfterLastSet(ts[..|ts| - 1])
  }

  function SumAdds(ts: Thens): real {
    if ts == [] then 0.0
    else SumAdds(ts[..|ts| - 1]) + (match ts[|ts| - 1].add case Some(n) => n case None => 0.0)
  }

  /** What the last matching `set` put, or zero, plus every matching `add` after it. */
  function ClosedTotal(ts: Thens): real {
    var k := AfterLastSet(ts);
    (if k > 0 then ts[k - 1].set_.value else 0.0) + SumAdds(ts[k..])
  }

  lemma ClosedTotalSnoc(ts: Thens, t: Then)
    ensures ClosedTotal(ts + [t]) ==
      match t.set_
      case Some(n) => n
      case None => ClosedTotal(ts) + (match t.add case Some(n) => n case None => 0.0)
  {
    var more := ts + [t];
    assert more[..|more| - 1] == ts;
    if t.set_.Some? {
      assert more[|more|..] == [];
    } else {
      var k := AfterLastSet(ts);
      assert AfterLastSet(more) == k;
      assert more[k..][..|more[k..]| - 1] == ts[k..];
      assert k > 0 ==> more[k - 1] == ts[k - 1];
    }
  }

  predicate Holds(b: Bucket, total: real) {
    b.min <= total <= b.max
  }

  predicate FirstHolding(buckets: seq<Bucket>, total: real, i: nat)
    requires i < |buckets|
  {
    Holds(buckets[i], total) && forall j :: 0 <= j < i ==> !Holds(buckets[j], total)
  }

  /** The name of the first bucket that holds the total. */
  function BucketFor(buckets: seq<Bucket>, total: real): (r: Option<string>)
    ensures r.None? <==> forall i :: 0 <= i < |buckets| ==> !Holds(buckets[i], total)
    ensures r.Some? ==> exists i :: 0 <= i < |buckets| && FirstHolding(buckets, total, i) && buckets[i].name == r.value
  {
    if buckets == [] then None
    else match BucketFor(buckets[..|buckets| - 1], total)
      case Some(name) => Some(name)
      case None => if Holds(buckets[|buckets| - 1], total) then Some(buckets[|buckets| - 1].name) else None
  }

  datatype ScoreResult = ScoreResult(total: real, bucket: Option<string>)

  function Score(e: Engine, scoring: Option<Scoring>, values: Values, calcResults: Values): ScoreResult {
    if scoring.None? || !scoring.value.enabled then ScoreResult(0.0, None)
    else
      var total := ClosedTotal(MatchingThens(e, scoring.value.rules, ScoreData(values, calcResults)));
      ScoreResult(total, BucketFor(scoring.value.buckets, total))
  }

  // ---- the total, rule by rule ----

  /** The rule's condition comes out true; one that throws does not. */
  predicate Matches(e: Engine, rule: ScoringRule, data: Values) {
    Apply(e, rule.cond, data).Value? && Truthy(Apply(e, rule.cond, data).v)
  }

  /** What the matching rules from the `i`th on add. */
  function AddsFrom(e: Engine, rules: seq<ScoringRule>, data: Values, i: nat): real
    requires i <= |rules|
    decreases |rules| - i
  {
    if i == |rules| then 0.0
    else (if Matches(e, rules[i], data) && rules[i].then_.add.Some? then rules[i].then_.add.value else 0.0) + AddsFrom(e, rules, data, i + 1)
  }

  /** Rule `k` matches and sets the total, and no later one does. */
  predicate SetsLast(e: Engine, rules: seq<ScoringRule>, data: Values, k: nat) {
    && k < |rules| && Matches(e, rules[k], data) && rules[k].then_.set_.Some?
    && forall j :: k < j < |rules| ==> !(Matches(e, rules[j], data) && rules[j].then_.set_.Some?)
  }

  /** The last matching rule that sets, and what matching rules after it add; without one, all that they add. */
  ghost predicate TotalIs(e: Engine, rules: seq<ScoringRule>, data: Values, total: real) {
    && (forall k: nat :: SetsLast(e, rules, data, k) ==> total == rules[k].then_.set_.value + AddsFrom(e, rules, data, k + 1))
    && ((forall k: nat :: !SetsLast(e, rules, data, k)) ==> total == AddsFrom(e, rules, data, 0))
  }

  lemma {:induction false} AddsFromSnoc(e: Engine, rules: seq<ScoringRule>, last: ScoringRule, data: Values, i: nat)
    requires i <= |rules|
    ensures AddsFrom(e, rules + [last], data, i) ==
      AddsFrom(e, rules, data, i) + if Matches(e, last, data) && last.then_.add.Some? then last.then_.add.value else 0.0
    decreases |rules| - i
  {
    hide Matches;
    var more := rules + [last];
    if i < |rules| {
      AddsFromSnoc(e, rules, last, data, i + 1);
      assert more[i] == rules[i];
    } else {
      assert more[i] == last && AddsFrom(e, more, data, i + 1) == 0.0;
    }
  }

  lemma SetsLastSnoc(e: Engine, rules: seq<ScoringRule>, last: ScoringRule, data: Values, k: nat)
    ensures
      var sets := Matches(e, last, data) && last.then_.set_.Some?;
      SetsLast(e, rules + [last], data, k) <==> if sets then k == |rules| else SetsLast(e, rules, data, k)
  {
    hide Matches;
    var more := rules + [last];
    assert more[|rules|] == last && forall j :: 0 <= j < |rules| ==> more[j] == rules[j];
  }

  /** The total after one more rule. */
  function NextTotal(e: Engine, rule: ScoringRule, data: Values, total: real): real {
    if !Matches(e, rule, data) then total
    else if rule.then_.set_.Some? then rule.then_.set_.value
    else if rule.then_.add.Some? then total + rule.then_.add.value
    else total
  }

  lemma TotalIsSnoc(e: Engine, rules: seq<ScoringRule>, last: ScoringRule, data: Values, total: real)
    requires TotalIs(e, rules, data, total)
    ensures TotalIs(e, rules + [last], data, NextTotal(e, last, data, total))
  {
    var more := rules + [last];
    forall k: nat ensures SetsLast(e, more, data, k) <==>
      if Matches(e, last, data) && last.then_.set_.Some? then k == |rules| else SetsLast(e, rules, data, k)
    {
      SetsLastSnoc(e, rules, last, data, k);
    }
    forall i: nat | i <= |rules| ensures AddsFrom(e, more, data, i) ==
      AddsFrom(e, rules, data, i) + if Matches(e, last, data) && last.then_.add.Some? then last.then_.add.value else 0.0
    {
      AddsFromSnoc(e, rules, last, data, i);
    }
    assert more[|rules|] == last && AddsFrom(e, more, data, |more|) == 0.0;
    assert forall k: nat :: SetsLast(e, rules, data, k) ==> k < |rules| && more[k] == rules[k];
    hide SetsLast, AddsFrom, Matches;
  }

  lemma {:induction false} ClosedTotalIs(e: Engine, rules: seq<ScoringRule>, data: Values)
    ensures TotalIs(e, rules, data, ClosedTotal(MatchingThens(e, rules, data)))
  {
    if rules == [] {
      NothingToAdd(e, data);
    } else {
      hide *;
      var front, last := rules[..|rules| - 1], rules[|rules| - 1];
      var total := ClosedTotal(MatchingThens(e, front, data));
      ClosedTotalIs(e, front, data);
      ClosedTotalMore(e, front, last, data);
      TotalIsSnoc(e, front, last, data, total);
      assert rules == front + [last];
    }
  }

  lemma ClosedTotalMore(e: Engine, rules: seq<ScoringRule>, last: ScoringRule, data: Values)
    ensures
      var total := ClosedTotal(MatchingThens(e, rules, data));
      ClosedTotal(MatchingThens(e, rules + [last], data)) == NextTotal(e, last, data, total)
  {
    hide ClosedTotal, Matches, Met;
    MetIsMatches(e, last, data);
    var before := MatchingThens(e, rules, data);
    assert (rules + [last])[..|rules|] == rules && before + [] == before;
    ClosedTotalSnoc(before, last.then_);
  }

  lemma NothingToAdd(e: Engine, data: Values)
    ensures TotalIs(e, [], data, ClosedTotal(MatchingThens(e, [], data)))
  {
  }

  lemma MetIsMatches(e: Engine, rule: ScoringRule, data: Values)
    ensures Met(e, rule.cond, data) == Matches(e, rule, data)
  {
  }

  method ComputeScoreServer(e: Engine, scoring: Option<Scoring>, values: Values, calcResults: Values) returns (r: ScoreResult)
    ensures r == Score(e, scoring, values, calcResults)
    ensures scoring.None? || !scoring.value.enabled ==> r.total == 0.0 && r.bucket.None?
    ensures scoring.Some? && scoring.value.enabled ==>
      var buckets := scoring.value.buckets;
      && TotalIs(e, scoring.value.rules, values + calcResults, r.total)
      && (r.bucket.None? <==> forall i :: 0 <= i < |buckets| ==> !(buckets[i].min <= r.total <= buckets[i].max))
      && (r.bucket.Some? ==> exists i :: 0 <= i < |buckets| && buckets[i].name == r.bucket.value && FirstHolding(buckets, r.total, i))
  {
    if scoring.None? || !scoring.value.enabled { return ScoreResult(0.0, None); }
    var total := RunRules(e, scoring.value.rules, values + calcResults);
    ClosedTotalIs(e, scoring.value.rules, values + calcResults);
    hide TotalIs;
    var bucket := FindBucket(scoring.value.buckets, total);
    r := ScoreResult(total, bucket);
  }

  lemma NextRule(e: Engine, rules: seq<ScoringRule>, data: Values, i: nat)
    requires i < |rules|
    ensures MatchingThens(e, rules[..i + 1], data) ==
      MatchingThens(e, rules[..i], data) + (if Met(e, rules[i].cond, data) then [rules[i].then_] else [])
  {
    assert rules[..i + 1][..i] == rules[..i];
  }

  method RunRules(e: Engine, rules: seq<ScoringRule>, data: Values) returns (total: real)
    ensures total == ClosedTotal(MatchingThens(e, rules, data))
  {
    hide ClosedTotal, MatchingThens, Met;
    total := 0.0;
    NothingMatched(e, rules, data);
    for i := 0 to |rules|
      invariant total == ClosedTotal(MatchingThens(e, rules[..i], data))
    {
      NextRule(e, rules, data, i);
      ghost var before := MatchingThens(e, rules[..i], data);
      if Met(e, rules[i].cond, data) {
        var then_ := rules[i].then_;
        ClosedTotalSnoc(before, then_);
        if then_.set_.Some? {
          total := then_.set_.value;
        } else if then_.add.Some? {
          total := total + then_.add.value;
        }
      } else {
        assert before + [] == before;
      }
    }
    assert rules[..|rules|] == rules;
  }

  lemma NothingMatched(e: Engine, rules: seq<ScoringRule>, data: Values)
    ensures ClosedTotal(MatchingThens(e, rules[..0], data)) == 0.0
  {
  }

  method FindBucket(buckets: seq<Bucket>, total: real) returns (bucket: Option<string>)
    ensures bucket == BucketFor(buckets, total)
  {
    for i := 0 to |buckets|
      invariant BucketFor(buckets[..i], total).None?
    {
      assert buckets[..i + 1][..i] == buckets[..i];
      if total >= buckets[i].min && total <= buckets[i].max {
        FirstBucketStays(buckets, i + 1, total);
        return Some(buckets[i].name);
      }
    }
    assert buckets[..|buckets|] == buckets;
    bucket := None;
  }

  lemma {:induction false} FirstBucketStays(buckets: seq<Bucket>, k: nat, total: real)
    requires k <= |buckets| && BucketFor(buckets[..k], total).Some?
    ensures BucketFor(buckets, total) == BucketFor(buckets[..k], total)
  {
    if k < |buckets| {
      var front := buckets[..|buckets| - 1];
      assert front[..k] == buckets[..k];
      FirstBucketStays(front, k, total);
    } else {
      assert buckets[..k] == buckets;
    }
  }

  // ---- the overlap check of the spec schema ----

  predicate Overlap(a: Bucket, b: Bucket) {
    a.min <= b.max && b.min <= a.max
  }

  predicate Disjoint(buckets: seq<Bucket>) {
    forall i, j :: 0 <= i < j < |buckets| ==> !Overlap(buckets[i], buckets[j])
  }

  method BucketsAccepted(bs: seq<Bucket>) returns (ok: bool)
    ensures ok <==> Disjoint(bs)
  {
    for i := 0 to |bs|
      invariant forall k, j :: 0 <= k < i && k < j < |bs| ==> !Overlap(bs[k], bs[j])
    {
      for j := i + 1 to |bs|
        invariant forall m :: i < m < j ==> !Overlap(bs[i], bs[m])
      {
        var a, b := bs[i], bs[j];
        if a.min <= b.max && b.min <= a.max {
          assert Overlap(bs[i], bs[j]);
          return false;
        }
      }
    }
    return true;
  }

  predicate InTwoBuckets(buckets: seq<Bucket>, total: real) {
    exists i, j :: 0 <= i < j < |buckets| && Holds(buckets[i], total) && Holds(buckets[j], total)
  }

  /** What the check accepts has no total in two buckets, whatever the bounds are. */
  lemma AcceptedHasNoSharedTotal(buckets: seq<Bucket>)
    requires Disjoint(buckets)
    ensures forall total :: !InTwoBuckets(buckets, total)
  {
    forall total ensures !InTwoBuckets(buckets, total) {
      if i, j :| 0 <= i < j < |buckets| && Holds(buckets[i], total) && Holds(buckets[j], total) {
        assert Overlap(buckets[i], buckets[j]);
      }
    }
  }

  /** Two buckets with bounds in order overlap. */
  predicate ProperOverlap(buckets: seq<Bucket>) {
    exists i, j :: 0 <= i < j < |buckets| && InOrder(buckets[i]) && InOrder(buckets[j]) && Overlap(buckets[i], buckets[j])
  }

  predicate InOrder(b: Bucket) {
    b.min <= b.max
  }

  /** Some total lies in two buckets exactly when two with bounds in order overlap. */
  lemma SharedTotalExactly(buckets: seq<Bucket>)
    ensures (exists total :: InTwoBuckets(buckets, total)) <==> ProperOverlap(buckets)
  {
    if total :| InTwoBuckets(buckets, total) {
      var i, j :| 0 <= i < j < |buckets| && Holds(buckets[i], total) && Holds(buckets[j], total);
      assert InOrder(buckets[i]) && InOrder(buckets[j]) && Overlap(buckets[i], buckets[j]);
    }
    if ProperOverlap(buckets) {
      var i, j :| 0 <= i < j < |buckets| && InOrder(buckets[i]) && InOrder(buckets[j]) && Overlap(buckets[i], buckets[j]);
      var total := if buckets[i].min >= buckets[j].min then buckets[i].min else buckets[j].min;
      assert Holds(buckets[i], total) && Holds(buckets[j], total);
      assert InTwoBuckets(buckets, total);
    }
  }

  /** The check says truly whether totals are shared: it accepts exactly when none is. */
  ghost predicate CheckIsTrue(buckets: seq<Bucket>) {
    Disjoint(buckets) <==> forall total :: !InTwoBuckets(buckets, total)
  }

  /** For any buckets, the check is true exactly when it accepts or two buckets with bounds in order overlap. */
  lemma CheckIsTrueExactly(buckets: seq<Bucket>)
    ensures CheckIsTrue(buckets) <==> Disjoint(buckets) || ProperOverlap(buckets)
  {
    SharedTotalExactly(buckets);
    if Disjoint(buckets) { AcceptedHasNoSharedTotal(buckets); }
  }

  /** On buckets whose bounds are in order, the check is exact. */
  lemma CheckIsExact(buckets: seq<Bucket>)
    requires forall b :: b in buckets ==> b.min <= b.max
    ensures CheckIsTrue(buckets)
  {
    CheckIsTrueExactly(buckets);
    if !Disjoint(buckets) {
      var i, j :| 0 <= i < j < |buckets| && Overlap(buckets[i], buckets[j]);
      assert buckets[i] in buckets && buckets[j] in buckets;
      assert InOrder(buckets[i]) && InOrder(buckets[j]);
    }
  }

  /** With reversed bounds it can refuse buckets that no total shares. */
  lemma ReversedBoundsRefused() returns (buckets: seq<Bucket>)
    ensures !Disjoint(buckets) && (forall total :: !InTwoBuckets(buckets, total)) && !CheckIsTrue(buckets)
  {
    buckets := [Bucket(3.0, 1.0, "reversed"), Bucket(0.0, 5.0, "plain")];
    assert Overlap(buckets[0], buckets[1]);
    forall total ensures !InTwoBuckets(buckets, total) {
      assert !Holds(buckets[0], total);
    }
  }

  /** For accepted buckets the choice does not depend on the order they are listed in. */
  lemma BucketOrderIrrelevant(buckets: seq<Bucket>, others: seq<Bucket>, total: real)
    requires Disjoint(buckets) && multiset(buckets) == multiset(others)
    ensures BucketFor(buckets, total) == BucketFor(others, total)
  {
    AcceptedHasNoSharedTotal(buckets);
    assert !InTwoBuckets(buckets, total);
    if BucketFor(others, total).Some? {
      var k :| 0 <= k < |others| && FirstHolding(others, total, k) && others[k].name == BucketFor(others, total).value;
      assert others[k] in multiset(buckets);
    }
    if BucketFor(buckets, total).Some? {
      var k :| 0 <= k < |buckets| && FirstHolding(buckets, total, k) && buckets[k].name == BucketFor(buckets, total).value;
      assert buckets[k] in multiset(others);
    }
  }

  // ---- what the score reads ----

  lemma {:induction false} MatchingThensFrame(e: Engine, rules: seq<ScoringRule>, a: Values, b: Values)
    requires forall i :: 0 <= i < |rules| ==> PlainVars(rules[i].cond) && AgreeOn(VarRefs(rules[i].cond), a, b)
    ensures MatchingThens(e, rules, a) == MatchingThens(e, rules, b)
  {
    if rules != [] {
      MatchingThensFrame(e, rules[..|rules| - 1], a, b);
      MetFrame(e, rules[|rules| - 1].cond, a, b);
    }
  }
}
