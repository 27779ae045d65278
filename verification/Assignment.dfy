/** Weighted assignment of visitors to variants, and what weight patches do to it. */
module Assignment {
  import opened Wrappers

  datatype Variant = Variant(id: string, weightBps: int)

  const BUCKETS := 10000
  const HASHES := 0x1_0000_0000

  /** The first four bytes of a SHA-256 digest as a big-endian number. */
  type UInt32 = h: int | 0 <= h < HASHES

  function Sum(vs: seq<Variant>): int {
    if vs == [] then 0 else Sum(vs[..|vs| - 1]) + vs[|vs| - 1].weightBps
  }

  function Cumulative(vs: seq<Variant>, k: nat): int
    requires k <= |vs|
  {
    Sum(vs[..k])
  }

  lemma CumulativeStep(vs: seq<Variant>, k: nat)
    requires k < |vs|
    ensures Cumulative(vs, k + 1) == Cumulative(vs, k) + vs[k].weightBps
  {
    assert vs[..k + 1][..k] == vs[..k];
  }

  /** The walk stops at variant `i`: the first whose cumulative weight exceeds the bucket, or the last of all. */
  predicate StopsAt(vs: seq<Variant>, bucket: int, i: nat) {
    && i < |vs|
    && (forall j :: 0 < j <= i ==> bucket >= Cumulative(vs, j))
    && (bucket < Cumulative(vs, i + 1) || i == |vs| - 1)
  }

  lemma StopsOnce(vs: seq<Variant>, bucket: int, i: nat, j: nat)
    requires StopsAt(vs, bucket, i) && StopsAt(vs, bucket, j)
    ensures i == j
  {
    assert i < |vs| - 1 ==> bucket < Cumulative(vs, i + 1);
    assert j < |vs| - 1 ==> bucket < Cumulative(vs, j + 1);
  }

  lemma {:induction false} StopsSomewhere(vs: seq<Variant>, bucket: int, k: nat) returns (i: nat)
    requires k < |vs| && forall j :: 0 < j <= k ==> bucket >= Cumulative(vs, j)
    ensures StopsAt(vs, bucket, i)
    decreases |vs| - k
  {
    if bucket < Cumulative(vs, k + 1) || k == |vs| - 1 {
      i := k;
    } else {
      i := StopsSomewhere(vs, bucket, k + 1);
    }
  }

  /** The variant a visitor is given. */
  ghost function Assigned(sha: string -> UInt32, experimentId: string, vs: seq<Variant>, token: string): (id: string)
    requires vs != []
    ensures exists i: nat :: StopsAt(vs, sha(experimentId + ":" + token) % BUCKETS, i) && vs[i].id == id
  {
    var bucket := sha(experimentId + ":" + token) % BUCKETS;
    assert exists i: nat :: StopsAt(vs, bucket, i) by { var i := StopsSomewhere(vs, bucket, 0); }
    var i: nat :| StopsAt(vs, bucket, i);
    vs[i].id
  }

  datatype AssignError = NoVariants

  lemma StopIsAssigned(sha: string -> UInt32, experimentId: string, vs: seq<Variant>, token: string, i: nat)
    requires StopsAt(vs, sha(experimentId + ":" + token) % BUCKETS, i)
    ensures Assigned(sha, experimentId, vs, token) == vs[i].id
  {
    var bucket := sha(experimentId + ":" + token) % BUCKETS;
    var j: nat :| StopsAt(vs, bucket, j) && vs[j].id == Assigned(sha, experimentId, vs, token);
    StopsOnce(vs, bucket, i, j);
  }

  /** `sha` maps the text it is given to the first four digest bytes. */
  method AssignVariant(sha: string -> UInt32, experimentId: string, variants: seq<Variant>, token: string) returns (r: Result<string, AssignError>)
    ensures r.Err? <==> variants == []
    ensures r.Ok? ==> r.value == Assigned(sha, experimentId, variants, token)
    ensures r.Ok? ==> exists i: nat :: StopsAt(variants, sha(experimentId + ":" + token) % 10000, i) && variants[i].id == r.value
  {
    if |variants| == 0 { return Err(NoVariants); }
    var uint32 := sha(experimentId + ":" + token);
    var bucket := uint32 % BUCKETS;
    var cumulative := 0;
    for i := 0 to |variants|
      invariant cumulative == Cumulative(variants, i)
      invariant forall j :: 0 < j <= i ==> bucket >= Cumulative(variants, j)
    {
      CumulativeStep(variants, i);
      cumulative := cumulative + variants[i].weightBps;
      if bucket < cumulative {
        StopIsAssigned(sha, experimentId, variants, token, i);
        return Ok(variants[i].id);
      }
    }
    StopIsAssigned(sha, experimentId, variants, token, |variants| - 1);
    r := Ok(variants[|variants| - 1].id);
  }

  // ---- exact shares ----

  predicate ValidWeights(vs: seq<Variant>) {
    Sum(vs) == BUCKETS && forall i :: 0 <= i < |vs| ==> vs[i].weightBps > 0
  }

  lemma {:induction false} SumGrows(vs: seq<Variant>, i: nat, j: nat)
    requires i <= j <= |vs| && forall k :: 0 <= k < |vs| ==> vs[k].weightBps > 0
    ensures Cumulative(vs, i) <= Cumulative(vs, j)
    ensures i < j ==> Cumulative(vs, i) < Cumulative(vs, j)
  {
    if i < j {
      SumGrows(vs, i, j - 1);
      CumulativeStep(vs, j - 1);
    }
  }

  lemma CumulativeEnds(vs: seq<Variant>)
    ensures Cumulative(vs, 0) == 0 && Cumulative(vs, |vs|) == Sum(vs)
  {
    assert vs[..|vs|] == vs;
  }

  /** With valid weights, variant `i` takes the buckets from the weights before it up to its own: the fallback is never taken. */
  lemma StopsInOwnRange(vs: seq<Variant>, bucket: int, i: nat)
    requires ValidWeights(vs) && 0 <= bucket < BUCKETS && i < |vs|
    ensures StopsAt(vs, bucket, i) <==> Cumulative(vs, i) <= bucket < Cumulative(vs, i + 1)
  {
    CumulativeEnds(vs);
    if Cumulative(vs, i) <= bucket < Cumulative(vs, i + 1) {
      forall j | 0 < j <= i ensures bucket >= Cumulative(vs, j) { SumGrows(vs, j, i); }
    }
  }

  /** Hash values below `n` whose bucket is in a range. */
  function HashesIn(n: nat, lo: int, hi: int): set<int> {
    set h | 0 <= h < n && lo <= h % BUCKETS < hi
  }

  /** How much of the range lies below `r`. */
  function Below(r: int, lo: int, hi: int): int {
    if r <= lo then 0 else if r >= hi then hi - lo else r - lo
  }

  lemma NextBlock(n: nat)
    ensures if n % BUCKETS == BUCKETS - 1 then (n + 1) / BUCKETS == n / BUCKETS + 1 && (n + 1) % BUCKETS == 0
            else (n + 1) / BUCKETS == n / BUCKETS && (n + 1) % BUCKETS == n % BUCKETS + 1
  {
  }

  lemma OneMoreHash(m: nat, lo: int, hi: int)
    ensures |HashesIn(m + 1, lo, hi)| == |HashesIn(m, lo, hi)| + if lo <= m % BUCKETS < hi then 1 else 0
  {
    if lo <= m % BUCKETS < hi {
      assert HashesIn(m + 1, lo, hi) == HashesIn(m, lo, hi) + {m};
    } else {
      assert HashesIn(m + 1, lo, hi) == HashesIn(m, lo, hi);
    }
  }

  lemma {:induction false} CountHashes(n: nat, lo: int, hi: int)
    requires 0 <= lo <= hi <= BUCKETS
    ensures |HashesIn(n, lo, hi)| == n / BUCKETS * (hi - lo) + Below(n % BUCKETS, lo, hi)
  {
    if n == 0 {
      assert HashesIn(0, lo, hi) == {};
    } else {
      var m := n - 1;
      CountHashes(m, lo, hi);
      NextBlock(m);
      OneMoreHash(m, lo, hi);
      hide HashesIn;
      if m % BUCKETS == BUCKETS - 1 {
        Distribute(m / BUCKETS, hi - lo);
      }
    }
  }

  lemma Distribute(a: int, b: int)
    ensures (a + 1) * b == a * b + b
  {
  }

  ghost function HashesOf(vs: seq<Variant>, i: nat, n: nat): set<int> {
    set h | 0 <= h < n && StopsAt(vs, h % BUCKETS, i)
  }

  lemma HashesOfAreInRange(vs: seq<Variant>, i: nat, n: nat)
    requires ValidWeights(vs) && i < |vs|
    ensures HashesOf(vs, i, n) == HashesIn(n, Cumulative(vs, i), Cumulative(vs, i + 1))
    ensures 0 <= Cumulative(vs, i) && Cumulative(vs, i + 1) == Cumulative(vs, i) + vs[i].weightBps <= BUCKETS
  {
    forall h | 0 <= h < n ensures StopsAt(vs, h % BUCKETS, i) <==> Cumulative(vs, i) <= h % BUCKETS < Cumulative(vs, i + 1) {
      StopsInOwnRange(vs, h % BUCKETS, i);
    }
    CumulativeStep(vs, i);
    CumulativeEnds(vs);
    SumGrows(vs, 0, i);
    SumGrows(vs, i + 1, |vs|);
  }

  /** Of the buckets, exactly `weightBps` reach each variant. */
  lemma BucketShare(vs: seq<Variant>, i: nat)
    requires ValidWeights(vs) && i < |vs|
    ensures |HashesOf(vs, i, BUCKETS)| == vs[i].weightBps
  {
    HashesOfAreInRange(vs, i, BUCKETS);
    CountHashes(BUCKETS, Cumulative(vs, i), Cumulative(vs, i + 1));
  }

  /** Of all hash values, between 429496 and 429497 per basis point: the first 7296 buckets get one more. */
  lemma HashShare(vs: seq<Variant>, i: nat)
    requires ValidWeights(vs) && i < |vs|
    ensures |HashesOf(vs, i, HASHES)| == 429496 * vs[i].weightBps + Below(7296, Cumulative(vs, i), Cumulative(vs, i + 1))
    ensures 429496 * vs[i].weightBps <= |HashesOf(vs, i, HASHES)| <= 429497 * vs[i].weightBps
  {
    HashesOfAreInRange(vs, i, HASHES);
    CountHashes(HASHES, Cumulative(vs, i), Cumulative(vs, i + 1));
  }

  // ---- weights: creation and patches ----

  /** `createExperiment` lets a list of weights pass. */
  method WeightsAccepted(variants: seq<Variant>) returns (ok: bool)
    ensures ok <==> |variants| >= 2 && ValidWeights(variants)
  {
    if |variants| < 2 { return false; }
    var totalWeight := 0;
    for i := 0 to |variants|
      invariant totalWeight == Sum(variants[..i])
    {
      assert variants[..i + 1][..i] == variants[..i];
      totalWeight := totalWeight + variants[i].weightBps;
    }
    assert variants[..|variants|] == variants;
    if totalWeight != BUCKETS { return false; }
    for i := 0 to |variants|
      invariant forall j :: 0 <= j < i ==> variants[j].weightBps > 0
    {
      if variants[i].weightBps <= 0 { return false; }
    }
    return true;
  }

  predicate DistinctVariants(vs: seq<Variant>) {
    forall i, j :: 0 <= i < j < |vs| ==> vs[i].id != vs[j].id
  }

  function VariantIds(vs: seq<Variant>): set<string> {
    set v | v in vs :: v.id
  }

  function SetWeight(vs: seq<Variant>, id: string, weight: int): (r: seq<Variant>)
    ensures |r| == |vs|
    ensures forall i :: 0 <= i < |r| ==> r[i] == if vs[i].id == id then Variant(id, weight) else vs[i]
  {
    seq(|vs|, i requires 0 <= i < |vs| => if vs[i].id == id then Variant(id, weight) else vs[i])
  }

  datatype PatchError = WrongTotal | UnknownVariant

  /**
   * The weights part of `patchExperiment`, as it falls on one experiment's
   * variants `vs`; `others` are the ids of every other experiment's variants.
   * Only the patch's own sum is checked, and an id that exists nowhere rolls back.
   */
  method PatchWeights(vs: seq<Variant>, others: set<string>, patch: seq<Variant>) returns (r: Result<seq<Variant>, PatchError>)
    ensures r.Ok? <==> Sum(patch) == BUCKETS && VariantIds(patch) <= VariantIds(vs) + others
    ensures r.Ok? ==> r.value == AfterPatch(vs, patch)
    ensures r.Err? ==> r.error == if Sum(patch) != 10000 then WrongTotal else UnknownVariant
  {
    var total := 0;
    for i := 0 to |patch|
      invariant total == Cumulative(patch, i)
    {
      CumulativeStep(patch, i);
      total := total + patch[i].weightBps;
    }
    CumulativeEnds(patch);
    if total != BUCKETS { return Err(WrongTotal); }
    r := UpdateEach(vs, others, patch);
  }

  method UpdateEach(vs: seq<Variant>, others: set<string>, patch: seq<Variant>) returns (r: Result<seq<Variant>, PatchError>)
    ensures r.Ok? <==> VariantIds(patch) <= VariantIds(vs) + others
    ensures r.Ok? ==> r.value == AfterPatch(vs, patch)
    ensures r.Err? ==> r.error == UnknownVariant
  {
    var updated := vs;
    for i := 0 to |patch|
      invariant AfterPatch(updated, patch[i..]) == AfterPatch(vs, patch)
      invariant forall j :: 0 <= j < i ==> patch[j].id in VariantIds(vs) + others
    {
      assert patch[i..][0] == patch[i] && patch[i..][1..] == patch[i + 1..];
      if patch[i].id !in VariantIds(vs) + others {
        assert patch[i].id in VariantIds(patch);
        return Err(UnknownVariant);
      }
      updated := SetWeight(updated, patch[i].id, patch[i].weightBps);
    }
    assert patch[|patch|..] == [];
    r := Ok(updated);
  }

  /** The entries in order, each overwriting the weight it finds. */
  function AfterPatch(vs: seq<Variant>, patch: seq<Variant>): (r: seq<Variant>)
    ensures |r| == |vs|
    decreases |patch|
  {
    if patch == [] then vs else AfterPatch(SetWeight(vs, patch[0].id, patch[0].weightBps), patch[1..])
  }

  predicate Lists(patch: seq<Variant>, id: string) {
    exists i :: 0 <= i < |patch| && patch[i].id == id
  }

  lemma ListsCons(first: Variant, patch: seq<Variant>, id: string)
    ensures Lists([first] + patch, id) <==> first.id == id || Lists(patch, id)
  {
    var more := [first] + patch;
    if Lists(patch, id) {
      var i :| 0 <= i < |patch| && patch[i].id == id;
      assert more[i + 1].id == id;
    }
    assert more[0] == first;
    assert forall i :: 0 < i < |more| ==> more[i] == patch[i - 1];
  }

  /** Weight left on variants the patch does not list. */
  function Unlisted(vs: seq<Variant>, patch: seq<Variant>): int {
    if vs == [] then 0
    else
      var last := vs[|vs| - 1];
      Unlisted(vs[..|vs| - 1], patch) + (if Lists(patch, last.id) then 0 else last.weightBps)
  }

  /** Weight in entries for variants of other experiments. */
  function Foreign(vs: seq<Variant>, patch: seq<Variant>): int {
    if patch == [] then 0
    else (if Lists(vs, patch[0].id) then 0 else patch[0].weightBps) + Foreign(vs, patch[1..])
  }

  /** Weight in entries for own variants that a later entry repeats. */
  function Overwritten(vs: seq<Variant>, patch: seq<Variant>): int {
    if patch == [] then 0
    else (if Lists(vs, patch[0].id) && Lists(patch[1..], patch[0].id) then patch[0].weightBps else 0) + Overwritten(vs, patch[1..])
  }

  lemma {:induction false} SumHead(patch: seq<Variant>)
    requires patch != []
    ensures Sum(patch) == patch[0].weightBps + Sum(patch[1..])
  {
    if |patch| > 1 {
      var front := patch[..|patch| - 1];
      SumHead(front);
      assert front[1..] == patch[1..][..|patch| - 2];
    } else {
      assert patch[..0] == [] && patch[1..] == [];
    }
  }

  lemma SetWeightLists(vs: seq<Variant>, id: string, weight: int, x: string)
    ensures Lists(SetWeight(vs, id, weight), x) <==> Lists(vs, x)
  {
    var after := SetWeight(vs, id, weight);
    assert forall i :: 0 <= i < |vs| ==> after[i].id == vs[i].id;
  }

  /** Which variants are own does not change, and so neither do these sums. */
  lemma {:induction false} SetWeightKeepsSums(vs: seq<Variant>, id: string, weight: int, patch: seq<Variant>)
    ensures Foreign(SetWeight(vs, id, weight), patch) == Foreign(vs, patch)
    ensures Overwritten(SetWeight(vs, id, weight), patch) == Overwritten(vs, patch)
  {
    if patch != [] {
      SetWeightLists(vs, id, weight, patch[0].id);
      SetWeightKeepsSums(vs, id, weight, patch[1..]);
    }
  }

  /** An entry that no later one repeats adds its weight to what later entries leave alone. */
  lemma {:induction false} SetWeightUnlisted(vs: seq<Variant>, p: Variant, patch: seq<Variant>)
    requires DistinctVariants(vs)
    ensures Unlisted(SetWeight(vs, p.id, p.weightBps), patch)
         == Unlisted(vs, [p] + patch) + if Lists(vs, p.id) && !Lists(patch, p.id) then p.weightBps else 0
  {
    var after := SetWeight(vs, p.id, p.weightBps);
    if vs != [] {
      var front, last := vs[..|vs| - 1], vs[|vs| - 1];
      SetWeightUnlisted(front, p, patch);
      assert after[..|front|] == SetWeight(front, p.id, p.weightBps);
      assert last.id == p.id ==> !Lists(front, p.id);
      ListsCons(p, patch, last.id);
      ListsLast(vs, p.id);
    }
  }

  lemma ListsLast(vs: seq<Variant>, id: string)
    requires vs != []
    ensures Lists(vs, id) <==> Lists(vs[..|vs| - 1], id) || vs[|vs| - 1].id == id
  {
    var front := vs[..|vs| - 1];
    if Lists(vs, id) {
      var i :| 0 <= i < |vs| && vs[i].id == id;
      assert i < |front| ==> front[i].id == id;
    }
    if Lists(front, id) {
      var i :| 0 <= i < |front| && front[i].id == id;
      assert vs[i].id == id;
    }
  }

  lemma SetWeightKeepsDistinct(vs: seq<Variant>, id: string, weight: int)
    requires DistinctVariants(vs)
    ensures DistinctVariants(SetWeight(vs, id, weight))
  {
  }

  /** The patch leaves ids as they are, and variants it does not list altogether. */
  lemma {:induction false} AfterPatchOf(vs: seq<Variant>, patch: seq<Variant>, i: nat)
    requires i < |vs|
    ensures AfterPatch(vs, patch)[i].id == vs[i].id
    decreases |patch|
  {
    if patch != [] { AfterPatchOf(SetWeight(vs, patch[0].id, patch[0].weightBps), patch[1..], i); }
  }

  /** Entry `j` is the last one for the id. */
  predicate LastFor(patch: seq<Variant>, id: string, j: nat) {
    j < |patch| && patch[j].id == id && forall k :: j < k < |patch| ==> patch[k].id != id
  }

  /** Each variant ends with the weight of the last entry for it, and with its own where there is none. */
  lemma {:induction false} LastEntryCounts(vs: seq<Variant>, patch: seq<Variant>, i: nat)
    requires i < |vs|
    ensures AfterPatch(vs, patch)[i].id == vs[i].id
    ensures forall j: nat :: LastFor(patch, vs[i].id, j) ==> AfterPatch(vs, patch)[i].weightBps == patch[j].weightBps
    ensures !Lists(patch, vs[i].id) ==> AfterPatch(vs, patch)[i].weightBps == vs[i].weightBps
    decreases |patch|
  {
    if patch != [] {
      var first, rest := patch[0], patch[1..];
      var after := SetWeight(vs, first.id, first.weightBps);
      LastEntryCounts(after, rest, i);
      assert patch == [first] + rest;
      ListsCons(first, rest, vs[i].id);
      forall j: nat | LastFor(patch, vs[i].id, j) ensures AfterPatch(vs, patch)[i].weightBps == patch[j].weightBps {
        if j > 0 {
          assert rest[j - 1] == patch[j] && LastFor(rest, vs[i].id, j - 1);
        } else {
          assert forall k :: 0 <= k < |rest| ==> rest[k] == patch[k + 1];
          assert !Lists(rest, vs[i].id);
        }
      }
    }
  }

  /**
   * An experiment's total after any patch: what the patch sums to, less what goes
   * to other experiments and what later entries overwrite, plus what it leaves alone.
   */
  lemma {:induction false} TotalAfterPatch(vs: seq<Variant>, patch: seq<Variant>)
    requires DistinctVariants(vs)
    ensures Sum(AfterPatch(vs, patch)) == Sum(patch) - Foreign(vs, patch) - Overwritten(vs, patch) + Unlisted(vs, patch)
    decreases |patch|
  {
    if patch == [] {
      UnlistedByNothing(vs);
    } else {
      var p, rest := patch[0], patch[1..];
      assert patch == [p] + rest;
      SumHead(patch);
      SetWeightKeepsDistinct(vs, p.id, p.weightBps);
      TotalAfterPatch(SetWeight(vs, p.id, p.weightBps), rest);
      SetWeightKeepsSums(vs, p.id, p.weightBps, rest);
      SetWeightUnlisted(vs, p, rest);
      hide Lists, SetWeight, Sum, Unlisted;
    }
  }

  lemma {:induction false} UnlistedByNothing(vs: seq<Variant>)
    ensures Unlisted(vs, []) == Sum(vs)
  {
    if vs != [] { UnlistedByNothing(vs[..|vs| - 1]); }
  }

  /** An accepted patch leaves the weights summing to 10000 exactly when what it misplaces equals what it leaves alone. */
  lemma PatchKeepsTotalExactly(vs: seq<Variant>, patch: seq<Variant>)
    requires DistinctVariants(vs) && Sum(patch) == BUCKETS
    ensures Sum(AfterPatch(vs, patch)) == BUCKETS <==> Foreign(vs, patch) + Overwritten(vs, patch) == Unlisted(vs, patch)
  {
    TotalAfterPatch(vs, patch);
  }

  predicate ListsAll(vs: seq<Variant>, patch: seq<Variant>) {
    forall i :: 0 <= i < |vs| ==> Lists(patch, vs[i].id)
  }

  lemma {:induction false} UnlistedIsPositive(vs: seq<Variant>, patch: seq<Variant>)
    requires forall i :: 0 <= i < |vs| ==> vs[i].weightBps > 0
    ensures Unlisted(vs, patch) >= 0
    ensures Unlisted(vs, patch) == 0 <==> ListsAll(vs, patch)
  {
    if vs != [] {
      var front := vs[..|vs| - 1];
      UnlistedIsPositive(front, patch);
      if ListsAll(vs, patch) {
        assert forall i :: 0 <= i < |front| ==> front[i] == vs[i];
      }
      if Unlisted(vs, patch) == 0 {
        forall i | 0 <= i < |vs| ensures Lists(patch, vs[i].id) {
          if i < |front| { assert front[i] == vs[i]; }
        }
      }
    }
  }

  lemma {:induction false} NothingForeign(vs: seq<Variant>, patch: seq<Variant>)
    requires forall i :: 0 <= i < |patch| ==> Lists(vs, patch[i].id)
    ensures Foreign(vs, patch) == 0
  {
    if patch != [] { NothingForeign(vs, patch[1..]); }
  }

  lemma {:induction false} NothingOverwritten(vs: seq<Variant>, patch: seq<Variant>)
    requires DistinctVariants(patch)
    ensures Overwritten(vs, patch) == 0
  {
    if patch != [] {
      assert !Lists(patch[1..], patch[0].id);
      NothingOverwritten(vs, patch[1..]);
    }
  }

  /** For a patch of own variants, each at most once, that means listing every variant. */
  lemma OwnPatchKeepsTotalExactly(vs: seq<Variant>, patch: seq<Variant>)
    requires DistinctVariants(vs) && DistinctVariants(patch) && ValidWeights(vs)
    requires Sum(patch) == BUCKETS && forall i :: 0 <= i < |patch| ==> Lists(vs, patch[i].id)
    ensures Sum(AfterPatch(vs, patch)) == BUCKETS <==> ListsAll(vs, patch)
  {
    PatchKeepsTotalExactly(vs, patch);
    UnlistedIsPositive(vs, patch);
    NothingForeign(vs, patch);
    NothingOverwritten(vs, patch);
  }

  lemma SmallSums(a: Variant, b: Variant)
    ensures Sum([a]) == a.weightBps && Sum([a, b]) == a.weightBps + b.weightBps
  {
    assert [a][..0] == [] && [a, b][..1] == [a];
  }

  lemma OneEntry(vs: seq<Variant>, rest: seq<Variant>, p: Variant)
    ensures AfterPatch(vs, [p] + rest) == AfterPatch(SetWeight(vs, p.id, p.weightBps), rest)
    ensures AfterPatch(vs, [p]) == SetWeight(vs, p.id, p.weightBps)
  {
    assert ([p] + rest)[1..] == rest && [p][1..] == [];
    assert AfterPatch(SetWeight(vs, p.id, p.weightBps), []) == SetWeight(vs, p.id, p.weightBps);
  }

  /** An accepted patch that lists every variant, one of them twice, and leaves half of the weight. */
  lemma RepeatedEntryLoses() returns (vs: seq<Variant>, patch: seq<Variant>)
    ensures ValidWeights(vs) && DistinctVariants(vs) && Sum(patch) == BUCKETS && ListsAll(vs, patch)
    ensures (forall i :: 0 <= i < |patch| ==> Lists(vs, patch[i].id)) && Sum(AfterPatch(vs, patch)) == 5000
  {
    var a, b := Variant("a", 5000), Variant("b", 5000);
    var a1, a2, b1 := Variant("a", 5000), Variant("a", 2000), Variant("b", 3000);
    vs, patch := [a, b], [a1, a2, b1];
    SmallSums(a, b);
    SumHead(patch);
    assert patch[1..] == [a2, b1];
    SmallSums(a2, b1);
    assert vs[0].id == "a" && vs[1].id == "b" && patch[0].id == "a" && patch[2].id == "b";
    assert SetWeight(vs, "a", 5000) == vs && SetWeight(vs, "a", 2000) == [a2, b] && SetWeight([a2, b], "b", 3000) == [a2, b1];
    OneEntry([a2, b], [], b1);
    OneEntry(vs, [b1], a2);
    OneEntry(vs, [a2, b1], a1);
    assert [a1] + [a2, b1] == patch && [a2] + [b1] == [a2, b1] && [b1] + [] == [b1];
    assert AfterPatch(vs, patch) == [a2, b1];
  }

  /** An accepted patch of one variant out of two: the weights sum to 15000 and no bucket reaches the other variant. */
  lemma PartialPatchStarves() returns (vs: seq<Variant>, patch: seq<Variant>)
    ensures ValidWeights(vs) && DistinctVariants(vs) && Sum(patch) == BUCKETS && forall i :: 0 <= i < |patch| ==> Lists(vs, patch[i].id)
    ensures Sum(AfterPatch(vs, patch)) == 15000
    ensures |vs| == 2 && vs[1].id == "b" && forall bucket :: 0 <= bucket < BUCKETS ==> !StopsAt(AfterPatch(vs, patch), bucket, 1)
  {
    var a, b, all := Variant("a", 5000), Variant("b", 5000), Variant("a", 10000);
    vs, patch := [a, b], [all];
    SmallSums(a, b);
    SmallSums(all, b);
    assert Lists(vs, "a") by { assert vs[0].id == "a"; }
    var after := AfterPatch(vs, patch);
    OneEntry(vs, [], all);
    assert after == [all, b];
    assert after[..1] == [all];
    assert Cumulative(after, 1) == 10000;
  }
}
