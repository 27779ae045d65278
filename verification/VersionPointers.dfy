/**
 * Forms, their versions and the experiments on them: every transaction that
 * moves a form's current version. A transaction that throws changes nothing.
 */
module VersionPointers {
  import opened Wrappers
  import A = Assignment

  type Id = nat

  /** A version row, named by its form and number, which the unique index makes one-to-one. */
  type Key = (Id, nat)

  datatype Form = Form(slug: string, currentVersion: nat)
  datatype VersionRow = VersionRow(isCurrent: bool, spec: string)
  datatype Status = Draft | Running | Stopped
  datatype Experiment = Experiment(formId: Id, status: Status, winnerVariantId: Option<Id>)
  datatype VariantRow = VariantRow(experimentId: Id, version: Key, weightBps: int)
  datatype NewVariant = NewVariant(version: Key, weightBps: int)

  type Forms = map<Id, Form>
  type Versions = map<Key, VersionRow>

  datatype Tables = Tables(
    nextId: Id, forms: Forms, versions: Versions, experiments: map<Id, Experiment>, variants: map<Id, VariantRow>)

  // ---- what every transaction keeps ----

  predicate IdsAreOld(t: Tables) {
    && (forall f :: f in t.forms ==> f < t.nextId)
    && (forall x :: x in t.experiments ==> x < t.nextId)
    && (forall x :: x in t.variants ==> x < t.nextId)
  }

  predicate SlugsDiffer(forms: Forms) {
    forall f, g :: f in forms && g in forms && f != g ==> forms[f].slug != forms[g].slug
  }

  /** A form's numbers run from 1 without gaps. */
  ghost predicate NoGaps(versions: Versions) {
    forall k: Key, m: nat :: k in versions && 1 <= m <= k.1 ==> (k.0, m) in versions
  }

  predicate IsCurrent(versions: Versions, k: Key) {
    k in versions && versions[k].isCurrent
  }

  /** A current row is the one its form's pointer names, and a pointer above 0 names a current row. */
  ghost predicate PointersAreRight(forms: Forms, versions: Versions) {
    && (forall k :: k in versions ==> k.0 in forms && k.1 >= 1)
    && (forall k :: IsCurrent(versions, k) ==> forms[k.0].currentVersion == k.1)
    && (forall f :: f in forms && forms[f].currentVersion > 0 ==> IsCurrent(versions, (f, forms[f].currentVersion)))
  }

  /** Every variant's version exists and belongs to its experiment's form. */
  predicate VariantsAreOwn(t: Tables) {
    forall x :: x in t.variants ==>
      && t.variants[x].experimentId in t.experiments && t.variants[x].version in t.versions
      && t.variants[x].version.0 == t.experiments[t.variants[x].experimentId].formId
  }

  ghost predicate Valid(t: Tables) {
    && IdsAreOld(t) && SlugsDiffer(t.forms) && NoGaps(t.versions)
    && PointersAreRight(t.forms, t.versions) && VariantsAreOwn(t)
  }

  /** A form has at most one current version, and its pointer is that version's number, or 0 when there is none. */
  lemma PointerIsTheCurrentVersion(t: Tables, f: Id)
    requires Valid(t) && f in t.forms
    ensures forall m, n :: IsCurrent(t.versions, (f, m)) && IsCurrent(t.versions, (f, n)) ==> m == n
    ensures forall n :: IsCurrent(t.versions, (f, n)) ==> t.forms[f].currentVersion == n
    ensures t.forms[f].currentVersion == 0 <==> forall n :: !IsCurrent(t.versions, (f, n))
  {
    if t.forms[f].currentVersion > 0 { assert IsCurrent(t.versions, (f, t.forms[f].currentVersion)); }
  }

  // ---- the transactions' effects ----

  /** `updateMany` of a form's current rows to not current. */
  function Unset(versions: Versions, formId: Id): (r: Versions)
    ensures r.Keys == versions.Keys
    ensures forall k :: IsCurrent(r, k) <==> IsCurrent(versions, k) && k.0 != formId
    ensures forall k :: k in r ==> r[k].spec == versions[k].spec
  {
    map k | k in versions :: if k.0 == formId then versions[k].(isCurrent := false) else versions[k]
  }

  function MadeCurrent(versions: Versions, k: Key): (r: Versions)
    requires k in versions
    ensures r.Keys == versions.Keys
    ensures forall j :: IsCurrent(r, j) <==> (IsCurrent(versions, j) && j.0 != k.0) || j == k
    ensures forall j :: j in r ==> r[j].spec == versions[j].spec
  {
    var unset := Unset(versions, k.0);
    unset[k := unset[k].(isCurrent := true)]
  }

  function Pointed(forms: Forms, f: Id, n: nat): Forms
    requires f in forms
  {
    forms[f := forms[f].(currentVersion := n)]
  }

  predicate SlugUsed(forms: Forms, slug: string) {
    exists f :: f in forms && forms[f].slug == slug
  }

  /** The form's newest version is its current one. */
  predicate CurrentIsNewest(t: Tables, formId: Id) {
    formId in t.forms && forall k :: k in t.versions && k.0 == formId ==> k.1 <= t.forms[formId].currentVersion
  }

  /** The next number is free exactly when the current version is the newest. */
  lemma NextIsFree(t: Tables, formId: Id)
    requires Valid(t) && formId in t.forms
    ensures (formId, t.forms[formId].currentVersion + 1) !in t.versions <==> CurrentIsNewest(t, formId)
  {
    var next := t.forms[formId].currentVersion + 1;
    if (formId, next) !in t.versions {
      forall k | k in t.versions && k.0 == formId ensures k.1 < next {
        assert k.1 >= next ==> (k.0, next) in t.versions;
      }
    }
  }

  function WithForm(t: Tables, slug: string): Tables {
    t.(nextId := t.nextId + 1, forms := t.forms[t.nextId := Form(slug, 0)])
  }

  /** A new current row of a form, the pointer moved to it. */
  function WithVersion(t: Tables, f: Id, n: nat, spec: string): Tables
    requires f in t.forms
  {
    t.(forms := Pointed(t.forms, f, n), versions := Unset(t.versions, f)[(f, n) := VersionRow(true, spec)])
  }

  /** An existing row made current, the pointer moved to it. */
  function WithCurrent(t: Tables, k: Key): Tables
    requires k in t.versions && k.0 in t.forms
  {
    t.(forms := Pointed(t.forms, k.0, k.1), versions := MadeCurrent(t.versions, k))
  }

  lemma FormKeeps(t: Tables, slug: string)
    requires Valid(t) && !SlugUsed(t.forms, slug)
    ensures Valid(WithForm(t, slug))
  {
    assert forall k :: k in t.versions ==> k.0 in t.forms && k.0 != t.nextId;
    FormKeepsPointers(t.forms, t.versions, t.nextId, slug);
    hide NoGaps, PointersAreRight;
  }

  lemma FormKeepsPointers(forms: Forms, versions: Versions, f: Id, slug: string)
    requires PointersAreRight(forms, versions) && f !in forms && forall k :: k in versions ==> k.0 != f
    ensures PointersAreRight(forms[f := Form(slug, 0)], versions)
  {
    hide IsCurrent;
    assert forall k :: IsCurrent(versions, k) ==> k in versions by { CurrentExists(versions); }
  }

  lemma CurrentExists(versions: Versions)
    ensures forall k :: IsCurrent(versions, k) ==> k in versions
  {
  }

  lemma VersionKeepsPointers(forms: Forms, versions: Versions, f: Id, n: nat, row: VersionRow)
    requires PointersAreRight(forms, versions) && f in forms && (f, n) !in versions && n >= 1 && row.isCurrent
    ensures PointersAreRight(Pointed(forms, f, n), Unset(versions, f)[(f, n) := row])
  {
    var after := Unset(versions, f)[(f, n) := row];
    assert forall k :: IsCurrent(after, k) <==> k == (f, n) || (IsCurrent(versions, k) && k.0 != f);
    hide Unset, IsCurrent;
  }

  lemma VersionKeepsNumbers(versions: Versions, f: Id, n: nat, row: VersionRow)
    requires NoGaps(versions) && n >= 1 && (n > 1 ==> (f, n - 1) in versions)
    ensures NoGaps(Unset(versions, f)[(f, n) := row])
  {
    var after := Unset(versions, f)[(f, n) := row];
    assert after.Keys == versions.Keys + {(f, n)};
    forall k: Key, m: nat | k in after && 1 <= m <= k.1 ensures (k.0, m) in after {
      if k == (f, n) && m < n { assert (f, n - 1) in versions; }
    }
  }

  /** Moving a pointer and adding or flagging rows leaves ids, slugs and variants as they were. */
  lemma RestKeeps(t: Tables, f: Id, n: nat, versions: Versions)
    requires IdsAreOld(t) && SlugsDiffer(t.forms) && VariantsAreOwn(t)
    requires f in t.forms && t.versions.Keys <= versions.Keys
    ensures var u := t.(forms := Pointed(t.forms, f, n), versions := versions);
      IdsAreOld(u) && SlugsDiffer(u.forms) && VariantsAreOwn(u)
  {
    var forms := Pointed(t.forms, f, n);
    assert forall g :: g in forms ==> g in t.forms && forms[g].slug == t.forms[g].slug;
  }

  lemma VersionKeeps(t: Tables, f: Id, n: nat, spec: string)
    requires Valid(t) && f in t.forms && (f, n) !in t.versions
    requires n >= 1 && (n > 1 ==> (f, n - 1) in t.versions)
    ensures Valid(WithVersion(t, f, n, spec))
  {
    hide NoGaps, PointersAreRight, IdsAreOld, SlugsDiffer, VariantsAreOwn;
    var row := VersionRow(true, spec);
    VersionKeepsPointers(t.forms, t.versions, f, n, row);
    VersionKeepsNumbers(t.versions, f, n, row);
    RestKeeps(t, f, n, Unset(t.versions, f)[(f, n) := row]);
  }

  lemma CurrentKeepsPointers(forms: Forms, versions: Versions, k: Key)
    requires PointersAreRight(forms, versions) && k in versions
    ensures PointersAreRight(Pointed(forms, k.0, k.1), MadeCurrent(versions, k))
  {
    hide MadeCurrent, IsCurrent;
    assert MadeCurrent(versions, k).Keys == versions.Keys;
  }

  lemma SameNumbers(versions: Versions, after: Versions)
    requires NoGaps(versions) && after.Keys == versions.Keys
    ensures NoGaps(after)
  {
  }

  lemma CurrentKeeps(t: Tables, k: Key)
    requires Valid(t) && k in t.versions && k.0 in t.forms
    ensures Valid(WithCurrent(t, k))
  {
    hide NoGaps, PointersAreRight, IdsAreOld, SlugsDiffer, VariantsAreOwn, MadeCurrent;
    CurrentKeepsPointers(t.forms, t.versions, k);
    SameNumbers(t.versions, MadeCurrent(t.versions, k));
    RestKeeps(t, k.0, k.1, MadeCurrent(t.versions, k));
  }

  // ---- experiments ----

  /** All versions exist and belong to the form. */
  predicate OwnVersions(t: Tables, formId: Id, variants: seq<NewVariant>) {
    forall i :: 0 <= i < |variants| ==> variants[i].version in t.versions && variants[i].version.0 == formId
  }

  function Weights(variants: seq<NewVariant>): (r: seq<A.Variant>)
    ensures |r| == |variants|
    ensures forall i :: 0 <= i < |r| ==> r[i].weightBps == variants[i].weightBps
  {
    seq(|variants|, i requires 0 <= i < |variants| => A.Variant("", variants[i].weightBps))
  }

  function AddVariants(t: Tables, experimentId: Id, variants: seq<NewVariant>): (r: Tables)
    ensures r.forms == t.forms && r.versions == t.versions && r.experiments == t.experiments
  {
    if variants == [] then t
    else
      var u, last := AddVariants(t, experimentId, variants[..|variants| - 1]), variants[|variants| - 1];
      u.(nextId := u.nextId + 1, variants := u.variants[u.nextId := VariantRow(experimentId, last.version, last.weightBps)])
  }

  function WithExperiment(t: Tables, formId: Id, variants: seq<NewVariant>): Tables {
    AddVariants(t.(nextId := t.nextId + 1, experiments := t.experiments[t.nextId := Experiment(formId, Draft, None)]), t.nextId, variants)
  }

  lemma {:induction false} AddVariantsKeeps(t: Tables, experimentId: Id, variants: seq<NewVariant>)
    requires Valid(t) && experimentId in t.experiments && OwnVersions(t, t.experiments[experimentId].formId, variants)
    ensures Valid(AddVariants(t, experimentId, variants))
  {
    if variants != [] {
      AddVariantsKeeps(t, experimentId, variants[..|variants| - 1]);
      hide Valid;
      OneVariantKeeps(AddVariants(t, experimentId, variants[..|variants| - 1]), experimentId, variants[|variants| - 1]);
    }
  }

  lemma OneVariantKeeps(t: Tables, x: Id, given: NewVariant)
    requires Valid(t) && x in t.experiments && given.version in t.versions && given.version.0 == t.experiments[x].formId
    ensures Valid(t.(nextId := t.nextId + 1, variants := t.variants[t.nextId := VariantRow(x, given.version, given.weightBps)]))
  {
    hide NoGaps, SlugsDiffer, PointersAreRight;
  }

  lemma ExperimentKeeps(t: Tables, formId: Id, variants: seq<NewVariant>)
    requires Valid(t) && OwnVersions(t, formId, variants)
    ensures Valid(WithExperiment(t, formId, variants))
  {
    hide AddVariants;
    var u := t.(nextId := t.nextId + 1, experiments := t.experiments[t.nextId := Experiment(formId, Draft, None)]);
    BareExperimentKeeps(t, formId);
    hide Valid;
    assert OwnVersions(u, formId, variants);
    AddVariantsKeeps(u, t.nextId, variants);
  }

  lemma BareExperimentKeeps(t: Tables, formId: Id)
    requires Valid(t)
    ensures Valid(t.(nextId := t.nextId + 1, experiments := t.experiments[t.nextId := Experiment(formId, Draft, None)]))
  {
    hide NoGaps, SlugsDiffer, PointersAreRight;
  }

  function Stop(t: Tables, experimentId: Id, winner: Id): Tables
    requires experimentId in t.experiments
  {
    t.(experiments := t.experiments[experimentId := t.experiments[experimentId].(status := Stopped, winnerVariantId := Some(winner))])
  }

  lemma StopKeeps(t: Tables, experimentId: Id, winner: Id)
    requires Valid(t) && experimentId in t.experiments
    ensures Valid(Stop(t, experimentId, winner))
  {
    hide NoGaps, SlugsDiffer, PointersAreRight;
  }

  // ---- the transactions ----

  /** Restamps a spec for the form it is copied into. */
  type Stamp = (string, Id) -> string

  datatype Error = NotFound | InvalidInput | SlugTaken | VersionExists

  function Duplicated(t: Tables, source: Id, newSlug: string, stamp: Stamp): Tables
    requires source in t.forms
  {
    var current := (source, t.forms[source].currentVersion);
    if IsCurrent(t.versions, current)
    then WithVersion(WithForm(t, newSlug), t.nextId, 1, stamp(t.versions[current].spec, t.nextId))
    else WithForm(t, newSlug)
  }

  predicate SlugChar(c: char) {
    'a' <= c <= 'z' || '0' <= c <= '9'
  }

  /** `/^[a-z0-9](?:[a-z0-9-]*[a-z0-9])?$/` */
  predicate ValidSlug(slug: string) {
    && slug != [] && SlugChar(slug[0]) && SlugChar(slug[|slug| - 1])
    && forall i :: 0 <= i < |slug| ==> SlugChar(slug[i]) || slug[i] == '-'
  }

  /** Lower-case letters, digits and hyphens, with no hyphen at either end. */
  lemma SlugIs(slug: string)
    ensures ValidSlug(slug) <==>
      && slug != [] && slug[0] != '-' && slug[|slug| - 1] != '-'
      && forall i :: 0 <= i < |slug| ==> slug[i] == '-' || 'a' <= slug[i] <= 'z' || '0' <= slug[i] <= '9'
  {
  }

  // ---- what the transactions do, row by row ----

  /** Version `n` of the form is its current one: the pointer and the flags of its rows say so, and all else of forms and rows is as it was. */
  ghost predicate NowCurrent(before: Tables, after: Tables, f: Id, n: nat) {
    && f in before.forms && after.forms.Keys == before.forms.Keys
    && after.forms[f].currentVersion == n && after.forms[f].slug == before.forms[f].slug
    && (forall g :: g in before.forms && g != f ==> after.forms[g] == before.forms[g])
    && (forall k :: k in before.versions ==>
          && k in after.versions && after.versions[k].spec == before.versions[k].spec
          && after.versions[k].isCurrent == if k.0 == f then k.1 == n else before.versions[k].isCurrent)
  }

  /** One row more, current, with this spec. */
  ghost predicate Publishes(before: Tables, after: Tables, f: Id, n: nat, spec: string) {
    && NowCurrent(before, after, f, n)
    && (f, n) !in before.versions && after.versions.Keys == before.versions.Keys + {(f, n)}
    && after.versions[(f, n)].isCurrent && after.versions[(f, n)].spec == spec
    && after.experiments == before.experiments && after.variants == before.variants
  }

  ghost predicate Switches(before: Tables, after: Tables, f: Id, n: nat) {
    && NowCurrent(before, after, f, n)
    && (f, n) in before.versions && after.versions.Keys == before.versions.Keys
    && after.variants == before.variants
  }

  /** One form more. With a spec, that is its version 1, current and its only one; without, it has none and points at 0. */
  ghost predicate Creates(before: Tables, after: Tables, f: Id, slug: string, spec: Option<string>) {
    && f !in before.forms && after.forms.Keys == before.forms.Keys + {f}
    && (forall g :: g in before.forms ==> after.forms[g] == before.forms[g])
    && after.forms[f].slug == slug && after.forms[f].currentVersion == (if spec.Some? then 1 else 0)
    && (forall k :: k in before.versions ==> k.0 != f && k in after.versions && after.versions[k] == before.versions[k])
    && (forall k :: k in after.versions ==> k in before.versions || k == (f, 1))
    && ((f, 1) in after.versions <==> spec.Some?)
    && (spec.Some? ==> after.versions[(f, 1)].isCurrent && after.versions[(f, 1)].spec == spec.value)
    && after.experiments == before.experiments && after.variants == before.variants
  }

  predicate IsRow(rows: map<Id, VariantRow>, v: Id, x: Id, given: NewVariant) {
    v in rows && rows[v].experimentId == x && rows[v].version == given.version && rows[v].weightBps == given.weightBps
  }

  predicate RowAdded(before: map<Id, VariantRow>, after: map<Id, VariantRow>, x: Id, first: Id, variants: seq<NewVariant>, i: nat)
    requires i < |variants|
  {
    first + i !in before && IsRow(after, first + i, x, variants[i])
  }

  /** From id `first` on, a row of the experiment for each given variant, and otherwise the rows there were. */
  ghost predicate AddsRows(before: map<Id, VariantRow>, after: map<Id, VariantRow>, x: Id, first: Id, variants: seq<NewVariant>) {
    && (forall v :: v in before ==> v in after && after[v] == before[v])
    && (forall v :: v in after ==> v in before || first <= v < first + |variants|)
    && (forall i: nat :: i < |variants| ==> RowAdded(before, after, x, first, variants, i))
  }

  /** One draft experiment more, and for each given variant a row of it with the given version and weight. */
  ghost predicate Drafts(before: Tables, after: Tables, x: Id, formId: Id, variants: seq<NewVariant>) {
    && x !in before.experiments && after.experiments.Keys == before.experiments.Keys + {x}
    && (forall y :: y in before.experiments ==> after.experiments[y] == before.experiments[y])
    && after.experiments[x].formId == formId && after.experiments[x].status.Draft? && after.experiments[x].winnerVariantId.None?
    && AddsRows(before.variants, after.variants, x, x + 1, variants)
    && after.forms == before.forms && after.versions == before.versions
  }

  /** The experiment stopped with its winner. */
  ghost predicate Stops(before: Tables, after: Tables, x: Id, winner: Id) {
    && x in before.experiments && after.experiments.Keys == before.experiments.Keys
    && (forall y :: y in before.experiments && y != x ==> after.experiments[y] == before.experiments[y])
    && after.experiments[x].formId == before.experiments[x].formId
    && after.experiments[x].status.Stopped? && after.experiments[x].winnerVariantId == Some(winner)
  }

  lemma WithFormCreates(t: Tables, slug: string)
    requires Valid(t)
    ensures Creates(t, WithForm(t, slug), t.nextId, slug, None)
  {
    NewFormHasNoVersion(t, t.nextId);
  }

  lemma CreatesFrom(before: Tables, after: Tables, f: Id, slug: string, spec: string)
    requires f !in before.forms && forall k :: k in before.versions ==> k.0 != f
    requires after.forms == before.forms[f := Form(slug, 1)] && after.versions == before.versions[(f, 1) := VersionRow(true, spec)]
    requires after.experiments == before.experiments && after.variants == before.variants
    ensures Creates(before, after, f, slug, Some(spec))
  {
  }

  lemma NewVersionCreates(t: Tables, slug: string, spec: string)
    requires Valid(t)
    ensures Creates(t, WithVersion(WithForm(t, slug), t.nextId, 1, spec), t.nextId, slug, Some(spec))
  {
    NewFormHasNoVersion(t, t.nextId);
    hide Valid, Creates;
    assert Unset(t.versions, t.nextId) == t.versions;
    CreatesFrom(t, WithVersion(WithForm(t, slug), t.nextId, 1, spec), t.nextId, slug, spec);
  }

  lemma WithVersionPublishes(t: Tables, f: Id, n: nat, spec: string)
    requires f in t.forms && (f, n) !in t.versions
    ensures Publishes(t, WithVersion(t, f, n, spec), f, n, spec)
  {
  }

  lemma WithCurrentSwitches(t: Tables, k: Key)
    requires k in t.versions && k.0 in t.forms
    ensures Switches(t, WithCurrent(t, k), k.0, k.1) && WithCurrent(t, k).experiments == t.experiments
  {
    var after := WithCurrent(t, k);
    forall j | j in t.versions ensures after.versions[j].isCurrent == if j.0 == k.0 then j.1 == k.1 else t.versions[j].isCurrent {
      assert IsCurrent(after.versions, j) <==> (IsCurrent(t.versions, j) && j.0 != k.0) || j == k;
      assert j == (j.0, j.1) && k == (k.0, k.1);
    }
  }

  lemma StopStops(t: Tables, x: Id, winner: Id)
    requires x in t.experiments
    ensures Stops(t, Stop(t, x, winner), x, winner)
  {
  }

  lemma AddsRowsSnoc(before: map<Id, VariantRow>, rows: map<Id, VariantRow>, x: Id, first: Id, front: seq<NewVariant>, last: NewVariant)
    requires AddsRows(before, rows, x, first, front) && first + |front| !in before
    ensures AddsRows(before, rows[first + |front| := VariantRow(x, last.version, last.weightBps)], x, first, front + [last])
  {
    var variants, v := front + [last], first + |front|;
    var after := rows[v := VariantRow(x, last.version, last.weightBps)];
    forall i: nat | i < |variants| ensures RowAdded(before, after, x, first, variants, i) {
      if i < |front| { assert RowAdded(before, rows, x, first, front, i) && front[i] == variants[i]; }
    }
  }

  lemma {:induction false} AddedVariants(t: Tables, x: Id, variants: seq<NewVariant>)
    requires forall v :: v in t.variants ==> v < t.nextId
    ensures AddVariants(t, x, variants).nextId == t.nextId + |variants|
    ensures AddsRows(t.variants, AddVariants(t, x, variants).variants, x, t.nextId, variants)
  {
    if variants != [] {
      var front, last := variants[..|variants| - 1], variants[|variants| - 1];
      assert variants == front + [last];
      AddedVariants(t, x, front);
      var u := AddVariants(t, x, front);
      assert AddVariants(t, x, variants).variants == u.variants[u.nextId := VariantRow(x, last.version, last.weightBps)];
      hide AddsRows, AddVariants;
      AddsRowsSnoc(t.variants, AddVariants(t, x, front).variants, x, t.nextId, front, last);
    }
  }

  lemma WithExperimentDrafts(t: Tables, formId: Id, variants: seq<NewVariant>)
    requires Valid(t)
    ensures Drafts(t, WithExperiment(t, formId, variants), t.nextId, formId, variants)
  {
    var x := t.nextId;
    assert x !in t.experiments && forall v :: v in t.variants ==> v < x;
    var u := t.(nextId := x + 1, experiments := t.experiments[x := Experiment(formId, Draft, None)]);
    assert WithExperiment(t, formId, variants) == AddVariants(u, x, variants);
    hide Valid, AddVariants, AddsRows, WithExperiment;
    AddedVariants(u, x, variants);
  }

  /** A duplicate has a copy of the source's current version, or none when there is none. */
  lemma DuplicatedCreates(t: Tables, source: Id, newSlug: string, stamp: Stamp)
    requires Valid(t) && source in t.forms
    ensures forall m :: IsCurrent(t.versions, (source, m)) ==>
      Creates(t, Duplicated(t, source, newSlug, stamp), t.nextId, newSlug, Some(stamp(t.versions[(source, m)].spec, t.nextId)))
    ensures (forall m :: !IsCurrent(t.versions, (source, m))) ==> Creates(t, Duplicated(t, source, newSlug, stamp), t.nextId, newSlug, None)
  {
    PointerIsTheCurrentVersion(t, source);
    WithFormCreates(t, newSlug);
    var n := t.forms[source].currentVersion;
    hide Creates, Valid;
    if IsCurrent(t.versions, (source, n)) { NewVersionCreates(t, newSlug, stamp(t.versions[(source, n)].spec, t.nextId)); }
  }

  class Db {
    var t: Tables

    constructor ()
      ensures t == Tables(0, map[], map[], map[], map[]) && Valid(t)
    {
      t := Tables(0, map[], map[], map[], map[]);
    }

    method CreateForm(slug: string) returns (r: Result<Id, Error>)
      requires Valid(t)
      modifies this
      ensures Valid(t)
      ensures r.Ok? <==> !SlugUsed(old(t).forms, slug)
      ensures r.Ok? ==> r.value !in old(t).forms && r.value == old(t).nextId && t == WithForm(old(t), slug)
      ensures r.Ok? ==> Creates(old(t), t, r.value, slug, None)
      ensures r.Err? ==> r.error == SlugTaken && t == old(t)
    {
      if SlugUsed(t.forms, slug) { return Err(SlugTaken); }
      FormKeeps(t, slug);
      WithFormCreates(t, slug);
      r := Ok(t.nextId);
      t := WithForm(t, slug);
    }

    /**
     * The next number is the current one plus one, so publishing goes through
     * exactly when the current version is the newest: after a rollback the number
     * exists already and the transaction fails.
     */
    method PublishVersion(formId: Id, spec: string) returns (r: Result<nat, Error>)
      requires Valid(t)
      modifies this
      ensures Valid(t)
      ensures r.Ok? <==> CurrentIsNewest(old(t), formId)
      ensures r.Ok? ==> (formId, r.value) !in old(t).versions && r.value == old(t).forms[formId].currentVersion + 1
      ensures r.Ok? ==> t == WithVersion(old(t), formId, r.value, spec)
      ensures r.Ok? ==> Publishes(old(t), t, formId, r.value, spec)
      ensures r.Err? ==> t == old(t) && r.error == if formId in t.forms then VersionExists else NotFound
    {
      if formId !in t.forms { return Err(NotFound); }
      NextIsFree(t, formId);
      var current := t.forms[formId].currentVersion;
      var nextVersion := current + 1;
      var unset := Unset(t.versions, formId);
      if (formId, nextVersion) in unset { return Err(VersionExists); }
      assert current > 0 ==> IsCurrent(t.versions, (formId, current));
      VersionKeeps(t, formId, nextVersion, spec);
      WithVersionPublishes(t, formId, nextVersion, spec);
      hide Publishes;
      t := t.(versions := unset[(formId, nextVersion) := VersionRow(true, spec)]);
      t := t.(forms := Pointed(t.forms, formId, nextVersion));
      r := Ok(nextVersion);
    }

    method SetCurrentVersion(formId: Id, version: nat) returns (r: Result<nat, Error>)
      requires Valid(t)
      modifies this
      ensures Valid(t)
      ensures r.Ok? <==> (formId, version) in old(t).versions
      ensures r.Ok? ==> r.value == version && formId in old(t).forms && t == WithCurrent(old(t), (formId, version))
      ensures r.Ok? ==> Switches(old(t), t, formId, version) && t.experiments == old(t).experiments
      ensures r.Err? ==> r.error == NotFound && t == old(t)
    {
      if (formId, version) !in t.versions { return Err(NotFound); }
      CurrentKeeps(t, (formId, version));
      WithCurrentSwitches(t, (formId, version));
      hide Switches;
      t := t.(versions := MadeCurrent(t.versions, (formId, version)));
      t := t.(forms := Pointed(t.forms, formId, version));
      r := Ok(version);
    }

    method CreateExperiment(formId: Id, variants: seq<NewVariant>) returns (r: Result<Id, Error>)
      requires Valid(t)
      modifies this
      ensures Valid(t)
      ensures r.Ok? <==> |variants| >= 2 && A.ValidWeights(Weights(variants)) && OwnVersions(old(t), formId, variants)
      ensures r.Ok? ==> r.value !in old(t).experiments && t == WithExperiment(old(t), formId, variants)
      ensures r.Ok? ==> Drafts(old(t), t, r.value, formId, variants)
      ensures r.Err? ==> r.error == InvalidInput && t == old(t)
    {
      var accepted := A.WeightsAccepted(Weights(variants));
      if !accepted { return Err(InvalidInput); }
      for i := 0 to |variants|
        invariant t == old(t)
        invariant forall j :: 0 <= j < i ==> variants[j].version in t.versions && variants[j].version.0 == formId
      {
        if variants[i].version !in t.versions || variants[i].version.0 != formId { return Err(InvalidInput); }
      }
      ExperimentKeeps(t, formId, variants);
      WithExperimentDrafts(t, formId, variants);
      hide Drafts;
      r := Ok(t.nextId);
      t := WithExperiment(t, formId, variants);
    }

    /** The winner's version becomes the form's current one. */
    method StopExperimentWithWinner(id: Id, winnerVariantId: Id) returns (r: Result<Key, Error>)
      requires Valid(t)
      modifies this
      ensures Valid(t)
      ensures r.Ok? <==> id in old(t).experiments && winnerVariantId in old(t).variants && old(t).variants[winnerVariantId].experimentId == id
      ensures r.Ok? ==>
        && r.value == old(t).variants[winnerVariantId].version && r.value in old(t).versions
        && r.value.0 == old(t).experiments[id].formId && r.value.0 in old(t).forms
        && t == WithCurrent(Stop(old(t), id, winnerVariantId), r.value)
        && Switches(old(t), t, r.value.0, r.value.1) && Stops(old(t), t, id, winnerVariantId)
      ensures r.Err? ==> r.error == NotFound && t == old(t)
    {
      if id !in t.experiments { return Err(NotFound); }
      if winnerVariantId !in t.variants || t.variants[winnerVariantId].experimentId != id { return Err(NotFound); }
      var winner := t.variants[winnerVariantId];
      StopKeeps(t, id, winnerVariantId);
      StopStops(t, id, winnerVariantId);
      t := Stop(t, id, winnerVariantId);
      CurrentKeeps(t, winner.version);
      WithCurrentSwitches(t, winner.version);
      var formId := t.experiments[id].formId;
      var unset := Unset(t.versions, formId);
      t := t.(versions := unset[winner.version := unset[winner.version].(isCurrent := true)]);
      t := t.(forms := Pointed(t.forms, formId, winner.version.1));
      r := Ok(winner.version);
    }

    /** A new form with, when the source has a current version, a copy of it as version 1. */
    method DuplicateForm(source: Id, newSlug: string, stamp: Stamp) returns (r: Result<Id, Error>)
      requires Valid(t)
      modifies this
      ensures Valid(t)
      ensures r.Ok? <==> source in old(t).forms && ValidSlug(newSlug) && !SlugUsed(old(t).forms, newSlug)
      ensures r.Ok? ==> r.value == old(t).nextId && t == Duplicated(old(t), source, newSlug, stamp)
      ensures r.Ok? ==> forall m :: IsCurrent(old(t).versions, (source, m)) ==>
        Creates(old(t), t, r.value, newSlug, Some(stamp(old(t).versions[(source, m)].spec, r.value)))
      ensures r.Ok? && (forall m :: !IsCurrent(old(t).versions, (source, m))) ==> Creates(old(t), t, r.value, newSlug, None)
      ensures r.Err? ==> t == old(t)
      ensures r.Err? ==> r.error == if source !in old(t).forms then NotFound else if !ValidSlug(newSlug) then InvalidInput else SlugTaken
    {
      if source !in t.forms { return Err(NotFound); }
      if !ValidSlug(newSlug) { return Err(InvalidInput); }
      if SlugUsed(t.forms, newSlug) { return Err(SlugTaken); }
      var copied := None;
      PointerIsTheCurrentVersion(t, source);
      DuplicatedCreates(t, source, newSlug, stamp);
      hide Creates;
      if exists k :: k in t.versions && k.0 == source && IsCurrent(t.versions, k) {
        var current :| current in t.versions && current.0 == source && IsCurrent(t.versions, current);
        assert current == (source, current.1);
        copied := Some(t.versions[current].spec);
      }
      var dup := t.nextId;
      FormKeeps(t, newSlug);
      NewFormHasNoVersion(t, dup);
      t := WithForm(t, newSlug);
      if copied.Some? {
        var spec := stamp(copied.value, dup);
        VersionKeeps(t, dup, 1, spec);
        t := t.(versions := Unset(t.versions, dup)[(dup, 1) := VersionRow(true, spec)]);
        t := t.(forms := Pointed(t.forms, dup, 1));
      }
      r := Ok(dup);
    }

    /** A new form with the template's spec as its version 1. */
    method CloneTemplateIntoForm(template: Option<string>, newSlug: string, stamp: Stamp) returns (r: Result<Id, Error>)
      requires Valid(t)
      modifies this
      ensures Valid(t)
      ensures r.Ok? <==> template.Some? && !SlugUsed(old(t).forms, newSlug)
      ensures r.Ok? ==> r.value == old(t).nextId && t == WithVersion(WithForm(old(t), newSlug), r.value, 1, stamp(template.value, r.value))
      ensures r.Ok? ==> Creates(old(t), t, r.value, newSlug, Some(stamp(template.value, r.value)))
      ensures r.Err? ==> t == old(t) && r.error == if template.None? then NotFound else SlugTaken
    {
      if template.None? { return Err(NotFound); }
      if SlugUsed(t.forms, newSlug) { return Err(SlugTaken); }
      var id := t.nextId;
      NewVersionCreates(t, newSlug, stamp(template.value, id));
      hide Creates;
      FormKeeps(t, newSlug);
      NewFormHasNoVersion(t, id);
      t := WithForm(t, newSlug);
      var spec := stamp(template.value, id);
      VersionKeeps(t, id, 1, spec);
      t := t.(versions := Unset(t.versions, id)[(id, 1) := VersionRow(true, spec)]);
      t := t.(forms := Pointed(t.forms, id, 1));
      r := Ok(id);
    }
  }

  lemma NewFormHasNoVersion(t: Tables, id: Id)
    requires Valid(t) && id == t.nextId
    ensures id !in t.forms && forall k :: k in t.versions ==> k.0 != id
  {
  }

  // ---- whole runs ----

  datatype Op =
    | Create(slug: string)
    | Publish(formId: Id, spec: string)
    | RollBack(formId: Id, version: nat)
    | Experimental(formId: Id, variants: seq<NewVariant>)
    | Promote(experimentId: Id, variantId: Id)
    | Copy(source: Id, slug: string)
    | FromTemplate(template: Option<string>, slug: string)

  /** The tables after one transaction; one that is refused leaves them as they were. */
  function After(t: Tables, op: Op, stamp: Stamp): Tables {
    match op
    case Create(slug) => if SlugUsed(t.forms, slug) then t else WithForm(t, slug)
    case Publish(formId, spec) =>
      if formId in t.forms && CurrentIsNewest(t, formId) then WithVersion(t, formId, t.forms[formId].currentVersion + 1, spec) else t
    case RollBack(formId, version) =>
      if (formId, version) in t.versions && formId in t.forms then WithCurrent(t, (formId, version)) else t
    case Experimental(formId, variants) =>
      if |variants| >= 2 && A.ValidWeights(Weights(variants)) && OwnVersions(t, formId, variants) then WithExperiment(t, formId, variants) else t
    case Promote(x, v) =>
      if x in t.experiments && v in t.variants && t.variants[v].experimentId == x
         && t.variants[v].version in t.versions && t.variants[v].version.0 in t.forms
      then WithCurrent(Stop(t, x, v), t.variants[v].version) else t
    case Copy(source, slug) =>
      if source in t.forms && ValidSlug(slug) && !SlugUsed(t.forms, slug) then Duplicated(t, source, slug, stamp) else t
    case FromTemplate(template, slug) =>
      if template.Some? && !SlugUsed(t.forms, slug) then WithVersion(WithForm(t, slug), t.nextId, 1, stamp(template.value, t.nextId)) else t
  }

  const EMPTY := Tables(0, map[], map[], map[], map[])

  /** The tables a list of transactions leads to from empty ones. */
  function RunOf(ops: seq<Op>, stamp: Stamp): Tables {
    if ops == [] then EMPTY else After(RunOf(ops[..|ops| - 1], stamp), ops[|ops| - 1], stamp)
  }

  lemma NewFormKeeps(t: Tables, slug: string, spec: string)
    requires Valid(t) && !SlugUsed(t.forms, slug)
    ensures Valid(WithForm(t, slug)) && Valid(WithVersion(WithForm(t, slug), t.nextId, 1, spec))
  {
    FormKeeps(t, slug);
    NewFormHasNoVersion(t, t.nextId);
    var u := WithForm(t, slug);
    assert (t.nextId, 1) !in u.versions;
    hide Valid;
    VersionKeeps(u, t.nextId, 1, spec);
  }

  lemma PublishKeeps(t: Tables, formId: Id, spec: string)
    requires Valid(t) && CurrentIsNewest(t, formId)
    ensures Valid(WithVersion(t, formId, t.forms[formId].currentVersion + 1, spec))
  {
    NextIsFree(t, formId);
    var current := t.forms[formId].currentVersion;
    assert current > 0 ==> IsCurrent(t.versions, (formId, current));
    hide Valid;
    VersionKeeps(t, formId, current + 1, spec);
  }

  /** Every transaction keeps the tables right. */
  lemma AfterKeeps(t: Tables, op: Op, stamp: Stamp)
    requires Valid(t)
    ensures Valid(After(t, op, stamp))
  {
    hide Valid, WithForm, WithVersion, WithCurrent, WithExperiment, Stop, ValidSlug, SlugUsed, CurrentIsNewest, OwnVersions;
    match op
    case Create(slug) => if !SlugUsed(t.forms, slug) { FormKeeps(t, slug); }
    case Publish(formId, spec) =>
      if formId in t.forms && CurrentIsNewest(t, formId) { PublishKeeps(t, formId, spec); }
    case RollBack(formId, version) =>
      if (formId, version) in t.versions && formId in t.forms { CurrentKeeps(t, (formId, version)); }
    case Experimental(formId, variants) =>
      if OwnVersions(t, formId, variants) { ExperimentKeeps(t, formId, variants); }
    case Promote(x, v) =>
      if x in t.experiments && v in t.variants && t.variants[v].version in t.versions && t.variants[v].version.0 in t.forms {
        StopKeeps(t, x, v);
        StopTouches(t, x, v);
        CurrentKeeps(Stop(t, x, v), t.variants[v].version);
      }
    case Copy(source, slug) =>
      if source in t.forms && !SlugUsed(t.forms, slug) {
        var current := (source, t.forms[source].currentVersion);
        NewFormKeeps(t, slug, if IsCurrent(t.versions, current) then stamp(t.versions[current].spec, t.nextId) else "");
      }
    case FromTemplate(template, slug) =>
      if template.Some? && !SlugUsed(t.forms, slug) { NewFormKeeps(t, slug, stamp(template.value, t.nextId)); }
  }

  lemma StopTouches(t: Tables, x: Id, v: Id)
    requires x in t.experiments
    ensures Stop(t, x, v).forms == t.forms && Stop(t, x, v).versions == t.versions
  {
  }

  /** In every run the pointers are right, and variants point at versions of their own form. */
  lemma {:induction false} EveryRunIsValid(ops: seq<Op>, stamp: Stamp)
    ensures Valid(RunOf(ops, stamp))
  {
    hide After;
    if ops != [] {
      EveryRunIsValid(ops[..|ops| - 1], stamp);
      AfterKeeps(RunOf(ops[..|ops| - 1], stamp), ops[|ops| - 1], stamp);
    }
  }

  /** What the transaction does to the tables when it goes through, and that it does nothing otherwise. */
  ghost predicate Does(before: Tables, op: Op, after: Tables, stamp: Stamp) {
    match op
    case Create(slug) =>
      if SlugUsed(before.forms, slug) then after == before else Creates(before, after, before.nextId, slug, None)
    case Publish(f, spec) =>
      if CurrentIsNewest(before, f) then Publishes(before, after, f, before.forms[f].currentVersion + 1, spec) else after == before
    case RollBack(f, n) =>
      if (f, n) in before.versions then Switches(before, after, f, n) && after.experiments == before.experiments else after == before
    case Experimental(f, variants) =>
      if |variants| >= 2 && A.ValidWeights(Weights(variants)) && OwnVersions(before, f, variants)
      then Drafts(before, after, before.nextId, f, variants) else after == before
    case Promote(x, v) =>
      if x in before.experiments && v in before.variants && before.variants[v].experimentId == x
      then Switches(before, after, before.variants[v].version.0, before.variants[v].version.1) && Stops(before, after, x, v)
      else after == before
    case Copy(source, slug) =>
      if source in before.forms && ValidSlug(slug) && !SlugUsed(before.forms, slug)
      then
        && (forall m :: IsCurrent(before.versions, (source, m)) ==>
              Creates(before, after, before.nextId, slug, Some(stamp(before.versions[(source, m)].spec, before.nextId))))
        && ((forall m :: !IsCurrent(before.versions, (source, m))) ==> Creates(before, after, before.nextId, slug, None))
      else after == before
    case FromTemplate(template, slug) =>
      if template.Some? && !SlugUsed(before.forms, slug)
      then Creates(before, after, before.nextId, slug, Some(stamp(template.value, before.nextId))) else after == before
  }

  lemma NewFormDoes(t: Tables, op: Op, stamp: Stamp)
    requires Valid(t) && (op.Create? || op.Copy? || op.FromTemplate?)
    ensures Does(t, op, After(t, op, stamp), stamp)
  {
    hide Valid, Creates, WithForm, WithVersion, Duplicated, ValidSlug, SlugUsed, IsCurrent;
    if op.Create? { WithFormCreates(t, op.slug); }
    if op.Copy? && op.source in t.forms { DuplicatedCreates(t, op.source, op.slug, stamp); }
    if op.FromTemplate? && op.template.Some? { NewVersionCreates(t, op.slug, stamp(op.template.value, t.nextId)); }
  }

  lemma NewestLeavesNextFree(t: Tables, f: Id)
    requires Valid(t) && CurrentIsNewest(t, f)
    ensures f in t.forms && (f, t.forms[f].currentVersion + 1) !in t.versions
  {
    NextIsFree(t, f);
  }

  lemma PublishDoes(t: Tables, f: Id, spec: string, stamp: Stamp)
    requires Valid(t)
    ensures Does(t, Publish(f, spec), After(t, Publish(f, spec), stamp), stamp)
  {
    hide Valid, CurrentIsNewest, Publishes, WithVersion;
    if CurrentIsNewest(t, f) {
      NewestLeavesNextFree(t, f);
      WithVersionPublishes(t, f, t.forms[f].currentVersion + 1, spec);
    }
  }

  lemma RollBackDoes(t: Tables, f: Id, n: nat, stamp: Stamp)
    requires Valid(t)
    ensures Does(t, RollBack(f, n), After(t, RollBack(f, n), stamp), stamp)
  {
    OwnersExist(t);
    hide Valid, Switches, WithCurrent;
    if (f, n) in t.versions { WithCurrentSwitches(t, (f, n)); }
  }

  lemma AfterDoes(t: Tables, op: Op, stamp: Stamp)
    requires Valid(t)
    ensures Does(t, op, After(t, op, stamp), stamp)
  {
    if op.Experimental? {
      hide Valid, Drafts, WithExperiment, OwnVersions, Weights, A.ValidWeights;
      WithExperimentDrafts(t, op.formId, op.variants);
    } else if op.Promote? {
      OwnersExist(t);
      hide Valid, Switches, Stops, WithCurrent, Stop;
      if op.experimentId in t.experiments && op.variantId in t.variants { PromoteDoes(t, op.experimentId, op.variantId); }
    } else if op.Publish? {
      PublishDoes(t, op.formId, op.spec, stamp);
    } else if op.RollBack? {
      RollBackDoes(t, op.formId, op.version, stamp);
    } else {
      NewFormDoes(t, op, stamp);
    }
  }

  lemma PromoteDoes(t: Tables, x: Id, v: Id)
    requires x in t.experiments && v in t.variants && t.variants[v].version in t.versions && t.variants[v].version.0 in t.forms
    ensures
      var after := WithCurrent(Stop(t, x, v), t.variants[v].version);
      Switches(t, after, t.variants[v].version.0, t.variants[v].version.1) && Stops(t, after, x, v)
  {
    StopStops(t, x, v);
    WithCurrentSwitches(Stop(t, x, v), t.variants[v].version);
  }

  /** In every run each transaction does to the tables before it what it should. */
  lemma EveryStepDoes(ops: seq<Op>, i: nat, stamp: Stamp)
    requires i < |ops|
    ensures Does(RunOf(ops[..i], stamp), ops[i], RunOf(ops[..i + 1], stamp), stamp)
  {
    assert ops[..i + 1][..i] == ops[..i];
    EveryRunIsValid(ops[..i], stamp);
    hide Does, After, Valid;
    AfterDoes(RunOf(ops[..i], stamp), ops[i], stamp);
  }

  /** Version rows are never removed, and their specs never change. */
  predicate SpecsKept(before: Versions, after: Versions) {
    forall k :: k in before ==> k in after && after[k].spec == before[k].spec
  }

  lemma VersionKeepsSpecs(t: Tables, f: Id, n: nat, spec: string)
    requires f in t.forms && (f, n) !in t.versions
    ensures SpecsKept(t.versions, WithVersion(t, f, n, spec).versions)
  {
  }

  lemma CurrentKeepsSpecs(t: Tables, k: Key)
    requires k in t.versions && k.0 in t.forms
    ensures SpecsKept(t.versions, WithCurrent(t, k).versions)
  {
  }

  lemma NewFormKeepsSpecs(t: Tables, slug: string, spec: string)
    requires Valid(t)
    ensures SpecsKept(t.versions, WithVersion(WithForm(t, slug), t.nextId, 1, spec).versions)
  {
    NewFormHasNoVersion(t, t.nextId);
    hide Valid;
    VersionKeepsSpecs(WithForm(t, slug), t.nextId, 1, spec);
  }

  lemma AfterKeepsSpecs(t: Tables, op: Op, stamp: Stamp)
    requires Valid(t)
    ensures SpecsKept(t.versions, After(t, op, stamp).versions)
  {
    hide Valid, WithVersion, WithCurrent, ValidSlug, SlugUsed, CurrentIsNewest, OwnVersions, SpecsKept;
    assert SpecsKept(t.versions, t.versions) by { KeptAsTheyAre(t.versions); }
    match op
    case Publish(formId, spec) =>
      if formId in t.forms && CurrentIsNewest(t, formId) {
        NextIsFree(t, formId);
        VersionKeepsSpecs(t, formId, t.forms[formId].currentVersion + 1, spec);
      }
    case RollBack(formId, version) =>
      if (formId, version) in t.versions && formId in t.forms { CurrentKeepsSpecs(t, (formId, version)); }
    case Promote(x, v) =>
      if x in t.experiments && v in t.variants && t.variants[v].version in t.versions && t.variants[v].version.0 in t.forms {
        CurrentKeepsSpecs(Stop(t, x, v), t.variants[v].version);
      }
    case Copy(source, slug) =>
      if source in t.forms {
        var current := (source, t.forms[source].currentVersion);
        NewFormKeepsSpecs(t, slug, if IsCurrent(t.versions, current) then stamp(t.versions[current].spec, t.nextId) else "");
      }
    case FromTemplate(template, slug) =>
      if template.Some? { NewFormKeepsSpecs(t, slug, stamp(template.value, t.nextId)); }
    case _ =>
  }

  lemma KeptAsTheyAre(versions: Versions)
    ensures SpecsKept(versions, versions)
  {
  }

  /** What a run has published stays as it was published, however the run goes on. */
  lemma {:induction false} PublishedForGood(ops: seq<Op>, stamp: Stamp, cut: nat)
    requires cut <= |ops|
    ensures SpecsKept(RunOf(ops[..cut], stamp).versions, RunOf(ops, stamp).versions)
  {
    if cut == |ops| {
      assert ops[..cut] == ops;
    } else {
      var front := ops[..|ops| - 1];
      PublishedForGood(front, stamp, cut);
      assert front[..cut] == ops[..cut];
      EveryRunIsValid(front, stamp);
      AfterKeepsSpecs(RunOf(front, stamp), ops[|ops| - 1], stamp);
      hide After;
    }
  }

  /** After a form goes back to an older version, publishing it is refused. */
  lemma RollbackBlocksPublishing(t: Tables, f: Id, older: nat, newer: nat, spec: string, stamp: Stamp)
    requires Valid(t) && older < newer && (f, older) in t.versions && (f, newer) in t.versions
    ensures
      var back := After(t, RollBack(f, older), stamp);
      f in back.forms && back.forms[f].currentVersion == older && !CurrentIsNewest(back, f) && After(back, Publish(f, spec), stamp) == back
  {
    var back := After(t, RollBack(f, older), stamp);
    assert (f, newer) in back.versions && back.forms[f].currentVersion == older;
  }

  method Perform(db: Db, op: Op, stamp: Stamp)
    requires Valid(db.t)
    modifies db
    ensures Valid(db.t) && db.t == After(old(db.t), op, stamp)
  {
    ghost var t := db.t;
    assert op.Publish? && CurrentIsNewest(t, op.formId) ==> op.formId in t.forms;
    hide Valid, Creates, Publishes, Switches, Drafts, Stops, WithForm, WithVersion, WithCurrent, WithExperiment, Duplicated, Stop, IsCurrent,
      CurrentIsNewest, OwnVersions, ValidSlug, SlugUsed, Weights, A.ValidWeights;
    match op {
      case Create(slug) => var _ := db.CreateForm(slug);
      case Publish(formId, spec) => var _ := db.PublishVersion(formId, spec);
      case RollBack(formId, version) => var _ := db.SetCurrentVersion(formId, version);
      case Experimental(formId, variants) => var _ := db.CreateExperiment(formId, variants);
      case Promote(experimentId, variantId) => var _ := db.StopExperimentWithWinner(experimentId, variantId);
      case Copy(source, slug) => var _ := db.DuplicateForm(source, slug, stamp);
      case FromTemplate(template, slug) => var _ := db.CloneTemplateIntoForm(template, slug, stamp);
    }
  }

  lemma OwnersExist(t: Tables)
    requires Valid(t)
    ensures forall k :: k in t.versions ==> k.0 in t.forms
    ensures forall v :: v in t.variants ==> t.variants[v].version in t.versions
  {
  }

  /** The transactions one after the other; the tables half-way are those of the run so far. */
  method Run(ops: seq<Op>, stamp: Stamp, cut: nat) returns (db: Db, atCut: Tables)
    requires cut <= |ops|
    ensures Valid(db.t) && db.t == RunOf(ops, stamp) && atCut == RunOf(ops[..cut], stamp)
  {
    hide Valid, After;
    db := new Db();
    atCut := db.t;
    for i := 0 to |ops|
      invariant Valid(db.t) && db.t == RunOf(ops[..i], stamp)
      invariant atCut == RunOf(ops[..if i <= cut then 0 else cut], stamp)
    {
      if i == cut { atCut := db.t; }
      Perform(db, ops[i], stamp);
      assert ops[..i + 1][..i] == ops[..i];
    }
    assert ops[..|ops|] == ops;
    if cut == |ops| { atCut := db.t; }
  }

  /** A run that ends in a refusal: two versions published, the first made current again, and a third one attempted. */
  method PublishAfterRollback() returns (last: Result<nat, Error>)
    ensures last == Err(VersionExists)
  {
    var db := new Db();
    var created := db.CreateForm("survey");
    assert created == Ok(0);
    var first := db.PublishVersion(0, "one");
    assert first == Ok(1);
    var second := db.PublishVersion(0, "two");
    assert second == Ok(2);
    var back := db.SetCurrentVersion(0, 1);
    assert back == Ok(1);
    last := db.PublishVersion(0, "three");
  }
}
