/** Subscription and invoice events, delivered any number of times in any order. */
module Billing {
  import opened Wrappers

  type WorkspaceId = string

  datatype Kind =
    | SubscriptionChanged(customer: string, price: Option<string>)
    | SubscriptionDeleted(customer: string)
    | InvoicePaid(invoiced: Option<string>)
    | InvoicePaymentFailed(invoiced: Option<string>)
    | OtherKind

  datatype Event = Event(id: string, eventType: string, kind: Kind, payloadDigest: string)

  /**
   * What is taken to be fixed: customers and priced plans. A plan is named by its
   * unique slug. `nullAllowed` says whether the billing table takes a row without
   * a workspace; where it does not, that insert throws.
   */
  datatype Directory = Directory(workspaceOf: map<string, WorkspaceId>, planOf: map<string, string>, freePlanExists: bool, nullAllowed: bool)

  datatype BillingRow = BillingRow(workspaceId: Option<WorkspaceId>, stripeEventId: string, eventType: string, payloadDigest: string)
  datatype AuditRow =
    | PlanChanged(subject: WorkspaceId, fromPlan: string, toPlan: string)
    | GraceWindow(subject: WorkspaceId, currentPlan: string)

  datatype Books = Books(plans: map<WorkspaceId, string>, rows: seq<BillingRow>, audit: seq<AuditRow>)

  datatype Outcome = Idempotent | Ignored | Done
  datatype Error = NullWorkspace | FreePlanMissing

  const FREE := "free"

  predicate Recorded(rows: seq<BillingRow>, id: string) {
    exists i :: 0 <= i < |rows| && rows[i].stripeEventId == id
  }

  function RowOf(e: Event, workspaceId: Option<WorkspaceId>): BillingRow {
    BillingRow(workspaceId, e.id, e.eventType, e.payloadDigest)
  }

  /** Every customer's workspace exists. */
  predicate Complete(d: Directory, b: Books) {
    forall c :: c in d.workspaceOf ==> d.workspaceOf[c] in b.plans
  }

  // ---- what one event does ----

  /** The effect of an event that has no row yet; None where the transaction throws. */
  datatype Effect =
    | Nothing
    | Throws(error: Error)
    | RowOnly(workspaceId: Option<WorkspaceId>)
    | ChangePlan(workspace: WorkspaceId, plan: string)
    | NoteFailure(workspace: WorkspaceId)

  /** It depends on the event and the directory only, not on the books. */
  function EffectOf(d: Directory, e: Event): Effect {
    match e.kind
    case SubscriptionChanged(customer, price) =>
      if customer !in d.workspaceOf then (if d.nullAllowed then RowOnly(None) else Throws(NullWorkspace))
      else if price.None? then Nothing
      else if price.value !in d.planOf then RowOnly(Some(d.workspaceOf[customer]))
      else ChangePlan(d.workspaceOf[customer], d.planOf[price.value])
    case SubscriptionDeleted(customer) =>
      if customer !in d.workspaceOf then (if d.nullAllowed then RowOnly(None) else Throws(NullWorkspace))
      else if !d.freePlanExists then Throws(FreePlanMissing)
      else ChangePlan(d.workspaceOf[customer], FREE)
    case InvoicePaid(invoiced) =>
      if invoiced.None? || invoiced.value !in d.workspaceOf then Nothing else RowOnly(Some(d.workspaceOf[invoiced.value]))
    case InvoicePaymentFailed(invoiced) =>
      if invoiced.None? || invoiced.value !in d.workspaceOf then Nothing else NoteFailure(d.workspaceOf[invoiced.value])
    case OtherKind => Nothing
  }

  function Apply(d: Directory, b: Books, e: Event): (r: Books)
    requires Complete(d, b)
    ensures Complete(d, r)
  {
    if Recorded(b.rows, e.id) then b
    else match EffectOf(d, e)
      case Nothing => b
      case Throws(_) => b
      case RowOnly(workspaceId) => b.(rows := b.rows + [RowOf(e, workspaceId)])
      case ChangePlan(w, plan) =>
        if w !in b.plans then b
        else Books(b.plans[w := plan], b.rows + [RowOf(e, Some(w))], b.audit + [PlanChanged(w, b.plans[w], plan)])
      case NoteFailure(w) =>
        if w !in b.plans then b
        else b.(rows := b.rows + [RowOf(e, Some(w))], audit := b.audit + [GraceWindow(w, b.plans[w])])
  }

  /** Events with no effect, and subscription events that only leave a row. */
  predicate IsIgnored(d: Directory, e: Event) {
    EffectOf(d, e).Nothing? || (EffectOf(d, e).RowOnly? && (e.kind.SubscriptionChanged? || e.kind.SubscriptionDeleted?))
  }

  // ---- the same, row by row ----

  /** One billing row more, of this event. */
  predicate Files(before: Books, after: Books, e: Event, workspaceId: Option<WorkspaceId>) {
    && |after.rows| == |before.rows| + 1 && after.rows[..|before.rows|] == before.rows
    && var row := after.rows[|before.rows|];
       row.workspaceId == workspaceId && row.stripeEventId == e.id && row.eventType == e.eventType && row.payloadDigest == e.payloadDigest
  }

  /** The workspace's plan and no other changes, and one audit row more says from which to which. */
  predicate Moves(before: Books, after: Books, w: WorkspaceId, plan: string) {
    && w in before.plans && after.plans.Keys == before.plans.Keys && after.plans[w] == plan
    && (forall v :: v in before.plans && v != w ==> after.plans[v] == before.plans[v])
    && |after.audit| == |before.audit| + 1 && after.audit[..|before.audit|] == before.audit
    && var row := after.audit[|before.audit|];
       row.PlanChanged? && row.subject == w && row.fromPlan == before.plans[w] && row.toPlan == plan
  }

  /** No plan changes, and one audit row more notes the plan the workspace keeps. */
  predicate Notes(before: Books, after: Books, w: WorkspaceId) {
    && w in before.plans && after.plans == before.plans
    && |after.audit| == |before.audit| + 1 && after.audit[..|before.audit|] == before.audit
    && var row := after.audit[|before.audit|];
       row.GraceWindow? && row.subject == w && row.currentPlan == before.plans[w]
  }

  predicate OnlyFiles(before: Books, after: Books, e: Event, workspaceId: Option<WorkspaceId>) {
    Files(before, after, e, workspaceId) && after.plans == before.plans && after.audit == before.audit
  }

  /** What an event does that has no row yet. */
  predicate Does(d: Directory, before: Books, e: Event, after: Books) {
    match e.kind
    case SubscriptionChanged(customer, price) =>
      if customer !in d.workspaceOf then (if d.nullAllowed then OnlyFiles(before, after, e, None) else after == before)
      else if price.None? then after == before
      else if price.value !in d.planOf then OnlyFiles(before, after, e, Some(d.workspaceOf[customer]))
      else Files(before, after, e, Some(d.workspaceOf[customer])) && Moves(before, after, d.workspaceOf[customer], d.planOf[price.value])
    case SubscriptionDeleted(customer) =>
      if customer !in d.workspaceOf then (if d.nullAllowed then OnlyFiles(before, after, e, None) else after == before)
      else if !d.freePlanExists then after == before
      else Files(before, after, e, Some(d.workspaceOf[customer])) && Moves(before, after, d.workspaceOf[customer], "free")
    case InvoicePaid(Some(customer)) =>
      if customer in d.workspaceOf then OnlyFiles(before, after, e, Some(d.workspaceOf[customer])) else after == before
    case InvoicePaymentFailed(Some(customer)) =>
      if customer in d.workspaceOf
      then Files(before, after, e, Some(d.workspaceOf[customer])) && Notes(before, after, d.workspaceOf[customer]) else after == before
    case _ => after == before
  }

  lemma ApplyDoes(d: Directory, b: Books, e: Event)
    requires Complete(d, b)
    ensures if Recorded(b.rows, e.id) then Apply(d, b, e) == b else Does(d, b, e, Apply(d, b, e))
  {
    forall row: BillingRow ensures (b.rows + [row])[..|b.rows|] == b.rows { }
    forall row: AuditRow ensures (b.audit + [row])[..|b.audit|] == b.audit { }
    hide Recorded;
  }

  /** A subscription event of a customer that no workspace has. */
  predicate OfNobody(d: Directory, e: Event) {
    match e.kind
    case SubscriptionChanged(customer, _) => customer !in d.workspaceOf
    case SubscriptionDeleted(customer) => customer !in d.workspaceOf
    case _ => false
  }

  /** The event is acted on to the end: it names a workspace, and for a change of plan the plan exists. */
  predicate ActedOn(d: Directory, e: Event) {
    match e.kind
    case SubscriptionChanged(customer, price) => customer in d.workspaceOf && price.Some? && price.value in d.planOf
    case SubscriptionDeleted(customer) => customer in d.workspaceOf && d.freePlanExists
    case InvoicePaid(invoiced) => invoiced.Some? && invoiced.value in d.workspaceOf
    case InvoicePaymentFailed(invoiced) => invoiced.Some? && invoiced.value in d.workspaceOf
    case OtherKind => false
  }

  class BillingService {
    const d: Directory
    var books: Books

    constructor (d: Directory, books: Books)
      ensures this.d == d && this.books == books
    {
      this.d, this.books := d, books;
    }

    /** One transaction; the books are written when it commits. */
    method ApplySubscriptionEvent(event: Event) returns (r: Result<Outcome, Error>)
      requires Complete(d, books)
      modifies this
      ensures Complete(d, books) && books == Apply(d, old(books), event)
      ensures r == Ok(Idempotent) <==> Recorded(old(books).rows, event.id)
      ensures r.Err? <==> !Recorded(old(books).rows, event.id) && EffectOf(d, event).Throws?
      ensures r.Err? ==> r.error == EffectOf(d, event).error && books == old(books)
      ensures if Recorded(old(books).rows, event.id) then books == old(books) else Does(d, old(books), event, books)
      ensures r == Ok(Done) <==> !Recorded(old(books).rows, event.id) && ActedOn(d, event)
      ensures r == Err(NullWorkspace) <==> !Recorded(old(books).rows, event.id) && OfNobody(d, event) && !d.nullAllowed
      ensures r == Err(FreePlanMissing) <==>
        !Recorded(old(books).rows, event.id) && event.kind.SubscriptionDeleted? && !OfNobody(d, event) && !d.freePlanExists
      ensures r == Ok(Ignored) <==> !Recorded(old(books).rows, event.id) && IsIgnored(d, event)
    {
      var tx := books;
      ApplyDoes(d, tx, event);
      hide Does;
      if Recorded(tx.rows, event.id) { return Ok(Idempotent); }
      match event.kind {
        case SubscriptionChanged(customer, price) =>
          if customer !in d.workspaceOf {
            if !d.nullAllowed { return Err(NullWorkspace); }
            tx := tx.(rows := tx.rows + [RowOf(event, None)]);
            books := tx;
            return Ok(Ignored);
          }
          var workspace := d.workspaceOf[customer];
          if price.None? { return Ok(Ignored); }
          if price.value !in d.planOf {
            tx := tx.(rows := tx.rows + [RowOf(event, Some(workspace))]);
            books := tx;
            return Ok(Ignored);
          }
          tx := MovePlan(tx, event, workspace, d.planOf[price.value]);
        case SubscriptionDeleted(customer) =>
          if customer !in d.workspaceOf {
            if !d.nullAllowed { return Err(NullWorkspace); }
            tx := tx.(rows := tx.rows + [RowOf(event, None)]);
            books := tx;
            return Ok(Ignored);
          }
          if !d.freePlanExists { return Err(FreePlanMissing); }
          tx := MovePlan(tx, event, d.workspaceOf[customer], FREE);
        case InvoicePaid(invoiced) =>
          if invoiced.None? || invoiced.value !in d.workspaceOf { return Ok(Ignored); }
          tx := tx.(rows := tx.rows + [RowOf(event, Some(d.workspaceOf[invoiced.value]))]);
        case InvoicePaymentFailed(invoiced) =>
          if invoiced.None? || invoiced.value !in d.workspaceOf { return Ok(Ignored); }
          var workspace := d.workspaceOf[invoiced.value];
          tx := tx.(rows := tx.rows + [RowOf(event, Some(workspace))]);
          tx := tx.(audit := tx.audit + [GraceWindow(workspace, tx.plans[workspace])]);
        case OtherKind => return Ok(Ignored);
      }
      books := tx;
      r := Ok(Done);
    }
  }

  /** Plan, billing row and audit row, in that order. */
  method MovePlan(before: Books, event: Event, workspace: WorkspaceId, plan: string) returns (tx: Books)
    requires workspace in before.plans
    ensures tx == Books(before.plans[workspace := plan], before.rows + [RowOf(event, Some(workspace))],
                        before.audit + [PlanChanged(workspace, before.plans[workspace], plan)])
  {
    var oldSlug := before.plans[workspace];
    tx := before.(plans := before.plans[workspace := plan]);
    tx := tx.(rows := tx.rows + [RowOf(event, Some(workspace))]);
    tx := tx.(audit := tx.audit + [PlanChanged(workspace, oldSlug, plan)]);
  }

  // ---- deliveries ----

  function Deliver(d: Directory, b: Books, es: seq<Event>): (r: Books)
    requires Complete(d, b)
    ensures Complete(d, r)
  {
    if es == [] then b else Apply(d, Deliver(d, b, es[..|es| - 1]), es[|es| - 1])
  }

  predicate Delivered(es: seq<Event>, id: string) {
    exists i :: 0 <= i < |es| && es[i].id == id
  }

  /** The sequence without repeated deliveries. */
  function FirstDeliveries(es: seq<Event>): seq<Event> {
    if es == [] then []
    else
      var front, last := es[..|es| - 1], es[|es| - 1];
      FirstDeliveries(front) + (if Delivered(front, last.id) then [] else [last])
  }

  /** An id names one event. */
  predicate IdsNameEvents(es: seq<Event>) {
    forall i, j :: 0 <= i < |es| && 0 <= j < |es| && es[i].id == es[j].id ==> es[i] == es[j]
  }

  /** Delivering the event once more changes nothing. */
  predicate Settled(d: Directory, b: Books, e: Event) {
    Recorded(b.rows, e.id) || EffectOf(d, e).Nothing? || EffectOf(d, e).Throws?
  }

  lemma RecordedStays(rows: seq<BillingRow>, row: BillingRow, id: string)
    ensures Recorded(rows + [row], id) <==> Recorded(rows, id) || row.stripeEventId == id
  {
    var more := rows + [row];
    if Recorded(rows, id) {
      var i :| 0 <= i < |rows| && rows[i].stripeEventId == id;
      assert more[i].stripeEventId == id;
    }
    assert more[|rows|] == row;
  }

  lemma EffectsStayInside(d: Directory, b: Books, e: Event)
    requires Complete(d, b)
    ensures EffectOf(d, e).ChangePlan? ==> EffectOf(d, e).workspace in b.plans
    ensures EffectOf(d, e).NoteFailure? ==> EffectOf(d, e).workspace in b.plans
  {
  }

  lemma ApplySettles(d: Directory, b: Books, e: Event, x: Event)
    requires Complete(d, b)
    ensures Settled(d, Apply(d, b, e), e)
    ensures Settled(d, b, x) ==> Settled(d, Apply(d, b, e), x)
  {
    EffectsStayInside(d, b, e);
    forall row, id ensures Recorded(b.rows + [row], id) <==> Recorded(b.rows, id) || row.stripeEventId == id {
      RecordedStays(b.rows, row, id);
    }
    hide Recorded, EffectOf;
  }

  lemma {:induction false} DeliveredIsSettled(d: Directory, b: Books, es: seq<Event>, i: nat)
    requires Complete(d, b) && i < |es|
    ensures Settled(d, Deliver(d, b, es), es[i])
  {
    var front, last := es[..|es| - 1], es[|es| - 1];
    if i < |front| {
      DeliveredIsSettled(d, b, front, i);
    }
    ApplySettles(d, Deliver(d, b, front), last, es[i]);
  }

  /**
   * Whatever the delivery sequence, repeated deliveries change nothing: plans,
   * billing rows and audit rows are those of the first deliveries alone.
   */
  lemma {:induction false} RepeatsChangeNothing(d: Directory, b: Books, es: seq<Event>)
    requires Complete(d, b) && IdsNameEvents(es)
    ensures Deliver(d, b, FirstDeliveries(es)) == Deliver(d, b, es)
  {
    if es != [] {
      var front, last := es[..|es| - 1], es[|es| - 1];
      RepeatsChangeNothing(d, b, front);
      var firsts := FirstDeliveries(front);
      if Delivered(front, last.id) {
        var i :| 0 <= i < |front| && front[i].id == last.id;
        assert es[i] == es[|es| - 1];
        DeliveredIsSettled(d, b, front, i);
        assert firsts + [] == firsts;
      } else {
        assert (firsts + [last])[..|firsts|] == firsts;
      }
    }
  }

  /** Each delivery does to the books before it what the event should, or nothing when it has a row. */
  lemma EveryDeliveryDoes(d: Directory, b: Books, es: seq<Event>, i: nat)
    requires Complete(d, b) && i < |es|
    ensures
      var before, after := Deliver(d, b, es[..i]), Deliver(d, b, es[..i + 1]);
      if Recorded(before.rows, es[i].id) then after == before else Does(d, before, es[i], after)
  {
    assert es[..i + 1][..i] == es[..i];
    ApplyDoes(d, Deliver(d, b, es[..i]), es[i]);
  }

  // ---- what the books say ----

  /** A failed payment never changes a plan. */
  lemma FailedPaymentKeepsPlans(d: Directory, b: Books, e: Event)
    requires Complete(d, b) && (e.kind.InvoicePaymentFailed? || e.kind.InvoicePaid?)
    ensures Apply(d, b, e).plans == b.plans
  {
  }

  /** The plan an event gives a workspace, if it gives one. */
  function PlanGiven(d: Directory, e: Event, w: WorkspaceId): Option<string> {
    match e.kind
    case SubscriptionChanged(customer, Some(price)) =>
      if customer in d.workspaceOf && d.workspaceOf[customer] == w && price in d.planOf then Some(d.planOf[price]) else None
    case SubscriptionDeleted(customer) =>
      if customer in d.workspaceOf && d.workspaceOf[customer] == w && d.freePlanExists then Some(FREE) else None
    case _ => None
  }

  /** What the last event that gives the workspace a plan says. */
  function LastPlan(d: Directory, es: seq<Event>, w: WorkspaceId): Option<string> {
    if es == [] then None
    else match PlanGiven(d, es[|es| - 1], w)
      case Some(plan) => Some(plan)
      case None => LastPlan(d, es[..|es| - 1], w)
  }

  lemma ApplyGivesPlan(d: Directory, b: Books, e: Event, w: WorkspaceId)
    requires Complete(d, b) && w in b.plans && !Recorded(b.rows, e.id)
    ensures var after := Apply(d, b, e);
      w in after.plans && after.plans[w] == match PlanGiven(d, e, w) case Some(plan) => plan case None => b.plans[w]
  {
  }

  lemma {:induction false} OnlyDeliveredAreRecorded(d: Directory, b: Books, es: seq<Event>, id: string)
    requires Complete(d, b) && !Recorded(b.rows, id) && !Delivered(es, id)
    ensures !Recorded(Deliver(d, b, es).rows, id)
  {
    if es != [] {
      var front, last := es[..|es| - 1], es[|es| - 1];
      assert forall i :: 0 <= i < |front| ==> front[i] == es[i];
      OnlyDeliveredAreRecorded(d, b, front, id);
      assert es[|es| - 1].id != id;
      var before := Deliver(d, b, front);
      forall row ensures Recorded(before.rows + [row], id) <==> Recorded(before.rows, id) || row.stripeEventId == id {
        RecordedStays(before.rows, row, id);
      }
      hide Recorded, EffectOf;
    }
  }

  /** A workspace ends on the plan of the last event, each counted at its first delivery, that gives it one. */
  lemma {:induction false} PlanIsTheLastGiven(d: Directory, b: Books, es: seq<Event>, w: WorkspaceId)
    requires Complete(d, b) && IdsNameEvents(es) && w in b.plans
    requires forall i :: 0 <= i < |es| ==> !Recorded(b.rows, es[i].id)
    ensures var end := Deliver(d, b, es).plans;
      w in end && end[w] == match LastPlan(d, FirstDeliveries(es), w) case Some(plan) => plan case None => b.plans[w]
  {
    if es != [] {
      var front, last := es[..|es| - 1], es[|es| - 1];
      assert forall i :: 0 <= i < |front| ==> front[i] == es[i];
      PlanIsTheLastGiven(d, b, front, w);
      var firsts, before := FirstDeliveries(front), Deliver(d, b, front);
      if Delivered(front, last.id) {
        var i :| 0 <= i < |front| && front[i].id == last.id;
        assert es[i] == es[|es| - 1];
        DeliveredIsSettled(d, b, front, i);
        assert firsts + [] == firsts;
      } else {
        assert !Recorded(b.rows, es[|es| - 1].id);
        OnlyDeliveredAreRecorded(d, b, front, last.id);
        ApplyGivesPlan(d, before, last, w);
        assert (firsts + [last])[..|firsts|] == firsts;
      }
    }
  }

  predicate OneRowPerEvent(rows: seq<BillingRow>) {
    forall i, j :: 0 <= i < j < |rows| ==> rows[i].stripeEventId != rows[j].stripeEventId
  }

  /** Plans as the audit rows tell them. */
  function Replay(plans: map<WorkspaceId, string>, audit: seq<AuditRow>): map<WorkspaceId, string> {
    if audit == [] then plans
    else
      var before := Replay(plans, audit[..|audit| - 1]);
      match audit[|audit| - 1]
      case PlanChanged(w, _, toPlan) => before[w := toPlan]
      case GraceWindow(_, _) => before
  }

  /** Each change starts from the plan that the rows before it leave. */
  predicate Chained(plans: map<WorkspaceId, string>, audit: seq<AuditRow>) {
    forall i :: 0 <= i < |audit| && audit[i].PlanChanged? ==> Told(plans, audit, i) == Some(audit[i].fromPlan)
  }

  function Told(plans: map<WorkspaceId, string>, audit: seq<AuditRow>, i: nat): Option<string>
    requires i < |audit|
  {
    var before := Replay(plans, audit[..i]);
    if audit[i].subject in before then Some(before[audit[i].subject]) else None
  }

  /** The books since `start`. */
  ghost predicate Kept(start: Books, b: Books) {
    && |start.audit| <= |b.audit| && b.audit[..|start.audit|] == start.audit
    && OneRowPerEvent(b.rows)
    && b.plans == Replay(start.plans, b.audit[|start.audit|..])
    && Chained(start.plans, b.audit[|start.audit|..])
  }

  lemma ReplaySnoc(plans: map<WorkspaceId, string>, audit: seq<AuditRow>, row: AuditRow)
    ensures Replay(plans, audit + [row]) ==
      match row case PlanChanged(w, _, toPlan) => Replay(plans, audit)[w := toPlan] case GraceWindow(_, _) => Replay(plans, audit)
    ensures Chained(plans, audit) && (row.PlanChanged? ==> row.subject in Replay(plans, audit) && Replay(plans, audit)[row.subject] == row.fromPlan)
      ==> Chained(plans, audit + [row])
  {
    var more := audit + [row];
    assert more[..|audit|] == audit;
    assert forall i :: 0 <= i < |audit| ==> more[..i] == audit[..i] && more[i] == audit[i];
  }

  lemma AuditGrows(start: Books, b: Books, row: AuditRow)
    requires |start.audit| <= |b.audit| && b.audit[..|start.audit|] == start.audit
    ensures (b.audit + [row])[..|start.audit|] == start.audit
    ensures (b.audit + [row])[|start.audit|..] == b.audit[|start.audit|..] + [row]
  {
  }

  lemma RowsGrow(rows: seq<BillingRow>, row: BillingRow)
    requires OneRowPerEvent(rows) && !Recorded(rows, row.stripeEventId)
    ensures OneRowPerEvent(rows + [row])
  {
  }

  lemma ApplyKeeps(d: Directory, start: Books, b: Books, e: Event)
    requires Complete(d, b) && Kept(start, b)
    ensures Kept(start, Apply(d, b, e))
  {
    EffectsStayInside(d, b, e);
    if !Recorded(b.rows, e.id) && !EffectOf(d, e).Nothing? && !EffectOf(d, e).Throws? {
      var since := b.audit[|start.audit|..];
      forall w: Option<WorkspaceId> ensures OneRowPerEvent(b.rows + [RowOf(e, w)]) { RowsGrow(b.rows, RowOf(e, w)); }
      match EffectOf(d, e)
      case RowOnly(_) =>
      case ChangePlan(w, plan) =>
        var row := PlanChanged(w, b.plans[w], plan);
        AuditGrows(start, b, row);
        ReplaySnoc(start.plans, since, row);
      case NoteFailure(w) =>
        var row := GraceWindow(w, b.plans[w]);
        AuditGrows(start, b, row);
        ReplaySnoc(start.plans, since, row);
    }
  }

  /**
   * After any deliveries there is one billing row per event, the audit rows written
   * since tell the plans exactly, and each starts where the one before it left off.
   */
  lemma {:induction false} BooksAgree(d: Directory, start: Books, es: seq<Event>)
    requires Complete(d, start) && OneRowPerEvent(start.rows)
    ensures Kept(start, Deliver(d, start, es))
  {
    if es == [] {
      assert start.audit[|start.audit|..] == [];
    } else {
      BooksAgree(d, start, es[..|es| - 1]);
      ApplyKeeps(d, start, Deliver(d, start, es[..|es| - 1]), es[|es| - 1]);
    }
  }
}
