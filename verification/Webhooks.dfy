/** The billing projection maintained by webhooks (backend/app/modules/commerce/service.py). */
module Webhooks {
  import opened Wrappers

  // ---- Payloads ----

  /** An integer field as it arrives: missing (or null), a number, or text that does not parse. */
  datatype IntField = Missing | Number(n: int) | Garbage

  /** The keys the handlers read. An empty string stands for a missing, null or empty text field;
      `status` distinguishes a missing key, whose default is the row's own status. */
  datatype Data = Data(
    id: string,
    customer: string,
    reference: Option<int>,
    subscription: string,
    orgEvent: bool,
    organization: Option<int>,
    planCode: string,
    status: Option<string>,
    quantity: IntField,
    periodEnd: Option<int>,
    trialEnd: Option<int>,
    cancelAtPeriodEnd: bool,
    paymentIntent: string,
    amountPaid: IntField,
    amountRefunded: IntField,
    currency: string)

  datatype Kind =
    | CheckoutCompleted | SubscriptionUpsert | SubscriptionDeleted
    | InvoicePaid | InvoiceFailed | ChargeRefunded | Ignored

  datatype WebhookEvent = WebhookEvent(id: string, kind: Kind, data: Data)

  // ---- Tables ----

  datatype Subscription = Subscription(
    user: int, plan: Option<int>, status: string, periodEnd: Option<int>, trialEnd: Option<int>,
    cancelAtPeriodEnd: bool)

  datatype SeatLicense = SeatLicense(
    organization: int, plan: Option<int>, status: string, seats: int,
    periodEnd: Option<int>, trialEnd: Option<int>, cancelAtPeriodEnd: bool)

  datatype Payment = Payment(
    user: int, intent: string, invoice: string, amount: int, currency: string, status: string, refunded: int)

  datatype Published =
    | SubscriptionChanged(status: string)
    | PurchaseCompleted(amount: int)
    | PaymentRefunded(amount: int)

  /** Subscriptions and seat licenses are keyed by their unique Stripe subscription id; `seen` is the
      event ledger; `published` the domain events delivered so far. */
  datatype Db = Db(
    subscriptions: map<string, Subscription>,
    licenses: map<string, SeatLicense>,
    payments: seq<Payment>,
    seen: seq<string>,
    published: seq<Published>)

  /** Tables the webhooks only read. */
  datatype World = World(customers: map<string, int>, plans: map<string, int>)

  const INCOMPLETE := "incomplete"
  const PAST_DUE := "past_due"
  const CANCELED := "canceled"

  const ACTIVE := "active"

  /** A row object that has not been flushed has no status yet, and that absence prints as "None". */
  const UNSET := "None"

  /** The session flushes pending rows before a query, so an upsert that looks up its plan finds the row
      it has just added with the column defaults already filled in. */
  predicate FlushesEarly(data: Data) { data.planCode != "" }

  /** The rows an upsert adds, as its status assignment finds them. */
  function AddedSubscription(user: int, data: Data): Subscription {
    Subscription(user, None, if FlushesEarly(data) then INCOMPLETE else UNSET, None, None, false)
  }

  function AddedLicense(organization: int, data: Data): SeatLicense {
    SeatLicense(organization, None, if FlushesEarly(data) then ACTIVE else UNSET, 1, None, None, false)
  }

  function ResolveUser(w: World, data: Data): Option<int> {
    if data.customer != "" && data.customer in w.customers then Some(w.customers[data.customer]) else data.reference
  }

  /** The plan is filled in once and only from a known code. */
  function PlanAfter(w: World, current: Option<int>, data: Data): Option<int> {
    if data.planCode != "" && current.None? && data.planCode in w.plans then Some(w.plans[data.planCode]) else current
  }

  // ---- Handlers as functions; None means the handler raised ----

  function OnCheckout(w: World, db: Db, data: Data): Db {
    if data.subscription == "" then db
    else if data.orgEvent then
      if data.organization.None? || data.subscription in db.licenses then db
      else db.(licenses := db.licenses[data.subscription :=
        SeatLicense(data.organization.value, None, INCOMPLETE, 1, None, None, false)])
    else
      var user := ResolveUser(w, data);
      if user.None? || data.subscription in db.subscriptions then db
      else db.(subscriptions := db.subscriptions[data.subscription :=
        Subscription(user.value, None, INCOMPLETE, None, None, false)])
  }

  function Updated(w: World, row: Subscription, data: Data): Subscription {
    Subscription(row.user, PlanAfter(w, row.plan, data), data.status.GetOr(row.status),
                 data.periodEnd, data.trialEnd, data.cancelAtPeriodEnd)
  }

  function OnPersonalUpsert(w: World, db: Db, data: Data): Db {
    var user := ResolveUser(w, data);
    if data.id !in db.subscriptions && user.None? then db
    else
      var row := if data.id in db.subscriptions then db.subscriptions[data.id] else AddedSubscription(user.value, data);
      var next := Updated(w, row, data);
      db.(subscriptions := db.subscriptions[data.id := next],
          published := db.published + [SubscriptionChanged(next.status)])
  }

  /** `int(quantity or seats)`; a row that was not flushed has no seats to fall back on. */
  function SeatsAfter(current: Option<int>, quantity: IntField): Option<int> {
    match quantity
    case Garbage => None
    case Missing => current
    case Number(n) => if n == 0 then current else Some(n)
  }

  function OnOrgUpsert(w: World, db: Db, data: Data): Option<Db> {
    var known := data.id in db.licenses;
    if !known && data.organization.None? then Some(db)
    else
      var row := if known then db.licenses[data.id] else AddedLicense(data.organization.value, data);
      var seats := SeatsAfter(if known || FlushesEarly(data) then Some(row.seats) else None, data.quantity);
      if seats.None? then None
      else
        var next := SeatLicense(row.organization, PlanAfter(w, row.plan, data), data.status.GetOr(row.status),
                                seats.value, data.periodEnd, data.trialEnd, data.cancelAtPeriodEnd);
        Some(db.(licenses := db.licenses[data.id := next],
                 published := db.published + [SubscriptionChanged(next.status)]))
  }

  function OnUpsert(w: World, db: Db, data: Data): Option<Db> {
    if data.id == "" then Some(db)
    else if data.orgEvent then OnOrgUpsert(w, db, data)
    else Some(OnPersonalUpsert(w, db, data))
  }

  function WithStatus(db: Db, id: string, org: bool, status: string): Db
    requires if org then id in db.licenses else id in db.subscriptions
  {
    var published := db.published + [SubscriptionChanged(status)];
    if org then db.(licenses := db.licenses[id := db.licenses[id].(status := status)], published := published)
    else db.(subscriptions := db.subscriptions[id := db.subscriptions[id].(status := status)], published := published)
  }

  function OnDeleted(db: Db, data: Data): Db {
    if data.orgEvent then if data.id in db.licenses then WithStatus(db, data.id, true, CANCELED) else db
    else if data.id in db.subscriptions then WithStatus(db, data.id, false, CANCELED) else db
  }

  function OnInvoiceFailed(db: Db, data: Data): Db {
    if data.subscription == "" then db
    else if data.subscription in db.subscriptions then WithStatus(db, data.subscription, false, PAST_DUE)
    else if data.subscription in db.licenses then WithStatus(db, data.subscription, true, PAST_DUE)
    else db
  }

  function IntentOf(data: Data): string {
    if data.paymentIntent != "" then data.paymentIntent else "inv:" + data.id
  }

  /** `int(x or 0)`. */
  function Amount(field: IntField): Option<int> {
    match field
    case Missing => Some(0)
    case Number(n) => Some(n)
    case Garbage => None
  }

  predicate Paid(payments: seq<Payment>, intent: string) {
    exists i :: 0 <= i < |payments| && payments[i].intent == intent
  }

  function OnInvoicePaid(w: World, db: Db, data: Data): Option<Db> {
    var user := ResolveUser(w, data);
    if user.None? || Paid(db.payments, IntentOf(data)) then Some(db)
    else match Amount(data.amountPaid)
      case None => None
      case Some(amount) =>
        var currency := if data.currency != "" then data.currency else "usd";
        var payment := Payment(user.value, IntentOf(data), data.id, amount, currency, "succeeded", 0);
        Some(db.(payments := db.payments + [payment],
                 published := db.published + [PurchaseCompleted(amount)]))
  }

  function Refunded(payments: seq<Payment>, intent: string, amount: int): seq<Payment> {
    seq(|payments|, i requires 0 <= i < |payments| =>
      if payments[i].intent == intent then payments[i].(status := "refunded", refunded := amount) else payments[i])
  }

  function OnChargeRefunded(db: Db, data: Data): Option<Db> {
    if data.paymentIntent == "" || !Paid(db.payments, data.paymentIntent) then Some(db)
    else match Amount(data.amountRefunded)
      case None => None
      case Some(amount) =>
        Some(db.(payments := Refunded(db.payments, data.paymentIntent, amount),
                 published := db.published + [PaymentRefunded(amount)]))
  }

  function Handle(w: World, db: Db, kind: Kind, data: Data): Option<Db> {
    match kind
    case CheckoutCompleted => Some(OnCheckout(w, db, data))
    case SubscriptionUpsert => OnUpsert(w, db, data)
    case SubscriptionDeleted => Some(OnDeleted(db, data))
    case InvoicePaid => OnInvoicePaid(w, db, data)
    case InvoiceFailed => Some(OnInvoiceFailed(db, data))
    case ChargeRefunded => OnChargeRefunded(db, data)
    case Ignored => Some(db)
  }

  /** This delivery gets past the ledger and its handler does not raise. */
  predicate Fresh(w: World, db: Db, e: WebhookEvent) {
    e.id != "" && e.id !in db.seen && Handle(w, db, e.kind, e.data).Some?
  }

  /** One delivery: a replay does nothing, a raised handler is rolled back and not recorded. */
  function Process(w: World, db: Db, e: WebhookEvent): Db {
    if Fresh(w, db, e) then Record(Handle(w, db, e.kind, e.data).value, e.id) else db
  }

  function Record(db: Db, id: string): Db { db.(seen := db.seen + [id]) }

  // ---- The service ----

  class WebhookService {
    const world: World
    var subscriptions: map<string, Subscription>
    var licenses: map<string, SeatLicense>
    var payments: seq<Payment>
    var seen: seq<string>
    var published: seq<Published>

    function Tables(): Db
      reads this
    {
      Db(subscriptions, licenses, payments, seen, published)
    }

    constructor (world: World, db: Db)
      ensures Tables() == db && this.world == world
    {
      this.world := world;
      subscriptions, licenses, payments := db.subscriptions, db.licenses, db.payments;
      seen, published := db.seen, db.published;
    }

    method CheckoutCompletedHandler(data: Data)
      modifies this
      ensures Tables() == OnCheckout(world, old(Tables()), data)
    {
      if data.subscription == "" { return; }
      if data.orgEvent {
        if data.organization.None? { return; }
        if data.subscription !in licenses {
          licenses := licenses[data.subscription :=
            SeatLicense(data.organization.value, None, INCOMPLETE, 1, None, None, false)];
        }
        return;
      }
      var user := ResolveUser(world, data);
      if user.None? { return; }
      if data.subscription !in subscriptions {
        subscriptions := subscriptions[data.subscription :=
            Subscription(user.value, None, INCOMPLETE, None, None, false)];
      }
    }

    method PersonalUpsertHandler(data: Data)
      modifies this
      ensures Tables() == OnPersonalUpsert(world, old(Tables()), data)
    {
      var pending := data.id !in subscriptions;
      if pending {
        var user := ResolveUser(world, data);
        if user.None? { return; }
        subscriptions := subscriptions[data.id := Subscription(user.value, None, UNSET, None, None, false)];
      }
      var row := subscriptions[data.id];
      if data.planCode != "" && row.plan.None? {
        if pending {
          row := row.(status := INCOMPLETE);
        }
        if data.planCode in world.plans {
          row := row.(plan := Some(world.plans[data.planCode]));
        }
      }
      row := row.(status := data.status.GetOr(row.status));
      row := row.(periodEnd := data.periodEnd, trialEnd := data.trialEnd, cancelAtPeriodEnd := data.cancelAtPeriodEnd);
      subscriptions := subscriptions[data.id := row];
      published := published + [SubscriptionChanged(row.status)];
    }

    /** The row is filled in step by step; an unusable quantity raises, which undoes the early flush too. */
    method OrgUpsertHandler(data: Data) returns (ok: bool)
      modifies this
      ensures var result := OnOrgUpsert(world, old(Tables()), data);
              (ok <==> result.Some?) && Tables() == result.GetOr(old(Tables()))
    {
      var pending := data.id !in licenses;
      if pending && data.organization.None? { return true; }
      var row := if pending then SeatLicense(data.organization.value, None, UNSET, 0, None, None, false)
          else licenses[data.id];
      var current := if pending then None else Some(row.seats);
      if data.planCode != "" && row.plan.None? {
        if pending {
          row := row.(status := ACTIVE);
          current := Some(1);
        }
        if data.planCode in world.plans {
          row := row.(plan := Some(world.plans[data.planCode]));
        }
      }
      row := row.(status := data.status.GetOr(row.status));
      var seats := SeatsAfter(current, data.quantity);
      if seats.None? { return false; }
      row := row.(seats := seats.value);
      row := row.(periodEnd := data.periodEnd, trialEnd := data.trialEnd, cancelAtPeriodEnd := data.cancelAtPeriodEnd);
      licenses := licenses[data.id := row];
      published := published + [SubscriptionChanged(row.status)];
      return true;
    }

    method SetStatus(id: string, org: bool, status: string)
      requires if org then id in licenses else id in subscriptions
      modifies this
      ensures Tables() == WithStatus(old(Tables()), id, org, status)
    {
      if org {
        licenses := licenses[id := licenses[id].(status := status)];
      } else {
        subscriptions := subscriptions[id := subscriptions[id].(status := status)];
      }
      published := published + [SubscriptionChanged(status)];
    }

    method SubscriptionDeletedHandler(data: Data)
      modifies this
      ensures Tables() == OnDeleted(old(Tables()), data)
    {
      if data.orgEvent {
        if data.id in licenses { SetStatus(data.id, true, CANCELED); }
      } else if data.id in subscriptions {
        SetStatus(data.id, false, CANCELED);
      }
    }

    method InvoicePaidHandler(data: Data) returns (ok: bool)
      modifies this
      ensures var result := OnInvoicePaid(world, old(Tables()), data);
              (ok <==> result.Some?) && Tables() == result.GetOr(old(Tables()))
    {
      var user := ResolveUser(world, data);
      if user.None? { return true; }
      var intent := IntentOf(data);
      if Paid(payments, intent) { return true; }
      var amount := Amount(data.amountPaid);
      if amount.None? { return false; }
      payments := payments + [Payment(user.value, intent, data.id, amount.value,
                                      if data.currency != "" then data.currency else "usd", "succeeded", 0)];
      published := published + [PurchaseCompleted(amount.value)];
      return true;
    }

    method InvoiceFailedHandler(data: Data)
      modifies this
      ensures Tables() == OnInvoiceFailed(old(Tables()), data)
    {
      if data.subscription == "" { return; }
      if data.subscription in subscriptions {
        SetStatus(data.subscription, false, PAST_DUE);
        return;
      }
      if data.subscription in licenses {
        SetStatus(data.subscription, true, PAST_DUE);
      }
    }

    method ChargeRefundedHandler(data: Data) returns (ok: bool)
      modifies this
      ensures var result := OnChargeRefunded(old(Tables()), data);
              (ok <==> result.Some?) && Tables() == result.GetOr(old(Tables()))
    {
      if data.paymentIntent == "" || !Paid(payments, data.paymentIntent) { return true; }
      var amount := Amount(data.amountRefunded);
      if amount.None? { return false; }
      payments := Refunded(payments, data.paymentIntent, amount.value);
      published := published + [PaymentRefunded(amount.value)];
      return true;
    }

    method Dispatch(e: WebhookEvent) returns (ok: bool)
      modifies this
      ensures var result := Handle(world, old(Tables()), e.kind, e.data);
              (ok <==> result.Some?) && Tables() == result.GetOr(old(Tables()))
    {
      ok := true;
      match e.kind {
        case CheckoutCompleted => CheckoutCompletedHandler(e.data);
        case SubscriptionUpsert =>
          if e.data.id != "" {
            if e.data.orgEvent { ok := OrgUpsertHandler(e.data); } else { PersonalUpsertHandler(e.data); }
          }
        case SubscriptionDeleted => SubscriptionDeletedHandler(e.data);
        case InvoicePaid => ok := InvoicePaidHandler(e.data);
        case InvoiceFailed => InvoiceFailedHandler(e.data);
        case ChargeRefunded => ok := ChargeRefundedHandler(e.data);
        case Ignored =>
      }
    }

    method HandleWebhook(e: WebhookEvent)
      modifies this
      ensures Tables() == Process(world, old(Tables()), e)
    {
      if e.id == "" || e.id in seen { return; }
      var ok := Dispatch(e);
      if ok { seen := seen + [e.id]; }
    }
  }

  // ---- At-least-once delivery ----

  function ProcessAll(w: World, db: Db, deliveries: seq<WebhookEvent>): Db {
    if deliveries == [] then db
    else Process(w, ProcessAll(w, db, deliveries[..|deliveries| - 1]), deliveries[|deliveries| - 1])
  }

  /** The first successful delivery of each event, in order. */
  function Effective(w: World, db: Db, deliveries: seq<WebhookEvent>): seq<WebhookEvent> {
    if deliveries == [] then []
    else
      var front, e := deliveries[..|deliveries| - 1], deliveries[|deliveries| - 1];
      Effective(w, db, front) + if Fresh(w, ProcessAll(w, db, front), e) then [e] else []
  }

  /** The bare handlers, one after another, with no ledger lookups; None once a handler raises. */
  function HandleAll(w: World, db: Db, events: seq<WebhookEvent>): Option<Db> {
    if events == [] then Some(db)
    else
      var before := HandleAll(w, db, events[..|events| - 1]);
      var e := events[|events| - 1];
      if before.None? then None
      else match Handle(w, before.value, e.kind, e.data)
        case None => None
        case Some(after) => Some(Record(after, e.id))
  }

  function EventIds(events: seq<WebhookEvent>): seq<string> {
    seq(|events|, i requires 0 <= i < |events| => events[i].id)
  }

  lemma HandlersLeaveLedger(w: World, db: Db, kind: Kind, data: Data)
    requires Handle(w, db, kind, data).Some?
    ensures Handle(w, db, kind, data).value.seen == db.seen
  {
  }

  /** Exactly-once effect: whatever the deliveries, with repeats and failures, the tables are the plain
      handlers folded over the first successful delivery of each event; those have distinct ids and are
      what the ledger records; and every recorded id would be ignored if delivered again. */
  lemma {:induction false} DeliveriesCountOnce(w: World, db: Db, deliveries: seq<WebhookEvent>)
    requires db.seen == []
    ensures var effective := Effective(w, db, deliveries);
            HandleAll(w, db, effective) == Some(ProcessAll(w, db, deliveries)) &&
            ProcessAll(w, db, deliveries).seen == EventIds(effective) &&
            Distinct(EventIds(effective))
  {
    if deliveries != [] {
      var front, e := deliveries[..|deliveries| - 1], deliveries[|deliveries| - 1];
      DeliveriesCountOnce(w, db, front);
      var before := ProcessAll(w, db, front);
      var effective := Effective(w, db, front);
      if Fresh(w, before, e) {
        HandlersLeaveLedger(w, before, e.kind, e.data);
        var all := effective + [e];
        assert all[..|all| - 1] == effective;
        assert EventIds(all) == EventIds(effective) + [e.id];
      } else {
        assert effective + [] == effective;
      }
    }
  }

  /** Redelivering anything already processed, at any later time and any number of times, changes
      nothing. */
  lemma {:induction false} ReplaysAreNoOps(w: World, db: Db, deliveries: seq<WebhookEvent>, replays: seq<WebhookEvent>)
    requires forall i :: 0 <= i < |replays| ==> replays[i].id in ProcessAll(w, db, deliveries).seen
    ensures ProcessAll(w, db, deliveries + replays) == ProcessAll(w, db, deliveries)
  {
    if replays == [] {
      assert deliveries + replays == deliveries;
    } else {
      var front := replays[..|replays| - 1];
      ReplaysAreNoOps(w, db, deliveries, front);
      assert (deliveries + replays)[..|deliveries + replays| - 1] == deliveries + front;
    }
  }

  // ---- Payments ----

  function Received(payments: seq<Payment>): int {
    if payments == [] then 0 else Received(payments[..|payments| - 1]) + payments[|payments| - 1].amount
  }

  function Announced(published: seq<Published>): int {
    if published == [] then 0
    else Announced(published[..|published| - 1]) +
         if published[|published| - 1].PurchaseCompleted? then published[|published| - 1].amount else 0
  }

  ghost predicate OneRowPerIntent(payments: seq<Payment>) {
    forall i, j :: 0 <= i < j < |payments| ==> payments[i].intent != payments[j].intent
  }

  lemma {:induction false} RefundKeepsReceived(payments: seq<Payment>, intent: string, amount: int)
    ensures Received(Refunded(payments, intent, amount)) == Received(payments)
  {
    if payments != [] {
      var front := payments[..|payments| - 1];
      RefundKeepsReceived(front, intent, amount);
      var all := Refunded(payments, intent, amount);
      assert all[..|all| - 1] == Refunded(front, intent, amount);
    }
  }

  lemma AnnouncedAppend(published: seq<Published>, p: Published)
    ensures Announced(published + [p]) == Announced(published) + if p.PurchaseCompleted? then p.amount else 0
  {
    assert (published + [p])[..|published|] == published;
  }

  lemma ReceivedAppend(payments: seq<Payment>, p: Payment)
    ensures Received(payments + [p]) == Received(payments) + p.amount
  {
    assert (payments + [p])[..|payments|] == payments;
  }

  ghost predicate Balanced(db: Db) { OneRowPerIntent(db.payments) && Received(db.payments) == Announced(db.published) }

  lemma PaidKeepsBalance(w: World, db: Db, data: Data)
    requires Balanced(db) && OnInvoicePaid(w, db, data).Some?
    ensures Balanced(OnInvoicePaid(w, db, data).value)
  {
    var user := ResolveUser(w, data);
    if user.Some? && !Paid(db.payments, IntentOf(data)) {
      var amount := Amount(data.amountPaid).value;
      var payment := Payment(user.value, IntentOf(data), data.id, amount,
                             if data.currency != "" then data.currency else "usd", "succeeded", 0);
      NewPaymentBalances(db, payment);
    }
  }

  lemma NewPaymentBalances(db: Db, payment: Payment)
    requires Balanced(db) && !Paid(db.payments, payment.intent)
    ensures Balanced(db.(payments := db.payments + [payment],
                         published := db.published + [PurchaseCompleted(payment.amount)]))
  {
    ReceivedAppend(db.payments, payment);
    AnnouncedAppend(db.published, PurchaseCompleted(payment.amount));
  }

  lemma RefundKeepsBalance(db: Db, data: Data)
    requires Balanced(db) && OnChargeRefunded(db, data).Some?
    ensures Balanced(OnChargeRefunded(db, data).value)
  {
    if data.paymentIntent != "" && Paid(db.payments, data.paymentIntent) {
      var amount := Amount(data.amountRefunded).value;
      RefundKeepsReceived(db.payments, data.paymentIntent, amount);
      AnnouncedAppend(db.published, PaymentRefunded(amount));
    }
  }

  /** The other handlers touch no payment and announce at most a subscription change. */
  lemma QuietHandlers(w: World, db: Db, kind: Kind, data: Data)
    requires !kind.InvoicePaid? && !kind.ChargeRefunded? && Handle(w, db, kind, data).Some?
    ensures var next := Handle(w, db, kind, data).value;
            next.payments == db.payments &&
            (next.published == db.published ||
             exists status :: next.published == db.published + [SubscriptionChanged(status)])
  {
  }

  lemma HandleKeepsBalance(w: World, db: Db, kind: Kind, data: Data)
    requires Balanced(db) && Handle(w, db, kind, data).Some?
    ensures Balanced(Handle(w, db, kind, data).value)
  {
    match kind {
      case InvoicePaid => PaidKeepsBalance(w, db, data);
      case ChargeRefunded => RefundKeepsBalance(db, data);
      case _ =>
        QuietHandlers(w, db, kind, data);
        forall status
          ensures Announced(db.published + [SubscriptionChanged(status)]) == Announced(db.published)
        {
          AnnouncedAppend(db.published, SubscriptionChanged(status));
        }
    }
  }

  /** Money is counted once: after any deliveries there is one payment row per payment intent, and the
      purchase amounts announced to the rest of the platform add up to the stored amounts, refunds
      notwithstanding. */
  lemma {:induction false} PaymentsBalance(w: World, db: Db, deliveries: seq<WebhookEvent>)
    requires Balanced(db)
    ensures Balanced(ProcessAll(w, db, deliveries))
  {
    if deliveries != [] {
      var front, e := deliveries[..|deliveries| - 1], deliveries[|deliveries| - 1];
      PaymentsBalance(w, db, front);
      if Fresh(w, ProcessAll(w, db, front), e) {
        HandleKeepsBalance(w, ProcessAll(w, db, front), e.kind, e.data);
      }
    }
  }

  // ---- Subscription status ----

  /** The status an event gives a personal subscription, if it is about that one. */
  function StatusWritten(e: WebhookEvent, id: string): Option<string> {
    match e.kind
    case SubscriptionUpsert => if !e.data.orgEvent && e.data.id == id then e.data.status else None
    case SubscriptionDeleted => if !e.data.orgEvent && e.data.id == id then Some(CANCELED) else None
    case InvoiceFailed => if e.data.subscription == id then Some(PAST_DUE) else None
    case _ => None
  }

  /** The last status written by the events, or the one held before. */
  function LastStatus(events: seq<WebhookEvent>, id: string, before: string): string {
    if events == [] then before
    else StatusWritten(events[|events| - 1], id).GetOr(LastStatus(events[..|events| - 1], id, before))
  }

  lemma HandleWritesStatus(w: World, db: Db, e: WebhookEvent, id: string)
    requires id != "" && id in db.subscriptions && Handle(w, db, e.kind, e.data).Some?
    ensures var next := Handle(w, db, e.kind, e.data).value;
            id in next.subscriptions && next.subscriptions[id].user == db.subscriptions[id].user &&
            next.subscriptions[id].status == StatusWritten(e, id).GetOr(db.subscriptions[id].status)
  {
  }

  /** A known personal subscription belongs to one user for good, and after any deliveries its status is
      the one written by the last effective event about it; repeats and failures do not count. */
  lemma {:induction false} StatusIsLastWritten(w: World, db: Db, deliveries: seq<WebhookEvent>, id: string)
    requires id != "" && id in db.subscriptions
    ensures var after := ProcessAll(w, db, deliveries);
            id in after.subscriptions && after.subscriptions[id].user == db.subscriptions[id].user &&
            after.subscriptions[id].status == LastStatus(Effective(w, db, deliveries), id, db.subscriptions[id].status)
  {
    if deliveries != [] {
      var front, e := deliveries[..|deliveries| - 1], deliveries[|deliveries| - 1];
      StatusIsLastWritten(w, db, front, id);
      var effective := Effective(w, db, front);
      if Fresh(w, ProcessAll(w, db, front), e) {
        HandleWritesStatus(w, ProcessAll(w, db, front), e, id);
        assert (effective + [e])[..|effective|] == effective;
      } else {
        assert effective + [] == effective;
      }
    }
  }

  // ---- Out-of-order delivery ----

  function Settle(w: World, db: Db, kind: Kind, data: Data): Db { Handle(w, db, kind, data).GetOr(db) }

  function CheckoutFirst(w: World, db: Db, checkout: Data, upsert: Data): Db {
    Settle(w, Settle(w, db, CheckoutCompleted, checkout), SubscriptionUpsert, upsert)
  }

  function UpsertFirst(w: World, db: Db, checkout: Data, upsert: Data): Db {
    Settle(w, Settle(w, db, SubscriptionUpsert, upsert), CheckoutCompleted, checkout)
  }

  /** The upsert says nothing that a row just created by checkout does not already say. */
  predicate SaysNothing(w: World, upsert: Data) {
    PlanAfter(w, None, upsert).None? && upsert.status.GetOr(INCOMPLETE) == INCOMPLETE &&
    upsert.periodEnd.None? && upsert.trialEnd.None? && !upsert.cancelAtPeriodEnd
  }

  /** Checkable before delivery: the row exists already, the checkout would be ignored, or both events
      would create the same row. */
  predicate PersonalOrderIrrelevant(w: World, db: Db, checkout: Data, upsert: Data) {
    var buyer, owner := ResolveUser(w, checkout), ResolveUser(w, upsert);
    upsert.id in db.subscriptions || buyer.None? ||
    (if owner.None? then SaysNothing(w, upsert) else buyer == owner && (upsert.status.Some? || FlushesEarly(upsert)))
  }

  /** Personal subscriptions: checkout and upsert of one subscription leave the same rows in either
      order if and only if the condition holds; in particular always when both name the same customer
      and the upsert carries a status or a plan code, as those of the platform's own checkouts do. */
  lemma PersonalConfluence(w: World, db: Db, checkout: Data, upsert: Data)
    requires checkout.subscription == upsert.id != "" && !checkout.orgEvent && !upsert.orgEvent
    ensures var a, b := CheckoutFirst(w, db, checkout, upsert), UpsertFirst(w, db, checkout, upsert);
            (a.subscriptions == b.subscriptions <==> PersonalOrderIrrelevant(w, db, checkout, upsert)) &&
            a.licenses == b.licenses == db.licenses && a.payments == b.payments == db.payments
  {
    PersonalTouchesSubscriptionsOnly(w, db, checkout, upsert);
    if upsert.id in db.subscriptions || ResolveUser(w, checkout).None? {
      PersonalSettled(w, db, checkout, upsert);
    } else {
      PersonalRows(w, db, checkout, upsert);
      PersonalRowsAgree(w, ResolveUser(w, checkout).value, ResolveUser(w, upsert), upsert);
      var a, b := CheckoutFirst(w, db, checkout, upsert), UpsertFirst(w, db, checkout, upsert);
      assert a.subscriptions == b.subscriptions <==> a.subscriptions[upsert.id] == b.subscriptions[upsert.id];
    }
  }

  /** A checkout that is ignored, or finds its row, makes no difference to the order. */
  lemma PersonalSettled(w: World, db: Db, checkout: Data, upsert: Data)
    requires checkout.subscription == upsert.id != "" && !checkout.orgEvent && !upsert.orgEvent
    requires upsert.id in db.subscriptions || ResolveUser(w, checkout).None?
    ensures CheckoutFirst(w, db, checkout, upsert).subscriptions == UpsertFirst(w, db, checkout, upsert).subscriptions
  {
  }

  lemma PersonalTouchesSubscriptionsOnly(w: World, db: Db, checkout: Data, upsert: Data)
    requires !checkout.orgEvent && !upsert.orgEvent
    ensures var a, b := CheckoutFirst(w, db, checkout, upsert), UpsertFirst(w, db, checkout, upsert);
            a.licenses == b.licenses == db.licenses && a.payments == b.payments == db.payments
  {
    PersonalStepTouchesSubscriptionsOnly(w, db, CheckoutCompleted, checkout);
    PersonalStepTouchesSubscriptionsOnly(w, db, SubscriptionUpsert, upsert);
    PersonalStepTouchesSubscriptionsOnly(w, Settle(w, db, CheckoutCompleted, checkout), SubscriptionUpsert, upsert);
    PersonalStepTouchesSubscriptionsOnly(w, Settle(w, db, SubscriptionUpsert, upsert), CheckoutCompleted, checkout);
  }

  lemma PersonalStepTouchesSubscriptionsOnly(w: World, db: Db, kind: Kind, data: Data)
    requires !data.orgEvent && (kind.CheckoutCompleted? || kind.SubscriptionUpsert?)
    ensures Settle(w, db, kind, data).licenses == db.licenses && Settle(w, db, kind, data).payments == db.payments
  {
  }

  /** The row a bare checkout leaves. */
  function BareSubscription(user: int): Subscription { Subscription(user, None, INCOMPLETE, None, None, false) }

  /** When the two orders make the same row. */
  lemma PersonalRowsAgree(w: World, buyer: int, owner: Option<int>, upsert: Data)
    ensures Updated(w, BareSubscription(buyer), upsert) ==
            (if owner.Some? then Updated(w, AddedSubscription(owner.value, upsert), upsert)
             else BareSubscription(buyer))
            <==>
            (if owner.None? then SaysNothing(w, upsert)
             else owner == Some(buyer) && (upsert.status.Some? || FlushesEarly(upsert)))
  {
    assert INCOMPLETE[0] != UNSET[0];
  }

  /** The rows after each order, when none existed before and the checkout names a user. */
  lemma PersonalRows(w: World, db: Db, checkout: Data, upsert: Data)
    requires checkout.subscription == upsert.id != "" && !checkout.orgEvent && !upsert.orgEvent
    requires upsert.id !in db.subscriptions && ResolveUser(w, checkout).Some?
    ensures var bare := BareSubscription(ResolveUser(w, checkout).value);
            var owner := ResolveUser(w, upsert);
            CheckoutFirst(w, db, checkout, upsert).subscriptions ==
                db.subscriptions[upsert.id := Updated(w, bare, upsert)] &&
            UpsertFirst(w, db, checkout, upsert).subscriptions == db.subscriptions[upsert.id :=
              if owner.Some? then Updated(w, AddedSubscription(owner.value, upsert), upsert) else bare]
  {
  }

  /** The quantity names a number of seats by itself. */
  predicate NamesSeats(quantity: IntField) { quantity.Number? && quantity.n != 0 }

  /** An upsert of an unknown subscription can tell how many seats it has. */
  predicate KnowsSeats(data: Data) { FlushesEarly(data) || NamesSeats(data.quantity) }

  predicate OrgOrderIrrelevant(w: World, db: Db, checkout: Data, upsert: Data) {
    upsert.id in db.licenses || checkout.organization.None? || upsert.quantity.Garbage? ||
    (if upsert.organization.Some? && KnowsSeats(upsert)
     then checkout.organization == upsert.organization && upsert.status.Some?
     else SaysNothing(w, upsert) && SeatsAfter(Some(1), upsert.quantity) == Some(1))
  }

  /** The row a bare checkout leaves, and what an upsert makes of a row. */
  function BareLicense(organization: int): SeatLicense {
    SeatLicense(organization, None, INCOMPLETE, 1, None, None, false)
  }

  function Projected(w: World, row: SeatLicense, seats: int, data: Data): SeatLicense {
    SeatLicense(row.organization, PlanAfter(w, row.plan, data), data.status.GetOr(row.status), seats,
                data.periodEnd, data.trialEnd, data.cancelAtPeriodEnd)
  }

  /** The rows after each order, when neither existed before and the checkout names an organization. */
  lemma OrgRows(w: World, db: Db, checkout: Data, upsert: Data)
    requires checkout.subscription == upsert.id != "" && checkout.orgEvent && upsert.orgEvent
    requires upsert.id !in db.licenses && checkout.organization.Some?
    ensures var bare := BareLicense(checkout.organization.value);
            var a, b := CheckoutFirst(w, db, checkout, upsert), UpsertFirst(w, db, checkout, upsert);
            var seats := SeatsAfter(Some(1), upsert.quantity);
            a.licenses == db.licenses[upsert.id :=
              if seats.None? then bare else Projected(w, bare, seats.value, upsert)] &&
            b.licenses == db.licenses[upsert.id :=
              if upsert.organization.Some? && KnowsSeats(upsert) && seats.Some?
              then Projected(w, AddedLicense(upsert.organization.value, upsert), seats.value, upsert)
              else bare]
  {
    var id := upsert.id;
    var first := OnCheckout(w, db, checkout);
    assert first.licenses == db.licenses[id := BareLicense(checkout.organization.value)];
    var upserted := OnOrgUpsert(w, db, upsert);
    if upserted.Some? && upserted.value.licenses != db.licenses {
      assert id in upserted.value.licenses;
    }
  }

  /** Organization seats: the same, where the upsert must also know its seats, and needs a status even with
      a plan code: the default status of a license is not the one a checkout gives it. */
  lemma OrgConfluence(w: World, db: Db, checkout: Data, upsert: Data)
    requires checkout.subscription == upsert.id != "" && checkout.orgEvent && upsert.orgEvent
    ensures var a, b := CheckoutFirst(w, db, checkout, upsert), UpsertFirst(w, db, checkout, upsert);
            (a.licenses == b.licenses <==> OrgOrderIrrelevant(w, db, checkout, upsert)) &&
            a.subscriptions == b.subscriptions == db.subscriptions && a.payments == b.payments == db.payments
  {
    OrgTouchesLicensesOnly(w, db, checkout, upsert);
    assert INCOMPLETE[0] != UNSET[0];
    if upsert.id in db.licenses || checkout.organization.None? {
      assert CheckoutFirst(w, db, checkout, upsert).licenses == UpsertFirst(w, db, checkout, upsert).licenses;
    } else {
      OrgRows(w, db, checkout, upsert);
      var a, b := CheckoutFirst(w, db, checkout, upsert), UpsertFirst(w, db, checkout, upsert);
      assert a.licenses == b.licenses <==> a.licenses[upsert.id] == b.licenses[upsert.id];
    }
  }

  lemma OrgTouchesLicensesOnly(w: World, db: Db, checkout: Data, upsert: Data)
    requires checkout.orgEvent && upsert.orgEvent
    ensures var a, b := CheckoutFirst(w, db, checkout, upsert), UpsertFirst(w, db, checkout, upsert);
            a.subscriptions == b.subscriptions == db.subscriptions && a.payments == b.payments == db.payments
  {
    OrgStepTouchesLicensesOnly(w, db, CheckoutCompleted, checkout);
    OrgStepTouchesLicensesOnly(w, db, SubscriptionUpsert, upsert);
    OrgStepTouchesLicensesOnly(w, Settle(w, db, CheckoutCompleted, checkout), SubscriptionUpsert, upsert);
    OrgStepTouchesLicensesOnly(w, Settle(w, db, SubscriptionUpsert, upsert), CheckoutCompleted, checkout);
  }

  lemma OrgStepTouchesLicensesOnly(w: World, db: Db, kind: Kind, data: Data)
    requires data.orgEvent && (kind.CheckoutCompleted? || kind.SubscriptionUpsert?)
    ensures Settle(w, db, kind, data).subscriptions == db.subscriptions &&
            Settle(w, db, kind, data).payments == db.payments
  {
  }
}
