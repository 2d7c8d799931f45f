/** Every billing row, in terms of the events that were delivered about it
    (backend/app/modules/commerce/service.py). Nothing here refers to the handlers: a row is described by
    the first or the last effective event of a kind. */
module WebhookHistory {
  import opened Wrappers
  import opened Webhooks

  /** The payload names this user: through a known customer, or else by reference. */
  predicate Names(w: World, data: Data, user: int) {
    if data.customer != "" && data.customer in w.customers then w.customers[data.customer] == user
    else data.reference == Some(user)
  }

  /** The amount a field stands for; a missing one counts as zero. */
  predicate Means(field: IntField, amount: int) { field == Number(amount) || (field.Missing? && amount == 0) }

  // ---- Payments ----

  /** `e` is a paid invoice with this intent; an invoice without one is known by its own id. */
  ghost predicate Bills(w: World, e: WebhookEvent, intent: string) {
    && e.kind.InvoicePaid? && (exists user :: Names(w, e.data, user))
    && intent == (if e.data.paymentIntent == "" then "inv:" + e.data.id else e.data.paymentIntent)
    && !e.data.amountPaid.Garbage?
  }

  /** The payment `r` says what the paid invoice `e` says. */
  predicate RecordedFrom(w: World, e: WebhookEvent, r: Payment) {
    && Names(w, e.data, r.user) && Means(e.data.amountPaid, r.amount) && r.invoice == e.data.id
    && r.currency == if e.data.currency == "" then "usd" else e.data.currency
  }

  predicate Refunds(e: WebhookEvent, intent: string) {
    e.kind.ChargeRefunded? && intent != "" && e.data.paymentIntent == intent && !e.data.amountRefunded.Garbage?
  }

  /** The payment of this intent was made by the `i`-th event, the first paid invoice with that intent, and
      bears the mark of the last refund after it. */
  ghost predicate PaidBy(w: World, es: seq<WebhookEvent>, intent: string, r: Payment, i: nat) {
    && i < |es| && Bills(w, es[i], intent) && RecordedFrom(w, es[i], r)
    && (forall j :: 0 <= j < i ==> !Bills(w, es[j], intent))
    && ((r.status == "succeeded" && r.refunded == 0 && forall j :: i < j < |es| ==> !Refunds(es[j], intent)) ||
        (r.status == "refunded" &&
         exists j: nat :: LastRefundAt(es, intent, i, j) && Means(es[j].data.amountRefunded, r.refunded)))
  }

  ghost predicate LastRefundAt(es: seq<WebhookEvent>, intent: string, i: nat, j: nat) {
    i < j < |es| && Refunds(es[j], intent) && forall k :: j < k < |es| ==> !Refunds(es[k], intent)
  }

  predicate HasPayment(payments: seq<Payment>, intent: string) {
    exists k :: 0 <= k < |payments| && payments[k].intent == intent
  }

  /** The payments of one intent agree with the events. */
  ghost predicate PaymentsOk(w: World, es: seq<WebhookEvent>, payments: seq<Payment>, intent: string) {
    && (HasPayment(payments, intent) <==> exists i :: 0 <= i < |es| && Bills(w, es[i], intent))
    && forall k :: 0 <= k < |payments| && payments[k].intent == intent ==>
         exists i: nat :: PaidBy(w, es, intent, payments[k], i)
  }

  lemma BillsAppend(w: World, es: seq<WebhookEvent>, e: WebhookEvent, intent: string)
    ensures (exists i :: 0 <= i < |es + [e]| && Bills(w, (es + [e])[i], intent)) <==>
            Bills(w, e, intent) || exists i :: 0 <= i < |es| && Bills(w, es[i], intent)
  {
    var all := es + [e];
    if Bills(w, e, intent) { assert all[|es|] == e; }
    if i :| 0 <= i < |es| && Bills(w, es[i], intent) { assert all[i] == es[i]; }
  }

  lemma PaidByAppend(w: World, es: seq<WebhookEvent>, e: WebhookEvent, intent: string, r: Payment, i: nat)
    requires PaidBy(w, es, intent, r, i) && !Refunds(e, intent)
    ensures PaidBy(w, es + [e], intent, r, i)
  {
    var all := es + [e];
    assert forall j :: 0 <= j < |es| ==> all[j] == es[j];
    if j: nat :| LastRefundAt(es, intent, i, j) && Means(es[j].data.amountRefunded, r.refunded) {
      assert LastRefundAt(all, intent, i, j);
    }
  }

  lemma PaidByRefunded(
      w: World, es: seq<WebhookEvent>, e: WebhookEvent, intent: string, r: Payment, i: nat, amount: int)
    requires PaidBy(w, es, intent, r, i) && Refunds(e, intent) && Means(e.data.amountRefunded, amount)
    ensures PaidBy(w, es + [e], intent, r.(status := "refunded", refunded := amount), i)
  {
    var all := es + [e];
    assert forall j :: 0 <= j < |es| ==> all[j] == es[j];
    assert LastRefundAt(all, intent, i, |es|);
  }

  /** The event leaves the payments of this intent alone. */
  lemma UnpaidStep(w: World, es: seq<WebhookEvent>, e: WebhookEvent, payments: seq<Payment>, intent: string)
    requires PaymentsOk(w, es, payments, intent) && (Bills(w, e, intent) ==> HasPayment(payments, intent))
    requires Refunds(e, intent) ==> !HasPayment(payments, intent)
    ensures PaymentsOk(w, es + [e], payments, intent)
  {
    BillsAppend(w, es, e, intent);
    forall k | 0 <= k < |payments| && payments[k].intent == intent
      ensures exists i: nat :: PaidBy(w, es + [e], intent, payments[k], i)
    {
      var i: nat :| PaidBy(w, es, intent, payments[k], i);
      PaidByAppend(w, es, e, intent, payments[k], i);
    }
  }

  lemma PaidStep(w: World, es: seq<WebhookEvent>, e: WebhookEvent, payments: seq<Payment>, intent: string, r: Payment)
    requires PaymentsOk(w, es, payments, intent) && !HasPayment(payments, intent) && Bills(w, e, intent)
    requires r.intent == intent && RecordedFrom(w, e, r) && r.status == "succeeded" && r.refunded == 0
    ensures PaymentsOk(w, es + [e], payments + [r], intent)
  {
    BillsAppend(w, es, e, intent);
    assert (payments + [r])[|payments|] == r;
    assert (es + [e])[|es|] == e;
    assert forall j :: 0 <= j < |es| ==> (es + [e])[j] == es[j] && !Bills(w, es[j], intent);
    assert PaidBy(w, es + [e], intent, r, |es|);
    forall k | 0 <= k < |payments + [r]| && (payments + [r])[k].intent == intent
      ensures exists i: nat :: PaidBy(w, es + [e], intent, (payments + [r])[k], i)
    {
      assert k == |payments|;
    }
  }

  lemma OtherPaidStep(
      w: World, es: seq<WebhookEvent>, e: WebhookEvent, payments: seq<Payment>, intent: string, r: Payment)
    requires PaymentsOk(w, es, payments, intent) && r.intent != intent && !Bills(w, e, intent) && !Refunds(e, intent)
    ensures PaymentsOk(w, es + [e], payments + [r], intent)
  {
    UnpaidStep(w, es, e, payments, intent);
    var all := payments + [r];
    assert forall k :: 0 <= k < |payments| ==> all[k] == payments[k];
    assert HasPayment(all, intent) <==> HasPayment(payments, intent) by {
      if HasPayment(payments, intent) {
        var k :| 0 <= k < |payments| && payments[k].intent == intent;
        assert all[k].intent == intent;
      }
    }
  }

  lemma RefundStep(w: World, es: seq<WebhookEvent>, e: WebhookEvent, payments: seq<Payment>, intent: string,
                   refunded: string, amount: int)
    requires PaymentsOk(w, es, payments, intent) && Means(e.data.amountRefunded, amount)
    requires refunded == intent ==> Refunds(e, intent)
    requires refunded != intent ==> !Refunds(e, intent)
    requires !Bills(w, e, intent)
    ensures PaymentsOk(w, es + [e], Refunded(payments, refunded, amount), intent)
  {
    var after := Refunded(payments, refunded, amount);
    BillsAppend(w, es, e, intent);
    assert forall k :: 0 <= k < |payments| ==> after[k].intent == payments[k].intent;
    assert HasPayment(after, intent) <==> HasPayment(payments, intent) by {
      if HasPayment(payments, intent) {
        var k :| 0 <= k < |payments| && payments[k].intent == intent;
        assert after[k].intent == intent;
      }
    }
    forall k | 0 <= k < |after| && after[k].intent == intent
      ensures exists i: nat :: PaidBy(w, es + [e], intent, after[k], i)
    {
      var i: nat :| PaidBy(w, es, intent, payments[k], i);
      if refunded == intent {
        PaidByRefunded(w, es, e, intent, payments[k], i, amount);
      } else {
        PaidByAppend(w, es, e, intent, payments[k], i);
      }
    }
  }

  lemma ResolvedIsNamed(w: World, data: Data, user: int)
    ensures ResolveUser(w, data) == Some(user) <==> Names(w, data, user)
  {
  }

  lemma PaidHandled(w: World, es: seq<WebhookEvent>, db: Db, e: WebhookEvent, intent: string)
    requires e.kind.InvoicePaid? && Handle(w, db, e.kind, e.data).Some? && PaymentsOk(w, es, db.payments, intent)
    ensures PaymentsOk(w, es + [e], Handle(w, db, e.kind, e.data).value.payments, intent)
  {
    var user := ResolveUser(w, e.data);
    if user.Some? { ResolvedIsNamed(w, e.data, user.value); }
    forall u ensures Names(w, e.data, u) ==> user == Some(u) { ResolvedIsNamed(w, e.data, u); }
    var of := IntentOf(e.data);
    assert Paid(db.payments, of) <==> HasPayment(db.payments, of);
    if user.None? || Paid(db.payments, of) {
      UnpaidStep(w, es, e, db.payments, intent);
    } else {
      var amount := Amount(e.data.amountPaid).value;
      var r := Payment(user.value, of, e.data.id, amount, if e.data.currency != "" then e.data.currency else "usd",
                       "succeeded", 0);
      assert Handle(w, db, e.kind, e.data).value.payments == db.payments + [r];
      if of == intent {
        PaidStep(w, es, e, db.payments, intent, r);
      } else {
        OtherPaidStep(w, es, e, db.payments, intent, r);
      }
    }
  }

  lemma RefundHandled(w: World, es: seq<WebhookEvent>, db: Db, e: WebhookEvent, intent: string)
    requires e.kind.ChargeRefunded? && Handle(w, db, e.kind, e.data).Some? && PaymentsOk(w, es, db.payments, intent)
    ensures PaymentsOk(w, es + [e], Handle(w, db, e.kind, e.data).value.payments, intent)
  {
    var of := e.data.paymentIntent;
    assert Paid(db.payments, of) <==> HasPayment(db.payments, of);
    if of == "" || !Paid(db.payments, of) {
      UnpaidStep(w, es, e, db.payments, intent);
    } else {
      RefundStep(w, es, e, db.payments, intent, of, Amount(e.data.amountRefunded).value);
    }
  }

  lemma PaymentHandled(w: World, es: seq<WebhookEvent>, db: Db, e: WebhookEvent, intent: string)
    requires Handle(w, db, e.kind, e.data).Some? && PaymentsOk(w, es, db.payments, intent)
    ensures PaymentsOk(w, es + [e], Handle(w, db, e.kind, e.data).value.payments, intent)
  {
    match e.kind {
      case InvoicePaid => PaidHandled(w, es, db, e, intent);
      case ChargeRefunded => RefundHandled(w, es, db, e, intent);
      case _ =>
        QuietHandlers(w, db, e.kind, e.data);
        UnpaidStep(w, es, e, db.payments, intent);
    }
  }

  /** The life of a payment, for every run of deliveries: there is a payment of an intent exactly when some
      effective paid invoice bears it; it says what the first of those says about user, amount, currency and
      invoice; and it is marked refunded, with its amount, by the last effective refund of that intent after
      it. No event about another intent makes a difference. */
  lemma {:induction false} PaymentHistory(w: World, db: Db, deliveries: seq<WebhookEvent>, intent: string)
    requires !HasPayment(db.payments, intent)
    ensures PaymentsOk(w, Effective(w, db, deliveries), ProcessAll(w, db, deliveries).payments, intent)
  {
    if deliveries != [] {
      var front, e := deliveries[..|deliveries| - 1], deliveries[|deliveries| - 1];
      PaymentHistory(w, db, front, intent);
      if Fresh(w, ProcessAll(w, db, front), e) {
        PaymentHandled(w, Effective(w, db, front), ProcessAll(w, db, front), e, intent);
      } else {
        assert Effective(w, db, front) + [] == Effective(w, db, front);
      }
    }
  }

  // ---- Subscriptions and seat licenses ----

  /** What both kinds of row carry besides their owner, status and seats. */
  datatype Terms = Terms(plan: Option<int>, periodEnd: Option<int>, trialEnd: Option<int>, cancelAtPeriodEnd: bool)

  function TermsOf(s: Subscription): Terms { Terms(s.plan, s.periodEnd, s.trialEnd, s.cancelAtPeriodEnd) }

  function LicenseTerms(l: SeatLicense): Terms { Terms(l.plan, l.periodEnd, l.trialEnd, l.cancelAtPeriodEnd) }

  /** `e` is a subscription event about this id, personal or of an organization. */
  predicate Updates(e: WebhookEvent, id: string, org: bool) {
    e.kind.SubscriptionUpsert? && e.data.id == id && e.data.orgEvent == org
  }

  predicate LastUpdateAt(es: seq<WebhookEvent>, id: string, org: bool, i: nat) {
    i < |es| && Updates(es[i], id, org) && forall j :: i < j < |es| ==> !Updates(es[j], id, org)
  }

  /** `e` names a plan the platform knows. */
  predicate Plans(w: World, e: WebhookEvent, id: string, org: bool) {
    Updates(e, id, org) && e.data.planCode != "" && e.data.planCode in w.plans
  }

  predicate FirstPlanAt(w: World, es: seq<WebhookEvent>, id: string, org: bool, i: nat) {
    i < |es| && Plans(w, es[i], id, org) && forall j :: 0 <= j < i ==> !Plans(w, es[j], id, org)
  }

  /** The terms `now` of a row that had the terms `before`, told from the events: the period fields are those
      of the last update; the plan is the one it had, else the first known one an update named. */
  ghost predicate TermsFollow(
      w: World, es: seq<WebhookEvent>, id: string, org: bool, before: Terms, now: Terms)
  {
    && ((forall i :: 0 <= i < |es| ==> !Updates(es[i], id, org)) ==> now == before)
    && (forall i: nat :: LastUpdateAt(es, id, org, i) ==>
          now.periodEnd == es[i].data.periodEnd && now.trialEnd == es[i].data.trialEnd &&
          now.cancelAtPeriodEnd == es[i].data.cancelAtPeriodEnd)
    && (before.plan.Some? ==> now.plan == before.plan)
    && (before.plan.None? && (forall i :: 0 <= i < |es| ==> !Plans(w, es[i], id, org)) ==> now.plan.None?)
    && (before.plan.None? ==>
          forall i: nat :: FirstPlanAt(w, es, id, org, i) ==> now.plan == Some(w.plans[es[i].data.planCode]))
  }

  lemma NothingFollows(w: World, id: string, org: bool, before: Terms)
    ensures TermsFollow(w, [], id, org, before, before)
  {
  }

  /** What one update does to the terms of a known row. */
  predicate Retermed(w: World, e: WebhookEvent, now: Terms, next: Terms) {
    && next.periodEnd == e.data.periodEnd && next.trialEnd == e.data.trialEnd
    && next.cancelAtPeriodEnd == e.data.cancelAtPeriodEnd
    && next.plan == if now.plan.None? && e.data.planCode != "" && e.data.planCode in w.plans
                    then Some(w.plans[e.data.planCode]) else now.plan
  }

  lemma UpdateFollows(
      w: World, es: seq<WebhookEvent>, e: WebhookEvent, id: string, org: bool, before: Terms, now: Terms, next: Terms)
    requires TermsFollow(w, es, id, org, before, now) && Updates(e, id, org) && Retermed(w, e, now, next)
    ensures TermsFollow(w, es + [e], id, org, before, next)
  {
    var all := es + [e];
    assert all[|es|] == e && forall j :: 0 <= j < |es| ==> all[j] == es[j];
    assert !forall i :: 0 <= i < |all| ==> !Updates(all[i], id, org);
    forall i: nat | LastUpdateAt(all, id, org, i) ensures i == |es| {
    }
    PlanFollows(w, es, e, id, org, before, now, next);
  }

  lemma PlanFollows(
      w: World, es: seq<WebhookEvent>, e: WebhookEvent, id: string, org: bool, before: Terms, now: Terms, next: Terms)
    requires TermsFollow(w, es, id, org, before, now) && Updates(e, id, org) && Retermed(w, e, now, next)
    ensures before.plan.Some? ==> next.plan == before.plan
    ensures before.plan.None? && (forall i :: 0 <= i < |es + [e]| ==> !Plans(w, (es + [e])[i], id, org)) ==>
              next.plan.None?
    ensures before.plan.None? ==>
              forall i: nat :: FirstPlanAt(w, es + [e], id, org, i) ==>
                next.plan == Some(w.plans[(es + [e])[i].data.planCode])
  {
    var all := es + [e];
    assert all[|es|] == e && forall j :: 0 <= j < |es| ==> all[j] == es[j];
    if before.plan.None? {
      if forall i :: 0 <= i < |es| ==> !Plans(w, es[i], id, org) {
        forall i: nat | FirstPlanAt(w, all, id, org, i) ensures i == |es| {
        }
      } else {
        SomeFirstPlan(w, es, id, org);
        var k: nat :| FirstPlanAt(w, es, id, org, k);
        forall i: nat | FirstPlanAt(w, all, id, org, i) ensures i == k {
          assert Plans(w, all[k], id, org);
        }
      }
    }
  }

  lemma {:induction false} SomeFirstPlan(w: World, es: seq<WebhookEvent>, id: string, org: bool)
    requires exists i :: 0 <= i < |es| && Plans(w, es[i], id, org)
    ensures exists i: nat :: FirstPlanAt(w, es, id, org, i)
  {
    var front := es[..|es| - 1];
    if i :| 0 <= i < |front| && Plans(w, front[i], id, org) {
      SomeFirstPlan(w, front, id, org);
      var k: nat :| FirstPlanAt(w, front, id, org, k);
      assert FirstPlanAt(w, es, id, org, k);
    } else {
      forall j | 0 <= j < |es| - 1 ensures !Plans(w, es[j], id, org) { assert es[j] == front[j]; }
      assert FirstPlanAt(w, es, id, org, |es| - 1);
    }
  }

  lemma OtherFollows(
      w: World, es: seq<WebhookEvent>, e: WebhookEvent, id: string, org: bool, before: Terms, now: Terms)
    requires TermsFollow(w, es, id, org, before, now) && !Updates(e, id, org)
    ensures TermsFollow(w, es + [e], id, org, before, now)
  {
    var all := es + [e];
    assert all[|es|] == e && forall j :: 0 <= j < |es| ==> all[j] == es[j];
    if forall i :: 0 <= i < |all| ==> !Updates(all[i], id, org) {
      assert forall i :: 0 <= i < |es| ==> !Updates(es[i], id, org);
    }
    forall i: nat | LastUpdateAt(all, id, org, i) ensures LastUpdateAt(es, id, org, i) {
      assert forall j :: i < j < |es| ==> all[j] == es[j];
    }
    if forall i :: 0 <= i < |all| ==> !Plans(w, all[i], id, org) {
      assert forall i :: 0 <= i < |es| ==> !Plans(w, es[i], id, org);
    }
    forall i: nat | FirstPlanAt(w, all, id, org, i) ensures FirstPlanAt(w, es, id, org, i) {
      assert forall j :: 0 <= j < i ==> all[j] == es[j];
    }
  }

  lemma SubscriptionRetermed(w: World, db: Db, e: WebhookEvent, id: string)
    requires id != "" && id in db.subscriptions && Handle(w, db, e.kind, e.data).Some?
    ensures var next := Handle(w, db, e.kind, e.data).value;
            id in next.subscriptions &&
            var now, later := TermsOf(db.subscriptions[id]), TermsOf(next.subscriptions[id]);
            if Updates(e, id, false) then Retermed(w, e, now, later) else later == now
  {
  }

  /** The terms of a known personal subscription follow the effective events about it. */
  lemma {:induction false} SubscriptionTermsFollow(w: World, db: Db, deliveries: seq<WebhookEvent>, id: string)
    requires id != "" && id in db.subscriptions
    ensures var after := ProcessAll(w, db, deliveries);
            id in after.subscriptions &&
            TermsFollow(w, Effective(w, db, deliveries), id, false, TermsOf(db.subscriptions[id]),
                        TermsOf(after.subscriptions[id]))
  {
    var before := TermsOf(db.subscriptions[id]);
    if deliveries == [] {
      NothingFollows(w, id, false, before);
    } else {
      var front, e := deliveries[..|deliveries| - 1], deliveries[|deliveries| - 1];
      SubscriptionTermsFollow(w, db, front, id);
      var mid, es := ProcessAll(w, db, front), Effective(w, db, front);
      if Fresh(w, mid, e) {
        SubscriptionRetermed(w, mid, e, id);
        var now := TermsOf(mid.subscriptions[id]);
        if Updates(e, id, false) {
          UpdateFollows(w, es, e, id, false, before, now,
                        TermsOf(Handle(w, mid, e.kind, e.data).value.subscriptions[id]));
        } else {
          OtherFollows(w, es, e, id, false, before, now);
        }
      } else {
        assert es + [] == es;
      }
    }
  }

  lemma LicenseRetermed(w: World, db: Db, e: WebhookEvent, id: string)
    requires id != "" && id in db.licenses && Handle(w, db, e.kind, e.data).Some?
    ensures var next := Handle(w, db, e.kind, e.data).value;
            id in next.licenses && next.licenses[id].organization == db.licenses[id].organization &&
            (if Updates(e, id, true) then Retermed(w, e, LicenseTerms(db.licenses[id]), LicenseTerms(next.licenses[id]))
             else LicenseTerms(next.licenses[id]) == LicenseTerms(db.licenses[id]))
  {
  }

  /** A known license belongs to one organization for good and its terms follow the effective events. */
  lemma {:induction false} LicenseTermsFollow(w: World, db: Db, deliveries: seq<WebhookEvent>, id: string)
    requires id != "" && id in db.licenses
    ensures var after := ProcessAll(w, db, deliveries);
            id in after.licenses && after.licenses[id].organization == db.licenses[id].organization &&
            TermsFollow(w, Effective(w, db, deliveries), id, true, LicenseTerms(db.licenses[id]),
                        LicenseTerms(after.licenses[id]))
  {
    var before := LicenseTerms(db.licenses[id]);
    if deliveries == [] {
      NothingFollows(w, id, true, before);
    } else {
      var front, e := deliveries[..|deliveries| - 1], deliveries[|deliveries| - 1];
      LicenseTermsFollow(w, db, front, id);
      var mid, es := ProcessAll(w, db, front), Effective(w, db, front);
      if Fresh(w, mid, e) {
        LicenseRetermed(w, mid, e, id);
        var now := LicenseTerms(mid.licenses[id]);
        if Updates(e, id, true) {
          UpdateFollows(w, es, e, id, true, before, now,
                        LicenseTerms(Handle(w, mid, e.kind, e.data).value.licenses[id]));
        } else {
          OtherFollows(w, es, e, id, true, before, now);
        }
      } else {
        assert es + [] == es;
      }
    }
  }

  /** The seats an event gives a license: an update that names a number other than zero. */
  function SeatsWritten(e: WebhookEvent, id: string): Option<int> {
    if Updates(e, id, true) && e.data.quantity.Number? && e.data.quantity.n != 0 then Some(e.data.quantity.n) else None
  }

  function LastSeats(es: seq<WebhookEvent>, id: string, before: int): int {
    if es == [] then before
    else SeatsWritten(es[|es| - 1], id).GetOr(LastSeats(es[..|es| - 1], id, before))
  }

  /** The status an event gives a license; a failed invoice goes to a personal subscription of the same id
      first, if there is one. */
  function LicenseStatusWritten(e: WebhookEvent, id: string, personal: bool): Option<string> {
    match e.kind
    case SubscriptionUpsert => if e.data.orgEvent && e.data.id == id then e.data.status else None
    case SubscriptionDeleted => if e.data.orgEvent && e.data.id == id then Some("canceled") else None
    case InvoiceFailed => if e.data.subscription == id && !personal then Some("past_due") else None
    case _ => None
  }

  /** The last status an effective delivery gave the license, or the one held before. */
  function LastLicenseStatus(w: World, db: Db, deliveries: seq<WebhookEvent>, id: string, before: string): string {
    if deliveries == [] then before
    else
      var front, e := deliveries[..|deliveries| - 1], deliveries[|deliveries| - 1];
      var mid, last := ProcessAll(w, db, front), LastLicenseStatus(w, db, front, id, before);
      if Fresh(w, mid, e) then LicenseStatusWritten(e, id, id in mid.subscriptions).GetOr(last) else last
  }

  lemma LicenseWritten(w: World, db: Db, e: WebhookEvent, id: string)
    requires id != "" && id in db.licenses && Handle(w, db, e.kind, e.data).Some?
    ensures var next := Handle(w, db, e.kind, e.data).value;
            id in next.licenses &&
            next.licenses[id].status ==
              LicenseStatusWritten(e, id, id in db.subscriptions).GetOr(db.licenses[id].status) &&
            next.licenses[id].seats == SeatsWritten(e, id).GetOr(db.licenses[id].seats)
  {
  }

  /** A known license has the status and the seats last written by an effective event about it. */
  lemma {:induction false} LicenseIsLastWritten(w: World, db: Db, deliveries: seq<WebhookEvent>, id: string)
    requires id != "" && id in db.licenses
    ensures var after := ProcessAll(w, db, deliveries);
            id in after.licenses &&
            after.licenses[id].status == LastLicenseStatus(w, db, deliveries, id, db.licenses[id].status) &&
            after.licenses[id].seats == LastSeats(Effective(w, db, deliveries), id, db.licenses[id].seats)
  {
    if deliveries != [] {
      var front, e := deliveries[..|deliveries| - 1], deliveries[|deliveries| - 1];
      LicenseIsLastWritten(w, db, front, id);
      var mid, es := ProcessAll(w, db, front), Effective(w, db, front);
      if Fresh(w, mid, e) {
        LicenseWritten(w, mid, e, id);
        assert (es + [e])[..|es|] == es;
      } else {
        assert es + [] == es;
      }
    }
  }

  // ---- How rows come about ----

  /** The row a checkout or an update makes of an unknown personal subscription. */
  ghost predicate FirstSubscription(w: World, e: WebhookEvent, id: string, row: Subscription) {
    !e.data.orgEvent && Names(w, e.data, row.user) &&
    match e.kind
    case CheckoutCompleted =>
      e.data.subscription == id && row.status == "incomplete" && TermsOf(row) == Terms(None, None, None, false)
    case SubscriptionUpsert =>
      e.data.id == id && Retermed(w, e, Terms(None, None, None, false), TermsOf(row)) &&
      row.status == (match e.data.status
                     case Some(status) => status
                     case None => if e.data.planCode == "" then "None" else "incomplete")
    case _ => false
  }

  ghost predicate FirstLicense(w: World, e: WebhookEvent, id: string, row: SeatLicense) {
    e.data.orgEvent && e.data.organization == Some(row.organization) &&
    match e.kind
    case CheckoutCompleted =>
      e.data.subscription == id && row.status == "incomplete" && row.seats == 1 &&
      LicenseTerms(row) == Terms(None, None, None, false)
    case SubscriptionUpsert =>
      e.data.id == id && Retermed(w, e, Terms(None, None, None, false), LicenseTerms(row)) &&
      row.status == (match e.data.status
                     case Some(status) => status
                     case None => if e.data.planCode == "" then "None" else "active") &&
      row.seats == (if e.data.quantity.Number? && e.data.quantity.n != 0 then e.data.quantity.n else 1)
    case _ => false
  }

  /** A row comes about exactly when an event names its owner, with what that event says; none is ever
      removed. */
  lemma RowsComeAbout(w: World, db: Db, e: WebhookEvent, id: string)
    requires id != "" && Handle(w, db, e.kind, e.data).Some?
    ensures var next := Handle(w, db, e.kind, e.data).value;
            (id in db.subscriptions ==> id in next.subscriptions) &&
            (id in db.licenses ==> id in next.licenses) &&
            (id !in db.subscriptions ==>
               (id in next.subscriptions <==> exists row :: FirstSubscription(w, e, id, row)) &&
               (id in next.subscriptions ==> FirstSubscription(w, e, id, next.subscriptions[id]))) &&
            (id !in db.licenses ==>
               (id in next.licenses <==> exists row :: FirstLicense(w, e, id, row)) &&
               (id in next.licenses ==> FirstLicense(w, e, id, next.licenses[id])))
  {
    SubscriptionsComeAbout(w, db, e, id);
    LicensesComeAbout(w, db, e, id);
  }

  lemma SubscriptionsComeAbout(w: World, db: Db, e: WebhookEvent, id: string)
    requires id != "" && Handle(w, db, e.kind, e.data).Some?
    ensures var next := Handle(w, db, e.kind, e.data).value;
            (id in db.subscriptions ==> id in next.subscriptions) &&
            (id !in db.subscriptions ==>
               (id in next.subscriptions <==> exists row :: FirstSubscription(w, e, id, row)) &&
               (id in next.subscriptions ==> FirstSubscription(w, e, id, next.subscriptions[id])))
  {
    forall user ensures Names(w, e.data, user) <==> ResolveUser(w, e.data) == Some(user) {
      ResolvedIsNamed(w, e.data, user);
    }
    if row :| FirstSubscription(w, e, id, row) {
      assert ResolveUser(w, e.data) == Some(row.user);
    }
    var next := Handle(w, db, e.kind, e.data).value;
    if id !in db.subscriptions && id in next.subscriptions {
      assert FirstSubscription(w, e, id, next.subscriptions[id]);
    }
  }

  lemma LicensesComeAbout(w: World, db: Db, e: WebhookEvent, id: string)
    requires id != "" && Handle(w, db, e.kind, e.data).Some?
    ensures var next := Handle(w, db, e.kind, e.data).value;
            (id in db.licenses ==> id in next.licenses) &&
            (id !in db.licenses ==>
               (id in next.licenses <==> exists row :: FirstLicense(w, e, id, row)) &&
               (id in next.licenses ==> FirstLicense(w, e, id, next.licenses[id])))
  {
    if row :| FirstLicense(w, e, id, row) {
      assert e.data.organization == Some(row.organization);
    }
    var next := Handle(w, db, e.kind, e.data).value;
    if id !in db.licenses && id in next.licenses {
      assert FirstLicense(w, e, id, next.licenses[id]);
    }
  }

  // ---- Failures and announcements ----

  /** Text where the event must give a number that is going to be used. */
  ghost predicate Unusable(w: World, db: Db, kind: Kind, data: Data) {
    match kind
    case InvoicePaid =>
      data.amountPaid.Garbage? && (exists user :: Names(w, data, user)) &&
      !HasPayment(db.payments, if data.paymentIntent == "" then "inv:" + data.id else data.paymentIntent)
    case ChargeRefunded =>
      data.amountRefunded.Garbage? && data.paymentIntent != "" && HasPayment(db.payments, data.paymentIntent)
    case SubscriptionUpsert =>
      data.id != "" && data.orgEvent && (data.id in db.licenses || data.organization.Some?) &&
      (data.quantity.Garbage? ||
       (data.id !in db.licenses && data.planCode == "" && (data.quantity.Missing? || data.quantity == Number(0))))
    case _ => false
  }

  /** A delivery is effective exactly when its id is new and no field it uses is unusable. */
  lemma EffectiveExactly(w: World, db: Db, e: WebhookEvent)
    ensures Fresh(w, db, e) <==> e.id != "" && e.id !in db.seen && !Unusable(w, db, e.kind, e.data)
  {
    forall user ensures Names(w, e.data, user) <==> ResolveUser(w, e.data) == Some(user) {
      ResolvedIsNamed(w, e.data, user);
    }
    assert Paid(db.payments, IntentOf(e.data)) <==> HasPayment(db.payments, IntentOf(e.data));
    assert Paid(db.payments, e.data.paymentIntent) <==> HasPayment(db.payments, e.data.paymentIntent);
    if ResolveUser(w, e.data).Some? { assert Names(w, e.data, ResolveUser(w, e.data).value); }
  }

  /** What is announced is what was done: the new status of the row an event changed, the amount of a payment
      it added, the amount refunded; and nothing when it changed nothing. */
  lemma AnnouncesWhatItDid(w: World, db: Db, kind: Kind, data: Data)
    requires Handle(w, db, kind, data).Some?
    ensures var next := Handle(w, db, kind, data).value;
            var said := if |next.published| == |db.published| then None else Some(next.published[|next.published| - 1]);
            next.published == db.published + (if said.None? then [] else [said.value]) &&
            match kind
            case SubscriptionUpsert =>
              said == (if data.id == "" then None
                       else if data.orgEvent then
                         if data.id in next.licenses
                         then Some(SubscriptionChanged(next.licenses[data.id].status)) else None
                       else if data.id in next.subscriptions
                       then Some(SubscriptionChanged(next.subscriptions[data.id].status)) else None)
            case SubscriptionDeleted =>
              said == (if data.id in (if data.orgEvent then db.licenses.Keys else db.subscriptions.Keys)
                       then Some(SubscriptionChanged("canceled")) else None)
            case InvoiceFailed =>
              said == (if data.subscription != "" &&
                          (data.subscription in db.subscriptions || data.subscription in db.licenses)
                       then Some(SubscriptionChanged("past_due")) else None)
            case InvoicePaid =>
              if |next.payments| == |db.payments| then said.None?
              else |next.payments| == |db.payments| + 1 &&
                   Means(data.amountPaid, next.payments[|db.payments|].amount) &&
                   said == Some(PurchaseCompleted(next.payments[|db.payments|].amount))
            case ChargeRefunded =>
              if data.paymentIntent == "" || !HasPayment(db.payments, data.paymentIntent) then said.None?
              else said.Some? && said.value.PaymentRefunded? && Means(data.amountRefunded, said.value.amount)
            case _ => said.None?
  {
    assert Paid(db.payments, data.paymentIntent) <==> HasPayment(db.payments, data.paymentIntent);
  }
}
