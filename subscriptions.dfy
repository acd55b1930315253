/** The billing calculator and the subscription state machine: create, renew, cancel
    and the expiry sweep, each changing rows of the subscriptions table. */
module Subscriptions {
  import opened Js
  import opened Store

  const SecondsPerDay := 24 * 3600

  predicate IsKnownInterval(interval: string)
  {
    interval == "weekly" || interval == "monthly" || interval == "yearly"
  }

  /** The end of the next billing period: fixed-length days added to `now`, with an
      unknown interval giving `now` itself. */
  function CalculateNextBilling(interval: string, now: int): (r: int)
    ensures interval == "weekly" ==> r == now + 604800
    ensures interval == "monthly" ==> r == now + 2592000
    ensures interval == "yearly" ==> r == now + 31536000
    ensures !IsKnownInterval(interval) ==> r == now
    ensures r >= now
    ensures r > now <==> IsKnownInterval(interval)
  {
    match interval
    case "weekly" => now + 7 * SecondsPerDay
    case "monthly" => now + 30 * SecondsPerDay
    case "yearly" => now + 365 * SecondsPerDay
    case _ => now
  }

  // ---------------------------------------------------------------------------
  // Row transitions

  /** The new row after a successful renewal. */
  function Renewed(s: Subscription, interval: string, txHash: string, now: int, stamp: string): Subscription
  {
    s.(status := Active,
       currentPeriodEnd := CalculateNextBilling(interval, now),
       lastPaymentTx := if txHash != "" then txHash else s.lastPaymentTx,
       updatedAt := stamp)
  }

  function CanceledRow(s: Subscription, stamp: string): Subscription
  {
    s.(status := Canceled, updatedAt := stamp)
  }

  predicate Overdue(s: Subscription, now: int)
  {
    s.status == Active && s.currentPeriodEnd < now
  }

  /** The table after the expiry sweep at `now`. */
  function Swept(t: map<string, Subscription>, now: int): map<string, Subscription>
  {
    map id | id in t :: if Overdue(t[id], now) then t[id].(status := Expired) else t[id]
  }

  // ---------------------------------------------------------------------------
  // Properties of the transitions

  /** Renewal makes the row active with a period end counted from `now`, keeps every
      other field but the funding hash and the stamp, and keeps the old hash when no new
      one is given. */
  lemma RenewalMeaning(s: Subscription, interval: string, txHash: string, now: int, stamp: string)
    ensures var r := Renewed(s, interval, txHash, now, stamp);
      && r.status == Active
      && r.currentPeriodEnd >= now
      && r.currentPeriodEnd - now == CalculateNextBilling(interval, 0)
      && (txHash == "" ==> r.lastPaymentTx == s.lastPaymentTx)
      && (txHash != "" ==> r.lastPaymentTx == txHash)
      && r.id == s.id && r.merchantId == s.merchantId && r.customer == s.customer
      && r.payerWallet == s.payerWallet && r.planId == s.planId
  {
  }

  /** The old period end plays no part in the new one: renewing a subscription whose
      period is still running can move its end earlier. */
  lemma RenewalCanShortenPeriod(s: Subscription, now: int, stamp: string)
    requires s.currentPeriodEnd == now + 30 * SecondsPerDay
    ensures Renewed(s, "weekly", "", now, stamp).currentPeriodEnd < s.currentPeriodEnd
  {
  }

  /** Cancelling is idempotent in the status it leaves, whatever the prior status. */
  lemma CancelIdempotent(s: Subscription, t1: string, t2: string)
    ensures CanceledRow(s, t1).status == Canceled
    ensures CanceledRow(CanceledRow(s, t1), t2) == CanceledRow(s, t2)
  {
  }

  /** The sweep turns exactly the active rows whose period ended strictly before `now`
      into expired rows; it touches no other row, no period end and no other field. */
  lemma SweepMeaning(t: map<string, Subscription>, now: int)
    ensures Swept(t, now).Keys == t.Keys
    ensures forall id :: id in t ==>
      && (Swept(t, now)[id].status == Expired <==> t[id].status == Expired || Overdue(t[id], now))
      && (Swept(t, now)[id].status != t[id].status <==> Overdue(t[id], now))
      && Swept(t, now)[id] == t[id].(status := Swept(t, now)[id].status)
    ensures forall id :: id in t && t[id].currentPeriodEnd == now ==> Swept(t, now)[id] == t[id]
    ensures forall id :: id in Swept(t, now) ==> !Overdue(Swept(t, now)[id], now)
  {
  }

  /** A second sweep at the same time changes nothing. */
  lemma SweepIdempotent(t: map<string, Subscription>, now: int)
    ensures Swept(Swept(t, now), now) == Swept(t, now)
  {
  }

  // ---------------------------------------------------------------------------
  // Operations on the table

  const PlanNotFound := "Plan not found"
  const SubscriptionNotFound := "Subscription not found"
  const PlanNotFoundForSubscription := "Plan not found for subscription"
  /** The error of an insert whose generated id is already taken. */
  const DuplicateKey := "duplicate key value violates unique constraint"
  /** The error `.single()` reports when an update matched no row. */
  const NoSingleRow := "JSON object requested, multiple (or no) rows returned"

  /** Inserts an active subscription for the customer on the plan; `newId` is the id the
      database generates for the row, and `insertError` an error the store reports for
      the insert (a constraint or connection failure), which is thrown. */
  method CreateSubscription(db: Db, merchantId: string, customer: string, wallet: string,
                            planId: string, txHash: string, newId: string, insertError: Option<string>,
                            now: int, stamp: string)
    returns (r: Result<Subscription>)
    requires db.Valid()
    modifies db`subscriptions
    ensures db.Valid()
    ensures planId !in db.plans ==> r == Err(PlanNotFound)
    ensures planId in db.plans && insertError.Some? ==> r == Err(insertError.value)
    ensures planId in db.plans && insertError.None? && newId in old(db.subscriptions) ==> r == Err(DuplicateKey)
    ensures r.Err? ==> db.subscriptions == old(db.subscriptions)
    ensures r.Ok? <==> planId in db.plans && insertError.None? && newId !in old(db.subscriptions)
    ensures r.Ok? ==>
      && r.value == Subscription(newId, merchantId, customer, Lower(wallet), planId, Active,
                                 CalculateNextBilling(db.plans[planId].interval, now), txHash, stamp)
      && db.subscriptions == old(db.subscriptions)[newId := r.value]
  {
    if planId !in db.plans {
      return Err(PlanNotFound);
    }
    var plan := db.plans[planId];
    var currentPeriodEnd := CalculateNextBilling(plan.interval, now);
    if insertError.Some? {
      return Err(insertError.value);
    }
    if newId in db.subscriptions {
      return Err(DuplicateKey);
    }
    var row := Subscription(newId, merchantId, customer, Lower(wallet), planId, Active,
                            currentPeriodEnd, txHash, stamp);
    db.subscriptions := db.subscriptions[newId := row];
    r := Ok(row);
  }

  /** Renews a subscription from `now` on its plan's interval; `updateError` is an error
      the store reports for the update, which is thrown. */
  method RenewSubscription(db: Db, subId: string, txHash: string, updateError: Option<string>,
                           now: int, stamp: string)
    returns (r: Result<Subscription>)
    requires db.Valid()
    modifies db`subscriptions
    ensures db.Valid()
    ensures subId !in old(db.subscriptions) ==> r == Err(SubscriptionNotFound)
    ensures subId in old(db.subscriptions) && old(db.subscriptions)[subId].planId !in db.plans ==>
              r == Err(PlanNotFoundForSubscription)
    ensures subId in old(db.subscriptions) && old(db.subscriptions)[subId].planId in db.plans && updateError.Some? ==>
              r == Err(updateError.value)
    ensures r.Err? ==> db.subscriptions == old(db.subscriptions)
    ensures r.Ok? <==> subId in old(db.subscriptions) && old(db.subscriptions)[subId].planId in db.plans
                       && updateError.None?
    ensures r.Ok? ==>
      && r.value == Renewed(old(db.subscriptions)[subId],
                            db.plans[old(db.subscriptions)[subId].planId].interval, txHash, now, stamp)
      && db.subscriptions == old(db.subscriptions)[subId := r.value]
  {
    if subId !in db.subscriptions {
      return Err(SubscriptionNotFound);
    }
    var subscription := db.subscriptions[subId];
    if subscription.planId !in db.plans {
      return Err(PlanNotFoundForSubscription);
    }
    var newPeriodEnd := CalculateNextBilling(db.plans[subscription.planId].interval, now);
    if updateError.Some? {
      return Err(updateError.value);
    }
    var row := subscription.(status := Active,
                             currentPeriodEnd := newPeriodEnd,
                             lastPaymentTx := if txHash != "" then txHash else subscription.lastPaymentTx,
                             updatedAt := stamp);
    db.subscriptions := db.subscriptions[subId := row];
    r := Ok(row);
  }

  /** Sets the status to canceled, whatever it was; an id with no row is an error, and so
      is an error the store reports for the update (`updateError`). */
  method CancelSubscription(db: Db, subId: string, updateError: Option<string>, stamp: string)
    returns (r: Result<Subscription>)
    requires db.Valid()
    modifies db`subscriptions
    ensures db.Valid()
    ensures updateError.Some? ==> r == Err(updateError.value) && db.subscriptions == old(db.subscriptions)
    ensures updateError.None? && subId !in old(db.subscriptions) ==>
              r == Err(NoSingleRow) && db.subscriptions == old(db.subscriptions)
    ensures updateError.None? && subId in old(db.subscriptions) ==>
      && r == Ok(CanceledRow(old(db.subscriptions)[subId], stamp))
      && db.subscriptions == old(db.subscriptions)[subId := r.value]
  {
    if updateError.Some? {
      return Err(updateError.value);
    }
    if subId !in db.subscriptions {
      return Err(NoSingleRow);
    }
    var row := db.subscriptions[subId].(status := Canceled, updatedAt := stamp);
    db.subscriptions := db.subscriptions[subId := row];
    r := Ok(row);
  }

  /** Selects the active rows past their period end and marks them expired in one bulk
      update; returns the selected rows as they were read. The update's result is not
      read: when the store rejects it (`updateFault`) the rows stay as they were and are
      returned all the same. */
  method CheckExpiredSubscriptions(db: Db, now: int, updateFault: bool) returns (expired: set<Subscription>)
    requires db.Valid()
    modifies db`subscriptions
    ensures db.Valid()
    ensures expired == set id | id in old(db.subscriptions) && Overdue(old(db.subscriptions)[id], now)
                                :: old(db.subscriptions)[id]
    ensures !updateFault ==> db.subscriptions == Swept(old(db.subscriptions), now)
    ensures updateFault ==> db.subscriptions == old(db.subscriptions)
  {
    var ids := set id | id in db.subscriptions && Overdue(db.subscriptions[id], now);
    expired := set id | id in ids :: db.subscriptions[id];
    if |ids| > 0 {
      if !updateFault {
        db.subscriptions := map id | id in db.subscriptions ::
                              if id in ids then db.subscriptions[id].(status := Expired)
                              else db.subscriptions[id];
      }
    } else if !updateFault {
      assert forall id :: id in db.subscriptions ==> id !in ids;
      assert db.subscriptions == Swept(db.subscriptions, now);
    }
  }
}
