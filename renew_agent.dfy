/** The renewal agent: up to 20 overdue active subscriptions are moved to
    payment_required with a new period end, and a reminder text is generated for each.
    The text generator is outside the model; the ids for which it throws are a parameter,
    and so are the ids whose row update the store rejects. */
module RenewAgent {
  import opened Js
  import opened Store
  import opened Subscriptions

  /** The returned object `{ status, <key>: value }`. */
  datatype Report = Report(status: string, key: string, value: nat)

  const Limit := 20

  /** The rows the query may return: overdue active rows as stored, without repeats,
      as many as there are up to the limit. */
  predicate IsSelection(t: map<string, Subscription>, now: int, subs: seq<Subscription>)
  {
    && |subs| == (if |OverdueIds(t, now)| < Limit then |OverdueIds(t, now)| else Limit)
    && (forall i :: 0 <= i < |subs| ==> subs[i].id in t && t[subs[i].id] == subs[i] && Overdue(subs[i], now))
    && DistinctIds(subs)
  }

  function OverdueIds(t: map<string, Subscription>, now: int): set<string>
  {
    set k | k in t && Overdue(t[k], now)
  }

  predicate DistinctIds(subs: seq<Subscription>)
  {
    forall i, j :: 0 <= i < j < |subs| ==> subs[i].id != subs[j].id
  }

  /** The row after the agent's update. */
  function Reminded(s: Subscription, interval: string, now: int, stamp: string): Subscription
  {
    s.(currentPeriodEnd := CalculateNextBilling(interval, now), status := PaymentRequired, updatedAt := stamp)
  }

  /** The table after handling `subs` in order: a row with a plan is updated unless its
      update is rejected. */
  function AfterUpdates(t: map<string, Subscription>, plans: map<string, Plan>, subs: seq<Subscription>,
                        updateFails: set<string>, now: int, stamp: string): map<string, Subscription>
  {
    if subs == [] then t
    else
      var t' := AfterUpdates(t, plans, subs[..|subs| - 1], updateFails, now, stamp);
      var s := subs[|subs| - 1];
      if s.planId in plans && s.id !in updateFails && s.id in t' then
        t'[s.id := Reminded(t'[s.id], plans[s.planId].interval, now, stamp)]
      else t'
  }

  /** Whether the loop counts a row: it has a plan and its reminder text was generated.
      The update's own outcome is not looked at. */
  function Counted(plans: map<string, Plan>, generationFails: set<string>): Subscription -> bool
  {
    (s: Subscription) => s.planId in plans && s.id !in generationFails
  }

  function Updated(plans: map<string, Plan>, updateFails: set<string>): Subscription -> bool
  {
    (s: Subscription) => s.planId in plans && s.id !in updateFails
  }

  lemma AfterUpdatesSnoc(t: map<string, Subscription>, plans: map<string, Plan>, subs: seq<Subscription>,
                         s: Subscription, updateFails: set<string>, now: int, stamp: string)
    ensures var t' := AfterUpdates(t, plans, subs, updateFails, now, stamp);
            AfterUpdates(t, plans, subs + [s], updateFails, now, stamp) ==
              if s.planId in plans && s.id !in updateFails && s.id in t' then
                t'[s.id := Reminded(t'[s.id], plans[s.planId].interval, now, stamp)]
              else t'
  {
    assert (subs + [s])[..|subs|] == subs;
  }

  /** Handling rows never adds or removes a key. */
  lemma {:induction false} AfterUpdatesKeys(t: map<string, Subscription>, plans: map<string, Plan>,
                                            subs: seq<Subscription>, updateFails: set<string>,
                                            now: int, stamp: string)
    ensures AfterUpdates(t, plans, subs, updateFails, now, stamp).Keys == t.Keys
  {
    if subs != [] {
      AfterUpdatesKeys(t, plans, subs[..|subs| - 1], updateFails, now, stamp);
    }
  }

  /** A row that is not among the handled ones is left as it was. */
  lemma {:induction false} AfterUpdatesUntouched(t: map<string, Subscription>, plans: map<string, Plan>,
                                                 subs: seq<Subscription>, updateFails: set<string>,
                                                 now: int, stamp: string, k: string)
    requires k in t && forall i :: 0 <= i < |subs| ==> subs[i].id != k
    ensures k in AfterUpdates(t, plans, subs, updateFails, now, stamp)
    ensures AfterUpdates(t, plans, subs, updateFails, now, stamp)[k] == t[k]
  {
    if subs != [] {
      var prefix := subs[..|subs| - 1];
      assert forall i :: 0 <= i < |prefix| ==> prefix[i] == subs[i];
      AfterUpdatesUntouched(t, plans, prefix, updateFails, now, stamp, k);
    }
  }

  /** Among distinct handled rows, exactly those with a plan and an update that goes
      through become payment_required, with a period end counted from `now`. */
  lemma {:induction false} AfterUpdatesAt(t: map<string, Subscription>, plans: map<string, Plan>,
                                          subs: seq<Subscription>, updateFails: set<string>,
                                          now: int, stamp: string, i: nat)
    requires DistinctIds(subs) && i < |subs| && subs[i].id in t
    ensures subs[i].id in AfterUpdates(t, plans, subs, updateFails, now, stamp)
    ensures AfterUpdates(t, plans, subs, updateFails, now, stamp)[subs[i].id] ==
              if Updated(plans, updateFails)(subs[i]) then Reminded(t[subs[i].id], plans[subs[i].planId].interval, now, stamp)
              else t[subs[i].id]
  {
    var prefix := subs[..|subs| - 1];
    assert forall j :: 0 <= j < |prefix| ==> prefix[j] == subs[j];
    AfterUpdatesKeys(t, plans, prefix, updateFails, now, stamp);
    if i == |subs| - 1 {
      AfterUpdatesUntouched(t, plans, prefix, updateFails, now, stamp, subs[i].id);
    } else {
      AfterUpdatesAt(t, plans, prefix, updateFails, now, stamp, i);
    }
  }

  /** The agent's count never exceeds the rows it selected, nor the limit; when no update
      is rejected it never exceeds the number of rows it changed. */
  lemma RenewCountBounds(plans: map<string, Plan>, subs: seq<Subscription>,
                         updateFails: set<string>, generationFails: set<string>)
    requires |subs| <= Limit
    ensures Count(subs, Counted(plans, generationFails)) <= Count(subs, (s: Subscription) => s.planId in plans) <= |subs| <= Limit
    ensures updateFails == {} && generationFails == {} ==>
              Count(subs, Counted(plans, generationFails)) == Count(subs, Updated(plans, updateFails))
  {
    CountMonotone(subs, Counted(plans, generationFails), (s: Subscription) => s.planId in plans);
    if updateFails == {} && generationFails == {} {
      CountMonotone(subs, Counted(plans, generationFails), Updated(plans, updateFails));
      CountMonotone(subs, Updated(plans, updateFails), Counted(plans, generationFails));
    }
  }

  /** A rejected update still counts once its text is generated: the count can exceed
      the rows changed. */
  lemma CountedDespiteRejectedUpdate(t: map<string, Subscription>, plans: map<string, Plan>,
                                     s: Subscription, now: int, stamp: string)
    requires s.id in t && t[s.id] == s && s.planId in plans
    ensures AfterUpdates(t, plans, [s], {s.id}, now, stamp) == t
    ensures Count([s], Counted(plans, {})) == 1
  {
    assert [s][..0] == [];
  }

  /** The query: up to `Limit` overdue rows, in an order the store chooses. */
  method SelectOverdue(t: map<string, Subscription>, now: int) returns (subs: seq<Subscription>)
    requires SubscriptionsKeyed(t)
    ensures IsSelection(t, now, subs)
    ensures subs == [] <==> OverdueIds(t, now) == {}
  {
    var ids := SelectUpTo(OverdueIds(t, now), Limit);
    subs := seq(|ids|, i requires 0 <= i < |ids| => t[ids[i]]);
    assert forall i :: 0 <= i < |subs| ==> subs[i].id == ids[i];
  }

  /** Handling rows keeps every row under its own id. */
  lemma {:induction false} AfterUpdatesKeepsKeyed(t: map<string, Subscription>, plans: map<string, Plan>,
                                                  subs: seq<Subscription>, updateFails: set<string>,
                                                  now: int, stamp: string)
    requires SubscriptionsKeyed(t)
    ensures SubscriptionsKeyed(AfterUpdates(t, plans, subs, updateFails, now, stamp))
  {
    if subs != [] {
      AfterUpdatesKeepsKeyed(t, plans, subs[..|subs| - 1], updateFails, now, stamp);
    }
  }

  const NoneDue := Report("no-expired-subscriptions", "renewed", 0)

  /** `now` is the Unix time of the run and `stamp` its ISO form. */
  method RunRenewAgent(db: Db, now: int, stamp: string, updateFails: set<string>, generationFails: set<string>)
    returns (report: Report, ghost subs: seq<Subscription>)
    requires db.Valid()
    modifies db`subscriptions
    ensures db.Valid()
    ensures IsSelection(old(db.subscriptions), now, subs)
    ensures subs == [] <==> OverdueIds(old(db.subscriptions), now) == {}
    ensures subs == [] ==> report == NoneDue && db.subscriptions == old(db.subscriptions)
    ensures subs != [] ==>
              && report == Report("renewed", "count", Count(subs, Counted(db.plans, generationFails)))
              && db.subscriptions == AfterUpdates(old(db.subscriptions), db.plans, subs, updateFails, now, stamp)
  {
    var rows := SelectOverdue(db.subscriptions, now);
    subs := rows;
    if |rows| == 0 {
      return NoneDue, subs;
    }
    ghost var t0 := db.subscriptions;
    var plans := db.plans;
    var renewed := 0;
    var i := 0;
    ghost var done: seq<Subscription> := [];
    while i < |rows|
      invariant 0 <= i <= |rows| && done == rows[..i]
      invariant db.plans == plans
      invariant db.subscriptions == AfterUpdates(t0, plans, done, updateFails, now, stamp)
      invariant renewed == Count(done, Counted(plans, generationFails))
    {
      var sub := rows[i];
      PrefixSnoc(rows, i);
      AfterUpdatesSnoc(t0, plans, done, sub, updateFails, now, stamp);
      CountSnoc(done, sub, Counted(plans, generationFails));
      if sub.planId in plans {
        if sub.id !in updateFails && sub.id in db.subscriptions {
          var interval := plans[sub.planId].interval;
          db.subscriptions := db.subscriptions[sub.id := Reminded(db.subscriptions[sub.id], interval, now, stamp)];
        }
        if sub.id !in generationFails {
          renewed := renewed + 1;
        }
      }
      done := done + [sub];
      i := i + 1;
    }
    assert done == rows;
    AfterUpdatesKeepsKeyed(t0, plans, rows, updateFails, now, stamp);
    report := Report("renewed", "count", renewed);
  }
}
