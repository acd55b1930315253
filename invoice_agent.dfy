/** The invoice agent: up to 10 verified payments without an invoice get an invoice text
    generated and are flagged `invoice_sent`. The text generator is outside the model; the
    ids for which it throws are a parameter, and so are the ids whose flag update the
    store rejects. */
module InvoiceAgent {
  import opened Js
  import opened Store

  /** The returned object `{ status, processed }`. */
  datatype Report = Report(status: string, processed: nat)

  const Limit := 10

  predicate NeedsInvoice(p: Payment)
  {
    p.status == Verified && !p.invoiceSent
  }

  function PendingIds(t: map<string, Payment>): set<string>
  {
    set k | k in t && NeedsInvoice(t[k])
  }

  predicate DistinctIds(ps: seq<Payment>)
  {
    forall i, j :: 0 <= i < j < |ps| ==> ps[i].id != ps[j].id
  }

  predicate IsSelection(t: map<string, Payment>, ps: seq<Payment>)
  {
    && |ps| == (if |PendingIds(t)| < Limit then |PendingIds(t)| else Limit)
    && (forall i :: 0 <= i < |ps| ==> ps[i].id in t && t[ps[i].id] == ps[i] && NeedsInvoice(ps[i]))
    && DistinctIds(ps)
  }

  /** Whether the loop counts a payment: its merchant exists, its invoice text was
      generated, and its flag update went through. */
  function Handled(merchants: map<string, Merchant>, generationFails: set<string>, updateFails: set<string>): Payment -> bool
  {
    (p: Payment) => p.merchantId in merchants && p.id !in generationFails && p.id !in updateFails
  }

  /** The table after handling `ps` in order. */
  function AfterFlags(t: map<string, Payment>, ps: seq<Payment>, handled: Payment -> bool): map<string, Payment>
  {
    if ps == [] then t
    else
      var t' := AfterFlags(t, ps[..|ps| - 1], handled);
      var p := ps[|ps| - 1];
      if handled(p) && p.id in t' then t'[p.id := t'[p.id].(invoiceSent := true)] else t'
  }

  lemma AfterFlagsSnoc(t: map<string, Payment>, ps: seq<Payment>, p: Payment, handled: Payment -> bool)
    ensures var t' := AfterFlags(t, ps, handled);
            AfterFlags(t, ps + [p], handled) ==
              if handled(p) && p.id in t' then t'[p.id := t'[p.id].(invoiceSent := true)] else t'
  {
    assert (ps + [p])[..|ps|] == ps;
  }

  lemma {:induction false} AfterFlagsKeys(t: map<string, Payment>, ps: seq<Payment>, handled: Payment -> bool)
    ensures AfterFlags(t, ps, handled).Keys == t.Keys
  {
    if ps != [] {
      AfterFlagsKeys(t, ps[..|ps| - 1], handled);
    }
  }

  /** A payment that was not selected is left as it was. */
  lemma {:induction false} AfterFlagsUntouched(t: map<string, Payment>, ps: seq<Payment>, handled: Payment -> bool, k: string)
    requires k in t && forall i :: 0 <= i < |ps| ==> ps[i].id != k
    ensures k in AfterFlags(t, ps, handled) && AfterFlags(t, ps, handled)[k] == t[k]
  {
    if ps != [] {
      var prefix := ps[..|ps| - 1];
      assert forall i :: 0 <= i < |prefix| ==> prefix[i] == ps[i];
      AfterFlagsUntouched(t, prefix, handled, k);
    }
  }

  /** A selected payment gets its flag set exactly when it was handled; nothing else in
      its row changes. */
  lemma {:induction false} AfterFlagsAt(t: map<string, Payment>, ps: seq<Payment>, handled: Payment -> bool, i: nat)
    requires DistinctIds(ps) && i < |ps| && ps[i].id in t
    ensures ps[i].id in AfterFlags(t, ps, handled)
    ensures AfterFlags(t, ps, handled)[ps[i].id] ==
              if handled(ps[i]) then t[ps[i].id].(invoiceSent := true) else t[ps[i].id]
  {
    var prefix := ps[..|ps| - 1];
    assert forall j :: 0 <= j < |prefix| ==> prefix[j] == ps[j];
    AfterFlagsKeys(t, prefix, handled);
    if i == |ps| - 1 {
      AfterFlagsUntouched(t, prefix, handled, ps[i].id);
    } else {
      AfterFlagsAt(t, prefix, handled, i);
    }
  }

  /** `processed` counts exactly the selected payments whose flag went from unset to set,
      and never exceeds the selection or the limit. */
  lemma ProcessedCountsFlagged(t: map<string, Payment>, ps: seq<Payment>, handled: Payment -> bool)
    requires IsSelection(t, ps)
    ensures Count(ps, handled) <= |ps| <= Limit
    ensures forall i :: 0 <= i < |ps| ==> ps[i].id in AfterFlags(t, ps, handled)
    ensures forall i :: 0 <= i < |ps| ==>
              (AfterFlags(t, ps, handled)[ps[i].id].invoiceSent <==> handled(ps[i]))
  {
    forall i | 0 <= i < |ps|
      ensures ps[i].id in AfterFlags(t, ps, handled)
      ensures AfterFlags(t, ps, handled)[ps[i].id].invoiceSent <==> handled(ps[i])
    {
      AfterFlagsAt(t, ps, handled, i);
    }
  }

  /** The query: up to `Limit` payments needing an invoice, in an order the store chooses. */
  method SelectPending(t: map<string, Payment>) returns (ps: seq<Payment>)
    requires PaymentsKeyed(t)
    ensures IsSelection(t, ps)
    ensures ps == [] <==> PendingIds(t) == {}
  {
    var ids := SelectUpTo(PendingIds(t), Limit);
    ps := seq(|ids|, i requires 0 <= i < |ids| => t[ids[i]]);
    assert forall i :: 0 <= i < |ps| ==> ps[i].id == ids[i];
  }

  /** Setting flags keeps every payment under its own id and at most one payment per
      transaction hash. */
  lemma {:induction false} AfterFlagsKeepsLedger(t: map<string, Payment>, ps: seq<Payment>, handled: Payment -> bool)
    requires PaymentsKeyed(t) && TxHashesUnique(t)
    ensures PaymentsKeyed(AfterFlags(t, ps, handled)) && TxHashesUnique(AfterFlags(t, ps, handled))
  {
    if ps != [] {
      AfterFlagsKeepsLedger(t, ps[..|ps| - 1], handled);
    }
  }

  const NoNewPayments := Report("no-new-payments", 0)

  /** `queryError` is the error the selecting query returns, if any; it is rethrown. */
  method RunInvoiceAgent(db: Db, queryError: Option<string>, generationFails: set<string>, updateFails: set<string>)
    returns (r: Result<Report>, ghost ps: seq<Payment>)
    requires db.Valid()
    modifies db`payments
    ensures db.Valid()
    ensures queryError.Some? ==> r == Err(queryError.value) && db.payments == old(db.payments)
    ensures queryError.None? ==> IsSelection(old(db.payments), ps)
    ensures queryError.None? && ps == [] ==> r == Ok(NoNewPayments) && db.payments == old(db.payments)
    ensures queryError.None? && ps != [] ==>
              && r == Ok(Report("ok", Count(ps, Handled(db.merchants, generationFails, updateFails))))
              && db.payments == AfterFlags(old(db.payments), ps, Handled(db.merchants, generationFails, updateFails))
  {
    if queryError.Some? {
      return Err(queryError.value), [];
    }
    var rows := SelectPending(db.payments);
    ps := rows;
    if |rows| == 0 {
      return Ok(NoNewPayments), ps;
    }
    ghost var t0 := db.payments;
    ghost var handled := Handled(db.merchants, generationFails, updateFails);
    var processed := 0;
    var i := 0;
    ghost var done: seq<Payment> := [];
    while i < |rows|
      invariant 0 <= i <= |rows| && done == rows[..i]
      invariant db.payments == AfterFlags(t0, done, handled)
      invariant processed == Count(done, handled)
    {
      var p := rows[i];
      PrefixSnoc(rows, i);
      AfterFlagsSnoc(t0, done, p, handled);
      CountSnoc(done, p, handled);
      if p.merchantId in db.merchants && p.id !in generationFails && p.id !in updateFails {
        if p.id in db.payments {
          db.payments := db.payments[p.id := db.payments[p.id].(invoiceSent := true)];
        }
        processed := processed + 1;
      }
      done := done + [p];
      i := i + 1;
    }
    assert done == rows;
    AfterFlagsKeepsLedger(t0, rows, handled);
    r := Ok(Report("ok", processed));
  }
}
