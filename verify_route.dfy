/** POST /api/payments/verify: checks that a transaction carries a PaymentReceived event
    for the claimed merchant, then records the payment once per (lowercased) transaction
    hash, creating the merchant on first sight. The chain is seen through what the two
    RPC calls return; the database generates the new row ids. */
module VerifyRoute {
  import opened Js
  import opened Store
  import opened Webhooks

  /** The request fields the route reads; a missing or falsy field is "". */
  datatype VerifyRequest = VerifyRequest(txHash: string, merchant: string, amount: string)

  /** A decoded PaymentReceived log; a missing transaction hash or merchant is "". */
  datatype Log = Log(transactionHash: string, merchant: string, payer: string, amount: nat, timestamp: nat)

  /** The answers of the RPC node: the block number of the receipt (None when there is
      no receipt), and the PaymentReceived logs of the payments contract in that block;
      `Err` is an RPC call that throws. */
  datatype Chain = Chain(receipt: Result<Option<nat>>, logs: Result<seq<Log>>)

  /** A `Failure` is answered with its status and `verified: false`; the other two are
      answered with status 200 and `verified: true`. */
  datatype VerifyResponse =
    | Failure(status: int, error: string)
    | AlreadyRecorded(payer: string, merchant: string, amount: string, timestamp: string)
    | Confirmed(payer: string, merchant: string, amount: string, timestamp: string, paymentId: string)

  const MissingFields := "Missing required fields: txHash, merchant, amount"
  const TransactionNotFound := "Transaction not found"
  const EventNotFound := "Payment event not found for this transaction"
  const MerchantCreationFailed := "Failed to create merchant"
  const SaveFailed := "Failed to save payment"
  const InternalError := "Internal server error"

  predicate HasFields(q: VerifyRequest)
  {
    q.txHash != "" && q.merchant != "" && q.amount != ""
  }

  // ---------------------------------------------------------------------------
  // The anti-spoofing match

  predicate Matches(log: Log, txHash: string, merchant: string)
  {
    Lower(log.transactionHash) == Lower(txHash) && Lower(log.merchant) == Lower(merchant)
  }

  /** A log matches exactly when both its transaction hash and its merchant equal the
      claimed ones up to the case of ASCII letters. */
  lemma MatchesMeaning(log: Log, txHash: string, merchant: string)
    ensures Matches(log, txHash, merchant) <==>
              EqualIgnoringCase(log.transactionHash, txHash) && EqualIgnoringCase(log.merchant, merchant)
  {
    LowerEqualIff(log.transactionHash, txHash);
    LowerEqualIff(log.merchant, merchant);
  }

  /** The first log of the block that matches, if any. */
  function MatchingLog(logs: seq<Log>, txHash: string, merchant: string): (r: Option<Log>)
    ensures r.None? <==> forall i :: 0 <= i < |logs| ==> !Matches(logs[i], txHash, merchant)
    ensures r.Some? ==> exists i :: 0 <= i < |logs| && logs[i] == r.value && Matches(logs[i], txHash, merchant)
                                    && forall j :: 0 <= j < i ==> !Matches(logs[j], txHash, merchant)
  {
    match FindIndex(logs, (l: Log) => Matches(l, txHash, merchant))
    case None => None
    case Some(i) => Some(logs[i])
  }

  // ---------------------------------------------------------------------------
  // Validation and chain checks, before anything is written

  datatype Checked = Reject(response: VerifyResponse) | Matched(request: VerifyRequest, event: Log)

  function CheckRequest(body: Json<VerifyRequest>, chain: Chain): (r: Checked)
    ensures r.Reject? ==> r.response.Failure? && r.response.status in {400, 404, 500}
    ensures body.Unparsable? ==> r == Reject(Failure(500, Or(body.message, InternalError)))
    ensures body.Parsed? && !HasFields(body.value) ==> r == Reject(Failure(400, MissingFields))
    ensures body.Parsed? && HasFields(body.value) && chain.receipt.Err? ==>
              r == Reject(Failure(500, Or(chain.receipt.message, InternalError)))
    ensures body.Parsed? && HasFields(body.value) && chain.receipt == Ok(None) ==>
              r == Reject(Failure(404, TransactionNotFound))
    ensures body.Parsed? && HasFields(body.value) && chain.receipt.Ok? && chain.receipt.value.Some? ==>
              && (chain.logs.Err? ==> r == Reject(Failure(500, Or(chain.logs.message, InternalError))))
              && (chain.logs.Ok? && MatchingLog(chain.logs.value, body.value.txHash, body.value.merchant).None? ==>
                    r == Reject(Failure(404, EventNotFound)))
    ensures r.Matched? <==>
              && body.Parsed? && HasFields(body.value)
              && chain.receipt.Ok? && chain.receipt.value.Some? && chain.logs.Ok?
              && exists i :: 0 <= i < |chain.logs.value| && Matches(chain.logs.value[i], body.value.txHash, body.value.merchant)
    ensures r.Matched? ==>
              && r.request == body.value
              && Some(r.event) == MatchingLog(chain.logs.value, r.request.txHash, r.request.merchant)
  {
    match body
    case Unparsable(message) => Reject(Failure(500, Or(message, InternalError)))
    case Parsed(q) =>
      if !HasFields(q) then Reject(Failure(400, MissingFields))
      else match chain.receipt
        case Err(message) => Reject(Failure(500, Or(message, InternalError)))
        case Ok(None) => Reject(Failure(404, TransactionNotFound))
        case Ok(Some(_)) =>
          match chain.logs
          case Err(message) => Reject(Failure(500, Or(message, InternalError)))
          case Ok(logs) =>
            match MatchingLog(logs, q.txHash, q.merchant)
            case None => Reject(Failure(404, EventNotFound))
            case Some(event) => Matched(q, event)
  }

  // ---------------------------------------------------------------------------
  // The rows written

  /** The merchants stored under a wallet. */
  function WalletRows(merchants: map<string, Merchant>, wallet: string): set<string>
  {
    set k | k in merchants && merchants[k].wallet == wallet
  }

  /** The payment row for a matched event: who paid and how much come from the event,
      never from the request; the hash is lowercased. */
  function PaymentRow(id: string, merchantId: string, event: Log, txHash: string): (r: Payment)
    ensures r.txHash == Lower(txHash) && r.payer == Lower(event.payer)
    ensures ParseDecimal(r.amount) == Some(event.amount) && ParseDecimal(r.timestamp) == Some(event.timestamp)
    ensures r.status == Verified && !r.invoiceSent && r.id == id && r.merchantId == merchantId
  {
    DecimalRoundTrip(event.amount);
    DecimalRoundTrip(event.timestamp);
    Payment(id, merchantId, Lower(event.payer), Decimal(event.amount), Lower(txHash),
            Decimal(event.timestamp), Verified, false)
  }

  /** The `payment_succeeded` payload; it names the merchant by wallet, not by id. */
  function PaymentPayload(paymentId: string, event: Log, txHash: string): (r: map<string, string>)
    ensures "merchant_id" !in r
  {
    map["payment_id" := paymentId, "merchant" := event.merchant, "payer" := event.payer,
        "amount" := Decimal(event.amount), "tx_hash" := txHash, "timestamp" := Decimal(event.timestamp)]
  }

  /** What the recording steps do to the two tables (m0, p0 before; m1, p1 after) for a
      matched event, and the response they give. `lookupFault` is a failed read of the
      merchant by wallet, which the route takes for "no merchant" since it reads only the
      data; `merchantFault` and `paymentFault` are insert errors of the store other than
      a duplicate transaction hash. */
  ghost predicate Recorded(m0: map<string, Merchant>, p0: map<string, Payment>,
                     m1: map<string, Merchant>, p1: map<string, Payment>,
                     q: VerifyRequest, event: Log, lookupFault: bool,
                     newMerchantId: string, apiKey: string, merchantFault: bool,
                     newPaymentId: string, paymentFault: bool, resp: VerifyResponse)
  {
    var wallet := Lower(q.merchant);
    var found := !lookupFault && |WalletRows(m0, wallet)| == 1;
    var echo := (event.payer, event.merchant, Decimal(event.amount), Decimal(event.timestamp));
    if !found && merchantFault then
      m1 == m0 && p1 == p0 && resp == Failure(500, MerchantCreationFailed)
    else
      && (if found then m1 == m0 else m1 == m0[newMerchantId := Merchant(newMerchantId, wallet, apiKey, "")])
      && (if TxRecorded(p0, Lower(q.txHash)) then
            p1 == p0 && resp == AlreadyRecorded(echo.0, echo.1, echo.2, echo.3)
          else if paymentFault then
            p1 == p0 && resp == Failure(500, SaveFailed)
          else
            exists mid ::
              && (if found then WalletRows(m0, wallet) == {mid} else mid == newMerchantId)
              && p1 == p0[newPaymentId := PaymentRow(newPaymentId, mid, event, q.txHash)]
              && resp == Confirmed(echo.0, echo.1, echo.2, echo.3, newPaymentId))
  }

  // ---------------------------------------------------------------------------
  // Properties of recording

  /** Recording keeps at most one payment per lowercased transaction hash, and adds a row
      exactly when it confirms. */
  lemma RecordedKeepsLedger(m0: map<string, Merchant>, p0: map<string, Payment>,
                            m1: map<string, Merchant>, p1: map<string, Payment>,
                            q: VerifyRequest, event: Log, lookupFault: bool,
                            newMerchantId: string, apiKey: string, merchantFault: bool,
                            newPaymentId: string, paymentFault: bool, resp: VerifyResponse)
    requires TxHashesUnique(p0) && newPaymentId !in p0
    requires Recorded(m0, p0, m1, p1, q, event, lookupFault, newMerchantId, apiKey, merchantFault, newPaymentId, paymentFault, resp)
    ensures TxHashesUnique(p1)
    ensures resp.Confirmed? <==> p1 != p0
    ensures resp.Confirmed? ==> p1.Keys == p0.Keys + {newPaymentId} && p1[newPaymentId].txHash == Lower(q.txHash)
    ensures TxRecorded(p1, Lower(q.txHash)) <==> TxRecorded(p0, Lower(q.txHash)) || resp.Confirmed?
  {
    if !TxRecorded(p0, Lower(q.txHash)) && resp.Confirmed? {
      var mid :| p1 == p0[newPaymentId := PaymentRow(newPaymentId, mid, event, q.txHash)];
      assert p1[newPaymentId].txHash == Lower(q.txHash);
      assert newPaymentId in p1 && newPaymentId !in p0;
    }
  }

  /** Unless exactly one merchant has the wallet and the read succeeds, `.single()` gives
      no row: a confirmed call then creates a merchant on that wallet and books the payment
      under the new id, even when merchants already have the wallet. */
  lemma UnresolvedWalletGetsNewMerchant(m0: map<string, Merchant>, p0: map<string, Payment>,
                                        m1: map<string, Merchant>, p1: map<string, Payment>,
                                        q: VerifyRequest, event: Log, lookupFault: bool,
                                        newMerchantId: string, apiKey: string, merchantFault: bool,
                                        newPaymentId: string, paymentFault: bool, resp: VerifyResponse)
    requires lookupFault || |WalletRows(m0, Lower(q.merchant))| != 1
    requires Recorded(m0, p0, m1, p1, q, event, lookupFault, newMerchantId, apiKey, merchantFault, newPaymentId, paymentFault, resp)
    requires resp.Confirmed?
    ensures m1 == m0[newMerchantId := Merchant(newMerchantId, Lower(q.merchant), apiKey, "")]
    ensures newPaymentId in p1 && p1[newPaymentId].merchantId == newMerchantId
  {
    var mid :| mid == newMerchantId
               && p1 == p0[newPaymentId := PaymentRow(newPaymentId, mid, event, q.txHash)];
  }

  /** A failed lookup on a wallet that has exactly one merchant forks it: the call adds a
      second merchant on the same wallet, after which `.single()` resolves that wallet
      for no later call and each confirmed one adds yet another merchant. */
  lemma FailedLookupForksWallet(m0: map<string, Merchant>, p0: map<string, Payment>,
                                m1: map<string, Merchant>, p1: map<string, Payment>,
                                q: VerifyRequest, event: Log,
                                newMerchantId: string, apiKey: string,
                                newPaymentId: string, paymentFault: bool, resp: VerifyResponse)
    requires newMerchantId !in m0 && |WalletRows(m0, Lower(q.merchant))| == 1
    requires Recorded(m0, p0, m1, p1, q, event, true, newMerchantId, apiKey, false, newPaymentId, paymentFault, resp)
    ensures WalletRows(m1, Lower(q.merchant)) == WalletRows(m0, Lower(q.merchant)) + {newMerchantId}
    ensures |WalletRows(m1, Lower(q.merchant))| == 2
  {
    var wallet := Lower(q.merchant);
    assert m1 == m0[newMerchantId := Merchant(newMerchantId, wallet, apiKey, "")];
    assert WalletRows(m1, wallet) == WalletRows(m0, wallet) + {newMerchantId};
    assert newMerchantId !in WalletRows(m0, wallet);
  }

  /** Sending the same transaction again can never record a second payment: once a call
      confirmed, a later one with the same hash (in any letter case) answers "already
      recorded" or fails to create a merchant, and leaves the payments as they are. */
  lemma RetryIsIdempotent(m0: map<string, Merchant>, p0: map<string, Payment>,
                          m1: map<string, Merchant>, p1: map<string, Payment>,
                          m2: map<string, Merchant>, p2: map<string, Payment>,
                          q1: VerifyRequest, e1: Log, q2: VerifyRequest, e2: Log,
                          lf1: bool, mid1: string, key1: string, mf1: bool, pid1: string, pf1: bool, r1: VerifyResponse,
                          lf2: bool, mid2: string, key2: string, mf2: bool, pid2: string, pf2: bool, r2: VerifyResponse)
    requires TxHashesUnique(p0) && pid1 !in p0
    requires Recorded(m0, p0, m1, p1, q1, e1, lf1, mid1, key1, mf1, pid1, pf1, r1) && r1.Confirmed?
    requires EqualIgnoringCase(q2.txHash, q1.txHash)
    requires Recorded(m1, p1, m2, p2, q2, e2, lf2, mid2, key2, mf2, pid2, pf2, r2)
    ensures p2 == p1
    ensures r2.AlreadyRecorded? || r2 == Failure(500, MerchantCreationFailed)
  {
    RecordedKeepsLedger(m0, p0, m1, p1, q1, e1, lf1, mid1, key1, mf1, pid1, pf1, r1);
    LowerEqualIff(q2.txHash, q1.txHash);
    assert TxRecorded(p1, Lower(q2.txHash));
  }

  // ---------------------------------------------------------------------------
  // The route

  /** `.eq('wallet', wallet).single()`: the merchant's id when exactly one merchant has
      that wallet; none when there is no such row or several. */
  method FindMerchantByWallet(db: Db, wallet: string) returns (id: Option<string>)
    ensures id.Some? <==> |WalletRows(db.merchants, wallet)| == 1
    ensures id.Some? ==> WalletRows(db.merchants, wallet) == {id.value}
    ensures id.Some? ==> id.value in db.merchants && db.merchants[id.value].wallet == wallet
  {
    var rows := WalletRows(db.merchants, wallet);
    if |rows| != 1 {
      return None;
    }
    var k :| k in rows;
    assert rows == {k} by {
      var rest := rows - {k};
      assert rows == rest + {k};
      assert |rest| == 0;
    }
    id := Some(k);
  }

  method RecordPayment(db: Db, q: VerifyRequest, event: Log, lookupFault: bool,
                       newMerchantId: string, apiKey: string, merchantFault: bool,
                       newPaymentId: string, paymentFault: bool) returns (resp: VerifyResponse)
    requires db.Valid()
    requires newMerchantId != "" && newMerchantId !in db.merchants && newPaymentId !in db.payments
    modifies db`merchants, db`payments
    ensures db.Valid()
    ensures Recorded(old(db.merchants), old(db.payments), db.merchants, db.payments, q, event, lookupFault,
                     newMerchantId, apiKey, merchantFault, newPaymentId, paymentFault, resp)
  {
    var wallet := Lower(q.merchant);
    var merchantId: Option<string> := None;
    if !lookupFault {
      merchantId := FindMerchantByWallet(db, wallet);
    }
    if merchantId.None? {
      if merchantFault {
        return Failure(500, MerchantCreationFailed);
      }
      db.merchants := db.merchants[newMerchantId := Merchant(newMerchantId, wallet, apiKey, "")];
      merchantId := Some(newMerchantId);
    }
    var mid := merchantId.value;
    var payer, merchant, amount, timestamp :=
      event.payer, event.merchant, Decimal(event.amount), Decimal(event.timestamp);
    if TxRecorded(db.payments, Lower(q.txHash)) {
      return AlreadyRecorded(payer, merchant, amount, timestamp);
    }
    if paymentFault {
      return Failure(500, SaveFailed);
    }
    var row := PaymentRow(newPaymentId, mid, event, q.txHash);
    db.payments := db.payments[newPaymentId := row];
    resp := Confirmed(payer, merchant, amount, timestamp, newPaymentId);
  }

  /** The whole POST handler. The ids the database would generate for a new merchant and
      a new payment, the random API key and the ISO time are parameters. */
  method Verify(db: Db, body: Json<VerifyRequest>, chain: Chain, lookupFault: bool,
                newMerchantId: string, apiKey: string, merchantFault: bool,
                newPaymentId: string, paymentFault: bool, stamp: string) returns (resp: VerifyResponse)
    requires db.Valid()
    requires newMerchantId != "" && newMerchantId !in db.merchants && newPaymentId !in db.payments
    modifies db`merchants, db`payments, db`posts
    ensures db.Valid()
    ensures db.posts == old(db.posts)
    ensures CheckRequest(body, chain).Reject? ==>
              resp == CheckRequest(body, chain).response
              && db.merchants == old(db.merchants) && db.payments == old(db.payments)
    ensures CheckRequest(body, chain).Matched? ==>
              Recorded(old(db.merchants), old(db.payments), db.merchants, db.payments,
                       CheckRequest(body, chain).request, CheckRequest(body, chain).event, lookupFault,
                       newMerchantId, apiKey, merchantFault, newPaymentId, paymentFault, resp)
  {
    match CheckRequest(body, chain)
    case Reject(r) =>
      return r;
    case Matched(q, event) =>
      resp := RecordPayment(db, q, event, lookupFault, newMerchantId, apiKey, merchantFault, newPaymentId, paymentFault);
      if resp.Confirmed? {
        var payload := PaymentPayload(newPaymentId, event, q.txHash);
        NoMerchantIdNoPost(db.merchants, "payment_succeeded", payload, stamp);
        TriggerWebhook(db, "payment_succeeded", payload, stamp);
      }
  }
}
