/** POST /api/subscriptions/cancel: validates the `subscription_id` of the body (present,
    a string, and in UUID form once trimmed), rejects an unknown id, cancels the
    subscription and notifies its merchant. */
module CancelRoute {
  import opened Js
  import opened Store
  import opened Webhooks
  import opened Subscriptions

  // ---------------------------------------------------------------------------
  // The UUID check

  predicate IsHex(c: char)
  {
    '0' <= c <= '9' || 'a' <= c <= 'f' || 'A' <= c <= 'F'
  }

  function HexVal(c: char): (v: nat)
    requires IsHex(c)
    ensures v < 16
  {
    if '0' <= c <= '9' then c as int - '0' as int
    else if 'a' <= c <= 'f' then c as int - 'a' as int + 10
    else c as int - 'A' as int + 10
  }

  predicate HexRun(s: string, from: nat, to: nat)
    requires from <= to <= |s|
  {
    forall k :: from <= k < to ==> IsHex(s[k])
  }

  /** The route's pattern, case-insensitive and anchored at both ends: 8-4-4-4-12 hex
      digits, the third group starting with 1 to 5 and the fourth with 8, 9, a or b. */
  predicate MatchesUuidPattern(s: string)
  {
    && |s| == 36
    && HexRun(s, 0, 8) && s[8] == '-'
    && HexRun(s, 9, 13) && s[13] == '-'
    && '1' <= s[14] <= '5' && HexRun(s, 15, 18) && s[18] == '-'
    && s[19] in "89abAB" && HexRun(s, 20, 23) && s[23] == '-'
    && HexRun(s, 24, 36)
  }

  /** Section 3 of RFC 4122: sixteen octets as pairs of hex digits, with a hyphen after
      the 4th, 6th, 8th and 10th octet. */
  predicate IsDash(k: nat) { k == 8 || k == 13 || k == 18 || k == 23 }

  predicate Rfc4122Text(s: string)
  {
    |s| == 36 && forall k :: 0 <= k < 36 ==> if IsDash(k) then s[k] == '-' else IsHex(s[k])
  }

  /** Where the high digit of octet `i` sits in the text. */
  function OctetPos(i: nat): (p: nat)
    requires i < 16
    ensures p + 1 < 36 && !IsDash(p) && !IsDash(p + 1)
  {
    2 * i + (if i >= 4 then 1 else 0) + (if i >= 6 then 1 else 0)
          + (if i >= 8 then 1 else 0) + (if i >= 10 then 1 else 0)
  }

  function Octet(s: string, i: nat): (v: nat)
    requires Rfc4122Text(s) && i < 16
    ensures v < 256
  {
    16 * HexVal(s[OctetPos(i)]) + HexVal(s[OctetPos(i) + 1])
  }

  /** Section 4.1.3 of RFC 4122: the version is the high four bits of time_hi_and_version
      (octet 6). */
  function Version(s: string): nat
    requires Rfc4122Text(s)
  {
    Octet(s, 6) / 16
  }

  /** Section 4.1.1 of RFC 4122: the variant is read from the high bits of
      clock_seq_hi_and_reserved (octet 8); the RFC's own layout has the two high bits 1 0. */
  function Variant(s: string): nat
    requires Rfc4122Text(s)
  {
    Octet(s, 8) / 64
  }

  lemma HighDigit(a: nat, b: nat)
    requires a < 16 && b < 16
    ensures (16 * a + b) / 16 == a
    ensures (16 * a + b) / 64 == a / 4
  {
  }

  /** The pattern accepts exactly the RFC 4122 texts of versions 1 to 5 in the RFC 4122
      variant. */
  lemma UuidPatternMeaning(s: string)
    ensures MatchesUuidPattern(s) <==> Rfc4122Text(s) && 1 <= Version(s) <= 5 && Variant(s) == 2
  {
    if Rfc4122Text(s) {
      HighDigit(HexVal(s[14]), HexVal(s[15]));
      HighDigit(HexVal(s[19]), HexVal(s[20]));
      assert Version(s) == HexVal(s[14]);
      assert Variant(s) == HexVal(s[19]) / 4;
      assert HexRun(s, 0, 8) && HexRun(s, 9, 13) && HexRun(s, 15, 18) && HexRun(s, 20, 23) && HexRun(s, 24, 36);
    }
    if MatchesUuidPattern(s) {
      assert forall k :: 0 <= k < 36 ==> if IsDash(k) then s[k] == '-' else IsHex(s[k]);
    }
  }

  /** Whitespace around an id passes the check, since the check sees the trimmed id:
      " " + u is accepted for every accepted u, and it is a different key. */
  lemma PaddedIdPassesCheck(u: string)
    requires MatchesUuidPattern(u)
    ensures Trim(" " + u) == u && MatchesUuidPattern(Trim(" " + u)) && " " + u != u
  {
    var p := " " + u;
    assert p[1..] == u;
    assert TrimStart(p) == TrimStart(u);
    assert !IsJsWhitespace(u[0]) && !IsJsWhitespace(u[|u| - 1]);
    TrimNoop(u);
    assert |p| != |u|;
  }

  // ---------------------------------------------------------------------------
  // The route

  /** The `subscription_id` member of the body. */
  datatype Field = Missing | NonText | Text(value: string)

  datatype CancelResponse =
    | Failure(code: int, error: string)
    | CanceledOk(subscriptionId: string, status: string, updatedAt: string)

  const MissingId := "Missing required field: subscription_id"
  const InvalidId := "Invalid subscription_id format (expected UUID)"
  const UnknownSubscription := "Subscription not found"
  const CancelFailed := "Failed to cancel subscription"

  /** The payload of `subscription_canceled`, built from the updated row. */
  function CancelPayload(row: Subscription): (r: map<string, string>)
    ensures MerchantIdOf(r) == row.merchantId
  {
    map["merchant_id" := row.merchantId, "subscription_id" := row.id,
        "customer" := row.payerWallet, "status" := StatusName(row.status)]
  }

  /** The id must be a non-empty string, and the trimmed id must match the pattern;
      the id itself is used as given. */
  function CheckedId(body: Json<Field>): (r: Result<string>)
    ensures r.Ok? <==> body.Parsed? && body.value.Text? && body.value.value != ""
                       && MatchesUuidPattern(Trim(body.value.value))
    ensures r.Ok? ==> r.value == body.value.value
    ensures body.Unparsable? ==> r == Err(body.message)
    ensures body.Parsed? && !(body.value.Text? && body.value.value != "") ==> r == Err(MissingId)
    ensures body.Parsed? && body.value.Text? && body.value.value != "" && !MatchesUuidPattern(Trim(body.value.value)) ==>
              r == Err(InvalidId)
  {
    match body
    case Unparsable(message) => Err(message)
    case Parsed(field) =>
      if !field.Text? || field.value == "" then Err(MissingId)
      else if !MatchesUuidPattern(Trim(field.value)) then Err(InvalidId)
      else Ok(field.value)
  }

  /** `updateError` is an error the store reports for the cancel update, and `stamp` the
      ISO time of the update. A thrown error is answered with its message, or the fixed
      one when the message is empty. */
  method Cancel(db: Db, body: Json<Field>, updateError: Option<string>, stamp: string) returns (resp: CancelResponse)
    requires db.Valid()
    modifies db`subscriptions, db`posts
    ensures db.Valid()
    ensures body.Unparsable? ==> resp == Failure(500, Or(body.message, CancelFailed))
    ensures body.Parsed? && CheckedId(body) == Err(MissingId) ==> resp == Failure(400, MissingId)
    ensures body.Parsed? && CheckedId(body) == Err(InvalidId) ==> resp == Failure(400, InvalidId)
    ensures CheckedId(body).Ok? && CheckedId(body).value !in old(db.subscriptions) ==>
              resp == Failure(404, UnknownSubscription)
    ensures CheckedId(body).Ok? && CheckedId(body).value in old(db.subscriptions) && updateError.Some? ==>
              resp == Failure(500, Or(updateError.value, CancelFailed))
    ensures !(CheckedId(body).Ok? && CheckedId(body).value in old(db.subscriptions) && updateError.None?) ==>
              db.subscriptions == old(db.subscriptions) && db.posts == old(db.posts)
    ensures CheckedId(body).Ok? && CheckedId(body).value in old(db.subscriptions) && updateError.None? ==>
              var id := CheckedId(body).value;
              var row := CanceledRow(old(db.subscriptions)[id], stamp);
              && db.subscriptions == old(db.subscriptions)[id := row]
              && resp == CanceledOk(id, "canceled", stamp)
              && db.posts == old(db.posts) + Deliveries(db.merchants, "subscription_canceled", CancelPayload(row), stamp)
  {
    var checked := CheckedId(body);
    if checked.Err? {
      if body.Unparsable? {
        return Failure(500, Or(body.message, CancelFailed));
      }
      return Failure(400, checked.message);
    }
    var id := checked.value;
    if id !in db.subscriptions {
      return Failure(404, UnknownSubscription);
    }
    var merchantId := db.subscriptions[id].merchantId;
    var r := CancelSubscription(db, id, updateError, stamp);
    if r.Err? {
      return Failure(500, Or(r.message, CancelFailed));
    }
    var subscription := r.value;
    var payload := CancelPayload(subscription);
    if merchantId != "" {
      TriggerWebhook(db, "subscription_canceled", payload, stamp);
    } else {
      NoMerchantIdNoPost(db.merchants, "subscription_canceled", payload, stamp);
    }
    resp := CanceledOk(subscription.id, StatusName(subscription.status), subscription.updatedAt);
  }

  /** A cancel makes at most one delivery, and makes one exactly when the row has a
      merchant id whose merchant has a webhook URL. */
  lemma CancelDeliversAtMostOnce(merchants: map<string, Merchant>, row: Subscription, stamp: string)
    ensures |Deliveries(merchants, "subscription_canceled", CancelPayload(row), stamp)| <= 1
    ensures |Deliveries(merchants, "subscription_canceled", CancelPayload(row), stamp)| == 1 <==>
              row.merchantId != "" && row.merchantId in merchants && merchants[row.merchantId].webhookUrl != ""
  {
  }
}
