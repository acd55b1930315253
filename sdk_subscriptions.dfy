/** The subscriptions client of the SDK: the status derived from a listing, the query
    of the listing call, and the error message of a failed call. The fetches are outside
    the model; what they return is a parameter. */
module SdkSubscriptions {
  import opened Js
  import opened Store
  import opened FormUrlEncoded
  import opened SdkPayments

  datatype StatusData =
    | Inactive
    | ActiveSubscription(subscriptionId: string, plan: string, currentPeriodEnd: int, status: string)

  /** `listing` is the `subscriptions` member of the reply, None when it is absent. The
      result describes the first active subscription in list order, if there is one. */
  function StatusFromListing(listing: Option<seq<Subscription>>): (r: StatusData)
    ensures r.ActiveSubscription? <==>
              listing.Some? && exists i :: 0 <= i < |listing.value| && listing.value[i].status == Active
    ensures r.ActiveSubscription? ==>
              exists i :: 0 <= i < |listing.value| && listing.value[i].status == Active
                          && (forall j :: 0 <= j < i ==> listing.value[j].status != Active)
                          && r == ActiveSubscription(listing.value[i].id, listing.value[i].planId,
                                                     listing.value[i].currentPeriodEnd, "active")
  {
    match listing
    case None => Inactive
    case Some(subs) =>
      if |subs| == 0 then Inactive
      else match FindIndex(subs, (s: Subscription) => s.status == Active)
        case None => Inactive
        case Some(i) =>
          var s := subs[i];
          ActiveSubscription(s.id, s.planId, s.currentPeriodEnd, StatusName(s.status))
  }

  /** The JSON reply of the listing call; None is a `null` reply. */
  datatype ListReply = ListReply(subscriptions: Option<seq<Subscription>>)

  /** The TypeError thrown when reading `subscriptions` of a `null` reply. */
  const NullReplyError := "Cannot read properties of null (reading 'subscriptions')"

  /** The reply is parsed whatever its status: a body that is not JSON throws the parse
      error, a `null` body throws on the member read, and any other body gives the
      status derived from its listing. */
  function GetSubscriptionStatus(body: Json<Option<ListReply>>): (r: Result<StatusData>)
    ensures body.Unparsable? ==> r == Err(body.message)
    ensures body.Parsed? && body.value.None? ==> r == Err(NullReplyError)
    ensures r.Ok? <==> body.Parsed? && body.value.Some?
    ensures r.Ok? ==> r.value == StatusFromListing(body.value.value.subscriptions)
  {
    match body
    case Unparsable(message) => Err(message)
    case Parsed(None) => Err(NullReplyError)
    case Parsed(Some(data)) => Ok(StatusFromListing(data.subscriptions))
  }

  const ListPath := "/api/subscriptions/list?"

  /** The status lookup interpolates the wallet into the URL as it is, without encoding. */
  function StatusUrl(wallet: string): string
  {
    ListPath + "customer=" + wallet
  }

  /** The parameters of the listing call: the merchant, then the customer, each only
      when given. */
  function ListParams(merchant: string, customer: string): (r: seq<(string, string)>)
    ensures |r| == (if merchant != "" then 1 else 0) + (if customer != "" then 1 else 0)
    ensures merchant != "" ==> r[0] == ("merchant", merchant)
    ensures customer != "" ==> r[|r| - 1] == ("customer", customer)
  {
    (if merchant != "" then [("merchant", merchant)] else [])
    + (if customer != "" then [("customer", customer)] else [])
  }

  function ListSubscriptionsUrl(merchant: string, customer: string): string
  {
    ListPath + Serialize(ListParams(merchant, customer))
  }

  /** The query of the listing URL reads back as exactly the given filters, merchant
      first. */
  lemma ListQueryRoundTrip(merchant: string, customer: string)
    ensures |ListSubscriptionsUrl(merchant, customer)| >= |ListPath|
    ensures ListSubscriptionsUrl(merchant, customer)[..|ListPath|] == ListPath
    ensures ParseQuery(ListSubscriptionsUrl(merchant, customer)[|ListPath|..]) == Some(ListParams(merchant, customer))
  {
    var params := ListParams(merchant, customer);
    SerializeRoundTrip(params);
    assert ListSubscriptionsUrl(merchant, customer)[|ListPath|..] == Serialize(params);
  }

  lemma PlainEntry(name: string, value: string)
    requires IsPlain(name) && IsPlain(value)
    ensures Serialize([(name, value)]) == name + "=" + value
  {
    FormEncodeUnescaped(name);
    FormEncodeUnescaped(value);
  }

  lemma CustomerOnlyUrl(wallet: string)
    requires wallet != ""
    ensures ListSubscriptionsUrl("", wallet) == ListPath + Serialize([("customer", wallet)])
  {
    assert ListParams("", wallet) == [("customer", wallet)];
  }

  lemma CustomerPrefix(wallet: string)
    ensures "customer" + "=" + wallet == "customer=" + wallet
  {
    assert "customer" + "=" == "customer=";
  }

  /** A wallet written only with characters the serializer keeps (a hex address, say)
      gives the same URL either way. */
  lemma StatusUrlAgreesForPlainWallets(wallet: string)
    requires wallet != "" && IsPlain(wallet)
    ensures StatusUrl(wallet) == ListSubscriptionsUrl("", wallet)
  {
    calc {
      StatusUrl(wallet);
      ListPath + "customer=" + wallet;
      { JoinAssoc(ListPath, "customer=", wallet); }
      ListPath + ("customer=" + wallet);
      { CustomerPrefix(wallet); }
      ListPath + ("customer" + "=" + wallet);
      { PlainEntry("customer", wallet); }
      ListPath + Serialize([("customer", wallet)]);
      { CustomerOnlyUrl(wallet); }
      ListSubscriptionsUrl("", wallet);
    }
  }

  /** The `error` and `message` members of a JSON reply; None is an absent or null member. */
  datatype ErrorFields = ErrorFields(error: Option<string>, message: Option<string>)

  /** `error`, else `message`, else the status text: only a null or absent member falls
      through, so an empty `error` is kept. `data` is None for a null reply body. */
  function ErrorMessage(data: Option<ErrorFields>, statusText: string): (r: string)
    ensures data.Some? && data.value.error.Some? ==> r == data.value.error.value
    ensures data.Some? && data.value.error.None? && data.value.message.Some? ==> r == data.value.message.value
    ensures data.None? || (data.value.error.None? && data.value.message.None?) ==> r == statusText
  {
    if data.Some? && data.value.error.Some? then data.value.error.value
    else if data.Some? && data.value.message.Some? then data.value.message.value
    else statusText
  }

  /** An empty `error` hides both the message and the status text. */
  lemma EmptyErrorIsKept(message: Option<string>, statusText: string)
    ensures ErrorMessage(Some(ErrorFields(Some(""), message)), statusText) == ""
  {
  }

  /** The reply body is parsed before `ok` is looked at: a body that is not JSON throws
      the parse error, without the call's prefix, whatever the status. `data` is None for a
      `null` body. */
  function CallResult(prefix: string, reply: Reply<Json<Option<ErrorFields>>>): (r: Result<Option<ErrorFields>>)
    ensures reply.body.Unparsable? ==> r == Err(reply.body.message)
    ensures r.Ok? <==> reply.ok && reply.body.Parsed?
    ensures r.Ok? ==> r.value == reply.body.value
    ensures reply.body.Parsed? && !reply.ok ==> r == Err(prefix + ErrorMessage(reply.body.value, reply.statusText))
  {
    match reply.body
    case Unparsable(message) => Err(message)
    case Parsed(data) =>
      if !reply.ok then Err(prefix + ErrorMessage(data, reply.statusText)) else Ok(data)
  }

  function CancelSubscriptionResult(reply: Reply<Json<Option<ErrorFields>>>): (r: Result<Option<ErrorFields>>)
    ensures reply.body.Unparsable? ==> r == Err(reply.body.message)
    ensures r.Ok? <==> reply.ok && reply.body.Parsed?
    ensures reply.body.Parsed? && !reply.ok ==>
              r == Err("Cancel subscription failed: " + ErrorMessage(reply.body.value, reply.statusText))
  {
    CallResult("Cancel subscription failed: ", reply)
  }

  function ListSubscriptionsResult(reply: Reply<Json<Option<ErrorFields>>>): (r: Result<Option<ErrorFields>>)
    ensures reply.body.Unparsable? ==> r == Err(reply.body.message)
    ensures r.Ok? <==> reply.ok && reply.body.Parsed?
    ensures reply.body.Parsed? && !reply.ok ==>
              r == Err("Failed to list subscriptions: " + ErrorMessage(reply.body.value, reply.statusText))
  {
    CallResult("Failed to list subscriptions: ", reply)
  }
}
