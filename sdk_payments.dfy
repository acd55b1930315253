/** The payments client of the SDK: the checkout link builder and the request and error
    rule of payment verification. The fetch itself is outside the model; its reply is a
    parameter. */
module SdkPayments {
  import opened Js
  import opened FormUrlEncoded

  /** The fields of a fetch reply that the client reads. */
  datatype Reply<T> = Reply(ok: bool, statusText: string, body: T)

  const CheckoutPath := "/checkout-demo?"

  /** The query parameters in the order they are appended: the amount, then the plan
      when a plan id is given. */
  function CheckoutParams(planId: string, amountText: string): (r: seq<(string, string)>)
    ensures |r| >= 1 && r[0] == ("amount", amountText)
    ensures |r| == 2 <==> planId != ""
    ensures |r| <= 2 && (|r| == 2 ==> r[1] == ("plan", planId))
  {
    [("amount", amountText)] + (if planId != "" then [("plan", planId)] else [])
  }

  /** `amountText` is the rendering of the amount number. The link always starts with
      the checkout path and the amount parameter. */
  function CreateCheckoutUrl(planId: string, amountText: string): (r: string)
    ensures |r| >= |CheckoutPath + "amount="| && r[..|CheckoutPath + "amount="|] == CheckoutPath + "amount="
  {
    var params := CheckoutParams(planId, amountText);
    var query := Serialize(params);
    CheckoutStartsWithAmount(params, amountText);
    PrefixJoin(CheckoutPath, "amount=", query);
    CheckoutPath + query
  }

  lemma PrefixJoin(a: string, b: string, c: string)
    requires |c| >= |b| && c[..|b|] == b
    ensures |a + c| >= |a + b| && (a + c)[..|a + b|] == a + b
  {
    assert (a + c)[..|a + b|] == a + c[..|b|];
  }

  /** A query whose first parameter has a plain name starts with that name and '='. */
  lemma StartsWithName(params: seq<(string, string)>, name: string, value: string)
    requires |params| >= 1 && params[0] == (name, value) && IsPlain(name)
    ensures |Serialize(params)| >= |name| + 1 && Serialize(params)[..|name| + 1] == name + "="
  {
    SerializeStartsWithEntry(params);
    PlainName(name, value);
    JoinStartsWith(name + "=", FormEncode(value));
    PrefixOfPrefix(Serialize(params), Entry(params[0]), name + "=");
  }

  lemma PrefixOfPrefix(s: string, a: string, b: string)
    requires |s| >= |a| && s[..|a|] == a && |a| >= |b| && a[..|b|] == b
    ensures |s| >= |b| && s[..|b|] == b
  {
    assert s[..|b|] == s[..|a|][..|b|];
  }

  lemma CheckoutStartsWithAmount(params: seq<(string, string)>, amountText: string)
    requires |params| >= 1 && params[0] == ("amount", amountText)
    ensures |Serialize(params)| >= |"amount="| && Serialize(params)[..|"amount="|] == "amount="
  {
    assert IsPlain("amount");
    StartsWithName(params, "amount", amountText);
    AmountLiteral();
  }

  lemma AmountLiteral()
    ensures "amount" + "=" == "amount="
  {
  }

  /** The query of the link reads back as exactly the appended parameters: the amount,
      then the plan when one is given. */
  lemma CheckoutQueryRoundTrip(planId: string, amountText: string)
    ensures ParseQuery(CreateCheckoutUrl(planId, amountText)[|CheckoutPath|..]) == Some(CheckoutParams(planId, amountText))
  {
    var params := CheckoutParams(planId, amountText);
    SerializeRoundTrip(params);
    assert CreateCheckoutUrl(planId, amountText)[|CheckoutPath|..] == Serialize(params);
  }

  /** The JSON body of the verification request; `planId` is None when no plan is given,
      and the key is then left out of the JSON. */
  datatype VerifyBody = VerifyBody(txHash: string, merchant: string, amount: string,
                                   planId: Option<string>, createSubscription: bool)

  function VerifyPaymentBody(txHash: string, merchant: string, amountText: string, planId: Option<string>): (r: VerifyBody)
    ensures r.createSubscription <==> planId.Some? && planId.value != ""
    ensures r.txHash == txHash && r.merchant == merchant && r.amount == amountText && r.planId == planId
  {
    VerifyBody(txHash, merchant, amountText, planId, planId.Some? && planId.value != "")
  }

  /** `ok` is read before the body: a reply that is not ok becomes an error carrying its
      status text whatever its body; an ok reply gives its parsed body, or the parse
      error with no prefix when the body is not JSON. */
  function VerifyPaymentResult<T>(reply: Reply<Json<T>>): (r: Result<T>)
    ensures !reply.ok ==> r == Err("Payment verification failed: " + reply.statusText)
    ensures reply.ok && reply.body.Unparsable? ==> r == Err(reply.body.message)
    ensures r.Ok? <==> reply.ok && reply.body.Parsed?
    ensures r.Ok? ==> r.value == reply.body.value
  {
    if !reply.ok then Err("Payment verification failed: " + reply.statusText)
    else match reply.body
      case Unparsable(message) => Err(message)
      case Parsed(v) => Ok(v)
  }

  /** Since `ok` is read first, a failed verification reports the same error whatever
      body came with it. */
  lemma FailureIgnoresBody<T>(a: Reply<Json<T>>, b: Reply<Json<T>>)
    requires !a.ok && !b.ok && a.statusText == b.statusText
    ensures VerifyPaymentResult(a) == VerifyPaymentResult(b)
  {
  }
}
