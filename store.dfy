/** The rows of the four tables (merchants, plans, subscriptions, payments) and the
    database that holds them, as maps keyed by row id. Outgoing webhook POSTs are
    recorded in `posts`, the one effect of the core that leaves the process besides
    the tables. */
module Store {
  import opened Js

  datatype SubscriptionStatus = Active | Canceled | Expired | PaymentRequired

  datatype PaymentStatus = Pending | Verified | Failed

  /** A missing (null) `webhook_url` is the empty string. */
  datatype Merchant = Merchant(id: string, wallet: string, apiKey: string, webhookUrl: string)

  datatype Plan = Plan(id: string, merchantId: string, name: string, amount: string, interval: string)

  /** A null `merchant_id` or `last_payment_tx` is the empty string. */
  datatype Subscription = Subscription(
    id: string,
    merchantId: string,
    customer: string,
    payerWallet: string,
    planId: string,
    status: SubscriptionStatus,
    currentPeriodEnd: int,
    lastPaymentTx: string,
    updatedAt: string)

  /** `invoiceSent` is false for both a null and a false `invoice_sent`. */
  datatype Payment = Payment(
    id: string,
    merchantId: string,
    payer: string,
    amount: string,
    txHash: string,
    timestamp: string,
    status: PaymentStatus,
    invoiceSent: bool)

  datatype WebhookBody = WebhookBody(event: string, data: map<string, string>, timestamp: string)

  datatype Post = Post(url: string, headers: seq<(string, string)>, body: WebhookBody)

  function StatusName(s: SubscriptionStatus): string
  {
    match s
    case Active => "active"
    case Canceled => "canceled"
    case Expired => "expired"
    case PaymentRequired => "payment_required"
  }

  /** The unique constraint on `payments.tx_hash`. */
  predicate TxHashesUnique(payments: map<string, Payment>)
  {
    forall a, b :: a in payments && b in payments && payments[a].txHash == payments[b].txHash ==> a == b
  }

  predicate TxRecorded(payments: map<string, Payment>, txHash: string)
  {
    exists id :: id in payments && payments[id].txHash == txHash
  }

  /** Every subscription is stored under its own id. */
  predicate SubscriptionsKeyed(t: map<string, Subscription>)
  {
    forall k :: k in t ==> t[k].id == k
  }

  /** Every payment is stored under its own id. */
  predicate PaymentsKeyed(t: map<string, Payment>)
  {
    forall k :: k in t ==> t[k].id == k
  }

  class Db {
    var merchants: map<string, Merchant>
    var plans: map<string, Plan>
    var subscriptions: map<string, Subscription>
    var payments: map<string, Payment>
    var posts: seq<Post>

    /** Every row is stored under its own (non-empty, generated) id, and no two
        payments share a transaction hash. */
    ghost predicate Valid()
      reads this
    {
      && (forall k :: k in merchants ==> k != "" && merchants[k].id == k)
      && (forall k :: k in plans ==> plans[k].id == k)
      && SubscriptionsKeyed(subscriptions)
      && PaymentsKeyed(payments)
      && TxHashesUnique(payments)
    }

    constructor ()
      ensures Valid()
      ensures merchants == map[] && plans == map[] && subscriptions == map[] && payments == map[]
      ensures posts == []
    {
      merchants, plans, subscriptions, payments := map[], map[], map[], map[];
      posts := [];
    }
  }

  /** A query with `.limit(limit)`: the rows come back in an order the database chooses,
      without repeats, and as many as the limit allows. */
  method SelectUpTo<K(==)>(candidates: set<K>, limit: nat) returns (rows: seq<K>)
    ensures |rows| == if |candidates| < limit then |candidates| else limit
    ensures forall i :: 0 <= i < |rows| ==> rows[i] in candidates
    ensures forall i, j :: 0 <= i < j < |rows| ==> rows[i] != rows[j]
    ensures |candidates| <= limit ==> forall k :: k in candidates ==> k in rows
  {
    rows := [];
    var rest := candidates;
    while |rows| < limit && rest != {}
      invariant rest <= candidates
      invariant forall i :: 0 <= i < |rows| ==> rows[i] in candidates && rows[i] !in rest
      invariant forall i, j :: 0 <= i < j < |rows| ==> rows[i] != rows[j]
      invariant forall k :: k in candidates ==> k in rest || k in rows
      invariant |rows| + |rest| == |candidates|
      invariant |rows| <= limit
      decreases rest
    {
      var k :| k in rest;
      rows := rows + [k];
      rest := rest - {k};
    }
  }
}
