/** The webhook dispatch: a chain of guards decides whether one POST is attempted to
    the merchant's configured URL. Nothing goes back to the caller; a failed or
    refused delivery is only logged, so the model records the attempt and returns. */
module Webhooks {
  import opened Js
  import opened Store

  /** The `merchant_id` of the payload, empty when it is absent or falsy. */
  function MerchantIdOf(data: map<string, string>): (r: string)
    ensures "merchant_id" !in data ==> r == ""
    ensures "merchant_id" in data ==> r == data["merchant_id"]
  {
    if "merchant_id" in data then data["merchant_id"] else ""
  }

  /** Where the POST goes, if anywhere: the payload names a merchant, the merchant
      exists, and it has a webhook URL. */
  function WebhookTarget(merchants: map<string, Merchant>, data: map<string, string>): (r: Option<string>)
    ensures r.Some? <==> (var m := MerchantIdOf(data); m != "" && m in merchants && merchants[m].webhookUrl != "")
    ensures r.Some? ==> r.value != "" && r.value == merchants[MerchantIdOf(data)].webhookUrl
  {
    var merchantId := MerchantIdOf(data);
    if merchantId == "" then None
    else if merchantId !in merchants then None
    else if merchants[merchantId].webhookUrl == "" then None
    else Some(merchants[merchantId].webhookUrl)
  }

  function Headers(event: string): seq<(string, string)>
  {
    [("Content-Type", "application/json"), ("X-Webhook-Event", event)]
  }

  /** The POSTs one call makes: none, or one to the target carrying the event name in a
      header and the whole payload in the body. */
  function Deliveries(merchants: map<string, Merchant>, event: string, data: map<string, string>,
                      stamp: string): (r: seq<Post>)
    ensures |r| <= 1
    ensures |r| == 1 <==> WebhookTarget(merchants, data).Some?
    ensures |r| == 1 ==>
      && r[0].url == WebhookTarget(merchants, data).value
      && ("X-Webhook-Event", event) in r[0].headers
      && r[0].body == WebhookBody(event, data, stamp)
  {
    match WebhookTarget(merchants, data)
    case None => []
    case Some(url) => [Post(url, Headers(event), WebhookBody(event, data, stamp))]
  }

  /** Without a `merchant_id` the payload reaches nobody, whatever the merchants table holds. */
  lemma NoMerchantIdNoPost(merchants: map<string, Merchant>, event: string, data: map<string, string>,
                           stamp: string)
    requires "merchant_id" !in data || data["merchant_id"] == ""
    ensures Deliveries(merchants, event, data, stamp) == []
  {
  }

  /** `stamp` is the ISO time of the call. A refused POST or a network error ends the
      call just as a delivered one does. */
  method TriggerWebhook(db: Db, event: string, data: map<string, string>, stamp: string)
    modifies db`posts
    ensures db.posts == old(db.posts) + Deliveries(db.merchants, event, data, stamp)
  {
    var merchantId := MerchantIdOf(data);
    if merchantId == "" {
      return;
    }
    if merchantId !in db.merchants || db.merchants[merchantId].webhookUrl == "" {
      return;
    }
    var url := db.merchants[merchantId].webhookUrl;
    db.posts := db.posts + [Post(url, Headers(event), WebhookBody(event, data, stamp))];
  }
}
