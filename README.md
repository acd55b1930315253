# synq subscription and payment ledger, in Dafny

This project models the ledger logic of synq, a subscription-payments service on an
EVM chain. Merchants define plans, customers pay on chain, and the service records each
payment once. It keeps a table of subscriptions and runs agents that mark renewals due
and invoices sent. The model covers:

- `Subscriptions`: the billing calculator and the subscription transitions (create,
  renew, cancel, expiry sweep), over a database object `Store.Db` whose fields are the
  merchants, plans, subscriptions and payments tables, kept as maps keyed by row id.
- `VerifyRoute`: the payment verification endpoint. It validates the fields, matches the
  PaymentReceived log case-insensitively on transaction hash and merchant, then resolves
  or creates the merchant by lowercased wallet. The payment is inserted once per
  lowercased hash; a duplicate answers "already recorded".
- `RenewAgent` and `InvoiceAgent`: the two bounded loops. They are methods with `while`
  loops whose invariants tie the table to a specification function (`AfterUpdates`,
  `AfterFlags`) and the counter to `Js.Count`.
- `CancelRoute`: the cancel endpoint, with its UUID check related to the text form of
  section 3 of RFC 4122, the version field of section 4.1.3 and the variant of section
  4.1.1.
- `Webhooks`: the guard chain that decides whether one POST is attempted. Attempted
  POSTs are appended to `Db.posts`.
- `SdkPayments` and `SdkSubscriptions`: the SDK's query builders, result derivation and
  error rules. `FormUrlEncoded` is the application/x-www-form-urlencoded serializer of
  section 5.2 of the WHATWG URL Standard, with its parser (section 5.1) as the partner
  of a round-trip lemma.
- `Js`: the JavaScript built-ins the core relies on (`toLowerCase`, `trim`,
  `Array.prototype.find`, `BigInt.prototype.toString`, a loop counter).

Everything outside the process is a parameter:

- what the RPC node returns (`VerifyRoute.Chain`);
- the ids the database generates, and the random API key;
- errors the store reports for an insert or an update (other than a duplicate hash),
  whether the expiry sweep's bulk update is rejected, and whether the verify route's
  merchant lookup fails;
- the ids for which text generation throws, and the ids whose update the store rejects;
- the Unix time `now` and its ISO form `stamp`.

An empty string stands for an absent, null or falsy string field.

The model follows the code in these places:

- A missing receipt gives the code's 404 branch. In the running system the RPC client
  would throw, which would give a 500.
- The renewal agent counts a row once its reminder text is generated, whether or not its
  update went through. So the bound "count ≤ rows changed" holds only when no update is
  rejected (`RenewAgent.RenewCountBounds`, `RenewAgent.CountedDespiteRejectedUpdate`).
- The `payment_succeeded` payload carries no `merchant_id`, so it is never posted
  (`VerifyRoute.PaymentPayload`, `Webhooks.NoMerchantIdNoPost`, `VerifyRoute.Verify`).
- The cancel route checks the trimmed id but looks up the id as given
  (`CancelRoute.CheckedId`, `CancelRoute.PaddedIdPassesCheck`).
- The renewal agent reports `renewed` when nothing is due but `count` otherwise
  (`RenewAgent.RunRenewAgent`).

## Model

| member | source | states |
|---|---|---|
| Subscriptions.CalculateNextBilling | src/lib/subscriptions.ts:115-128 | weekly, monthly and yearly add 604800, 2592000 and 31536000 seconds to `now`; any other interval gives `now`; the result is never below `now`, and is above it exactly for the three known intervals |
| Subscriptions.CreateSubscription | src/lib/subscriptions.ts:15-53 | an unknown plan fails with "Plan not found" and inserts nothing; an insert error is thrown with no change, and so is a taken id; otherwise the inserted row is active, with the lowercased wallet, the period end from the plan's interval and the given hash |
| Subscriptions.RenewSubscription | src/lib/subscriptions.ts:59-93 | a missing subscription or plan fails with its message and no update, and an update error is thrown with no change; otherwise the row becomes `Renewed` and no other row changes |
| Subscriptions.RenewalMeaning | src/lib/subscriptions.ts:76-85 | a renewed row is active, its period end is `now` plus the interval's length, its hash is the new one if given and the old one otherwise, and the identity fields are kept |
| Subscriptions.RenewalCanShortenPeriod | src/lib/subscriptions.ts:76 | the period end is counted from `now`, not from the old end, so renewing a running monthly period on a weekly plan moves its end earlier |
| Subscriptions.CancelSubscription | src/lib/subscriptions.ts:96-112 | an existing row becomes canceled with the new stamp and no other row changes; an update error is thrown, and a missing id is the `.single()` error, both with no change |
| Subscriptions.CancelIdempotent | src/lib/subscriptions.ts:101-104 | cancel gives status canceled whatever the prior status, and cancelling twice equals cancelling once |
| Subscriptions.CheckExpiredSubscriptions | src/lib/subscriptions.ts:131-151 | returns exactly the active rows whose period ended strictly before `now`, as read; the table becomes `Swept`, or stays as it was when the bulk update is rejected, whose result is not read, so the rows are returned all the same |
| Subscriptions.SweepMeaning | src/lib/subscriptions.ts:135-146 | the sweep keeps the keys, expires exactly the overdue active rows, changes no other row and no field but the status, leaves a row ending at `now` alone, and leaves no overdue row |
| Subscriptions.SweepIdempotent | src/lib/subscriptions.ts:135-146 | a second sweep at the same time changes nothing |
| Webhooks.MerchantIdOf | src/lib/webhooks.ts:6 | the payload's `merchant_id`, empty when absent |
| Webhooks.WebhookTarget | src/lib/webhooks.ts:6-22 | a URL is chosen exactly when the payload names a merchant that exists and has a webhook URL, and it is that URL |
| Webhooks.Deliveries | src/lib/webhooks.ts:26-37 | at most one POST, present exactly when there is a target, sent to the target with the event in `X-Webhook-Event` and the body `{event, data, timestamp}` |
| Webhooks.NoMerchantIdNoPost | src/lib/webhooks.ts:8-11 | without a `merchant_id` nothing is posted, whatever the merchants table holds |
| Webhooks.TriggerWebhook | src/lib/webhooks.ts:3-48 | appends exactly `Deliveries` to the posts and changes no table; it has no error result, so a refused or failed POST ends the call like a delivered one |
| VerifyRoute.MatchesMeaning | src/app/api/payments/verify/route.ts:51-55 | a log matches exactly when its hash and merchant equal the claimed ones up to ASCII case |
| VerifyRoute.MatchingLog | src/app/api/payments/verify/route.ts:51-62 | none exactly when no log matches; otherwise the first matching log in order |
| VerifyRoute.CheckRequest | src/app/api/payments/verify/route.ts:17-62 | an unreadable body, a missing field, a throwing RPC call, a missing receipt or no matching log each give their status and message; the request goes on exactly when there is a receipt and some log matches, and then carries the first matching log |
| VerifyRoute.PaymentRow | src/app/api/payments/verify/route.ts:103-114 | the row's payer, amount and timestamp come from the event (the amount and timestamp text parse back to the event's integers), its hash is the lowercased request hash, and it is verified and not invoiced |
| VerifyRoute.PaymentPayload | src/app/api/payments/verify/route.ts:138-145 | the `payment_succeeded` payload has no `merchant_id` key |
| VerifyRoute.FindMerchantByWallet | src/app/api/payments/verify/route.ts:73-79 | finds an id exactly when one merchant has the wallet, and then it is that merchant |
| VerifyRoute.RecordPayment | src/app/api/payments/verify/route.ts:73-134 | the tables change as `Recorded` says: a merchant is created unless the lookup succeeds and exactly one merchant has the lowercased wallet, since a failed lookup reads as no row; a failed creation answers 500 and writes nothing; a recorded hash answers "already recorded" with no new row; a save fault answers 500; otherwise one payment row is added under the found merchant's id, or the new merchant's, and the event is echoed with the new payment id |
| VerifyRoute.RecordedKeepsLedger | src/app/api/payments/verify/route.ts:103-134 | recording keeps at most one payment per lowercased hash, adds a row exactly when it confirms, and the hash is recorded afterwards exactly when it was before or the call confirmed |
| VerifyRoute.UnresolvedWalletGetsNewMerchant | src/app/api/payments/verify/route.ts:73-106 | when the lookup fails, or no merchant or more than one has the wallet, a confirmed call adds exactly one merchant on the lowercased wallet and books the payment under its id |
| VerifyRoute.FailedLookupForksWallet | src/app/api/payments/verify/route.ts:73-100 | a failed lookup on a wallet with exactly one merchant adds a second merchant on that wallet, so the wallet has two and no later `.single()` lookup resolves it |
| VerifyRoute.RetryIsIdempotent | src/app/api/payments/verify/route.ts:116-127 | after a confirmed call, a second call with the same hash in any letter case adds no payment and answers "already recorded" or fails merchant creation |
| VerifyRoute.Verify | src/app/api/payments/verify/route.ts:13-162 | a rejected request writes nothing and answers as `CheckRequest` says; a matched one records as `RecordPayment` says; no POST is ever made, since the payload has no `merchant_id` |
| CancelRoute.UuidPatternMeaning | src/app/api/subscriptions/cancel/route.ts:18 | the pattern accepts exactly the RFC 4122 texts whose version is 1 to 5 and whose variant is the RFC's own |
| CancelRoute.PaddedIdPassesCheck | src/app/api/subscriptions/cancel/route.ts:19-30 | an accepted id with a leading space still passes the check, and it is a different key from the id |
| CancelRoute.CheckedId | src/app/api/subscriptions/cancel/route.ts:8-24 | the id passes exactly when it is a non-empty string whose trim matches the pattern, and the id as given is then used; each failing case gives its message |
| CancelRoute.CancelPayload | src/app/api/subscriptions/cancel/route.ts:43-48 | the `subscription_canceled` payload names the row's merchant id |
| CancelRoute.Cancel | src/app/api/subscriptions/cancel/route.ts:6-63 | an unreadable body gives 500 with its message; a missing or malformed id gives 400, and an unknown id 404, all with nothing changed; a failed cancel update gives 500 with its message and nothing changed; otherwise the row is canceled, the response echoes the updated row, and the posts grow by the deliveries of its payload |
| CancelRoute.CancelDeliversAtMostOnce | src/app/api/subscriptions/cancel/route.ts:42-49 | a cancel posts at most once, and exactly once when the row's merchant id is set and that merchant has a webhook URL |
| RenewAgent.SelectOverdue | src/agents/renew.ts:9-14 | up to 20 distinct rows, as stored, all active and overdue; as many as exist up to 20; none exactly when none is overdue |
| RenewAgent.RunRenewAgent | src/agents/renew.ts:5-63 | nothing due gives `{no-expired-subscriptions, renewed: 0}` and no change; otherwise the table becomes `AfterUpdates` of the selection and the report is `{renewed, count}` with the number of rows that have a plan and whose text was generated |
| RenewAgent.AfterUpdatesAt | src/agents/renew.ts:24-35 | a selected row with a plan and an accepted update becomes payment_required with the period end from its plan's interval and the new stamp; any other selected row is unchanged |
| RenewAgent.AfterUpdatesUntouched | src/agents/renew.ts:22-35 | a row that was not selected is left as it was |
| RenewAgent.AfterUpdatesKeys | src/agents/renew.ts:28-35 | the loop adds and removes no row |
| RenewAgent.RenewCountBounds | src/agents/renew.ts:20-59 | the count never exceeds the rows with a plan, the selection or 20; when no update is rejected and every text is generated, it equals the number of rows updated |
| RenewAgent.CountedDespiteRejectedUpdate | src/agents/renew.ts:28-56 | a row whose update is rejected is left unchanged and is still counted |
| InvoiceAgent.SelectPending | src/agents/invoice.ts:9-14 | up to 10 distinct verified, un-invoiced payments as stored; as many as exist up to 10; none exactly when none is pending |
| InvoiceAgent.RunInvoiceAgent | src/agents/invoice.ts:4-86 | a query error is rethrown with no change; an empty selection gives `{no-new-payments, processed: 0}` and no change; otherwise the table becomes `AfterFlags` of the selection, the report is `{ok, processed}` with the number of handled payments, and the ledger invariants hold |
| InvoiceAgent.AfterFlagsAt | src/agents/invoice.ts:33-78 | a selected payment gets `invoice_sent` exactly when its merchant exists, its text was generated and its update was accepted; nothing else in its row changes |
| InvoiceAgent.AfterFlagsUntouched | src/agents/invoice.ts:27-82 | a payment that was not selected is left as it was |
| InvoiceAgent.ProcessedCountsFlagged | src/agents/invoice.ts:68-85 | `processed` is at most the selection and 10, and every selected payment ends flagged exactly when it was handled |
| InvoiceAgent.AfterFlagsKeepsLedger | src/agents/invoice.ts:68-71 | setting flags keeps every payment under its own id and one payment per hash |
| SdkPayments.CheckoutParams | sdk/client/payments.ts:47-49 | the amount comes first; a plan follows exactly when a plan id is given |
| SdkPayments.CreateCheckoutUrl | sdk/client/payments.ts:43-52 | the link always starts with `/checkout-demo?amount=` |
| SdkPayments.CheckoutQueryRoundTrip | sdk/client/payments.ts:47-51 | parsing the link's query gives back the amount text and then the plan when one is given |
| SdkPayments.VerifyPaymentBody | sdk/client/payments.ts:22-28 | `create_subscription` is set exactly when a non-empty plan id is given; the other members are the arguments |
| SdkPayments.VerifyPaymentResult | sdk/client/payments.ts:31-35 | a reply that is not ok fails with the status text behind the fixed prefix whatever its body; an ok reply gives its parsed body, or fails with the parse error and no prefix when the body is not JSON |
| SdkPayments.FailureIgnoresBody | sdk/client/payments.ts:31-33 | `ok` is read before the body, so two failed replies with the same status text give the same error whatever their bodies |
| SdkSubscriptions.StatusFromListing | sdk/client/subscriptions.ts:12-30 | active exactly when the listing has an active entry, and then it describes the first one in list order |
| SdkSubscriptions.GetSubscriptionStatus | sdk/client/subscriptions.ts:8-31 | a body that is not JSON fails with the parse error, and a `null` body with the member-read error; any other body gives the status derived from its listing |
| SdkSubscriptions.ListParams | sdk/client/subscriptions.ts:93-95 | the merchant comes first and the customer last, each present exactly when given |
| SdkSubscriptions.ListQueryRoundTrip | sdk/client/subscriptions.ts:93-97 | the listing URL starts with the path, and its query parses back to exactly the given filters |
| SdkSubscriptions.StatusUrlAgreesForPlainWallets | sdk/client/subscriptions.ts:9 | for a wallet of characters the serializer keeps, the raw status URL equals the listing URL with only the customer filter |
| SdkSubscriptions.ErrorMessage | sdk/client/subscriptions.ts:78 | `error`, else `message`, else the status text; only an absent or null member falls through |
| SdkSubscriptions.EmptyErrorIsKept | sdk/client/subscriptions.ts:78 | an empty `error` is kept and hides the message and the status text |
| SdkSubscriptions.CancelSubscriptionResult | sdk/client/subscriptions.ts:76-81 | a body that is not JSON fails with the parse error and no prefix, whatever the status; otherwise a reply that is not ok fails with the cancel prefix and the error message, and an ok one succeeds |
| SdkSubscriptions.ListSubscriptionsResult | sdk/client/subscriptions.ts:98-103 | a body that is not JSON fails with the parse error and no prefix, whatever the status; otherwise a reply that is not ok fails with the listing prefix and the error message, and an ok one succeeds |
| FormUrlEncoded.SerializeRoundTrip | sdk/client/payments.ts:51 | parsing the serialization of any list of name-value pairs gives the list back |
| FormUrlEncoded.FormEncodeUnescaped | sdk/client/subscriptions.ts:97 | a component made only of characters the serializer keeps is written unchanged |
| Js.LowerEqualIff | src/app/api/payments/verify/route.ts:53-54 | comparing lowercased strings is exactly comparison up to ASCII case |
| Js.TrimMeaning | src/app/api/subscriptions/cancel/route.ts:19 | the trim is an infix of the text; what it drops is whitespace, and what it keeps neither starts nor ends with whitespace |
| Js.FindIndex | src/app/api/payments/verify/route.ts:51 | the position of the first element satisfying the test, or none exactly when no element does |
| Js.DecimalRoundTrip | src/app/api/payments/verify/route.ts:108-110 | the decimal text of a non-negative integer parses back to it |
| Js.Count | src/agents/invoice.ts:77 | the counter is at most the length, equals it exactly when every element passes, and is zero exactly when none does |
| Store.SelectUpTo | src/agents/renew.ts:14 | `.limit(n)`: distinct ids from the set, as many as there are up to `n` |

## Left out

- Concurrency: the race between concurrent verify calls, and the interleaving of the sweep with the renewal agent. Every operation runs alone.
- The RPC calls `getTransactionReceipt` and `getLogs`: what they return is a parameter. A missing receipt takes the code's 404 branch, not the exception the RPC client would raise.
- The Supabase client and `src/lib/db.ts`: the tables are maps keyed by row id, and ids are compared as exact strings. Postgres would normalise UUID letter case; the model does not. The expiry sweep returns its rows as a set, so the order of the array the select returns is not modelled.
- Text generation in the two agents: the ids for which it throws are a parameter, and the message text is not modelled.
- The clock: `now` and the ISO `stamp` are parameters. One `now` and one stamp serve a whole agent run, so the period ends the renewal agent computes in its loop count from the time of its query. The created subscription takes `stamp` as its `updated_at`, where the database would use its default.
- The random API key built with `Math.random` is an opaque parameter.
- Floats: the AVAX display arithmetic, the request's `amount` and `String(amount)` in `createCheckoutUrl` are opaque texts.
- Js.Lower: only ASCII letters are folded. JavaScript's `toLowerCase` also folds other scripts; the hashes and addresses compared here are ASCII.
- Logging, and the response of the webhook endpoint (read only for logging).
- Query errors of the expiry sweep's select and of the renewal agent's select: the code treats a failed select like an empty one, and the model does not represent a failed select.
- Failed `.single()` reads other than the verify route's merchant lookup: the model assumes these reads succeed. The code reads only `data`, so a failed read behaves as a missing row. Then the cancel route answers 404 for an existing id (src/app/api/subscriptions/cancel/route.ts:27-38). `triggerWebhook` posts nothing although the merchant exists (src/lib/webhooks.ts:13-22). The invoice agent skips a payment whose merchant exists (src/agents/invoice.ts:33-42). `createSubscription` and `renewSubscription` throw "Plan not found" or "Subscription not found" for a row that exists (src/lib/subscriptions.ts:24-32, 62-70). Each of these writes less than the model does, never more.
- Request members that parse but are not strings, in the verify route: any falsy member is the empty string, and a truthy non-string is not modelled.
- RenewAgent.RenewCountBounds: does not state count ≤ rows updated in general, because the code also counts a row whose update the store rejected (`RenewAgent.CountedDespiteRejectedUpdate`).
- `checkAccess` and `getPaymentHistory`, the agents run route, the middleware, the webhook receive route, the SDK index and the UI components: these are thin wrappers, plumbing or rendering.
- FormUrlEncoded's parser decodes UTF-8 strictly. It serves only as the reference for the round-trip lemma; the code never parses a query.
