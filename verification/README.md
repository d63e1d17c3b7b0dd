# WebhookOS: verified kernels

WebhookOS accepts events, delivers them as webhooks, and bills for it. This project models the parts of its backend in
which a small amount of state or arithmetic carries a strong promise, and proves the promise for all inputs, all runs or
all interleavings. Every module stands for one component:

| module | component |
|---|---|
| `Subscriptions`, `SubscriptionDb` | the subscription status machine: lazy expiry in the access check, eager expiry in the hourly sweep, and every action that writes a record |
| `Pagination` | keyset pagination: query rewriting and cursor following |
| `JsBits`, `Base32`, `Totp` | base32 and one-time passwords on JavaScript's 32-bit operators |
| `RateLimiter` | the three-window rate limiter as two atomic updates per check |
| `Tunnel` | the tunnel's event-stream writer and the command-line reader |
| `CreditLedger` | the credit balance and its ledger under interleaving |
| `JsonTree`, `PiiScrubber`, `FilterEngine` | masking by path, and filter rules on masked payloads |
| `CircuitBreaker` | the circuit breaker shared through Redis |
| `SchemaValidator` | the recursive payload validator |
| `PayloadCrypto`, `EndpointSecrets` | the `enc:` envelope with key rotation, and the hooks that use it |
| `RetryChain` | the retry chain of one event |
| `DeliveryLogWriter` | the batching log writer |
| `ResponseCache` | the response cache with expiry and eviction |
| `CsvExport` | the audit export |
| `Common`, `Strings`, `Wrappers` | shared definitions |

Code that changes state is a class whose methods are proved against a function of the old state; what the system promises
is then proved about that function over whole runs. A run is a sequence of atomic steps: one database or Redis command,
one event-loop turn, one function call. `dafny verify dfyconfig.toml` checks everything.

Clocks, random bytes, HMAC-SHA-1, AES-GCM, JSON printing and parsing, regular expressions and JavaScript's cross-type
comparisons are parameters. HMAC-SHA-1 is any function to 20 bytes; AES-GCM is any cipher with the laws of
`PayloadCrypto.Ideal`, which some cipher over all byte keys meets (`PayloadCrypto.IdealExists`); JSON printing is any injective printer that emits no raw line break. Mongo's `findOneAndUpdate` and
Redis commands are atomic; Mongo's `find` with `sort` and `limit` is filter, sort, take.

## What the proofs found

Properties that fail, with the condition under which they hold:

- A credit purchase reads the status that expiry writes. It agrees with the sweep exactly when it does not meet a trial
  that is over but not yet swept (`Subscriptions.PurchaseAgreement`).
- The access check writes an expired status by id after reading the record. If a renewal lands in between, the write
  denies the customer who has just paid (`Subscriptions.LateWriteCanUndoRenewal`). Being denied already is not enough for
  the late write to be harmless, since a later credit purchase reads the status: the exact conditions, over all later
  runs, are those of `Subscriptions.LateWriteHarmless` (against no write) and `Subscriptions.LateWriteLikeAtomicCheck`
  (against a check that reads and writes at once).
- A captured payment delivered again is ignored exactly while some user's last booked payment is that one
  (`Subscriptions.CapturedOnce`): after another payment it acts again and can reactivate a cancelled user
  (`Subscriptions.RedeliveryReactivates`), and a charged renewal is never booked, so each delivery extends the period
  (`Subscriptions.ChargedExtendsEveryTime`).
- Cancelling answers that access continues until the period ends; the access check denies at once. The model follows the
  code (`Subscriptions.ClosingActions`).
- Cursor pagination drops the original `$and` of a filter that holds both `$or` and `$and` from the second page on
  (`Pagination.RewriteMeaning`); which excluded documents a scan then returns is exact (`Pagination.BothClausesLeak`, with
  a collection that leaks in `Pagination.LeakExample`).
- Under the sort orders 'desc' and 'descending' the cursor compares the wrong way: a scan repeats its first page without
  the last document and stops. For every filter and order, `Pagination.ScanCorrectIff` says exactly when a scan is
  right.
- The rate bound of twice the limit per window needs fresh clocks: with clocks at most `lag` old it holds for closed
  intervals of exactly the lengths up to the window less `lag` (`RateLimiter.IntervalBoundExact`); one millisecond more
  can admit three under a limit of one (`RateLimiter.StaleClocksOveradmit`).
- balance = lifetimePurchased - lifetimeUsed holds exactly when no adjustment was negative (`CreditLedger.LifetimeTotals`).
- A worker that dies between `incr` and `pexpire` leaves a failure counter that never expires
  (`CircuitBreaker.CrashOrphansCounter`); a counter without expiry is not owed one exactly when its creator crashed
  (`CircuitBreaker.OrphanedExactlyByCrash`).
- With a current key, `decrypt` inverts `encrypt` exactly for non-empty text under a version without a colon; without one,
  exactly for text it tries no key on (`PayloadCrypto.DecryptInvertsEncrypt`). After a rotation every label works, except
  the current version's label while no current key is set (`PayloadCrypto.RecoveredAfterRotation`). A stored secret comes
  back exactly when decryption tries no key on the secret itself (`EndpointSecrets.SecretComesBack`); one that is an
  envelope comes back opened (`EndpointSecrets.EnvelopeSecretIsLost`).
- A retrying event can be left without any job exactly when more than five retries are configured
  (`RetryChain.StrandsExactlyAboveFive`). The delay of a queued retry ignores the endpoint's strategy
  (`RetryChain.StoredTimeIsEarlier`).
- Log rows are stranded when an insert settles during which rows came in and no enqueue below both limits came after every
  timeout that fired; `DeliveryLogWriter.StrandsExactlyWhen` proves this exact over all runs.

## Model

| member | source | states |
|---|---|---|
| Subscriptions.SweepAgreement | src/modules/billing/trial.service.ts:39-86 | Two runs that differ only in inserted sweeps (of any subset of records) and access checks give every later access check the same answer, days left included; a swept period end only changes the name of the reason. |
| Subscriptions.RunSimulates | src/modules/billing/trial.service.ts:39-86 | Over a whole run, the swept store equals the unswept one except for expiries that are due. |
| Subscriptions.ExpiryCheckSimulates | src/modules/billing/trial.service.ts:74-86 | A sweep or access check on one side alone keeps the simulation. |
| Subscriptions.ActionSimulates | src/modules/payments/payments.service.ts:94-179 | Every other action taken on both sides keeps the simulation. |
| Subscriptions.SimulationAnswers | src/modules/billing/trial.service.ts:44-71 | Stores related by the simulation answer every access check alike. |
| Subscriptions.AccessRule | src/modules/billing/trial.service.ts:39-72 | Who is let in, status by status: no record, credits, a trial or period that has not ended; a trial's days left are the hours left rounded up to whole days. |
| Subscriptions.PurchaseAgreement | src/modules/billing/credits.service.ts:146-149 | A credit purchase is indifferent to a preceding sweep if and only if it does not meet an unswept expired trial. |
| Subscriptions.LateWriteHarmless | src/modules/billing/trial.service.ts:39-57 | The access check's delayed write by id leaves every decision of every later run, credit purchases included, as without the write if and only if the record it meets is already lapsed (trial expired, cancelled) or already owing (past due, suspended, period over), matching the written status. |
| Subscriptions.LateWriteLikeAtomicCheck | src/modules/billing/trial.service.ts:48-57 | Compared with a check that reads and writes at once, the same holds if and only if the record is an expired trial, trial expired or cancelled (for a trial's write), or an expired period, past due or suspended (for a period's write). |
| Subscriptions.WritersForgetStatus | src/modules/payments/payments.service.ts:94-179 | Every writer except the credit purchase writes a record alike whatever its status, or leaves it alone. |
| Subscriptions.LateWriteCanUndoRenewal | src/modules/billing/trial.service.ts:53-57 | A renewal between the check's read and its write leaves a paying customer denied. |
| Subscriptions.NeverCrashes | src/modules/billing/trial.service.ts:45-52 | From a store whose trials have end dates, no run reaches the null dereference of a trial without one. |
| Subscriptions.OthersOnlyExpire | src/modules/billing/trial.service.ts:74-86 | An action changes a record of a user it is not about only by writing an expiry that is due. |
| Subscriptions.UntouchedRecord | src/modules/billing/trial.service.ts:74-86 | The same over whole runs. |
| Subscriptions.PaymentOpensAccess | src/modules/billing/subscription.service.ts:157-186 | A settled payment opens access through exactly thirty days, whatever the record was and over any run that is not about the user. |
| Subscriptions.EventOpensAccess | src/modules/payments/payments.service.ts:121-159 | A captured or charged provider event that is not skipped opens access through exactly thirty days. |
| Subscriptions.AddedCustomerLetIn | src/modules/billing/reseller.service.ts:47-85 | A customer whom a reseller adds is let in exactly to the month end. |
| Subscriptions.TrialLastsTenDays | src/modules/billing/trial.service.ts:21-33 | A new trial lasts ten days to the millisecond over any run that is not about the user, and reports the time left rounded up to days, ten at the start; an existing record is not touched. |
| Subscriptions.ClosingActions | src/modules/billing/subscription.service.ts:209-221 | Cancelling, failed payments, provider cancellation and suspension deny access at once with their reason, over any run that is not about the user. |
| Subscriptions.ReactivationReopens | src/modules/billing/reseller.service.ts:112-121 | Reactivating a suspended customer opens access exactly to the month end. |
| Subscriptions.CapturedOnce | src/modules/payments/payments.service.ts:105-141 | A captured payment of a known user, delivered again after any run, changes nothing at any later time if and only if some user's last booked payment is still that one. |
| Subscriptions.CapturedTwiceAtOnce | src/modules/payments/payments.service.ts:109-117 | Delivered again with nothing in between, it changes nothing. |
| Subscriptions.DeliveryChangesNothingIff | src/modules/payments/payments.service.ts:105-177 | A provider event of any kind changes nothing at any later time if and only if its id is booked or its kind and contents leave it nothing to write. |
| Subscriptions.BookedOverRun | src/modules/payments/payments.service.ts:127-130 | After a run a user's payment id is the last one the run booked on the user, or the earlier one if it booked none. |
| Subscriptions.RedeliveryReactivates | src/modules/payments/payments.service.ts:109-142 | Capture, another payment, cancellation and the first event again leave the cancelled user active. |
| Subscriptions.ChargedExtendsEveryTime | src/modules/payments/payments.service.ts:144-159 | A charged renewal books no id, so every delivery that is not skipped extends the period again. |
| SubscriptionDb.BillingDb.StartTrial | src/modules/billing/trial.service.ts:21-33 | Creates the trial record, ending ten days from now, or returns the existing one untouched. |
| SubscriptionDb.BillingDb.IsAllowed | src/modules/billing/trial.service.ts:39-72 | The answer is decided on the state before the call, a trial's days left rounding the time left up; exactly a discovered expiry is written. |
| SubscriptionDb.BillingDb.ExpireStaleSubscriptions | src/modules/billing/trial.service.ts:74-86 | Exactly the trials and active periods that ended before now are marked as over; every other record is as before. |
| SubscriptionDb.BillingDb.VerifyUpgradePayment | src/modules/billing/subscription.service.ts:157-193 | Succeeds exactly for a valid signature and a known plan, and then makes the record active under the plan for thirty days and books the payment on the user. |
| SubscriptionDb.BillingDb.CancelSubscription | src/modules/billing/subscription.service.ts:209-221 | Refuses a missing or cancelled record and otherwise is the cancel action. |
| SubscriptionDb.BillingDb.VerifyPayment | src/modules/payments/payments.service.ts:63-92 | A bad signature changes nothing; otherwise the payment is booked on the user, and a known plan is active for thirty days. |
| SubscriptionDb.BillingDb.HandleWebhook | src/modules/payments/payments.service.ts:94-179 | What each kind of provider event writes, to users and records; an event whose id some user holds is reported as skipped and changes nothing. |
| SubscriptionDb.BillingDb.AddCustomer | src/modules/billing/reseller.service.ts:47-85 | Unknown customer and repeated customer are refused; otherwise the record is active to the month end under the reseller. |
| SubscriptionDb.BillingDb.SuspendCustomer | src/modules/billing/reseller.service.ts:101-110 | Only the reseller's own customer is suspended. |
| SubscriptionDb.BillingDb.ReactivateCustomer | src/modules/billing/reseller.service.ts:112-121 | Only the reseller's own customer is reactivated, to the month end. |
| SubscriptionDb.BillingDb.UnlockWithCredits | src/modules/billing/credits.service.ts:146-149 | Moves only an expired trial or a cancelled record to credit-only. |
| Pagination.CursorPaginate | src/common/pagination/cursor.ts:42-90 | A malformed cursor is refused; otherwise the page is the specified one. |
| Pagination.RewriteMeaning | src/common/pagination/cursor.ts:54-71 | The rewritten query selects exactly the documents beyond the cursor that match the original filter, whose `$and` is lost if and only if the filter holds both clauses. |
| Pagination.BothClausesLeak | src/common/pagination/cursor.ts:62-67 | An excluded document is returned by a scan if and only if the result is longer than a page and the document, beyond the first page, matches the filter without its `$and`. |
| Pagination.LeakExample | src/common/pagination/cursor.ts:62-67 | Three documents and a page size of one whose scan returns an excluded document. |
| Pagination.ScanOfAnyFilter | src/common/pagination/cursor.ts:42-90 | For any filter a scan longer than a page is the first page of sorted matches followed by everything the rewritten filter selects beyond it. |
| Pagination.PageFacts | src/common/pagination/cursor.ts:73-87 | A page is the first documents in order of those selected; the cursor names its last document exactly when more remain. |
| Pagination.ScanUnderChurn | src/common/pagination/cursor.ts:42-90 | Under any inserts, deletes and updates between pages, following cursors returns documents in strict order, and every position (sort value and id) that holds a matching document throughout is returned exactly once; what is returned matches the filter, or after the first page the filter without the lost `$and`. |
| Pagination.CursorMoves | src/common/pagination/cursor.ts:83-87 | Every cursor leaves strictly fewer documents beyond it, so following cursors ends. |
| Pagination.ScanReturnsSortedMatches | src/common/pagination/cursor.ts:42-90 | On an unchanging collection the pages concatenate to the sorted match list. |
| Pagination.DescendingWordsRepeat | src/common/pagination/cursor.ts:46-76 | Under 'desc' and 'descending' a scan longer than a page is the first page followed by the first page without its last document. |
| Pagination.ScanCorrectIff | src/common/pagination/cursor.ts:46-76 | For every filter and order, a full scan equals the sorted match list if and only if one page suffices, or the order is not one of those two words and a filter with both clauses has nothing to leak beyond its first page. |
| Pagination.PageSize | src/common/pagination/cursor.ts:51-51 | The page size lies in 1 to 200 and is the whole part of a limit in that range. |
| Pagination.PageSizeMeaning | src/common/pagination/cursor.ts:51-51 | Limits below 1 give one document, limits of 200 and more give 200. |
| Pagination.SortMeaning | src/common/pagination/cursor.ts:73-76 | Descending orders put larger keys first and larger ids among equal keys; ascending ones the reverse. |
| JsBits.ShiftInByte | src/modules/auth/two-factor.service.ts:235-235 | Shifting a byte into the unmasked 32-bit accumulator appends its bits to the pending ones, although older bits overflow. |
| JsBits.ReadSymbol | src/modules/auth/two-factor.service.ts:238-238 | The masked right shift reads the five oldest pending bits. |
| JsBits.ReadLastSymbol | src/modules/auth/two-factor.service.ts:243-243 | The final symbol is the pending bits completed with zeros. |
| Base32.Base32Encode | src/modules/auth/two-factor.service.ts:229-246 | The loops on the overflowing accumulator produce the bit-string regrouping of section 6 of RFC 4648. |
| Base32.Base32Decode | src/modules/auth/two-factor.service.ts:248-265 | The loop produces the eight-bit regrouping of the symbols' bits, skipping other characters. |
| Base32.RoundTrip | src/modules/auth/two-factor.service.ts:229-265 | Decoding an encoding returns the bytes, for every byte string, and the text has ceil(8n/5) symbols. |
| Base32.EncodeInjective | src/modules/auth/two-factor.service.ts:229-246 | Distinct byte strings have distinct encodings. |
| Base32.CaseAndPaddingIgnored | src/modules/auth/two-factor.service.ts:250-250 | A secret typed with any letters small and any padding decodes to the same bytes. |
| Base32.OthersAreSkipped | src/modules/auth/two-factor.service.ts:254-256 | A character that is no letter and no digit from 2 to 7 does not change what is decoded. |
| Base32.AlphabetMeaning | src/modules/auth/two-factor.service.ts:230-230 | Values 0 to 25 are written A to Z, values 26 to 31 are written 2 to 7. |
| Totp.CounterBytes | src/modules/auth/two-factor.service.ts:209-214 | The buffer spells the counter modulo 2^64 in eight big-endian bytes, the lowest last, for every whole number. |
| Totp.DynamicTruncation | src/modules/auth/two-factor.service.ts:218-223 | The masked and shifted bytes are the 31-bit value of section 5.3 of RFC 4226, and no index leaves the 20 bytes. |
| Totp.SixDigits | src/modules/auth/two-factor.service.ts:225-226 | A code is exactly six digits that spell the truncated value modulo 10^6. |
| Totp.GenerateHotp | src/modules/auth/two-factor.service.ts:205-227 | Six digits that spell, modulo 10^6, the 31-bit number of four bytes of the MAC of the counter's eight bytes under the decoded secret, at the offset the MAC's last byte names. |
| Totp.HotpMeaning | src/modules/auth/two-factor.service.ts:205-227 | The same of the function the other results speak of. |
| Totp.KeysMatter | src/modules/auth/two-factor.service.ts:207-216 | For any two distinct keys and any counter some MAC gives different codes. |
| Totp.TruncationExample | src/modules/auth/two-factor.service.ts:218-225 | The bytes of the example in section 5.4 of RFC 4226 give its value and its code. |
| Totp.VerifyTotp | src/modules/auth/two-factor.service.ts:194-203 | Accepts exactly the codes under the decoded secret of the current thirty-second step and its two neighbours. |
| Totp.NeighbouringStepsAccepted | src/modules/auth/two-factor.service.ts:194-203 | A code generated at one time is accepted at any time whose step differs by at most one. |
| Totp.NearbyClocks | src/modules/auth/two-factor.service.ts:17-19 | Clocks within 30 seconds are in neighbouring steps, and neighbouring steps are less than 60 seconds apart. |
| Totp.EncodedSecretKeepsKey | src/modules/auth/two-factor.service.ts:205-207 | The encoded secret yields the codes of the raw key. |
| Totp.CounterInjective | src/modules/auth/two-factor.service.ts:209-214 | Counters in the signed 64-bit range have distinct messages. |
| RateLimiter.EndpointRecord.ResetExpired | src/modules/endpoints/endpoint-rate-limiter.service.ts:24-39 | Exactly the windows whose reset time has passed or is missing start again from zero, for a minute, an hour or a day; the others are untouched. |
| RateLimiter.EndpointRecord.TryIncrement | src/modules/endpoints/endpoint-rate-limiter.service.ts:69-78 | All three counters move together, exactly when all are below their limits. |
| RateLimiter.EndpointRecord.BeginCheck | src/modules/endpoints/endpoint-rate-limiter.service.ts:21-67 | Goes on exactly when every refreshed window has room; a refusal names the shortest full window and the exact time to its reset. |
| RateLimiter.EndpointRecord.FinishCheck | src/modules/endpoints/endpoint-rate-limiter.service.ts:69-91 | Admits by the conditional increment; a lost race asks to wait at least 500 ms. |
| RateLimiter.EndpointRecord.CheckRateLimit | src/modules/endpoints/endpoint-rate-limiter.service.ts:21-92 | Uninterrupted, a check admits exactly when every refreshed window has room, and never reports a race. |
| RateLimiter.CountersStayWithinLimits | src/modules/endpoints/endpoint-rate-limiter.service.ts:69-78 | In every interleaving all counters stay at or below their limits. |
| RateLimiter.CounterCountsAdmissions | src/modules/endpoints/endpoint-rate-limiter.service.ts:24-78 | In every interleaving each counter is the number of admissions since its window's last reset. |
| RateLimiter.ResetsApart | src/modules/endpoints/endpoint-rate-limiter.service.ts:29-34 | Two resets of a window are more than its length, less the clock lag, apart. |
| RateLimiter.IntervalBound | src/modules/endpoints/endpoint-rate-limiter.service.ts:21-92 | With clock values at most `lag` old, a closed interval of at most the window less `lag` admits at most twice the limit. |
| RateLimiter.IntervalBoundExact | src/modules/endpoints/endpoint-rate-limiter.service.ts:21-92 | The bound holds for all runs and limits if and only if the interval's length is at most the window less `lag`. |
| RateLimiter.AtomicClockBound | src/modules/endpoints/endpoint-rate-limiter.service.ts:21-92 | With fresh clocks any minute, hour or day admits at most twice its limit. |
| RateLimiter.StaleClocksOveradmit | src/modules/endpoints/endpoint-rate-limiter.service.ts:22-39 | For every window and every lag up to its length, a run admits three under a limit of one in an interval one millisecond longer. |
| Tunnel.TunnelService.Connect | src/modules/tunnel/tunnel.controller.ts:91-103 | A new connection starts with the greeting frame and becomes the tunnel's connection. |
| Tunnel.TunnelService.Beat | src/modules/tunnel/tunnel.controller.ts:98-101 | Appends one heartbeat frame unless the connection has ended. |
| Tunnel.TunnelService.Forward | src/modules/tunnel/tunnel.service.ts:64-81 | Appends exactly one frame to the open connection and counts it; a missing or closed connection is forgotten and reported. |
| Tunnel.Serve | src/modules/tunnel/tunnel.controller.ts:91-103 | A connection's greeting and any sequence of forwards and heartbeats write exactly the stream of these messages. |
| Tunnel.TunnelReader.OnData | cli/tunnel.js:61-75 | One chunk delivers the events of the lines it completes and keeps the unfinished line. |
| Tunnel.SplitIsFeed | cli/tunnel.js:64-65 | Splitting at line breaks equals reading character by character. |
| Tunnel.ReadAll | cli/tunnel.js:61-75 | The reader's state after any chunks depends only on their concatenation. |
| Tunnel.StreamReadsBack | src/modules/tunnel/tunnel.service.ts:78-79 | A stream of greetings, events and heartbeats is read as exactly the forwarded events in order, with an empty buffer. |
| Tunnel.ReadConnection | cli/tunnel.js:61-75 | The same for every cutting of the stream into chunks. |
| Tunnel.DeliveredIsPrefix | cli/tunnel.js:61-75 | After any part of the stream the delivered events are a prefix of the payloads. |
| Tunnel.ConformingReaderAgrees | src/modules/tunnel/tunnel.controller.ts:97-101 | A reader following section 9.2.6 of the WHATWG HTML standard dispatches the same events. |
| CreditLedger.CreditsService.GetBalance | src/modules/billing/credits.service.ts:61-67 | Returns the account, creating an empty one if there is none. |
| CreditLedger.CreditsService.TryDecrement | src/modules/billing/credits.service.ts:173-177 | Decrements exactly when the balance covers the amount. |
| CreditLedger.CreditsService.DeductForDelivery | src/modules/billing/credits.service.ts:163-196 | Uninterrupted, takes one credit and one per retry exactly when the balance covers them, with its row; otherwise changes nothing and reports the balance. |
| CreditLedger.CreditsService.TopUp | src/modules/billing/credits.service.ts:206-230 | Adds the amount, counts only a positive one as purchased, and writes its row. |
| CreditLedger.ReadStep | src/modules/billing/credits.service.ts:167-171 | A worker that reads a balance covering one credit and one per retry is ready to take exactly that. |
| CreditLedger.DecrementStep | src/modules/billing/credits.service.ts:173-178 | A ready worker takes its amount, and owes its row, exactly when the balance still covers it. |
| CreditLedger.WriteStep | src/modules/billing/credits.service.ts:180-189 | An owed row is appended to the ledger once. |
| CreditLedger.CreateStep | src/modules/billing/credits.service.ts:173-177 | A missing account starts empty. |
| CreditLedger.BalanceIsLedgerSum | src/modules/billing/credits.service.ts:163-230 | In every interleaving the balance is the sum of rows written and rows still to be written, and every `balanceAfter` is the running sum in update order. |
| CreditLedger.LifetimeTotals | src/modules/billing/credits.service.ts:206-216 | balance = purchased - used if and only if no top-up was negative. |
| CreditLedger.WhenBalanceTurnsNegative | src/modules/billing/credits.service.ts:198-216 | A step makes the balance negative if and only if it is a negative adjustment larger than the balance. |
| CreditLedger.GrantsKeepBalanceNonNegative | src/modules/billing/credits.service.ts:173-177 | Without negative adjustments the balance is never negative. |
| CreditLedger.Linearizable | src/modules/billing/credits.service.ts:163-216 | Every interleaving is a legal history of an atomic take-if-enough account with the same balance. |
| CreditLedger.DepletedSawEnough | src/modules/billing/credits.service.ts:168-178 | A deduction reported as depleted had read a sufficient balance that was gone when it took effect. |
| PiiScrubber.MaskField | src/utils/pii-scrubber.ts:10-22 | The walk and assignment of one field overwrite the value at the path if it is there and nothing else. |
| PiiScrubber.ScrubPayload | src/utils/pii-scrubber.ts:3-25 | A position whose keys joined by dots are a listed field, with no field listed above it, holds the mask if it was there; a position with no field listed at or above it keeps its shape. |
| PiiScrubber.ListedPath | src/utils/pii-scrubber.ts:10-10 | A path is listed exactly when its keys hold no dot and their join by dots is a listed field. |
| PiiScrubber.MaskAllIsScrubSet | src/utils/pii-scrubber.ts:9-23 | The sequence of assignments computes the position-wise result of the set of paths. |
| PiiScrubber.OrderAndRepetitionIrrelevant | src/utils/pii-scrubber.ts:9-23 | Any reordering or repetition of fields, prefixes included, gives the same tree. |
| PiiScrubber.ScrubIdempotent | src/modules/events/events.service.ts:93-96 | Scrubbing at acceptance and again at delivery is scrubbing once. |
| PiiScrubber.PositionsAfter | src/utils/pii-scrubber.ts:9-23 | Below a listed path nothing resolves; a listed path that resolved holds the mask; every other position keeps its shape and leaf value. |
| PiiScrubber.ScrubPositions | src/utils/pii-scrubber.ts:3-25 | The same of every position and field string, below listed fields too. |
| FilterEngine.ReduceIsLookup | src/utils/filter-engine.service.ts:30-34 | Following a path with truthiness tests is looking up own keys. |
| FilterEngine.RulesConjoin | src/utils/filter-engine.service.ts:8-12 | Rule lists conjoin, one rule decides alone, and no rules pass. |
| FilterEngine.ReadsField | src/utils/filter-engine.service.ts:14-34 | A rule reads the payload at the keys after `payload`, or the event type, and nothing else. |
| FilterEngine.EqualityMeaning | src/utils/filter-engine.service.ts:18-19 | `eq` asks for the same primitive value and `neq` is its negation. |
| FilterEngine.OrderMeaning | src/utils/filter-engine.service.ts:20-21 | `gt` and `lt` compare numbers only, and of two numbers exactly one of `gt`, `eq` and `lt` holds. |
| FilterEngine.PresenceMeaning | src/utils/filter-engine.service.ts:22-27 | `contains` is of strings, `exists` fails exactly for nothing and null, and an unknown operator passes. |
| FilterEngine.RuleUnaffected | src/utils/filter-engine.service.ts:14-28 | A rule no scrubbed field is at or above gives the same verdict on the scrubbed payload, for every operator. |
| FilterEngine.VerdictUnaffected | src/utils/filter-engine.service.ts:8-34 | The same of whole rule lists. |
| FilterEngine.HiddenRuleCanFlip | src/utils/filter-engine.service.ts:14-28 | The condition is exact: otherwise an equality rule flips on some payload. |
| CircuitBreaker.SharedCircuitBreaker.Incr | src/modules/delivery/shared-breaker.service.ts:39-39 | Counts on a live key and starts at one on a vanished one, keeping any expiry. |
| CircuitBreaker.SharedCircuitBreaker.IsOpen | src/modules/delivery/shared-breaker.service.ts:24-34 | Open exactly while the flag is live. |
| CircuitBreaker.SharedCircuitBreaker.RecordFailure | src/modules/delivery/shared-breaker.service.ts:36-56 | Uninterrupted, the first failure starts the window and exactly the threshold-th and later ones open for `resetMs`. |
| CircuitBreaker.SharedCircuitBreaker.RecordSuccess | src/modules/delivery/shared-breaker.service.ts:58-68 | Deletes both keys. |
| CircuitBreaker.UninterruptedFailure | src/modules/delivery/shared-breaker.service.ts:36-56 | The interleaving model's steps of one failure, uninterrupted, set the window's expiry on the first count and the flag from the threshold on, and leave nothing owing. |
| CircuitBreaker.CountIsSinceVanished | src/modules/delivery/shared-breaker.service.ts:39-42 | In every interleaving a live counter is the number of increments since the key last vanished. |
| CircuitBreaker.OnlyThresholdOpens | src/modules/delivery/shared-breaker.service.ts:43-45 | "open" is only written by a worker whose own increment was at least the threshold-th since the key last vanished. |
| CircuitBreaker.NoOrphanedCounter | src/modules/delivery/shared-breaker.service.ts:39-42 | Without crashes, a counter without expiry exists only while its creator still owes the expiry. |
| CircuitBreaker.OrphanedExactlyByCrash | src/modules/delivery/shared-breaker.service.ts:39-42 | In every interleaving, crashes included, a counter without expiry is not owed its expiry by its creator if and only if the creator crashed after creating it. |
| CircuitBreaker.CrashOrphansCounter | src/modules/delivery/shared-breaker.service.ts:39-42 | A worker that dies between its two commands leaves a counter that never expires. |
| CircuitBreaker.OpenExactlyWhen | src/modules/delivery/shared-breaker.service.ts:43-45 | The flag reads open if and only if some opening write is younger than `resetMs` and not followed by a deletion. |
| CircuitBreaker.ClosesByItself | src/modules/delivery/shared-breaker.service.ts:45-45 | With no further writes it reads closed once `resetMs` has passed. |
| SchemaValidator.ValidateSchema | src/modules/event-catalog/event-catalog.service.ts:8-81 | The recursion pushes exactly the specified errors in order. |
| SchemaValidator.ValidateObject | src/modules/event-catalog/event-catalog.service.ts:45-69 | Required, property and additional-property errors, in order. |
| SchemaValidator.ValidateArray | src/modules/event-catalog/event-catalog.service.ts:71-78 | Item errors, then the length errors, only when the schema has items. |
| SchemaValidator.ErrorsJustified | src/modules/event-catalog/event-catalog.service.ts:8-81 | An error is reported if and only if its location extends the call's path, is reachable through properties and items with no type failure above it, and violates the keyword there. |
| SchemaValidator.EmptyExactlyWhenValid | src/modules/event-catalog/event-catalog.service.ts:8-81 | No error is reported if and only if the value is valid declaratively. |
| SchemaValidator.TypeMeaning | src/modules/event-catalog/event-catalog.service.ts:16-23 | A type error is reported if and only if types are listed and none names the value's type. |
| SchemaValidator.ChoiceMeaning | src/modules/event-catalog/event-catalog.service.ts:25-27 | A value is among the choices if and only if it is the same null, boolean, number or string. |
| SchemaValidator.ScalarKeywordMeaning | src/modules/event-catalog/event-catalog.service.ts:29-43 | Length, pattern and range errors in terms of the string or number. |
| SchemaValidator.FieldKeywordMeaning | src/modules/event-catalog/event-catalog.service.ts:45-69 | Required and additional-property errors in terms of the field names. |
| SchemaValidator.ItemKeywordMeaning | src/modules/event-catalog/event-catalog.service.ts:71-78 | Item-count errors in terms of the number of items. |
| SchemaValidator.ErrorOrder | src/modules/event-catalog/event-catalog.service.ts:8-81 | A value's own errors come first, an enum error before all; then those below it; then additional fields and item counts. |
| PayloadCrypto.HexRoundTrip | src/utils/payload-crypto.ts:66-66 | Hexadecimal text reads back as its bytes and holds no colon. |
| PayloadCrypto.DecryptEnvelope | src/utils/payload-crypto.ts:69-119 | Whatever its label, a well-formed envelope is opened with the picked key and then the other one, or returned when it has no data or no key is picked. |
| PayloadCrypto.RecoveredAfterRotation | src/utils/payload-crypto.ts:85-116 | A text sealed under either configured key is recovered whatever label the envelope carries or lacks, if and only if a current key is set or the label is not the current version. |
| PayloadCrypto.ForeignKeyFails | src/utils/payload-crypto.ts:109-118 | An envelope under a key that is not configured is an error, never a wrong text. |
| PayloadCrypto.DecryptInvertsEncrypt | src/utils/payload-crypto.ts:58-119 | With a current key, `decrypt` inverts `encrypt` if and only if the text is non-empty and the version has no colon; without one, if and only if it tries no key on the text. |
| PayloadCrypto.LeftAloneIffNotTried | src/utils/payload-crypto.ts:69-96 | `decrypt` returns a text as it was given if and only if the text lacks the prefix, the right number of parts or one of the three fields, or no key is picked for its label. |
| PayloadCrypto.IdealExists | src/utils/payload-crypto.ts:58-67 | The laws asked of the cipher can be met over all byte keys. |
| PayloadCrypto.CurrentExactlyWhenLabelled | src/utils/payload-crypto.ts:121-127 | An envelope is current if and only if it carries the current version. |
| PayloadCrypto.KeyCache.ResolveKey | src/utils/payload-crypto.ts:29-33 | The first answer is kept until the cache is reset; a setting refused as too weak fails and is not kept. |
| PayloadCrypto.KeyCache.ResolvePrevKey | src/utils/payload-crypto.ts:35-39 | The same for the previous key. |
| PayloadCrypto.KeyCache.ResetKeyCache | src/utils/payload-crypto.ts:49-52 | Both cached keys are forgotten. |
| EndpointSecrets.EndpointDoc.BeforeSave | src/modules/endpoints/schemas/endpoint.schema.ts:126-143 | With a current key every non-empty secret of a modified part is stored behind the prefix: an envelope of the current version that opens to it under the current key and no other, or as it was if it had the prefix; everything else is untouched. |
| EndpointSecrets.EndpointDoc.EncryptUpdatePatch | src/modules/endpoints/schemas/endpoint.schema.ts:145-159 | The same for all six fields of a patch. |
| EndpointSecrets.EndpointDoc.DecryptSecrets | src/modules/endpoints/schemas/endpoint.schema.ts:164-174 | Succeeds exactly when every field decrypts, and then holds the decrypted fields. |
| EndpointSecrets.SaveIdempotent | src/modules/endpoints/schemas/endpoint.schema.ts:121-143 | Saving again changes nothing, even under other keys, versions or vectors. |
| EndpointSecrets.SecretComesBack | src/modules/endpoints/schemas/endpoint.schema.ts:121-174 | A stored secret comes back, now and after one rotation, if and only if decryption tries no key on the secret itself: it lacks the prefix, four or five parts, or one of its three fields, or no key is picked for it. |
| EndpointSecrets.SaveThenDecrypt | src/modules/endpoints/schemas/endpoint.schema.ts:126-174 | A document saved twice, with any parts modified each time and a key rotation in between, decrypts to its six secrets if and only if decryption tries no key on any of the secrets themselves. |
| EndpointSecrets.EnvelopeSecretIsLost | src/modules/endpoints/schemas/endpoint.schema.ts:119-124 | A secret that is itself an envelope of a non-empty text under the current key comes back as that text. |
| RetryChain.DeliveryService.ScheduleRetry | src/modules/delivery/delivery.service.ts:706-723 | Queues one job with the table's delay, none from the fifth count on or for a used id. |
| RetryChain.DeliveryService.HandleDeliveryFailure | src/modules/delivery/delivery.service.ts:600-650 | A failure is the failure step of the chain. |
| RetryChain.DeliveryService.Deliver | src/modules/delivery/delivery.service.ts:318-408 | One waiting job is taken; success delivers, failure is the failure step. |
| RetryChain.FailuresCounted | src/modules/delivery/delivery.service.ts:532-605 | `retryCount` is the number of failures, at most the smaller of the limit and five. |
| RetryChain.AfterAFailure | src/modules/delivery/delivery.service.ts:600-650 | After a failure the event is dead with exactly one dead-letter job if and only if the count has reached the limit; else it is retrying, with exactly one queued job of its count, after 5 minutes, 30 minutes, 2 hours or a day, if and only if the count is below five. |
| RetryChain.StrandsExactlyAboveFive | src/utils/retry.util.ts:9-18 | Some run leaves a retrying event without any job if and only if more than five retries are configured. |
| RetryChain.RetryIdsDistinct | src/modules/delivery/delivery.service.ts:714-722 | The next retry's job id is always unused. |
| RetryChain.StoredTimeIsEarlier | src/utils/retry.util.ts:11-35 | Under the default and the linear strategy the stored retry time is earlier than the queued job. |
| RetryChain.StoredDelays | src/utils/retry.util.ts:20-35 | Stored delays grow by a minute, stay fixed, or double from half a minute up to an hour. |
| DeliveryLogWriter.Writer.EnqueueRow | src/modules/delivery/delivery-log-writer.service.ts:20-41 | Buffers the row; a full buffer starts a flush, otherwise a timeout is armed if none is. |
| DeliveryLogWriter.Writer.OnTimer | src/modules/delivery/delivery-log-writer.service.ts:34-37 | A firing timeout is spent and starts a flush if possible. |
| DeliveryLogWriter.Writer.Flush | src/modules/delivery/delivery-log-writer.service.ts:51-62 | Hands the whole buffer to the store unless an insert is in flight or the buffer is empty. |
| DeliveryLogWriter.Writer.OnInsertSettled | src/modules/delivery/delivery-log-writer.service.ts:60-68 | Success or failure ends the flush and touches no row. |
| DeliveryLogWriter.Writer.OnModuleDestroy | src/modules/delivery/delivery-log-writer.service.ts:71-73 | At shutdown what waits is handed over unless an insert is in flight. |
| DeliveryLogWriter.RowsConserved | src/modules/delivery/delivery-log-writer.service.ts:20-69 | In every interleaving the rows enqueued are completed batches, then the batch in flight, then the buffer, in order. |
| DeliveryLogWriter.OneInsertOneTimer | src/modules/delivery/delivery-log-writer.service.ts:14-16 | At most one insert is in flight and at most one timeout is live, and the timer field tells which. |
| DeliveryLogWriter.StrandsExactlyWhen | src/modules/delivery/delivery-log-writer.service.ts:20-68 | Over all runs, an event strands rows if and only if it settles an insert during which rows were enqueued and no enqueue below both limits came after every timeout that fired. |
| DeliveryLogWriter.TimerDuringInsertStrands | src/modules/delivery/delivery-log-writer.service.ts:34-52 | A timeout that fires during an insert is spent without effect and strands rows. |
| ResponseCache.CacheResponseInterceptor.Lookup | src/common/interceptors/cache-response.interceptor.ts:45-49 | A hit is the last value stored for the key and unexpired, and changes only its access time. |
| ResponseCache.CacheResponseInterceptor.Complete | src/common/interceptors/cache-response.interceptor.ts:51-59 | The answer is stored with its expiry, other entries are kept or evicted unchanged, and the cache never exceeds 2000 entries. |
| ResponseCache.CacheResponseInterceptor.Evict | src/common/interceptors/cache-response.interceptor.ts:62-77 | Expired entries go; if 2000 remain, exactly 500 more go, none accessed later than a kept one. |
| ResponseCache.CacheResponseInterceptor.DropExpired | src/common/interceptors/cache-response.interceptor.ts:64-67 | Keeps exactly the entries whose expiry has not passed. |
| ResponseCache.UnexpiredEntries | src/common/interceptors/cache-response.interceptor.ts:64-67 | The same of the function the other results speak of. |
| ResponseCache.CacheResponseInterceptor.DropOldest | src/common/interceptors/cache-response.interceptor.ts:69-76 | Leaves 1500 entries, none removed that was accessed later than a kept one. |
| ResponseCache.SortKeys | src/common/interceptors/cache-response.interceptor.ts:70-71 | All keys of the store, each once, in order of last access. |
| ResponseCache.RemovedAreOlder | src/common/interceptors/cache-response.interceptor.ts:72-75 | Deleting the first entries in access order deletes none accessed later than one it keeps. |
| CsvExport.FieldReadsBack | src/modules/audit/audit.controller.ts:26-34 | A sanitized field is read back as its neutralised value, whatever quotes, commas or line breaks it holds. |
| CsvExport.RowsReadBack | src/modules/audit/audit.controller.ts:105-119 | The joined rows are read back row by row. |
| CsvExport.ExportReadsBack | src/modules/audit/audit.controller.ts:104-125 | A parser following section 2 of RFC 4180 reads the export as the header and exactly the sanitized values, for every table, the empty one included. |
| CsvExport.NoFormulaCells | src/modules/audit/audit.controller.ts:28-31 | No cell a reader gets starts with one of the six formula triggers, and a cell is its value, or the value after a quote mark exactly when the value starts with one. |

## Left out

- Controllers, validation of request bodies, guards, e-mail, notifications, metrics, invoices and audit entries: no hard logic.
- Amounts, plan limits and payment ids on subscription records, and plan and dates on users: they decide no access. Plan names outside the four system plans that are JavaScript prototype keys are not modelled.
- The reseller's month end is an argument: its calendar arithmetic is not modelled.
- Interleavings inside one billing action other than the access check: each action's read and write of a record are one step, as are its writes to users and customers.
- Encoding of cursors: a cursor is its position or malformed. Base64url and JSON are not modelled, nor documents without the sort field, projections that drop it, or the store's refusal of an empty `$or`.
- Upper-casing of letters outside ASCII in base32 text.
- Tunnel streams are text: chunks that cut a character's UTF-8 bytes are not modelled, nor the limits and clean-up of tunnel sessions or the time of the last event.
- The ledger models one user; the purchase flow, automatic top-up and row fields other than kind, amount and balance are not modelled. A row write may never happen; why it fails is not modelled.
- PiiScrubber.MaskField: works on tree values, so assignment in place through a shared reference is modelled as rebuilding the path; the clone shares nothing, so no aliasing is lost.
- Prototype keys, array `length` and string indexing in scrubbing and filtering: trees have own keys only.
- Redis errors in the circuit breaker, `forceOpen`, and the read of the flag before it is written, which only chooses a log line.
- The printed form of a validator error's location and its message; regular expressions that do not compile; property names repeated in one schema.
- Parsing of key settings into keys: it is any function that reads a key, finds none, or refuses.
- Dotted paths in update patches, which the update hook does not see.
- Delivery itself: gates before the attempt, circuit breaker, expiry and replay of events; one job chain is modelled. Liveness of retries beyond the stated conditions.
- Liveness of the log writer: only conservation and the exact moment of stranding.
- The response cache's keys are abstract: the user and URL they are made of are not modelled.
- The export's date and file name.
