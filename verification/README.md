# Ghola: a verified model

A Dafny model of five pieces of Ghola, with proofs about every input, every run and every interleaving.

**The gateway's billing protocol** (`Meter`, `Routes`, `X402`, `Refusals`, `Proxy`, `Billing`, `Books`, `Solvency`,
`PaidCall`, `Prices`, `Breaker`, `Freshness`, `Outage`, `Outcomes`, `Gateway`). `Proxy` is a step system: any number of
requests on any number of gateway processes, each with a program counter, over shared tables, one route cache a
process and a clock. Every SQL statement is one atomic step, and every write may be acknowledged, dropped, or
committed with its reply lost. Events also tick the clock, relist services, and probe their health. `Billing` says
who pays and what one step may do, `Books` that every step keeps the books balanced, and `Solvency`, `PaidCall`,
`Prices`, `Breaker` and `Freshness` draw the consequences; `Outage` builds runs that trip the breaker.
`Meter.MeterStore`, `Routes.RouteCache` and `Gateway.Gateway` are the imperative forms: `Gateway.ProxyInner` handles
one request at a time, keeps a journal which shows that what it does is a run of the protocol, and leaves the
response, tables and cache that `Outcomes` lays down case by case. A replayed signature is still served, because
consumption comes after the response; nothing here says otherwise.

**Limiters and nonces** (`Limiters`, `LateStamps`, `Sweeping`, `RetryAfter`, `Credits`, `Nonces`): classes that
prune in place, against specifications that remember everything. **Canonical JSON** (`JsonText`, `KeyOrder`,
`StablePrint`, `CanonicalPrint`, `JsonReader`, `LeakKeys`): the two printers behind the worker's commitments, over
UTF-16 code units, and a reader for what they print. **The token stream** (`Utf8`, `LineStream`, `ByteStream`,
`TokenLines`): text from bytes, lines from text and tokens from lines, however they are cut. **Attestation**
(`Base64`, `CertChain`, `Attestation`): the base64 decoder, the chain walk, the 72 bytes of user data and the
acceptance of a document. `Common` holds the shared vocabulary.

`dafny verify dfyconfig.toml` checks everything.

Where the code and its comments disagree, the model follows the code:

- route_cache.rs:5-6 promises that a kill-switched merchant stays live for at most the TTL. An entry is stamped
  when it is stored, not when it was read, so with loads that take up to L the bound is ttl + L - 1, times being
  whole numbers, and no less (`Freshness.StalenessExactly`, `Freshness.KillSwitchOutlivesTtl`).
- proxy.rs:12 says 2xx or 3xx is metered, and the comment at proxy.rs:472-474 that 4xx is charged. Only 2xx is.
- `canonicalJson` is not canonical: its property list also filters nested objects
  (`CanonicalPrint.NestedFieldForgotten`).
- `stableJson` prints the word undefined for an undefined member, and nothing for an undefined item, so its text need
  not be JSON
  (`JsonReader.StableIsJsonExactly`).
- nitro.rs:267-269 says the last certificate of the chain must be signed by the pinned root. The code asks only
  that it holds the root's key; the check of its self-signature is ignored (`CertChain.LastIsSignedExactly`,
  `CertChain.UnsignedLastAccepted`).
- The one `AuthRateLimiter` serves four call sites with three windows (3600 and 900 seconds in routes/auth.rs:105
  and :148, 60 and 3600 in routes/models.rs:307-316), and its sweep uses the window of whoever calls
  (`Sweeping.AuthRefinesExactly`, `Sweeping.CrowdGoesWrong`).
- The token stream decodes each network read on its own, so a character that two reads share is lost
  (`Utf8.HeardExactly`, `ByteStream.TokenArrivesExactly`).
- `break` on `[DONE]` leaves only the inner loop of the token stream (`LineStream.InvariantExactly`).

## Model

| member | source | states |
|---|---|---|
| Solvency.AlwaysSolvent | crates/ghola-gateway/src/proxy.rs:221-263 | with verification on, in every run and every interleaving, per service and in total, metered amounts never exceed what escrow received, summed over all transfers, in the transactions of the distinct consumed signatures |
| PaidCall.SolventExactlyWhenVerified | crates/ghola-gateway/src/proxy.rs:224-234 | every run of every service table stays solvent if and only if unverified payments are refused: the legacy mode has a run that meters more than was paid |
| Solvency.MeteredRowsArePaid | crates/ghola-gateway/src/proxy.rs:523-587 | in every run the metered rows map injectively to consumed rows of the same service, and with verification on escrow received at least that row's amount from each such signature's transaction |
| Solvency.ChargedExactlyOnce | crates/ghola-gateway/src/meter.rs:93-115 | in every run no two requests, of any services or gateways, are charged for one signature |
| Solvency.Conservation | crates/ghola-gateway/src/proxy.rs:523-587 | in every run, per service and in total, amounts won = metered + held between winning and metering + the amounts of the run's dropped metering statements |
| Solvency.LostIsDropped | crates/ghola-gateway/src/proxy.rs:577-587 | what requests won and never metered is exactly what the run's dropped metering statements would have metered |
| Solvency.TablesAgreeAtRest | crates/ghola-gateway/src/proxy.rs:517-593 | with no lost write and every request finished, the log's charged total equals the metered total, and "paid" log rows and consumed signatures match one to one |
| Solvency.ConsumedMeansSuccess | crates/ghola-gateway/src/proxy.rs:475-556 | every consumed signature was presented by a request of that service whose upstream answered 2xx |
| Solvency.FailedCallsDoNotConsume | crates/ghola-gateway/src/proxy.rs:457-475 | a payment shown only to calls that failed, were refused, or were answered 3xx or 4xx stays unconsumed |
| PaidCall.PaidCallIsCharged | crates/ghola-gateway/src/proxy.rs:135-593 | from any state, whoever has paid on chain what the service costs now (the cached price while fresh, the row's own price column otherwise) and gets a 2xx adds exactly one consumed row, one metered row of that price and one "paid" log row with it, gets that status, and leaves the breaker closed |
| PaidCall.LaterSuccessChargesOnce | crates/ghola-gateway/src/proxy.rs:457-556 | an unconsumed payment that covers the price on chain is charged that price by a later successful call, whether or not the route is still cached from an earlier one, and in every continuation no other request is charged for it |
| PaidCall.ClaimsStay | crates/ghola-gateway/src/meter.rs:95-115 | once won, a claim on a signature is never taken back in any continuation |
| Prices.ChargesWereListed | crates/ghola-gateway/src/route_cache.rs:152-178 | in every run, whatever is metered, logged as charged or won was the price at which the owner listed that service, at the start or by a later listing |
| Prices.ListingTakesEffect | crates/said-cloud/src/routes/merchants.rs:248-279 | a listing sets the price and proxy columns of its own row, opens a new row with its breaker closed, and touches nothing else |
| Billing.DecidesExactly | crates/ghola-gateway/src/proxy.rs:221-263 | a bill is paid iff a payment is shown and either unverified payments are allowed or: scheme and network fit, the fresh transaction of that signature is on chain, and its first escrow transfer pays the price from the claimed sender; a paid bill is that signature and the price, an unpaid one is nothing and, if a payment was shown, a reason |
| Books.RunIsBalanced | crates/ghola-gateway/src/proxy.rs:120-593 | every run keeps the books: per signature and service, claims match consumed rows and "paid" logs; per service, metered and logged totals match what requests recorded |
| Books.StepKeepsBalanced | crates/ghola-gateway/src/proxy.rs:120-673 | each single event, of any request or of the outside world, keeps those books |
| Billing.ActEffect | crates/ghola-gateway/src/proxy.rs:120-673 | what one step of one request may do to the consumed, metered and log tables and to its own claim |
| Billing.DecideBills | crates/ghola-gateway/src/proxy.rs:221-263 | a bill that charges carries a signature the request presented, and with verification on escrow received at least the amount from its transaction |
| Breaker.BreakerFollowsHistory | crates/ghola-gateway/src/meter.rs:119-166 | in every run from closed breakers, health probes included, a row's counter is the number of failures since its last close or healthy probe; it is open iff a call failure since the last close found enough of them, and reopens when the last such failure said |
| Breaker.AgreementExactly | crates/ghola-gateway/src/meter.rs:125-160 | along a run from closed breakers every row is open exactly while its counter is at the threshold, with a reopen time exactly then, if and only if every health probe of the run is harmless where it comes; without probes that is every run |
| Breaker.LastFailureReopens | crates/ghola-gateway/src/meter.rs:125-147 | in such a run an open breaker's reopen time is the one its last call failure set |
| Outage.HealthyProbeDisagrees | crates/said-cloud/src/health_checker.rs:169-180 | for every threshold, a run: as many failed calls as it asks for open the breaker, then a healthy probe resets the counter and leaves the breaker open |
| Breaker.OneFailureReopens | crates/ghola-gateway/src/meter.rs:125-160 | after any run whose probes are harmless, a call failure recorded on an open row keeps it open until that failure's own reopen time, and a close leaves the row as if it had never failed |
| Breaker.OnlyOutcomesMoveBreaker | crates/ghola-gateway/src/proxy.rs:457-592 | in every run a step moves a row's breaker columns only as the close of a 2xx call, as the failure record of a 5xx or unanswered call, or as a probe: 3xx and 4xx change nothing |
| Breaker.ProbeKeepsAgreementExactly | crates/said-cloud/src/health_checker.rs:169-241 | the health checker shares the counter but not the breaker flag: a healthy probe keeps them in agreement iff the breaker is closed, a failed one iff it is open, stays below the threshold, or the counter is full |
| Meter.ThresholdFaithful | crates/ghola-gateway/src/meter.rs:125 | the u32 threshold, cast to i32, means max(threshold, 1) failures if and only if it fits a signed 32-bit integer |
| Meter.StatementsKeepConsistent | crates/ghola-gateway/src/meter.rs:125-160 | both breaker statements keep counter, flag and reopen time in agreement |
| Freshness.BoundedStaleness | crates/ghola-gateway/src/route_cache.rs:67-93 | in every run whose loads are stored within L, any route that resolve returns at t, enabled or not, was the database row at some time no earlier than t - (ttl + L - 1), or t - L if the TTL is zero |
| Freshness.StalenessExactly | crates/ghola-gateway/src/route_cache.rs:72-93 | every run whose loads are stored within L returns only routes that were rows at most b ago, if and only if b is at least ttl + L - 1, or L if the TTL is zero |
| Freshness.KillSwitchOutlivesTtl | crates/ghola-gateway/src/route_cache.rs:67-93 | for a positive TTL, a run in which a merchant switched off right after a slow read is still served ttl + L - 1 later, the most there can be (the comment in route_cache.rs:5-6 promises the TTL alone) |
| Freshness.FreshAfterInvalidation | crates/ghola-gateway/src/route_cache.rs:95-99 | once a slug is evicted with no earlier read waiting to be stored, whatever resolve returns from then on, enabled or not, was the row at some point since |
| Freshness.FailsFastExactly | crates/ghola-gateway/src/proxy.rs:168-202 | for a positive TTL, after an eviction with the breaker open, no new request on that gateway passes the breaker in any run until the reopen time or a close, if and only if no stale read is waiting to be stored |
| Freshness.StaleReadSlips | crates/ghola-gateway/src/proxy.rs:136-202 | for a positive TTL, from any state with such a stale read there is a run in which a new request passes an open breaker |
| Outage.StaleReadReached | crates/ghola-gateway/src/proxy.rs:629-653 | for every threshold, and a positive TTL and open time, such a state is reached: a run in which one request's read is held up while others fail, open the breaker and evict the route |
| Outage.OutageOpens | crates/ghola-gateway/src/proxy.rs:598-653 | from any state that lists a free service without failures, as many timed-out calls as the threshold asks for open its breaker until the last of them plus the open time, and leave its route uncached |
| Outage.FewerOnlyCount | crates/ghola-gateway/src/proxy.rs:598-653 | fewer calls, one after another, only raise its counter by one each and leave the breaker closed |
| Freshness.VouchedRun | crates/ghola-gateway/src/route_cache.rs:67-99 | along every run, whatever is cached or about to be cached satisfies any claim that the rows read from satisfied |
| Meter.MeterStore.ConsumePaymentSignature | crates/ghola-gateway/src/meter.rs:95-115 | true for exactly the one call that inserts the signature; the table keeps signatures distinct |
| Meter.MeterStore.RecordFailureAndMaybeOpen | crates/ghola-gateway/src/meter.rs:119-148 | counts one failure and opens the breaker at the threshold; returns the flag after the update, or an error for an unknown row or counter overflow |
| Meter.MeterStore.CloseCircuitBreaker | crates/ghola-gateway/src/meter.rs:152-166 | clears the breaker columns of one row, only if they need clearing |
| Meter.MeterStore.RecordCallLog | crates/ghola-gateway/src/meter.rs:18-63 | appends one log row and changes nothing else |
| Meter.MeterStore.RecordMeteredUsage | crates/ghola-gateway/src/meter.rs:68-91 | appends one metered row and changes nothing else |
| Routes.RouteCache.Resolve | crates/ghola-gateway/src/route_cache.rs:67-93 | a fresh entry is returned untouched; otherwise the route returned and cached has the row's own price, proxy flag, breaker flag and reopen time; an absent row evicts, a failed read changes nothing |
| Routes.RouteCache.Invalidate | crates/ghola-gateway/src/route_cache.rs:95-99 | the slug misses from then on, and no other slug is affected |
| Gateway.Gateway.ProxyInner | crates/ghola-gateway/src/proxy.rs:120-596 | one whole request, at one instant, is a run of the protocol: arrival and then only its own steps, to the end; the response, every table and the cache are those the case analysis of `Outcomes` gives; unless the caller gets a success, nothing is consumed or metered |
| Gateway.Gateway.DecideBill | crates/ghola-gateway/src/proxy.rs:221-263 | the payment decision by way of the on-chain verifier: the price under the signature shown iff that payment is good on chain, otherwise no charge and the reason |
| Gateway.Gateway.TakePayment | crates/ghola-gateway/src/proxy.rs:204-319 | free routes and paid ones go on with their bill; a priced route without a good payment ends in a 402, or a 503 without a challenge, with the payment's error in the log row |
| Gateway.Gateway.Claim | crates/ghola-gateway/src/proxy.rs:523-556 | the log row says paid, with the amount and the signature, exactly if the insert was acknowledged and the signature was new; then the request holds the claim |
| Gateway.Gateway.Bookkeeping | crates/ghola-gateway/src/proxy.rs:517-593 | the spawned task: claim, log, charge, close; the three tables afterwards, one metered row of the billed amount exactly if a billed success won its signature and the metering statement was not dropped, and on anything but 2xx nothing consumed |
| Gateway.Gateway.UpstreamFailure | crates/ghola-gateway/src/proxy.rs:598-673 | logs the refund with its reason, counts the failure, evicts the slug and answers 504 with a refund header; nothing is consumed or metered |
| Gateway.Gateway.Forward | crates/ghola-gateway/src/proxy.rs:321-596 | the upstream's own status reaches the caller, except that a failed preparation answers 500 and a 5xx or missing answer 504, which alone carries the refund header and evicts the slug |
| Gateway.Gateway.Serve | crates/ghola-gateway/src/proxy.rs:150-596 | an unsafe origin is refused whatever the breaker says, an open breaker before its time is refused, and the rest go on to payment and forwarding; response, tables and cache in each case |
| Gateway.Gateway.StaysSolvent | crates/ghola-gateway/src/proxy.rs:120-596 | a gateway process with verification on that started on empty tables is solvent whenever it is idle, after any requests, waits and lost writes: its metered usage stays within what escrow received |
| X402.VerifyAcceptsExactly | crates/ghola-gateway/src/x402_verify.rs:81-164 | a payment verifies if and only if scheme and network fit (only devnet names for an RPC whose URL says devnet, only mainnet names otherwise), the transaction is found, succeeded, has a block time and is fresh, and its first transfer into escrow of a live mint pays the price in full from the claimed sender |
| Refusals.RefusedExactly | crates/ghola-gateway/src/x402_verify.rs:81-164 | a payment is refused with a code if and only if that code's reason is the first, in the verifier's order, that applies |
| X402.InstructionOrder | crates/ghola-gateway/src/x402_verify.rs:210-226 | the scan sees the transaction's own instructions first, then each inner group's, all of them and in order |
| X402.VerifyOnchainPayment | crates/ghola-gateway/src/x402_verify.rs:81-164 | the verifier's checks in order, with the error of the first that fails |
| X402.VerifiedCoversPrice | crates/ghola-gateway/src/x402_verify.rs:151-163 | a verified payment returns its own signature; its first escrow transfer pays at least the price, and no more than escrow received from the whole transaction |
| X402.PaidIsReceived | crates/ghola-gateway/src/x402_verify.rs:228-263 | the amount the verifier reads off a transaction is at most the sum of its transfers into escrow |
| X402.ExtractTransferInfo | crates/ghola-gateway/src/x402_verify.rs:206-266 | the scan over top-level and inner instructions finds the first transfer that matches the accepted set |
| X402.FirstTransferIs | crates/ghola-gateway/src/x402_verify.rs:228-263 | an earlier match always decides, however good a later one is |
| X402.FirstTransferExists | crates/ghola-gateway/src/x402_verify.rs:228-263 | what the scan returns is a matching instruction with none before it |
| X402.FirstTransferNone | crates/ghola-gateway/src/x402_verify.rs:228-265 | without a matching instruction nothing is returned |
| X402.TransferOfMeansEscrow | crates/ghola-gateway/src/x402_verify.rs:233-262 | an instruction matches the accepted set iff it is a checked transfer of a live mint into the escrow wallet's own account |
| X402.BuildAcceptSet | crates/ghola-gateway/src/x402_verify.rs:103-121 | the loop over the configured mints builds the accepted set |
| X402.AcceptSetMembers | crates/ghola-gateway/src/x402_verify.rs:103-121 | an entry is accepted iff some configured, unpaused, decodable mint with an account gives it |
| X402.ChallengeMatchesVerifier | crates/ghola-gateway/src/x402_challenge.rs:56-109 | the challenge offers exactly the assets the verifier accepts if and only if every unpaused mint decodes and has an account; every accepted asset is always offered |
| X402.ChallengeOrder | crates/ghola-gateway/src/x402_challenge.rs:57-107 | a challenge exists iff there is an escrow wallet and a live mint; it lists every live mint once, those named by the primary symbol in any case of letters first, and each offer asks for the price to the escrow wallet in that mint's address, symbol and decimals |
| X402.OfferAsks | crates/ghola-gateway/src/x402_challenge.rs:82-101 | every offer pays the configured escrow wallet the price, in the asset, symbol and decimals of one unpaused mint |
| X402.SortIsStablePartition | crates/ghola-gateway/src/x402_challenge.rs:72-78 | the sort is the stable partition into primaries and the rest |
| X402.PartitionKeepsAll | crates/ghola-gateway/src/x402_challenge.rs:67-78 | the partition loses and repeats nothing |
| X402.OfferedAssets | crates/ghola-gateway/src/x402_challenge.rs:62-102 | an asset is offered iff an escrow wallet is set and some unpaused mint has that address |
| X402.PayingAnOfferVerifies | crates/ghola-gateway/src/x402_challenge.rs:84-101 | a fresh transaction whose first escrow transfer sends an offer's asset, at least its amount, to the account of the wallet the offer names, from the claimed sender, passes the verifier |
| X402.VerifiedPaidAnOffer | crates/ghola-gateway/src/x402_verify.rs:123-163 | conversely, a verified payment followed one of the offers so, in the currency that the verifier reports |
| LateStamps.IpRefinesExactly | crates/ghola-gateway/src/ip_rate_limit.rs:25-36 | with stamps at most L behind, key by key, whatever call can come next after any part of a run is decided as by counting all past acceptances if and only if no prune of the run drops an entry that a call stamped L before the key's latest would still count |
| LateStamps.LateHarmShows | crates/ghola-gateway/src/ip_rate_limit.rs:25-36 | right after the first prune that drops one, a call stamped that early is accepted although its limit is its true count |
| LateStamps.IpRefines | crates/ghola-gateway/src/ip_rate_limit.rs:24-46 | when each key's stamps come in order, the gateway's pruned limiter decides every call of every run as a specification that counts all past acceptances |
| Limiters.AuthRefines | crates/orni-models-api/src/state.rs:44-73 | in time order, so does the auth limiter, each key with its own window, in every run in which no sweep forgets an entry that its key's own window still counts |
| Sweeping.AuthRefinesExactly | crates/orni-models-api/src/state.rs:64-70 | whatever call comes next, after any part of a run in time order, is decided as by counting everything if and only if no sweep of the run forgets a live entry |
| Sweeping.SweepHarmlessExactly | crates/orni-models-api/src/state.rs:64-70 | one sweep with one caller's window leaves every later decision for a key with another window alone iff it forgets no entry that window would still count |
| Sweeping.HarmShows | crates/orni-models-api/src/state.rs:64-70 | right after the first sweep that forgets one, the limiter accepts a call of that key whose limit is its true count |
| Sweeping.CrowdGoesWrong | crates/orni-models-api/src/state.rs:65 | a concrete run: with 10,001 keys a sweep with the login window forgets a registration of a thousand seconds before, and a second one within the hour is accepted under a limit of one |
| Limiters.AuthOneWindowRefines | crates/orni-models-api/src/state.rs:64-70 | with one window that is every run, cross-key sweeps included |
| Limiters.AuthFewKeysRefines | crates/orni-models-api/src/state.rs:64-70 | with at most 10,000 distinct keys it is every run too, whatever the windows |
| Limiters.GlobalRefines | crates/orni-models-api/src/security.rs:61-89 | in time order, so does the global limiter, whenever its periodic sweeps fall and whatever limits share a key |
| LateStamps.IpLetsThrough | crates/ghola-gateway/src/ip_rate_limit.rs:28-45 | in every run without such a prune, and under limits of at most m for a key, the calls of the key let through number at most m in any minute, wherever it starts |
| LateStamps.LateLetsThrough | crates/ghola-gateway/src/ip_rate_limit.rs:25-45 | in every run whose stamps are at most L behind, harmful prunes included, they number at most m in any stretch of a minute less L |
| LateStamps.LateBoundExactly | crates/ghola-gateway/src/ip_rate_limit.rs:25-45 | the longest stretch for which a limit of m calls holds in all those runs is a minute less L if m is two or more, and the whole minute if m is one |
| LateStamps.LimitOneKeepsMinute | crates/ghola-gateway/src/ip_rate_limit.rs:25-45 | under a limit of one, no minute of any run, however late its stamps, sees two calls let through |
| Limiters.AuthLetsThrough | crates/orni-models-api/src/state.rs:52-62 | in time order, so do those of the auth limiter in any interval as long as the key's window, in every run in which no sweep forgets a live entry |
| Limiters.GlobalLetsThrough | crates/orni-models-api/src/security.rs:80-88 | in time order, so do those of the global limiter in any minute |
| LateStamps.LateStampSlips | crates/ghola-gateway/src/ip_rate_limit.rs:25-28 | the clock is read before the bucket is locked: for any lag up to a minute and any limit of two or more, a run in which more calls than the limit pass in just over a minute less the lag |
| RetryAfter.AuthRetryAfterIsTight | crates/orni-models-api/src/state.rs:52-60 | when the calls of a key come in time order, those of other keys in any, a call of it turned away under a constant limit succeeds from some exact wait on; the seconds told are never less than that wait and more by less than one second |
| RetryAfter.IpRetryAfterIsNear | crates/ghola-gateway/src/ip_rate_limit.rs:31-42 | in such runs the rounded-down seconds are within one second of the exact wait, and waiting them is enough iff rounding lost nothing |
| Credits.CreditRefines | crates/orni-models-api/src/security.rs:219-244 | in time order, a credit is called unusual iff it and everything else credited to that user in the hour before exceed the alarm |
| Limiters.IpRateLimiter.Check | crates/ghola-gateway/src/ip_rate_limit.rs:24-46 | prune, decide and push on one key's vector; no other key changes |
| Limiters.AuthRateLimiter.Check | crates/orni-models-api/src/state.rs:44-73 | the same, and above 10,000 keys an acceptance sweeps the map |
| Limiters.CleanUpLeavesLive | crates/orni-models-api/src/state.rs:64-70 | a sweep leaves no expired stamp and no empty bucket |
| Limiters.GlobalRateLimiter.Check | crates/orni-models-api/src/security.rs:61-89 | the same, with a sweep of the map when the last is more than 120 seconds old |
| Credits.AnomalyDetector.CheckCredit | crates/orni-models-api/src/security.rs:219-244 | prune, push, sum and compare, for one user |
| Nonces.ValidatesExactly | crates/orni-models-api/src/auth.rs:118-138 | in every run in time order a nonce validates iff it was issued to that wallet less than 300 seconds before and nothing has named it since; expiry sweeps change no answer |
| Nonces.OneShot | crates/orni-models-api/src/auth.rs:130-137 | if the random nonces never repeat, none validates twice, for whatever wallets |
| Nonces.AttemptUsesUp | crates/orni-models-api/src/auth.rs:130-137 | any attempt on an issued nonce uses it up, even with the wrong wallet or too late |
| Nonces.RunAgrees | crates/orni-models-api/src/auth.rs:118-138 | along every run in time order the store and the full record agree on every nonce that can still validate |
| Nonces.NonceStore.Generate | crates/orni-models-api/src/auth.rs:118-127 | sweeps the expired nonces and issues one |
| Nonces.NonceStore.ValidateAndRemove | crates/orni-models-api/src/auth.rs:129-138 | removes the nonce and says whether wallet and age were right |
| StablePrint.Readable | apps/private-agent-worker/src/server.js:223-232 | unique readability: equal texts of two values, followed by any suffixes that are empty or start with a delimiter, have equal meanings and equal suffixes, for every comparator |
| StablePrint.StableExactly | apps/private-agent-worker/src/server.js:223-232 | under a total key order two values print the same text iff they are equal up to the order of keys |
| StablePrint.CanonicalExactly | apps/private-agent-worker/src/server.js:226-227 | the printer gives one text per meaning iff its comparator lets no two keys tie, as localeCompare may |
| StablePrint.TextIsPaired | apps/private-agent-worker/src/server.js:223-236 | no printed text has a lone surrogate, whatever its strings hold, so hashing its UTF-8 loses nothing |
| JsonText.QuoteReadable | apps/private-agent-worker/src/server.js:228-231 | a quoted string determines the string and where it ends |
| JsonReader.ReadsBack | apps/private-agent-worker/src/server.js:223-232 | a reader of compact JSON (RFC 8259) reads a printed value back, with its keys in the order they were sorted, and stops where the value ends; it reads nothing iff something in the value is undefined |
| JsonReader.StableIsJsonExactly | apps/private-agent-worker/src/server.js:223-232 | stableJson prints JSON of the value's own meaning, its keys in order, exactly when nothing in the value is undefined; otherwise its text is no JSON |
| JsonReader.UndefinedMemberPrints | apps/private-agent-worker/src/server.js:225-229 | an undefined member prints as the bare word undefined |
| JsonReader.UndefinedItemPrints | apps/private-agent-worker/src/server.js:224 | an undefined item of an array prints as nothing |
| JsonReader.CanonicalUndefinedItem | apps/private-agent-worker/src/server.js:220 | canonicalJson prints an undefined item as null |
| JsonReader.CanonicalUndefinedMember | apps/private-agent-worker/src/server.js:220 | and leaves an undefined member out |
| JsonReader.CanonicalIsJson | apps/private-agent-worker/src/server.js:219-221 | canonicalJson always prints JSON: what is left of the value, its keys in code-unit order |
| JsonReader.EscapesExactly | apps/private-agent-worker/src/server.js:228-231 | a string's units are escaped iff they are quotes, backslashes, control characters or lone surrogates, by a letter where there is one and by four small hexadecimal digits where not |
| KeyOrder.SortSorts | apps/private-agent-worker/src/server.js:226-227 | sorting distinct keys under a total order sorts strictly |
| KeyOrder.ByUnitsIsTotal | apps/private-agent-worker/src/server.js:220 | the default sort order on strings, by UTF-16 code units, is a strict total order |
| KeyOrder.UnitLessExactly | apps/private-agent-worker/src/server.js:220 | one string sorts before another iff at the first place where they differ it ends or has the smaller unit |
| CanonicalPrint.CanonicalIsPrunedStable | apps/private-agent-worker/src/server.js:219-221 | canonicalJson of any value is the stable text of what is left when every nested key that is not a top-level key is dropped |
| CanonicalPrint.PrintersAgreeExactly | apps/private-agent-worker/src/server.js:219-232 | in the default key order the two printers agree iff nothing is pruned |
| CanonicalPrint.CanonicalCollidesExactly | apps/private-agent-worker/src/server.js:950-952 | two values have one canonical text, and so one commitment pre-image, iff the same is left of both |
| CanonicalPrint.NestedFieldForgotten | apps/private-agent-worker/src/server.js:219-221 | a nested field that no top-level key names can change without changing the canonical text |
| CanonicalPrint.PropertyListExactly | apps/private-agent-worker/src/server.js:220 | the property list holds exactly the keys of an object, the indices of an array or a string, and nothing for other values |
| CanonicalPrint.TopFieldKept | apps/private-agent-worker/src/server.js:219-221 | no top-level field is forgotten: if two objects have one canonical text, every defined member of one is matched in the other by a member of that key, of which the same is left |
| CanonicalPrint.TopScalarsTell | apps/private-agent-worker/src/server.js:219-221 | objects that differ in a top-level string, number, boolean or null never have one canonical text |
| CanonicalPrint.ListedIsStable | apps/private-agent-worker/src/server.js:219-221 | printing under any sorted property list is pruning by it and then printing stably |
| LeakKeys.LeaksExactly | apps/private-agent-worker/src/server.js:618-625 | the check says yes iff some path of items and keys reaches a listed key |
| LeakKeys.SameTextSameVerdict | apps/private-agent-worker/src/server.js:618-625 | values with equal stable text get equal verdicts |
| LineStream.GenerateStream | crates/ghola-home/src/llm.rs:106-141 | each read's bytes are decoded on their own and the buffer loop yields what the reads, one by one, lead to; a read error is yielded and ends the stream |
| LineStream.TakeLines | crates/ghola-home/src/llm.rs:111-132 | the inner loop takes whole lines up to a [DONE] line and leaves the rest; it ends because the buffer shrinks |
| LineStream.ChunkInvariance | crates/ghola-home/src/llm.rs:106-132 | however a text is cut into reads, what is yielded before its first [DONE] line is what a whole-text splitter yields; without such a line that is everything |
| LineStream.InvariantExactly | crates/ghola-home/src/llm.rs:115-117 | every cut of a text yields the same iff no line from the first [DONE] on has a token: the break leaves only the inner loop |
| LineStream.TakenReassembles | crates/ghola-home/src/llm.rs:111-114 | at every moment the lines taken and the buffer put the input back together |
| LineStream.ErrorEnds | crates/ghola-home/src/llm.rs:134-138 | after a read error nothing more is yielded |
| TokenLines.TokensAreSaid | crates/ghola-home/src/llm.rs:106-132 | for every decoder, and every cut of the bytes between characters: the lines before the first [DONE] yield, in order, exactly the non-empty texts the decoder gives for the lines that, trimmed, start with "data: "; without such a line that is everything |
| TokenLines.TrimExactly | crates/ghola-home/src/llm.rs:113-114 | trimming takes all the whitespace around a line and no more |
| Utf8.LossyEncode | crates/ghola-home/src/llm.rs:113 | decoding the UTF-8 of any text gives the text back |
| Utf8.Examples | crates/ghola-home/src/llm.rs:113 | the encodings listed in section 7 of RFC 3629 |
| Utf8.ReplacementExamples | crates/ghola-home/src/llm.rs:113 | cut characters and stray bytes are taken in runs as section 3.9 of the Unicode Standard shows |
| Utf8.HeardExactly | crates/ghola-home/src/llm.rs:110-113 | for all bytes, malformed ones too, decoding the reads one by one gives the text of the whole iff every cut falls between two characters (or two runs that are replaced); otherwise it gives more characters |
| Utf8.TextIsHeardExactly | crates/ghola-home/src/llm.rs:110-113 | a text sent as UTF-8 is heard as it is iff every read of it is UTF-8 by itself |
| ByteStream.ByteInvariance | crates/ghola-home/src/llm.rs:106-132 | however bytes are cut between characters, what is yielded before the first [DONE] line is what a whole-text splitter yields |
| ByteStream.GoodCutsExactly | crates/ghola-home/src/llm.rs:113-117 | all cuts of the bytes between characters yield the same iff no line from the first [DONE] on has a token |
| ByteStream.TokenArrivesExactly | crates/ghola-home/src/llm.rs:110-122 | the line of a token reaches the JSON decoder as it was sent iff every read is UTF-8 by itself: a character that two reads share is lost |
| Base64.Decode | crates/said-attest/src/nitro.rs:79-98 | the decoder's loops compute the blocks' bytes, or a length or character error |
| Base64.RoundTrip | crates/said-attest/src/nitro.rs:68-99 | decoding the section 4 encoding of RFC 4648 of any bytes, whatever whitespace is put in, gives the bytes back |
| Base64.SpaceAnywhere | crates/said-attest/src/nitro.rs:79 | spaces, tabs, line feeds, form feeds and carriage returns put anywhere into an encoding are removed again |
| Base64.StripBetween | crates/said-attest/src/nitro.rs:79 | those five are removed from any input, and nothing else is |
| Base64.DecodeAppend | crates/said-attest/src/nitro.rs:84-97 | decoding is a homomorphism over inputs of whole blocks |
| Base64.AcceptedExactly | crates/said-attest/src/nitro.rs:80-98 | an input is accepted iff it is whole blocks, each padded only at its end; the output is three bytes a block less the padding; otherwise a wrong length is reported before a wrong character |
| Base64.OnlySpellingExactly | crates/said-attest/src/nitro.rs:84-97 | an accepted input is the encoding of its own bytes iff only its last block is padded and no unused bit is set |
| Base64.Alphabet | crates/said-attest/src/nitro.rs:69-77 | all 64 symbols of table 1 of RFC 4648 have their values |
| Base64.TestVectors | crates/said-attest/src/nitro.rs:68-99 | the test vectors of section 10 of RFC 4648 |
| CertChain.VerifyCertChain | crates/said-attest/src/nitro.rs:270-343 | a chain is accepted iff the bundle in one order or the other passes; the error is then the second order's |
| CertChain.TryOrder | crates/said-attest/src/nitro.rs:299-334 | one walk from the leaf up, with the first thing that is wrong |
| CertChain.OrderErrorExplained | crates/said-attest/src/nitro.rs:299-334 | every refusal of an order has its reason: a certificate of unusable key, or one not signed by the next, where the walk meets it first; a leaf alone that the root did not sign; or an end that is not the root's key |
| CertChain.AcceptedExactly | crates/said-attest/src/nitro.rs:270-343 | acceptance means exactly that the whole bundle, read one way or the other, is a path of signatures from the leaf to the pinned root's key |
| CertChain.PathTakesAll | crates/said-attest/src/nitro.rs:336-337 | that path starts at the leaf and passes every certificate of the bundle |
| CertChain.OrientationDoesNotMatter | crates/said-attest/src/nitro.rs:336-342 | reversing the bundle never changes the verdict |
| CertChain.UnsignedLastAccepted | crates/said-attest/src/nitro.rs:320-333 | a concrete chain is accepted although the root's key did not sign its last certificate |
| CertChain.LastIsSignedExactly | crates/said-attest/src/nitro.rs:320-333 | the root's key signed the last certificate of every accepted non-empty bundle iff it signed every parseable certificate that holds it, or none at all |
| CertChain.SelfSignedExactly | crates/said-attest/src/nitro.rs:320-333 | for a self-signed root, iff it signed every parseable certificate that holds it |
| Attestation.ParseAndVerifyWithRoot | crates/said-attest/src/nitro.rs:215-254 | a document is genuine iff its chain is accepted and its payload is signed under the leaf's key; otherwise the error names the first of the three that fails |
| Attestation.VerifyAttestation | crates/said-attest/src/lib.rs:168-289 | accepted iff genuine, measured images allowed, user data 72 bytes and close to the document's time, and the time in its window; every refusal states a true reason |
| Attestation.BoundKeysAreFresh | crates/said-attest/src/lib.rs:237-278 | the keys believed are exactly those packed in the user data, with a time within a minute of the document's and within a day and a minute of now |
| Attestation.PackedIsBelieved | crates/said-attest/src/lib.rs:309-319 | packed user data is believed iff its time is within a minute of the document's, the image is allowed, and now is from a minute before the document's time to a day after it |
| Attestation.PackBack | crates/said-attest/src/lib.rs:237-252 | unpacking what was packed gives back both keys and the signed 64-bit timestamp |
| Attestation.UnpackForth | crates/said-attest/src/lib.rs:237-252 | packing what was unpacked gives back the 72 bytes |
| Attestation.PackUserData | crates/said-attest/src/lib.rs:309-319 | 72 bytes: the two keys, then at position 64 + i the i-th byte of the time from the right |
| Attestation.LeByte | crates/said-attest/src/lib.rs:317 | byte i of a little-endian number is the number shifted right by 8 i, modulo 256 |
| Attestation.FindPcrExactly | crates/said-attest/src/lib.rs:293-304 | a PCR look-up finds the digest of the first entry with that index, and nothing iff there is none |
| Attestation.DeriveMeasurement | crates/said-attest/src/lib.rs:293-304 | PCR0, PCR1 and PCR2 end to end, or the first that is missing |
| Attestation.SortKeepsPcrs | crates/said-attest/src/nitro.rs:166-174 | the decoder's stable sort changes no PCR lookup, even with repeated indices |
| Attestation.MeasurementTellsPcrs | crates/said-attest/src/lib.rs:293-304 | equal measurements mean equal digests as soon as the first two have equal lengths, and not otherwise |

## Left out

- HTTP, routing, header filtering, body streaming, SQL, DNS and RPC transport: a statement is one atomic step,
  what the network answers is part of each event, and the chain is a fixed map from signature to transaction.
- The method, path and query length checks before route resolution: they end a request before it has any effect.
- Cryptography, hashing, base58, account derivation, X.509, COSE and CBOR decoding: functions and relations that
  are parameters of the model.
- A service is its slug: slugs are unique and never renamed, and rows are never deleted. All times are on one clock.
- Columns that nothing here depends on: caller, method, path, latency, byte counts and fees of a call; resource,
  description, timeout, fee and error text of an offer.
- The metered table here holds the gateway's rows only. said-cloud's own usage endpoint
  (crates/said-cloud/src/routes/billing_service.rs:363-376) inserts into the same table, and the solvency and
  conservation rows say nothing of those rows.
- Gateway.Gateway.ProxyInner: runs one request to its end before the next, at one reading of the clock, which moves
  only between requests (`Wait`); interleavings, time passing within a request, and the response leaving before its
  bookkeeping are in the step system `Proxy`, which has no update in place.
- LateStamps.IpLetsThrough: excludes the runs with a harmful prune; that these are exactly the runs that can go wrong
  is `LateStamps.IpRefinesExactly`, and what still holds of them is `LateStamps.LateLetsThrough`.
- Limiters.AuthRefines: excludes the runs in which a sweep forgets a live entry; that these are exactly the runs
  that can go wrong is `Sweeping.AuthRefinesExactly`.
- Credits.AnomalyDetector.CheckCredit: sums without bound, where the code's i64 sum could overflow.
- Nonces.NonceStore.Generate: reads the clock once, where the code reads it once per entry and once more.
- StablePrint.StableExactly: asks for a total order, as localeCompare may tie distinct strings that are
  canonically equivalent; `StablePrint.CanonicalExactly` says that this is exactly what is needed. Objects are
  their own enumerable string keys with distinct names: no inherited keys (an own top-level key `__proto__`
  would make `JSON.stringify` look at the prototype), no `toJSON`, no array holes apart from undefined items,
  no bigints. A finite number is the text JavaScript prints for it, so 0 and -0 are one number.
- LineStream.GenerateStream: decoding the JSON of a line is a parameter, and `ByteStream.TokenArrivesExactly` is
  about what that decoder is given.
- CertChain.VerifyCertChain: the several ways in which a signature or a key can be malformed are one error each.
- Attestation.VerifyAttestation: the document's and the user data's timestamps are 64-bit, and a difference that
  does not fit is an error of its own (`Overflow`); a build without overflow checks would wrap instead. Additions
  to `now` are unbounded.
- The H100 and TDX verifiers: flat tests of token fields; nothing proved here extends to them.
- The autopilot event stream of server.js and its set of seen event ids, the request validators, and the CLI, MCP,
  extension, demo, schema and configuration code: members that would only be easy.
- Settlement, spending limits, autopilot execution and the on-chain program: not part of this model.
