# ngx-heavybag in Dafny

A model of the four parts of the nginx edge firewall whose claims are about whole runs, and proofs
of those claims.

* **Per-IP rate limiting.** `RateBucket` is the fixed-point arithmetic of one packed bucket word,
  `RateTable` the fixed slot table as a class over arrays, `RateVerdicts` what one call on it answers and
  changes. `RateRefinement`, `RateConverse` and `RateWrap` compare the table with an unbounded map.
  `RateSteps` is the lock-free CAS loop as a step machine with any number of workers, and `RateLate` says
  how late a CAS of it may come. `RateClaims` puts probe, claim, eviction and CAS loop into one machine,
  and `RateSolo` ties it to the table and bounds every call; `RateClients` bounds what a client gets on it
  without evictions, `RateEpochs` and `RateSessions` with them, `RateOverlap` and `RateErase` (with
  `RateRuns`) say what else evictions do. `RateFairness` is what rounding can do to a client, `RateRules`
  the configuration directives and `RateDirectives` their meaning, `RateKey` who counts as one client.
* **Statistics.** `CountryTable` is the per-country table as one worker runs it, `CountrySteps` the
  same table under any interleaving of atomic accesses, `CountrySolo` how the two agree,
  `CountrySnapshot` the reader that copies it meanwhile. `Segment`, `Heads` and `Handlers` are the
  counters and the three handlers (HTTP, mail auth, stream) that bump them; `Pipeline` and `OtherHeads`
  say what they decide and count as a list of stages and a table of counters; `Accounting` interleaves
  any number of workers and a snapshot reader; `DetectEnforce` and `StreamDetect` run the same traffic in
  both modes; `PromEscape` is the label escaping of the scrape page.
* **Geo lookup.** `Geo` is the radix trie over an untrusted table, `GeoAnswers` what a lookup answers byte
  by byte, `NanoLibloc` the reference walk it was ported from, `Bytes` the bits of a byte.
* **Fingerprints and lists.** `Ja4` builds the TLS fingerprint and `Ja4Reader` reads it back, `Ja4Index`
  loads and searches the fingerprint table, `Lists` reads the signature lists; `Ja4Forms` and `ListForms`
  are the two files as their authors write them.

`dafny verify dfyconfig.toml` checks everything.

## What the proofs found

* The comment at heavybag_rate.c:297-304 says an evicted bucket "would have refilled to a full burst".
  Eviction loses nothing exactly when burst <= rate + floor(rate / period), in the code's units, and only
  on clocks up to the 2^32 ms wrap (`EvictionForgetsNothingBelowIff`). The bounded table answers like an
  unbounded map under exactly the same condition (`RefinesMapIff`). `rate=10r/s burst=20` does not meet
  it.
* The rate bound of the CAS loop needs more than that no call spans a whole 2^32 ms wrap. It holds
  when every CAS comes less than d ms after the stamp it read, or with no write since the read, exactly
  for d up to 2^32, whatever the accepted rule (`BoundHoldsIff`). Beyond, a packed word comes back 2^32
  ms after it was first written, under workers whose calls all fall within one period, and each of
  their CASes then wins with a refill already spent (`LateBreaksTheBound`).
* A key keeps a single slot, evictions included, exactly when no two calls for one key overlap
  (`OneSlotHoldsIff`). With two, both can evict a slot for the same new key: the first victim is written
  between their probes, and both evictions win (`TwoSlotsForOneKey`). Without evictions a key owns one
  slot however its calls overlap (`OneSlotPerKey`), and the rate bound is a bound per client
  (`ClientBound`). With them, and without overlap, a client gets at most one such bound for every fresh
  bucket it is given and one call for every slot it loses (`SessionBound`).
* heavybag_rate.c:375-378 says the store after an eviction costs at worst one lost token decrement. Even
  with the clock standing still it can erase any number of them up to a whole burst and one more
  (`CanEraseIff`): a call of the old owner wins late, and the new owner's other calls find their key
  before the store.
* A snapshot of the per-country table can show more blocked than counted, though the table never does
  (`SkewedCopy`), by at most the bumps counted between the two reads (`CopiedSlot`); one is enough
  (`SlotAgreesIff`).
* A client whose requests are all denied is never kept out for 2 * period / N ms, provided the denials
  span less than 2^32 ms less one idle gap; if they may span that much, two polls suffice to starve
  (`NeverStarvesIff`).
* heavybag_rate.c:16 says a first touch fills the bucket to the burst. For about burst / rate after
  every multiple of 2^32 ms it does not, and for the first instants it is denied (`FirstTouchIff`).
* On the HTTP head detect mode predicts enforce mode. On the stream head it does as long as no
  reputation-denied client also meets the limiter (`StreamDetectPredicts`). For one that does, neither
  the rate table nor the counters are predicted (`SameTableIff`, `CountersPredictIff`): detect mode lets
  it spend tokens, and may book two would-blocks where enforce mode denies once.
* With the root the loader finds, an IPv4 lookup answers like the 128-bit lookup of the v4-mapped address
  exactly when the short walk meets a leaf or leaves the table or the mapped prefix itself has no record
  (`V4AnswerIff`); otherwise it answers nothing where the long one gives the prefix's record.
* No worker can be kept from finishing: a rate check ends after at most 180 accesses of its own
  (`RateSolo.CallsEnd`), a country bump after at most 1538 (`BumpsEnd`), whatever the others do.
* The GREASE test accepts every value of section 2 of RFC 8701 and also those whose two bytes differ
  (`GreaseIsWider`).
* heavybag_match.c:834 says a fingerprint's family is the first token after its key. The code takes the rest
  of the line, so any further word or comment makes it UNKNOWN (`FamilyIsRestOfLine`).
* The fingerprint search can return every family the file lists for a key, depending on how the sort
  left equal keys (`PossibleAnswersIff`). It answers like a linear scan whatever the sort did exactly
  when the file gives the key one family (`SearchIsScanIff`), and it can return UNKNOWN also for a key
  listed with an unrecognised family (`UnknownIff`).
* The reference geo walk multiplies a node index by 12 in 32 bits before testing it. On indices that do
  not wrap its test agrees with the port's for tables of whole nodes (`BoundsAgreeIff`); over all
  32-bit indices the two agree on the empty table only (`BoundsAgreeOnAllIff`).

## Model

| member | source | states |
|---|---|---|
| RateBucket.AcceptedNeverOverflows | modules/ngx_http_heavybag/src/heavybag_rate.c:393-416 | for every accepted rule, word and clock the refill product and sum fit 64 bits and the count 32, so machine arithmetic is exact |
| RateBucket.SpendParts | modules/ngx_http_heavybag/src/heavybag_rate.c:393-420 | one step allows exactly when a whole token is there, takes exactly one, and moves the stamp exactly when something was earned |
| RateTable.OldestIsOldest | modules/ngx_http_heavybag/src/heavybag_rate.c:329-350 | the eviction candidate is a stale slot of the window, none stale is older, and there is none only if nothing is stale |
| RateTable.RateZone.Probe | modules/ngx_http_heavybag/src/heavybag_rate.c:313-353 | the probe loop stops at the first slot that is empty or ours, claiming the former, else reports the oldest stale one |
| RateTable.RateZone.Check | modules/ngx_http_heavybag/src/heavybag_rate.c:253-425 | one uncontended call is one step of the table specification: slots, verdict and overflow count |
| RateVerdicts.VerdictMeans | modules/ngx_http_heavybag/src/heavybag_rate.c:307-425 | under any rule, on any table with a usable slot in the window: the call takes its own slot, else the first empty one, else the oldest stale one, changes nothing else, and is refused exactly when the bucket it spends from, a fresh one after an eviction, holds less than one token |
| RateVerdicts.OverflowIff | modules/ngx_http_heavybag/src/heavybag_rate.c:353-366 | an overflow is counted exactly when no slot of the window is empty, the key's own or stale; the call is then let through and the table unchanged |
| RateVerdicts.IdleLimiter | modules/ngx_http_heavybag/src/heavybag_rate.c:267-290 | a key, period or burst of zero is let through and changes nothing |
| RateVerdicts.HeldIs | modules/ngx_http_heavybag/src/heavybag_rate.c:394-407 | under an accepted rule the bucket spent from holds its low 32 bits plus what the rate earned since the stamp in its high 32, at most the burst, no machine width interfering |
| RateRefinement.ProbeFindsOwner | modules/ngx_http_heavybag/src/heavybag_rate.c:313-330 | the probe never misses a key that has a slot |
| RateRefinement.RunsKeepInv | modules/ngx_http_heavybag/src/heavybag_rate.c:253-425 | every table a run reaches keeps each key in at most one slot, no empty slot before it in probe order, and empty slots unwritten |
| RateWrap.EvictionForgetsNothingBelowIff | modules/ngx_http_heavybag/src/heavybag_rate.c:297-304 | on clocks below a limit past two periods, an evictable bucket always answers like a fresh one if and only if burst <= rate + floor(rate / period) and the limit is at most 2^32 ms |
| RateRefinement.TableRefinesMap | modules/ngx_http_heavybag/src/heavybag_rate.c:297-425 | under such a rule every run without overflow gives the verdicts of an unbounded map of buckets |
| RateConverse.LossyDiverges | modules/ngx_http_heavybag/src/heavybag_rate.c:297-425 | for a rule whose evictions forget something, on every zone of fewer than 2^64 - 1 slots some run of 64-bit keys, two periods after the clock's zero, answers otherwise than the map |
| RateWrap.WrapDiverges | modules/ngx_http_heavybag/src/heavybag_rate.c:297-425 | for every accepted rule some run that reaches clock 2^32 answers otherwise than the map |
| RateWrap.RefinesMapIff | modules/ngx_http_heavybag/src/heavybag_rate.c:297-425 | over clocks below a limit past two periods, all runs without overflow agree with the map if and only if evictions forget nothing under the rule and the limit is at most 2^32 |
| RateFairness.DenialIsShort | modules/ngx_http_heavybag/src/heavybag_rate.c:398-416 | whatever the bucket and the polling times, unbroken denials whose span plus one idle gap stays below 2^32 ms last less than two periods per token |
| RateFairness.NeverStarvesIff | modules/ngx_http_heavybag/src/heavybag_rate.c:398-416 | that guarantee covers exactly the spans one idle gap short of the 2^32 ms wrap |
| RateFairness.FirstTouchIff | modules/ngx_http_heavybag/src/heavybag_rate.c:398-413 | a new slot holds a full burst exactly when the low 32 bits of the clock have earned one, and is allowed exactly when they have earned a token |
| RateSteps.ClockOrderAndProgress | modules/ngx_http_heavybag/src/heavybag_rate.c:393-424 | in every reachable state no sample is older than the stamp it goes with, a CAS fails only after a foreign write, and giving up is preceded by 16 of them |
| RateSteps.NoAba | modules/ngx_http_heavybag/src/heavybag_rate.c:393-424 | an on-time CAS that finds its word finds the very bucket it read |
| RateSteps.RunAdvances | modules/ngx_http_heavybag/src/heavybag_rate.c:393-424 | over every on-time run the bucket only moves forward, stamps up and tokens down |
| RateSteps.RateBound | modules/ngx_http_heavybag/src/heavybag_rate.c:393-424 | in every interleaving whose CASes come less than 2^32 ms after the stamp they read, or with no write since, the allowing CASes of any window, times SCALE, are at most burst + floor(rate * window / period) + 1, also across the stamp wrap |
| RateSteps.WrittenIsStored | modules/ngx_http_heavybag/src/heavybag_rate.c:416-420 | the word memory holds after a winning CAS is the word the CAS stored |
| RateLate.LateBreaksTheBound | modules/ngx_http_heavybag/src/heavybag_rate.c:393-424 | for every accepted rule, once a CAS may come 2^32 ms after its stamp, a run from an unwritten slot whose last calls all fall within one period exceeds the bound of that period |
| RateLate.BoundHoldsIff | modules/ngx_http_heavybag/src/heavybag_rate.c:393-424 | for every accepted rule the bound holds at lateness d, over all starts, runs and windows, if and only if d is at most 2^32 |
| RateClaims.RunKeepsInv | modules/ngx_http_heavybag/src/heavybag_rate.c:307-385 | in every run in which no two calls for a key overlap, evictions included, each owned slot stays behind slots of other keys and each worker's progress stays true |
| RateClaims.OneSlotPerKey | modules/ngx_http_heavybag/src/heavybag_rate.c:307-353 | in every interleaving without evictions each key owns at most one slot, however many calls for it overlap |
| RateSolo.CallIsTableStep | modules/ngx_http_heavybag/src/heavybag_rate.c:253-425 | on the concurrent machine a call that nobody interferes with, wherever the other workers stand, is one step of the table and ends within 70 accesses |
| RateSolo.CallsEnd | modules/ngx_http_heavybag/src/heavybag_rate.c:307-424 | in every run a call ends after at most 180 accesses of its own, whatever the others do, and a worker in a call can always go on |
| RateClients.ClientBound | modules/ngx_http_heavybag/src/heavybag_rate.c:307-424 | on the whole machine without evictions, with no CAS 2^32 ms after its stamp, what a key is allowed in any window, times SCALE, is at most burst + floor(rate * window / period) + 1 |
| RateEpochs.WinsOnSeen | modules/ngx_http_heavybag/src/heavybag_rate.c:373-424 | after any number of evictions and stores on its slot, a CAS less than 2^32 ms after its stamp wins only on the very bucket its worker read |
| RateSessions.SessionBound | modules/ngx_http_heavybag/src/heavybag_rate.c:307-424 | with evictions, no two calls for a key overlapping and no CAS 2^32 ms after its stamp, what a key is allowed in any window, times SCALE, is at most the window's bound for every fresh bucket it is given plus SCALE for every slot taken from it |
| RateOverlap.TwoSlotsForOneKey | modules/ngx_http_heavybag/src/heavybag_rate.c:307-385 | for every table size and accepted rule, a run of two workers after which one key owns two slots |
| RateOverlap.OneSlotHoldsIff | modules/ngx_http_heavybag/src/heavybag_rate.c:307-385 | over all runs with evictions in which no key is in more than k calls at once, a key keeps a single slot if and only if k is at most 1 |
| RateErase.CanEraseIff | modules/ngx_http_heavybag/src/heavybag_rate.c:373-378 | with the clock standing still, whosever they are, the store after an eviction can erase k decrements, for any table size and accepted rule, if and only if k tokens fit the burst plus one |
| RateRules.Atoi | modules/ngx_http_heavybag/src/heavybag_rate.c:470-594 | a parameter is read as the number its digits denote, refused if empty, not all digits or beyond the signed word |
| RateRules.RuleAdd | modules/ngx_http_heavybag/src/heavybag_rate.c:470-594 | a directive is accepted exactly when every argument is well formed, a rate is given and no second default appears, and then adds one rule |
| RateRules.AcceptedConfiguration | modules/ngx_http_heavybag/src/heavybag_rate.c:470-594 | every accepted sequence of directives leaves only rules that cannot overflow, at most one of them a default |
| RateDirectives.DirectiveIff | modules/ngx_http_heavybag/src/heavybag_rate.c:488-592 | a directive is accepted if and only if every argument is rate=Nr/s, /m or /h, burst=N or a for_geo list of two-letter codes, one is a rate, and it names countries or is the first rule that does not |
| RateDirectives.RateEarns | modules/ngx_http_heavybag/src/heavybag_rate.c:488-520 | rate=Nr/s, /m or /h earns exactly N tokens over a second, minute or hour |
| RateDirectives.RateIsLast | modules/ngx_http_heavybag/src/heavybag_rate.c:488-520 | of several rates the last one is the rule's |
| RateDirectives.BurstIsLast | modules/ngx_http_heavybag/src/heavybag_rate.c:522-535 | the last burst=N is the rule's, N tokens |
| RateDirectives.BurstDefaults | modules/ngx_http_heavybag/src/heavybag_rate.c:558-563 | without a burst the rule's is its rate |
| RateDirectives.GeoArgMeans | modules/ngx_http_heavybag/src/heavybag_rate.c:537-554 | for_geo= takes exactly a non-empty comma-separated list of two-character codes, a trailing comma allowed, and adds each as its upper-cased letters, the first one high |
| RateDirectives.CountriesAddUp | modules/ngx_http_heavybag/src/heavybag_rate.c:537-554 | the countries of several for_geo arguments add up in order |
| RateRules.RuleSelect | modules/ngx_http_heavybag/src/heavybag_rate.c:430-467 | the loop picks the first rule naming the country, else the default |
| RateRules.SelectMeans | modules/ngx_http_heavybag/src/heavybag_rate.c:430-467 | in an accepted configuration a rule is picked if and only if it is the first naming the country, or none does and it is the default |
| RateKey.RateKey | modules/ngx_http_heavybag/src/heavybag_rate.c:195-249 | the hash depends on the client only, and is 0 for an unknown family alone |
| RateKey.ClientsAre | modules/ngx_http_heavybag/src/heavybag_rate.c:213-248 | two IPv4 addresses are one client only if equal, an IPv6 address is an IPv4 client exactly in mapped form, and only other families have no key |
| RateKey.MappedKeepsKey | modules/ngx_http_heavybag/src/heavybag_rate.c:221-227 | an IPv4 client and its v4-mapped form are one client |
| RateKey.SlashSixtyFour | modules/ngx_http_heavybag/src/heavybag_rate.c:227-232 | two native IPv6 addresses are one client if and only if their first 64 bits agree |
| RateKey.NeighboursDiffer | modules/ngx_http_heavybag/src/heavybag_rate.c:239-248 | clients of one kind that differ in one byte have one key only if their hashes are 0 and 1 |
| RateKey.PublishedValues | modules/ngx_http_heavybag/src/heavybag_rate.c:91-92 | the hash gives the published FNV-1a values of the empty string and of a |
| CountryTable.CountryTable.Bump | modules/ngx_http_heavybag/src/heavybag_status.c:56-93 | a bump lands in the one slot its country owns or newly claims; only a full table of other countries sends it to the overflow |
| CountrySteps.RunKeepsInv | modules/ngx_http_heavybag/src/heavybag_status.c:56-93 | in every interleaving a claimed key never changes and the table's tallies stay consistent with the bumps under way |
| CountrySteps.ReachableTable | modules/ngx_http_heavybag/src/heavybag_status.c:56-93 | in every reachable state a country has at most one slot, blocked <= total, and a country that overflowed faces 512 slots of others |
| CountrySteps.ExactHistogram | modules/ngx_http_heavybag/src/heavybag_status.c:56-93 | once all workers are idle each slot holds exactly its country's bumps and blocked bumps, and slotless countries are exactly in the overflow |
| CountrySolo.BumpAlone | modules/ngx_http_heavybag/src/heavybag_status.c:56-93 | on the concurrent machine a bump that nobody interferes with counts once in its country's slot, or the first empty one, or the overflow if all 512 belong to others, within 515 accesses |
| CountrySolo.BumpsEnd | modules/ngx_http_heavybag/src/heavybag_status.c:56-93 | in every run a bump ends after at most 1538 accesses of its own, and a worker in a bump can always go on |
| CountrySnapshot.CopiedWords | modules/ngx_http_heavybag/src/heavybag_status.c:168-174 | in a copy taken among workers the overflow and each total and blocked count lie between their values at its start and end, and each key is 0 or the slot's key for good |
| CountrySnapshot.CopiedSlot | modules/ngx_http_heavybag/src/heavybag_status.c:170-174 | a copied slot shows more blocked than counted by at most the bumps counted in it between the two reads; a slot copied as unowned shows what was counted since its key was read |
| CountrySnapshot.SlotAgreesIff | modules/ngx_http_heavybag/src/heavybag_status.c:170-174 | over all copies, no slot with at most k bumps counted between those reads shows more blocked than counted if and only if k is 0 |
| CountrySnapshot.SkewedCopy | modules/ngx_http_heavybag/src/heavybag_status.c:170-174 | a copy that shows a slot without a country, no bump and one blocked bump, one bump having been counted between the reads |
| Handlers.Waf.Finalize | modules/ngx_http_heavybag/src/ngx_http_heavybag_module.c:746-827 | detect books an allow and a would-block and lets the request go, any other mode books the block and returns its code |
| Handlers.Waf.Preaccess | modules/ngx_http_heavybag/src/ngx_http_heavybag_module.c:972-1362 | the early-return pipeline bumps the counters of its program in order, answers by the first stage that hits, and touches the rate table only past reputation and method |
| Pipeline.AnswerMeans | modules/ngx_http_heavybag/src/ngx_http_heavybag_module.c:1032-1340 | in enforce mode a request gets through if and only if its client has the full-scope exemption or none of the twelve stages hits, else it gets the status of the first that hits; in detect mode every request gets through |
| Pipeline.LimitReachedIff | modules/ngx_http_heavybag/src/ngx_http_heavybag_module.c:1046-1135 | a request meets the limiter if and only if its client is not exempt and neither reputation nor its method stops it |
| Pipeline.LimitMeans | modules/ngx_http_heavybag/src/ngx_http_heavybag_module.c:1122-1135 | the limiter answers only under a rule and with a zone, by one call for the client's key |
| Pipeline.CountsMean | modules/ngx_http_heavybag/src/ngx_http_heavybag_module.c:972-1362 | by how much one pass raises every counter, for the blocking stage's reason and code, the vhost, the agent and the country |
| Handlers.Waf.MailAuthenticate | modules/ngx_http_heavybag/src/heavybag_authhttp.c:171-256 | the mail handler counts one request and one outcome, and an allowlisted client bypasses the limiter |
| OtherHeads.MailLimitReachedIff | modules/ngx_http_heavybag/src/heavybag_authhttp.c:198-232 | an allowlisted mail client meets the limiter if and only if the scope is not full, any other exactly when reputation lets it through |
| OtherHeads.MailAnswerMeans | modules/ngx_http_heavybag/src/heavybag_authhttp.c:150-256 | a judged session goes on if and only if neither reputation nor the limiter stops it, one that cannot be judged as configured |
| OtherHeads.MailCountsMean | modules/ngx_http_heavybag/src/heavybag_authhttp.c:171-256 | by how much one mail request raises every counter |
| Handlers.Waf.StreamAccess | modules/ngx_http_heavybag/src/heavybag_stream.c:238-321 | the stream handler counts one connection and one outcome, detect downgrades both denials to overlays |
| OtherHeads.StreamLimitReachedIff | modules/ngx_http_heavybag/src/heavybag_stream.c:278-290 | the limiter is asked about every connection reputation lets through, in detect mode about the others too, never about an allowlisted one |
| OtherHeads.StreamAnswerMeans | modules/ngx_http_heavybag/src/heavybag_stream.c:238-321 | enforce mode denies for reputation before the limiter, detect mode never |
| OtherHeads.StreamCountsMean | modules/ngx_http_heavybag/src/heavybag_stream.c:238-321 | by how much one connection raises every counter |
| DetectEnforce.DetectPredictsEnforce | modules/ngx_http_heavybag/src/ngx_http_heavybag_module.c:746-827 | on the same requests and rate table, detect's would-blocks are enforce's blocks reason by reason, its allows are enforce's allows plus blocks, and the tables end equal |
| StreamDetect.StreamDetectPredicts | modules/ngx_http_heavybag/src/heavybag_stream.c:238-303 | the same for the stream head on every run in which no client is both reputation-denied and rate limited |
| StreamDetect.SameTableIff | modules/ngx_http_heavybag/src/heavybag_stream.c:238-303 | after one connection, whatever the table was, the two modes leave the same rate table if and only if the client is not judged by both stages |
| StreamDetect.CountersPredictIff | modules/ngx_http_heavybag/src/heavybag_stream.c:238-303 | with a status zone, detect's stream counters predict enforce's for every table and clock if and only if the client is not judged by both stages |
| Accounting.ProgramBalanced | modules/ngx_http_heavybag/src/ngx_http_heavybag_module.c:972-1362 | every path of every head opens each book at most once and closes it exactly as often, in that order |
| Accounting.BooksBalance | modules/ngx_http_heavybag/src/ngx_http_heavybag_module.c:627-724 | in every reachable state requests = allowed + sum(blocked) + in flight, for HTTP with mail, each vhost, and stream |
| Accounting.SnapshotBounds | modules/ngx_http_heavybag/src/heavybag_status.c:119-166 | a snapshot of the counters before the per-country part, taken among writers: each counter between its values at start and end, and its request total covered by its outcomes plus the requests then in flight |
| Accounting.CopiedOnce | modules/ngx_http_heavybag/src/heavybag_status.c:119-166 | the snapshot copies every counter outside the per-vhost and per-country tables once, and no other |
| PromEscape.Escape | modules/ngx_http_heavybag/src/heavybag_status.c:269-298 | writes the escape of the longest prefix that fits, never half a pair, and nothing outside its span |
| PromEscape.UnescapeInverts | modules/ngx_http_heavybag/src/heavybag_status.c:262-298 | unescaping gives the label back less the dropped control bytes |
| PromEscape.WellFormedIff | modules/ngx_http_heavybag/src/heavybag_status.c:262-298 | the outputs are exactly the values without raw control byte, bare quote or stray backslash |
| PromEscape.EscapedEqualIff | modules/ngx_http_heavybag/src/heavybag_status.c:262-298 | two labels print alike if and only if they differ in dropped control bytes only |
| Geo.EntryOobMeans | modules/ngx_http_heavybag/src/heavybag_geo.c:139-154 | the division test rejects an entry exactly when it does not lie wholly inside the block |
| Geo.Walk | modules/ngx_http_heavybag/src/heavybag_geo.c:580-621 | on any table, cyclic or truncated, the walk is longest-prefix match, -1 if the path leaves the table, within 8 * addrlen + 1 nodes |
| GeoAnswers.MatchIsLastOfTrail | modules/ngx_http_heavybag/src/heavybag_geo.c:580-621 | the match is the last leaf on the list of nodes the address leads through, -1 if it leads out of the table |
| GeoAnswers.NodeReadsBack | modules/ngx_http_heavybag/src/heavybag_geo.c:73-81 | a 12-byte node of two children and a leaf, big-endian, reads back |
| GeoAnswers.BitsSpell | modules/ngx_http_heavybag/src/heavybag_geo.c:609-615 | the bits walked are those of the address bytes, most significant first |
| Geo.Ipv4Root | modules/ngx_http_heavybag/src/heavybag_geo.c:191-218 | OK names the place the 96 mapped-prefix bits lead to through nodes of the table; the two errors say how the chain fails |
| Geo.Ipv4RootComposes | modules/ngx_http_heavybag/src/heavybag_geo.c:647-656 | the 32-bit walk from the root agrees with the 128-bit walk if it meets a leaf or leaves the table; otherwise the latter answers with the deepest leaf of the /96 chain |
| Geo.Lookup | modules/ngx_http_heavybag/src/heavybag_geo.c:624-690 | every lookup returns the record of the longest-prefix match of its address, or nothing, and reads only inside the blocks |
| GeoAnswers.AnswersAre | modules/ngx_http_heavybag/src/heavybag_geo.c:634-660 | IPv4 addresses, mapped or not, are looked up by 32 bits from the IPv4 root, other IPv6 addresses by 128 bits from node 0, other families not at all |
| GeoAnswers.OneAnswer | modules/ngx_http_heavybag/src/heavybag_geo.c:624-690 | a lookup has one answer |
| GeoAnswers.V4AnswerIff | modules/ngx_http_heavybag/src/heavybag_geo.c:641-656 | with the loader's root an IPv4 lookup answers like the 128-bit one of the mapped address if and only if the short walk meets a leaf or leaves the table or the mapped prefix has no record |
| GeoAnswers.RecordReadsBack | modules/ngx_http_heavybag/src/heavybag_geo.c:673-689 | a network entry written from country, ASN and flags reads back as that record |
| NanoLibloc.BoundsAgreeIff | reference/nanolibloc.c:92-107 | port and reference bound tests agree on unwrapped indices if and only if the table holds whole nodes |
| NanoLibloc.BoundsAgreeOnAllIff | reference/nanolibloc.c:92-107 | over all 32-bit indices they agree, on tables of whole nodes, if and only if the table is empty |
| NanoLibloc.Lookup4 | reference/nanolibloc.c:92-107 | the 33-step shift-register walk is longest-prefix match too, when no index on the address's path wraps |
| NanoLibloc.PortAndReference | reference/nanolibloc.c:92-107 | port and reference return the same for every table of whole nodes, root and address whose path has no index that wraps |
| Ja4.GreaseIsWider | modules/ngx_http_heavybag/src/heavybag_ja4.c:25-30 | the mask accepts exactly the reserved values plus those with unequal bytes |
| Ja4.FilterInto | modules/ngx_http_heavybag/src/heavybag_ja4.c:106-120 | the filter keeps the first 256 values that count, in order |
| Ja4.AscendingUnique | modules/ngx_http_heavybag/src/heavybag_ja4.c:225-228 | a multiset of values has one ascending list, so the sorting routine does not matter |
| Ja4.AppendHexCsv | modules/ngx_http_heavybag/src/heavybag_ja4.c:123-143 | writes whole items only, and the whole list whenever five bytes a value are left |
| Ja4.CsvInjective | modules/ngx_http_heavybag/src/heavybag_ja4.c:123-143 | the printed list determines the list |
| Ja4.Build | modules/ngx_http_heavybag/src/heavybag_ja4.c:170-288 | the buffer code yields the specified fingerprint, with no text ever cut short, and fails only if a digest does |
| Ja4Reader.FingerprintMeans | modules/ngx_http_heavybag/src/heavybag_ja4.c:193-288 | every field of the fingerprint by position, the zeros in place of a hash of nothing, and none only when a hash fails |
| Ja4Reader.VersionMeans | modules/ngx_http_heavybag/src/heavybag_ja4.c:46-60 | the code of every version: 1 and the minor version for TLS 1.0 to 1.3, its own for the other five, 00 for the rest |
| Ja4Reader.VersionReadsBack | modules/ngx_http_heavybag/src/heavybag_ja4.c:46-60 | two versions share a code other than 00 only if they are equal |
| Ja4Reader.CountMeans | modules/ngx_http_heavybag/src/heavybag_ja4.c:214-222 | a count field denotes the count in decimal, 99 for anything above |
| Ja4Reader.AlpnMeans | modules/ngx_http_heavybag/src/heavybag_ja4.c:86-103 | the protocol field is the first and last byte if both are alphanumeric, else one nibble of each in hex |
| Ja4Reader.GreaseMeans | modules/ngx_http_heavybag/src/heavybag_ja4.c:25-30 | the filter drops exactly the values that read ?a?a in hex |
| Ja4Reader.ListReadsBack | modules/ngx_http_heavybag/src/heavybag_ja4.c:123-143 | a printed list, split at its commas and read as hex, is the list |
| Ja4Reader.CiphersReadBack | modules/ngx_http_heavybag/src/heavybag_ja4.c:224-242 | the second part hashes the first 256 kept ciphers in ascending order, nothing if there are none |
| Ja4Reader.ExtensionsReadBack | modules/ngx_http_heavybag/src/heavybag_ja4.c:244-283 | the third part hashes the kept extensions in ascending order and after a bar the signature algorithms as sent |
| Ja4.PreimageBIff | modules/ngx_http_heavybag/src/heavybag_ja4.c:224-242 | two hellos hash the same second part if and only if their first 256 non-GREASE ciphers are equal as multisets |
| Ja4.PreimageCIff | modules/ngx_http_heavybag/src/heavybag_ja4.c:244-283 | likewise the third part: extensions without GREASE, SNI and ALPN as multisets, signature algorithms as sequences |
| Ja4.FingerprintIff | modules/ngx_http_heavybag/src/heavybag_ja4.c:170-288 | where the hash fails on and confuses none of the texts, two clients share a fingerprint if and only if they share the canonical form |
| Ja4.OrderAndGreaseIgnored | modules/ngx_http_heavybag/src/heavybag_ja4.c:170-288 | shuffling ciphers or extensions or scattering GREASE changes no fingerprint, whatever the hash |
| Ja4.FingerprintShape | modules/ngx_http_heavybag/src/heavybag_ja4.c:220-287 | the result is 36 characters, alphanumeric but for its two bars, whatever the client sends |
| Ja4Index.SameOrder | modules/ngx_http_heavybag/src/heavybag_match.c:779-795 | loader and lookup compare keys alike, and both by dictionary order |
| Ja4Index.FamilyParseMeans | modules/ngx_http_heavybag/src/heavybag_match.c:744-773 | a token is a family if and only if it spells its name in any case |
| Ja4Forms.FamiliesAre | modules/ngx_http_heavybag/src/heavybag_match.c:744-773 | chromium, firefox, safari, tool and bot, in any case of their letters, and nothing else, name the five families |
| Ja4Forms.CaseIgnored | modules/ngx_http_heavybag/src/heavybag_match.c:744-773 | changing the case of letters changes no family |
| Ja4Forms.FamilyIsRestOfLine | modules/ngx_http_heavybag/src/heavybag_match.c:834-866 | a line with a blank after its family's name names no family |
| Ja4Forms.CompareMeans | modules/ngx_http_heavybag/src/heavybag_match.c:779-795 | keys are ordered as in a dictionary: by the first character that differs, a shorter beginning first |
| Ja4Forms.RowForms | modules/ngx_http_heavybag/src/heavybag_match.c:834-866 | a line of key, blanks and family gives that row, a line of a key alone none |
| Ja4Index.LoadTable | modules/ngx_http_heavybag/src/heavybag_match.c:809-881 | the table is a sorted rearrangement of the file's well-formed rows |
| Ja4Index.Lookup | modules/ngx_http_heavybag/src/heavybag_ua_parse.c:598-634 | the loop is the binary search on any table; on a sorted one it returns the family of an entry with the key, UNKNOWN if there is none |
| Ja4Index.PossibleAnswersIff | modules/ngx_http_heavybag/src/heavybag_ua_parse.c:598-634 | over all sorted orders of the file's rows, the search returns exactly the families the file lists for the key, and UNKNOWN where it lists none |
| Ja4Index.SearchIsScanIff | modules/ngx_http_heavybag/src/heavybag_ua_parse.c:598-634 | the search answers like a linear scan of the file on every sorted order of its rows if and only if the file gives the key one family |
| Ja4Index.UnknownIff | modules/ngx_http_heavybag/src/heavybag_ua_parse.c:598-634 | UNKNOWN is possible if and only if the file does not list the key or lists it with no recognised family at least once, and certain if and only if it never lists it with a recognised one |
| Ja4Index.Classify | modules/ngx_http_heavybag/src/heavybag_ua_parse.c:764-774 | from file text to answer: a family the file lists for the key, UNKNOWN if none, and the linear scan's answer whenever the file gives the key one family |
| Lists.RawLinesUnique | modules/ngx_http_heavybag/src/heavybag_match.c:450-493 | splitting on LF is the one list of LF-free strings that joins back to the text |
| Lists.NextLine | modules/ngx_http_heavybag/src/heavybag_match.c:450-493 | the pointer walk yields the first significant line and stops where the rest of them begin |
| Lists.ReadLines | modules/ngx_http_heavybag/src/heavybag_match.c:705-727 | repeated calls yield exactly the lines of split, drop one CR, trim, drop blanks and comments, in order |
| ListForms.LineForms | modules/ngx_http_heavybag/src/heavybag_match.c:450-493 | a line ends in LF or CR LF, blanks around it do not count, and a comment says nothing |
| Lists.SplitRule | modules/ngx_http_heavybag/src/heavybag_match.c:585-608 | the pointer walk within a line cuts it as declared: pattern to the first blank, action trimmed up to a comment |
| Lists.ScannerParse | modules/ngx_http_heavybag/src/heavybag_match.c:579-646 | every pattern in its action's bucket in file order, or the first unknown action as the error, and an error exactly when there is one |
| ListForms.ActionsAre | modules/ngx_http_heavybag/src/heavybag_match.c:610-636 | no action or 404, 403 and 444 name the three buckets, anything else is an error |
| ListForms.PatternAlone | modules/ngx_http_heavybag/src/heavybag_match.c:585-608 | a pattern alone, or with a comment after it, has no action |
| ListForms.PatternWithAction | modules/ngx_http_heavybag/src/heavybag_match.c:585-608 | a pattern and an action are read without the blanks around the action and the comment after it |
| ListForms.BucketConcat | modules/ngx_http_heavybag/src/heavybag_match.c:638-646 | the buckets of two lists in a row are theirs in a row |
| Lists.BucketsPartition | modules/ngx_http_heavybag/src/heavybag_match.c:638-646 | the bucket sizes add up to the number of rules |
| Lists.PatternsAreCanonical | modules/ngx_http_heavybag/src/heavybag_match.c:579-646 | no file can produce a pattern with a blank, a line break or a leading # |
| Lists.RoundTripIff | modules/ngx_http_heavybag/src/heavybag_match.c:579-646 | printing rules and reading them back gives the same rules if and only if every pattern is canonical |
| Lists.ReprintKeepsBuckets | modules/ngx_http_heavybag/src/heavybag_match.c:579-646 | rewriting any list that loads into canonical form changes no bucket |
| Lists.CompileBucket | modules/ngx_http_heavybag/src/heavybag_match.c:500-530 | the buffer sized in the first loop is filled exactly by the second, and no patterns give no regex |
| ListForms.AlternationConcat | modules/ngx_http_heavybag/src/heavybag_match.c:500-530 | the alternation of two lists is theirs with a bar between them |

## Modelling choices

* Counters and slot numbers are unbounded; statistics counters do not wrap. Keys are 64-bit in the runs
  on the table, unbounded elsewhere.
* The 32-bit stamp, its wrap, the 64-bit product and the packed word are written out where the code
  computes with them.
* Rate runs use one clock that never runs back. `TableRefinesMap` needs it below 2^32 ms; the step
  machines and `RateFairness` do not.
* Reputation, user-agent classification, signature and regex matching, spoof detection and the hash are
  inputs: a `Verdict`, the fields of a `Hop`, a function parameter. `ngx_qsort` and `qsort` are stood
  for by an insertion sort, and what is proved uses only that the result is a sorted rearrangement.
* List files are strings; a `char` is a byte, and nothing proved depends on it being below 256.
* In `Accounting` the answer of the rate stage is free, so its results hold for every behaviour of the
  rate table, fail-open included.

## Left out

- RateTable.RateZone.Probe: one worker alone, so the re-read after a lost claim is not in it; `RateClaims` has it under interleaving.
- RateTable.RateZone.Check: is the uncontended call; `RateSolo` has the concurrent one.
- RateSolo.CallIsTableStep: is one call; a run of such calls is a run of the table step by step, not stated.
- CountryTable.CountryTable.Bump: one worker alone, so the re-read after a lost claim is not in it; `CountrySteps` has it under interleaving.
- RateClients.ClientBound: is for runs without evictions; `SessionBound` is for those with them. Both count the CASes that allow a call, under one rule; calls that fail open, after 16 lost CASes or in a full window, come on top.
- RateSessions.SessionBound: is an upper bound; that a run attains it is not shown.
- RateErase.CanEraseIff: takes an eviction that is the run's first and a clock that stands still until the store; as time passes more tokens are earned.
- RateSteps.RateBound: assumes one rule, one slot that is not evicted, and one shared clock; nginx workers cache their own clock, and a sample that runs back refills to the burst.
- RateWrap.RefinesMapIff: speaks of runs that count no overflow, an overflowing window fails open by design; its keys are arbitrary non-zero 64-bit numbers, not shown to be the hash of some address.
- Accounting.SnapshotBounds: stops where the per-country part begins, which `CountrySnapshot` covers; the per-vhost rows are not copied by the snapshot at all.
- DetectEnforce.DetectPredictsEnforce: covers requests that are not internal-redirect passes; a block page served through a redirect adds passes to one run only.
- NanoLibloc.PortAndReference: covers the IPv4 reference walk; the reference's generic walk is the port's loop with the other bound test.
- RateKey.RateKey: says nothing about two clients whose hashes collide; a key is the 64-bit hash, so the comment at heavybag_rate.c:11-14 that collisions cannot share a bucket is not modelled.
- Counter wrap-around, and counter values across a reload that resets the segment.
- The slab and zone set-up: rate_init_zone's back-off, rate_hdr_valid, stat_init_zone; `nslots >= 64` is taken from them.
- Reputation precedence, CIDR matching, X-Forwarded-For resolution, the User-Agent substring chains, the spoof table.
- PCRE2 compilation and execution beyond the text handed to it, OpenSSL digests and getters, geo file opening and signature verification.
- The rendering of the status page other than label escaping, the directive tables, logging, response headers, the mode in which a location is off.
- The trusted-caller checks of the mail handler and the timing of its secret comparison.
