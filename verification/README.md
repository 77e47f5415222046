# Verification of the portfolio kernel

A Dafny model of the parts of `sentio-portfolio` where a wrong answer would be silent: reading entity
streams from a deployed index, the presence proof that may stand in for those reads, the concurrency
around both, the cached discovery of NAVI markets, the walks over on-chain linked lists, and the integer
arithmetic behind position values. `dafny verify dfyconfig.toml` checks everything.

How the pieces fit together:

- `IndexCheckpoint`, `IndexWhere`, `IndexPages`, `IndexLoop`, `IndexRead` model one index read, and `ClauseReader`
  reads its clauses back. The index is
  an immutable time-travel store. A server is any function of the requests sent so far, so nothing is
  assumed of it unless a contract says `Honest`. The reference answer (`IndexLoop.Reference`) knows
  nothing of pages or proofs; `IndexLoop.Pages` and `IndexRead.Read` are proved to return it.
- `StatusRefresh`, `ScanMemo`, `ScanProgress`, `ScanPages`, `Dispatch` and `ProbeLifetimes` model the concurrency as interleaved atomic steps
  and prove invariants over every run. Classes hold the state each mutex guards; their methods are tied to
  the steps.
- `NaviDiscovery` and `LinkedLists` model the two kinds of walk over data the kernel does not control.
- `Clmm`, `Morpho`, `Maker`, `NaviMath`, `Pendle`, over `Ray` and `Rounding`, model unbounded-integer
  arithmetic. Go's `big.Int` `Div` is Euclidean and `Quo` truncates; both agree with Dafny's `/` here,
  because every dividend they are applied to is non-negative and every divisor positive.

Results worth knowing before reading the proofs:

- A row whose id is exactly the stream's prefix is never paged, because the first cursor already asks for
  ids greater than the prefix. `PagedLeavesOutThePrefix` says a read is complete exactly when no such row
  exists, and `PrefixRowIsLost` shows one being lost. The comment on the presence proof calls it exact: it
  is exact in the direction it is used (a proof implies empty pages); with such a row it merely declines.
- A presence proof answers a read without checking that its streams are well declared. It agrees with the
  pages exactly when they are (the last clause of `Read`).
- The wallet's deployments left unread by a stopped scan are never reported done, so a wallet whose probes
  were prefetched would keep them until the scan's own context ends. `CancelledExactlyOnce` gives the exact
  condition and `UnreadWalletCancelsNothing` a run. The shipped wallet adapter prefetches nothing.
- In `discoverNaviMarkets` the final length check can never fail after a finished walk, since the creation
  counts telescope; only a repeated id can (`InventoryIsComplete`). In the linked-list walks a cycle is
  refused early, but a zero-terminated list cannot contain one anyway (`ListIsSimple`).
- Maker's rounded power is enclosed between the exact powers of the two neighbouring bases
  (`RayPowerEnclosed`), besides meeting Bernoulli's bound.

## Model

| member | source | states |
|---|---|---|
| IndexCheckpoint.QueryBlockAtPin | sentio_checkpoint.go:40-71 | a read never asks past its pin nor of a backfilling processor, asks at a fixed pin itself, and takes its status from the first or the forced read |
| IndexCheckpoint.QueryBlockExact | sentio_checkpoint.go:40-71 | the forced reading decides exactly when the first names the chain short of a fixed pin, else the first does; a read has a block exactly when the deciding reading accepts the pin, and takes both from it |
| IndexCheckpoint.CertifiedWithoutNote | sentio_checkpoint.go:78-100 | a checkpoint passes without a note exactly when it is not ahead of the pin, at most a minute in its future and within the lag of its kind of pin; a fixed pin never gets a note |
| IndexCheckpoint.LagIsNoted | sentio_checkpoint.go:78-100 | the exact refusals; at a live pin an old checkpoint is never refused but, past an hour, noted with its lag |
| IndexWhere.CursorOnlyExtends | sentio_index.go:482-497 | the page's clause is the probe's clause with the cursor appended, so both select the same rows |
| IndexWhere.RenderIsClosed | sentio_index.go:485-516 | whatever characters its values hold, a rendered clause closes its quotes and keeps every closing brace inside them |
| ClauseReader.ClauseReadsBack | sentio_index.go:485-516 | a reader of string, number and list literals reads back from a clause exactly its terms, its prefix and its cursor, whatever characters they hold |
| ClauseReader.DifferentClausesDiffer | sentio_index.go:482-497 | clauses that ask for different rows are different texts |
| IndexWhere.PresenceKeyIsInjective | sentio_presence.go:67-69 | equal memo keys mean the same index name, the same entities and clauses on every chain, and the same account |
| IndexPages.AdmitPage | sentio_index.go:377-414 | a page is admitted exactly when present, no longer than asked, in prefix, ascending, decoding and in bounds; the cursor then holds the old rows and these, in order |
| IndexPages.PagesAreFull | sentio_index.go:270-275 | a page asks for what is left of the bound and one row more, or a full page where that is less |
| IndexPages.ParsedExactly | sentio_index.go:438-462 | one row with both numbers reads as a written checkpoint, none as an unwritten one, anything else is refused |
| IndexPages.CertifiedExactly | sentio_index.go:349-374 | a first page is admitted, and noted, exactly by its checkpoint's block and second, or by the start block's while none is written |
| IndexPages.PagedLeavesOutThePrefix | sentio_index.go:309 | a read pages everything its clause selects exactly when no row's id is the prefix itself; otherwise it misses that one row and no other |
| IndexPages.PrefixRowIsLost | sentio_index.go:493-495 | a clause selecting one row named by its own prefix pages nothing |
| IndexPages.HonestPage | sentio_index.go:464-480 | what an honest server answers after the k-th row is exactly the rest of the stream |
| IndexPages.HonestPageAdmitted | sentio_index.go:377-414 | an honest page of a stream that fits its bound and decodes is never refused |
| IndexPages.HonestPageFollowed | sentio_index.go:390-412 | an admitted honest page leaves the cursor with exactly the first rows of the stream, and done only with all of them |
| IndexPages.AdmitRound | sentio_index.go:338-342 | a round succeeds exactly when every open cursor's page is admissible, and leaves closed cursors alone |
| IndexLoop.RoundKeepsPace | sentio_index.go:273-275 | after every round each open cursor has taken one full page more, so it closes or uses up its bound |
| IndexLoop.AdmitReply | sentio_index.go:322-337 | a page's checkpoint is admitted against the one the read is held to, or certified when it is the first |
| IndexLoop.HoldCheckpoint | sentio_index.go:330-337 | the first checkpoint is validated with its note, and a later one is refused unless it is the same |
| IndexLoop.AllRounds | sentio_index.go:312-343 | the loop ends against any server, and against an honest one only fails when the index cannot answer |
| IndexLoop.Pages | sentio_index.go:280-344 | against any server: a bounded number of requests, and a success has ascending in-prefix ids within each bound and one checkpoint shared by all pages; against an honest one: success exactly when the index can answer, with exactly the reference rows |
| IndexLoop.AnswerHoldsTheRows | sentio_index.go:377-414 | the answer holds, for every row a stream pages, its id and what the protocol's own parsing makes of it |
| IndexRead.TargetsAreWhatReadsAccept | sentio_presence.go:169-190 | the probe asks about exactly the pinned chains whose own read would accept the status, at the block that read would use |
| IndexRead.WhoMayBeProven | sentio_index.go:223-250 | a read may be proven empty exactly when its index probes and its streams all select one account's rows under prefixes on every chain |
| IndexRead.PinnedWhereRead | scan_scope.go:82-94 | a probe is given the pins of exactly the chains its account is read on |
| IndexRead.KeysTellReadsApart | sentio_presence.go:67-69 | reads of one index that share a memo key ask the same fields the same way for one account |
| IndexRead.DecidedByReply | sentio_checkpoint.go:40-71 | a read goes ahead exactly when the deciding status reply serves its chain, not failed, not backfilling and past a fixed pin |
| IndexRead.PresenceIsSound | sentio_presence.go:149-161 | every proof a probe of an honest server yields is a fact about the index at the proof's block |
| IndexRead.PresenceIsExact | sentio_presence.go:149-161 | with a full honest reply, a probe of at least three targets proves exactly the targets at whose block the index selects nothing under a certifying checkpoint |
| IndexRead.EmptyReadIsProven | sentio_presence.go:87-106 | a first probe with a full honest reply answers the read of a targeted chain exactly when the index holds nothing for it there |
| IndexRead.ChainEmptyIsSound | sentio_presence.go:245-273 | one chain's verdict needs a written, certifying checkpoint and no row in any field |
| IndexRead.ProofAgreesWithPages | sentio_presence.go:34-37 | at a proof's block the paged read succeeds exactly for well declared streams, with no rows, the proof's checkpoint and no note |
| IndexRead.RememberedVerdictHolds | sentio_index.go:223-250 | a verdict kept under its key holds for every read of its deployment that can find it there |
| IndexRead.OtherDeploymentUnmoved | sentio_presence.go:67-69 | a verdict kept for one deployment is never found by a differently named one |
| IndexRead.ScanReadsOnlyProofs | sentio_presence.go:87-144 | one memo shared by several deployments, probed in any order, holds for every read of every deployment only proofs about that deployment's own index |
| IndexRead.ProbesAreRemembered | scan_scope.go:184-204 | what a probe learned stays under its key for the rest of the scan |
| IndexRead.ChainProvenEmpty | sentio_presence.go:87-106 | the first call keeps the probe's verdict and later ones find it; a proof is handed back exactly when the kept verdict has one that suits the pin, and it then holds for the caller's own streams and pin |
| IndexRead.PrefetchPresence | sentio_presence.go:113-144 | with enough pinned chains the verdict is stored as the read would store it, otherwise nothing changes; the memo stays sound and no verdict is replaced |
| IndexRead.ReadByProof | sentio_index.go:164-192 | a read that may be proven empty is answered exactly by the proof kept for it, which in an honest world is the paging reference at the proof's block, within an hour of a live pin |
| IndexRead.Read | sentio_index.go:164-192 | an inadmissible status reply refuses the read; a proof answers exactly when one is kept for it; otherwise pages answer, at the block the reply gives, soundly against any server; in an honest world every answer is the reference at its block, success is being admitted and either proven or answerable, and at a fixed pin the proof makes no difference |
| IndexRead.Lookup | sentio_index.go:196-202 | against any server a dependent lookup succeeds only with sound pages that all carry the read's own checkpoint, at its block; against an honest one exactly when the index can answer so |
| StatusRefresh.StepKeepsInv | sentio.go:383-467 | every step keeps: one read in flight, the newest; cache entries only from landed successes; each caller's freshness bookkeeping |
| StatusRefresh.AnswersComeFromFinishedReads | sentio.go:383-467 | in every run at most one read is in flight, failures are never cached, and fields are read only after they are published |
| StatusRefresh.AnswersAreWhatTheNodeReplied | sentio.go:446-465 | in every run a caller that waited a read out is answered with exactly the outcome it landed with, and one answered from the cache with a successful landing's statuses |
| StatusRefresh.LookingUp | sentio.go:402-414 | from a success until the next, an unforced caller within the time to live is answered at once with what landed; any other waits on the read in flight or begins one |
| StatusRefresh.EmptyUntilASuccess | sentio.go:402-414 | before any success the cache is empty and every caller waits |
| StatusRefresh.ForcedCallersAreFresh | sentio.go:393-428 | in every run a forced caller is answered only by a read begun after its call, never one already in flight, after at most two waits, whoever else leaves |
| StatusRefresh.KnownAtTheCall | sentio.go:393-396 | what tells earlier reads from later ones is fixed by the call: the number of reads begun before it |
| StatusRefresh.CachedAnswersAreYoung | sentio.go:402-406 | a cached answer is given only to an unforced caller, from a read that landed less than the time to live ago |
| StatusRefresh.WaitersCanWake | sentio.go:446-465 | a waiter's read can always finish by its own steps and wake it |
| StatusRefresh.CallersCanBeAnswered | sentio.go:396-428 | from any reachable state every caller still there can be answered by its own steps and its reads' |
| StatusRefresh.LeaversStayGone | sentio.go:415-419 | a caller whose context ends is gone for good |
| StatusRefresh.StatusClient.Consult | sentio.go:402-414 | the critical section at the top of a caller's loop is the model's step |
| StatusRefresh.StatusClient.Land | sentio.go:454-462 | the critical section that ends a read is the model's step |
| ScanMemo.ComputedAtMostOnce | scan_scope.go:190-221 | from any reachable state a key is computed at most once more, and never again once it has a value |
| ScanMemo.OneValuePerKey | scan_scope.go:184-238 | in every interleaving of `once` and `start` a key's computation runs at most once, every value returned is that one, and only a waiter that left or a background start that found the key taken returns without it |
| ScanMemo.ReturnedIsComputed | scan_scope.go:206-238 | whoever returns a value returns what the owner of its key computed in that run, and nothing else was computed for that key |
| ScanMemo.CallersAreTheCalls | scan_scope.go:206-238 | a run's callers are its calls, in order, each for its own key and in its own way |
| ScanMemo.ArrivalsCanReturn | scan_scope.go:190-238 | every caller can be brought its value by its own steps and its key's owner's; only a background one that finds its key taken goes at once |
| ScanMemo.WaitersHaveAnOwner | scan_scope.go:188-221 | whoever waits on an open entry has an owner still at work on it |
| ScanMemo.Memo.ClaimKey | scan_scope.go:190-200 | the first claim of a key owns it and later claims change nothing |
| ScanProgress.StepKeepsInv | sentio_lane.go:35-57 | every step keeps the lane and slot counts equal to their holders, and every open memo entry owned by exactly one process |
| ScanProgress.NextStep | sentio_presence.go:83-86 | following the wait order memo, slot, status or lane, from any waiting process, ends at a step that is enabled |
| ScanProgress.AnswerOf | sentio.go:219-231 | a process inside a round trip waits for nothing |
| ScanProgress.StepLightens | sentio.go:219-251 | every step, retries and restarts included, strictly lowers one measure |
| ScanProgress.RunsEnd | sentio.go:219-251 | no run is longer than the measure of its first state |
| ScanProgress.ScansNeverDeadlock | sentio_presence.go:83-144 | for every capacity of at least one, every run either has finished everything, with all slots returned and entries closed, or can go on without a cancellation |
| ScanPages.EveryPageIsRead | sentio_index.go:312-343 | in every interleaving a read ends, unless proven empty, cancelled or refused, exactly when each of its pages has been answered once |
| ScanPages.ReadsAskTheMemo | sentio_index.go:164-185 | a read asks the memo exactly when it may be proven empty, and an owner probes unless too few chains are left |
| ScanPages.RequestsAreBounded | sentio.go:219-251 | in every interleaving a read sends at most its attempts for its probe and for each page, and a background probe its attempts in all |
| ScanPages.RetryCostsOne | sentio.go:219-251 | a reply worth repeating costs one attempt and can be repeated while another is left |
| ScanPages.NobodyWakesEarly | sentio_lane.go:35-57 | whoever waits on an open entry, a read in flight, a full lane or full slots stays there whatever others do |
| ScanPages.ProbesAskUnlessFew | sentio_presence.go:149-161 | a background probe with its status asks, unless too few chains are left |
| ScanPages.EveryProbeIsAnswered | sentio_presence.go:113-144 | a background probe that nothing ended early closes its entry after exactly one answer |
| ScanProgress.IndexerLane.constructor | sentio_lane.go:28-33 | a lane starts empty with the asked capacity, or four |
| ScanProgress.IndexerLane.TryAcquire | sentio_lane.go:35-43 | a slot is taken exactly when the model's step of taking one is enabled, and the lane then is as after that step |
| ScanProgress.LaneHold.Release | sentio_lane.go:117-129 | the first release is the lane's part of the step that ends a round trip, and a second changes nothing |
| Dispatch.StepKeepsInv | engine.go:557-615 | every step keeps each deployment's status, its reach count, its protocol's lifetime count and the log of reports in agreement |
| Dispatch.EveryDeploymentAccounted | engine.go:746-782 | wherever collection stops, each deployment is read exactly once or never reached, and exactly the unreached active ones are named incomplete, once each |
| Dispatch.UnstoppedReadsEverything | engine.go:531-615 | a scan that is never stopped reads every deployment active at its pin and names none incomplete |
| Dispatch.WalletUnreadAfterAStop | engine.go:720-732 | the wallet is left unread exactly when a stop came before discovery's answer |
| Dispatch.NotReadExact | engine.go:768-782 | the incomplete report lists, without repetition, exactly the unreached deployments active at their pin |
| Dispatch.NeverCancelledEarly | engine.go:273-276 | at every moment a protocol's probes have been cancelled at most once, and exactly when all its deployments are finished, skipped or written off |
| Dispatch.CancelledExactlyOnce | engine.go:300-314 | at the end every tracked protocol reported each deployment once and was cancelled once, except exactly a wallet left unread |
| Dispatch.UnreadWalletCancelsNothing | engine.go:720-723 | a scan stopped during wallet discovery ends with a tracked wallet never cancelled |
| Dispatch.DispatchNeverSticks | engine.go:735-765 | a scan whose collection has not ended has a step to take, and never runs more deployments on workers than there are workers |
| ProbeLifetimes.OneMoreReport | engine.go:300-314 | after any reports each tracked protocol lacks as many as were not made, and was cancelled once exactly when it lacks none |
| ProbeLifetimes.PresenceLifetimes.constructor | engine.go:285-298 | a protocol with no deployment has its probes ended at once |
| ProbeLifetimes.PresenceLifetimes.ReportDone | engine.go:301-314 | one more report counts its protocol down, and the last one due cancels its probes |
| NaviDiscovery.ReadCreatedRoots | navi_discovery.go:53-72 | against a node that answers from one state, exactly the ids of created shared changes, of the storage type or none stated, that are shared storages now |
| NaviDiscovery.Descend | navi_discovery.go:114-150 | a hop back strictly lowers the counter and yields exactly the difference in created roots |
| NaviDiscovery.WalkTelescopes | navi_discovery.go:105-153 | a finished walk has exactly one root per market |
| NaviDiscovery.InventoryIsComplete | navi_discovery.go:154-157 | an inventory has `last_market_id + 1` ids, strictly ascending, the main storage among them; after a finished walk only a repeated id refuses it |
| NaviDiscovery.MarketsAre | navi_discovery.go:105-153 | the markets of a lineage are the main storage and every storage its recorded transactions made |
| NaviDiscovery.DiscoveryIsLineage | navi_discovery.go:74-160 | discovery succeeds exactly on the head of linked versions, each replaced by a transaction that made as many storages as the counter grew by, with no market repeated, and then returns exactly those storages and the main one |
| NaviDiscovery.CachedWalkAgrees | navi_discovery.go:105-109 | splicing a sound cache gives the roots of the full walk, or its failure |
| NaviDiscovery.DiscoverAgrees | navi_discovery.go:74-160 | a cached discovery answers exactly what an uncached one would, failures included, and leaves the cache sound |
| NaviDiscovery.WarmHeadReadsNothing | navi_discovery.go:104-112 | discovering the head just remembered walks nothing |
| NaviDiscovery.ForeignCacheIsIgnored | navi_discovery.go:104-108 | a cache keyed by no version and digest of the ledger changes nothing of the walk |
| NaviDiscovery.DiscoveriesAgree | navi_discovery.go:10-18 | so does every discovery of any sequence, older heads included |
| NaviDiscovery.RootCache.DiscoverMarkets | navi_discovery.go:96-160 | the loop over the cache's fields returns the uncached inventory and stores it; a failure leaves the fields alone |
| LinkedLists.ListIsSimple | makerdao.go:220-222 | a zero-terminated list cannot revisit a node |
| LinkedLists.OwnerCDPs | makerdao.go:209-237 | the vault walk succeeds exactly on a zero-terminated list of the declared, bounded length, and returns its distinct nodes in order |
| LinkedLists.WalkRegistry | accounts.go:67-130 | the account walk succeeds exactly when the registry declares a list with matching back edges, tail and distinct set addresses |
| LinkedLists.ResolveAccountScope | accounts.go:28-131 | the scope is the wallet alone where nothing is deployed or listed, and otherwise the wallet and every listed account in order |
| LinkedLists.ScopeHasNoDuplicates | accounts.go:67-71 | a resolved scope starts with the wallet and repeats no address |
| Clmm.AmountsAreFloors | sui_clmm_math.go:15-30 | the amounts are the floors of the exact withdrawals at real square-root prices |
| Clmm.ClampIsNearest | sui_clmm_math.go:18-24 | the clamped price is the one in the range nearest to the given one |
| Clmm.RangeSplit | sui_clmm_math.go:17-30 | splitting a range at any tick never creates value and costs each token at most one unit |
| Clmm.LiquiditySuperadditive | sui_clmm_math.go:17-30 | merging liquidity over one range gains at most one unit per token and never loses |
| Clmm.AmountsFollowPrice | sui_clmm_math.go:18-24 | through both clamps a higher price never holds more of token A nor less of token B |
| Clmm.InsideIsDifference | sui_clmm_math.go:36-45 | inside growth is the difference of the growth below the two ticks, modulo 2^128 |
| Clmm.InsideTelescopes | sui_clmm_math.go:32-45 | inside growth adds up over adjacent ranges modulo 2^128, wherever the current tick is |
| Clmm.InsideAfter | sui_clmm_math.go:36-45 | an accrual moves inside growth by itself when the tick is in range, and a crossing that flips outside counters by nothing |
| Clmm.InsideTracksEarned | sui_clmm_math.go:36-45 | over every history inside growth advances by what the range really earned, modulo 2^128 |
| Clmm.OwedIsEarned | sui_clmm_math.go:47-54 | however often counters wrapped, the amount owed is the stored amount plus the floored share of the growth earned while that is below 2^128, and it fails exactly outside u64 |
| Morpho.MulDivUp | morpho_math.go:37-44 | the rounded-up quotient is the least whose product covers the exact one |
| Morpho.ExpectedMarketBalances | morpho_math.go:68-103 | the step-by-step update is the accrual and the fee shares the lemmas are about, for every fee the supply can pay |
| Morpho.AccrualConserves | morpho_math.go:91-101 | accrual adds the interest to both asset totals, whatever the fee, adds the fee shares to the supply, and changes nothing else |
| Morpho.AccrualNeverDilutes | morpho_math.go:94-101 | with a fee of at most one WAD the price of a supply share never falls |
| Morpho.HoldersNeverLose | morpho_math.go:94-101 | no holder's floored amount falls when interest accrues |
| Morpho.FeeShareBounds | morpho_math.go:95-99 | the fee mints the most shares it can pay for at the price without it |
| Morpho.FeeIsProportional | morpho_math.go:94-95 | the fee is its exact part of the interest, rounded down |
| Morpho.FeeSharesWorthTheFee | morpho_math.go:95-100 | the minted shares are worth at most the fee after minting |
| Morpho.InterestMonotone | morpho_math.go:86-91 | more time or a higher rate never accrues less |
| Morpho.TaylorError | morpho_math.go:86-90 | the floored three-term sum is never above the exact one and less than 2 + x/(3 WAD) below it |
| Morpho.InterestAgainstExact | morpho_math.go:86-93 | interest never exceeds the exact third-order compounding and falls short only by the Taylor error and one unit |
| Morpho.EffectiveSum | morpho_math.go:52-63 | pending fee shares are credited once, and only to a set recipient among the holders |
| Morpho.SupplyAmountIsProportional | morpho_math.go:46-50 | a supply claim is its exact part of the virtual supply, rounded down |
| Morpho.SupplyClaimsCovered | lista.go:378-389 | holders within the stored shares stay within the expected shares, and their floored amounts within the supplied assets |
| Morpho.DebtsCover | lista.go:401-404 | rounded-up debts cover the holders' exact fraction by less than one unit each |
| Maker.ComputeRayPower | makerdao.go:113-134 | the loop computes the power the lemmas are about |
| Maker.RayPowerBernoulli | makerdao.go:113-134 | rpow(RAY + r, n) is at least RAY + n r |
| Maker.RayPowerMonotone | makerdao.go:113-134 | rpow is monotone in its base, zero included |
| Maker.RayPowerOne | makerdao.go:113-134 | a zero rate never moves |
| Maker.RayPowerAtTheEnds | makerdao.go:113-134 | the zeroth power of any base is one ray, the first is the base, and no other power of zero is anything |
| Maker.RayPowerEnclosed | makerdao.go:113-134 | for a base of at least RAY, rpow lies strictly between the exact powers of the bases one unit below and above |
| Maker.ChiAtLeastSimpleInterest | makerdao.go:136-142 | accrued chi is at least chi plus floored simple interest on it |
| Maker.ChiEnclosed | makerdao.go:136-142 | chi is refused only before its own time, unmoved at it, and after n seconds strictly between n exact compoundings at the two neighbouring rates |
| Ray.MulBounds | navi_math.go:16-20 | the half-up product is within half a unit of the exact one |
| NaviMath.BorrowInterestIsBinomial | navi_math.go:32-46 | the divisions by two and six are exact, so the factor is the third-order binomial over the half-up ray powers |
| NaviMath.SupplyInterestIsLinear | navi_math.go:28-31 | whole years earn exactly that many times the rate |
| NaviMath.SupplyInterestIsFloored | navi_math.go:28-31 | for any number of seconds supply interest is the exact simple interest rounded down |
| NaviMath.IndexIsScaled | navi_math.go:22-48 | the borrow index is the stored one times the binomial factor and the supply index times the simple one, each to the nearest unit, and refused exactly for invalid inputs |
| NaviMath.IndexMonotone | navi_math.go:22-48 | both indices never fall below the stored one, grow with time and rate, and are unmoved within the first second |
| Pendle.FactorMatchesOracle | pendle.go:62-87 | on either branch of the oracle's index the factor is the capped redeemable part, refused exactly for a non-positive index or a part below one unit |
| Pendle.PrincipalAndYield | pendle.go:91-94 | a discounted PT and its YT are each their exact solvent part rounded down; together they never exceed the factor and fall short by at most one unit |
| Pendle.YieldIsTheRest | pendle.go:150-159 | a YT has a value exactly when its PT is worth less than one, and the two make one |
| Pendle.ReserveShareIsProportional | pendle.go:1474-1476 | a holder is credited its exact part of the reserve, rounded down |
| Pendle.ReserveSharesFit | pendle.go:1474-1476 | holders' shares never sum above the reserve, and holders of all LP miss at most one unit each |
| Pendle.MarketImpliedRates | pendle.go:909-940 | each PT gets the rate of its deepest usable market, ties to the lowest address, and only PTs with a usable market get one |
| Pendle.BestIsUnique | pendle.go:929-936 | a PT has at most one best market |
| Pendle.OrderIrrelevant | pendle.go:889-941 | the fold's answer depends on which candidates there are, never on their order |

## Left out

- IndexRead.Read: one read at a time over a memo given as a value; that concurrent reads share one verdict per key is `ScanMemo`'s subject, and a read outside a scan, which has no memo, is not modelled.
- IndexPages.AdmitPage: a malformed entity list and an omitted one are both an absent entry, and JSON decoding of a row is the stream's `decode`; that a row type names its JSON fields is a static fact left out.
- IndexRead.ChainEmptyIsSound: a malformed checkpoint list counts as absent, as both refuse the proof.
- StatusRefresh.StepKeepsInv: one endpoint and version; entries of different keys share no state. What a status reply parses to is an arbitrary outcome, and the read's own timeout is one of its failures.
- ScanProgress.ScansNeverDeadlock: durations are not modelled, so a backoff or a round trip simply ends; SQL statements hold a lane slot and wait on nothing else, like a round trip, and are not separate processes.
- Dispatch.EveryDeploymentAccounted: what a deployment reads, and the errors and notes it adds, are left out; a dispatched deployment may still be sent once after collection stops, as the source's select allows.
- LinkedLists.OwnerCDPs: contract calls are functions of their argument at one pinned block, absent when the call fails or does not decode.
- NaviDiscovery.RootCache.DiscoverMarkets: runs under the cache's gate, so one at a time; choosing the inventory field among the dynamic fields, and the JSON and owner checks of a counter object, are one absent record, and the storage's id and type are stand-in names.
- NaviDiscovery.Descend: node answers are functions of the ledger, so a transient failure is not modelled; it fails the discovery without touching the cache, as any failure does.
- Clmm.InsideTracksEarned: how the pool contract flips outside counters is the usual rule for concentrated liquidity; the pool contract is not part of this model.
- Clmm.OwedIsEarned: tick and liquidity parsing, field ids and reward emission are not modelled.
- Morpho.ExpectedMarketBalances: excludes a fee above the whole supply with its interest, for which the code divides by zero or by a negative number; no fee up to one WAD, the most the contract stores, comes near it.
- Pendle.PrincipalAndYield: the PT ratio is any value below one; the exponential that produces it is floating point.
- NAVI token decimals, Maker debt and collateral conversions, and SY-to-asset conversion are single divisions and add nothing.
- Unsigned 64-bit overflow of absurd block numbers and timestamps is not modelled; numbers are unbounded.
- Protocol adapters' position reads, ABI decoding, HTTP, JSON and GraphQL transport, retries' timing, pricing, valuation, observers and SQL are input or output and are left out.
