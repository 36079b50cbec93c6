# Exchange, future slots and SorTES tank: a Dafny model

This project models the trading core of the gsy-e energy exchange and proves what it is meant to keep, over
every input and every run. It covers five parts of the system.

- **The order book and settlement engine.** A market holds open offers and bids in insertion-ordered dictionaries
  (`Books.dfy`). `MarketState.dfy` says what each operation returns and leaves behind, also when it raises;
  `TwoSidedMarket.dfy` is the market as an object that goes through the dictionaries step by step, proved against it;
  it also logs what it does to them, which is proved to be what `DictOps.dfy` lists. `Acceptance.dfy`,
  `Settlement.dfy`, `ExternalMatching.dfy`, `MatchingEngine.dfy`, `Skipping.dfy`, `Conservation.dfy`,
  `BidConservation.dfy`, `Ledger.dfy` and `Splits.dfy` hold the results; `Postings.dfy`, `Prices.dfy`, `Validation.dfy`
  and `Clearing.dfy` say in the orders' own figures what is posted, taken and paid; `Runs.dfy` defines runs, `Mishaps.dfy` what
  a failing operation can leave wrong, and `FairMarkets.dfy` where that cannot happen.
- **A strategy's own records** of its offers (`StrategyOffers.dfy`, `OfferCoherence.dfy`, `OwnerMoves.dfy`,
  `OwnerRuns.dfy`, `OfferRates.dfy`) and bids
  (`StrategyBids.dfy`, `BidMoves.dfy`, `BidRates.dfy`), fed only by events, against the market.
- **Future and forward slots**: the dictionary with slot lists (`FutureOrders.dfy`), the loops that open and expire
  slots (`FutureMarkets.dfy`, in minutes `Calendars.dfy`), rotation (`MarketRotation.dfy`), trading replayed on slot lists (`FutureTrading.dfy`),
  whole runs (`FutureRuns.dfy`), their accounts (`FutureLedger.dfy`) and orders for slots that are not open
  (`EarlyOrders.dfy`).
- **The market buffers of an area** from cycle to cycle (`MarketBuffers.dfy`).
- **The SorTES tank**: purchase arithmetic, settlement and mode switching (`SorTes.dfy`, `TankPlans.dfy`, `SorTesRuns.dfy`).

Energies, prices, rates and temperatures are reals, times are integer minutes, and FLOATING_POINT_TOLERANCE is the
constant `TOL`. Fresh ids are numbers; an exception is an `Err` value together with the state it leaves. The two fee
classes are modelled in `Fees.dfy`, with a division by zero as the only failure. The matching algorithm is
an arbitrary function; only the skipping theorem asks for soundness, and for completeness as far as one wants it.
Power maps, tolerances and conversion factors are those of the source.

Where the code does something a reader of its documentation might not expect, the model follows the code:

- `accept_offer` is described as restoring the offer on any exception. If the fee class has no price for a partial
  acceptance, the offer is already split, and original and residual are both open afterwards; in a future market the
  slot lists go wrong as well.
- `accept_bid` loses the bid on every exception. A matched pair of exactly the tolerance half-completes.
- A one-sided percentage fee is charged on the whole original price for each part of an offer.
- `update_offer_rates` swallows a refused re-posting after having deleted the offer, which stays open in the records.
- A bid's price is checked before it is adapted: under percentage fees a bid of price zero is posted at its original
  price, unchecked. If that is negative, the first request for a part of the bid loses it.
- Energy sold by accepting a bid without an offer counts as sold energy of the market, but is in no record of the seller.
- A future market accepts orders for slots that are not open: a bid keeps its slot from ever being opened, an offer is
  lost from its slot list when the slot opens. It never forgets the parameters of removed slots.
- A posting that replaces the offers of a slot raises once one of them has been sold as a whole.
- Rotation drops trades of a future market, but not from its totals.
- The tank's settlement compares with less than the tolerance, while a bid of the tolerance is neither posted nor left
  open: a charging slot that misses exactly the tolerance fails an assertion. Outside -20 to 42.5 degrees the power
  maps extrapolate to negative powers, and assertions can fail with every bid filled; the table names the exact conditions.

## Model

| member | source | states |
|---|---|---|
| `TwoSided.TwoSidedMarket.Offer` | src/gsy_e/models/market/one_sided.py:122-174 | Posting in place, through the offer dictionary and the event, ends in the specified market, also when it raises: read-only market, energy below the tolerance, negative price after fees. |
| `TwoSided.TwoSidedMarket.Bid` | src/gsy_e/models/market/two_sided.py:138-199 | The same for bids, with their own rules: energy at the tolerance is already refused, the price is checked before fees, a read-only market still takes bids. |
| `TwoSided.TwoSidedMarket.DeleteOffer` | src/gsy_e/models/market/one_sided.py:182-201 | A found offer leaves the book and is announced; an unknown id or a read-only market changes nothing. |
| `TwoSided.TwoSidedMarket.DeleteBid` | src/gsy_e/models/market/two_sided.py:206-220 | A found bid leaves the book and is announced; an unknown id changes nothing. |
| `Postings.PostedOffer` | src/gsy_e/models/market/one_sided.py:122-174 | Which postings of offers are taken and which error the others get; the posted price is the given one plus the constant fee for its energy, or plus the percentage of what the device asks; energy, original price, trader, slot and id are as given. |
| `Postings.PostedBid` | src/gsy_e/models/market/two_sided.py:138-199 | The same for bids, posted at the given price, except that under percentage fees a price of zero becomes what the device asks. |
| `Postings.Deleted` | src/gsy_e/models/market/one_sided.py:182-201 | A deletion takes out exactly the order with the id; only offers of a read-only market are protected. |
| `TwoSided.TwoSidedMarket.SplitOffer` | src/gsy_e/models/market/one_sided.py:216-279 | Both pieces are posted, the accepted one under the old id, and announced; when the first posting raises, the original has left the book. |
| `TwoSided.TwoSidedMarket.SplitBid` | src/gsy_e/models/market/two_sided.py:222-279 | The same for a bid. |
| `TwoSided.TwoSidedMarket.AcceptOffer` | src/gsy_e/models/market/one_sided.py:305-415 | Pop, snap, split, price, restore on an exception, book and announce, step by step on the dictionaries, have exactly the specified net effect and result on every path, and the dictionary operations performed on the way are exactly the listed ones. |
| `TwoSided.TwoSidedMarket.AcceptBid` | src/gsy_e/models/market/two_sided.py:289-379 | The same for bids, where nothing is restored on any of the failing paths. |
| `TwoSided.TwoSidedMarket.AcceptBidOfferPair` | src/gsy_e/models/market/two_sided.py:381-409 | The offer leg runs first, and the bid leg on the market it leaves; a failing leg ends the pair with whatever the first leg did. |
| `TwoSided.TwoSidedMarket.MatchRecommendations` | src/gsy_e/models/market/two_sided.py:439-517 | The loop that pops its worklist and rewrites the rest ends, leaves the market and result of the recursive specification, and performs the listed dictionary operations in order. |
| `TwoSided.TwoSidedMarket.UpdateStatsAfterTrade` | src/gsy_e/models/market/__init__.py:239-261 | Trade list, fee, accumulated price and energy, both traders' energies and the invalidated average change together. |
| `Fees.FeesAreDefined` | src/gsy_e/models/market/grid_fees/base_model.py:47-70 | The percentage fee class has a price whenever the bid lost no more than its rate to fees and the offer is not forwarded at zero or below: conditions on the orders' rates alone. |
| `TwoSided.TwoSidedMarket.AvgTradePrice` | src/gsy_e/models/market/__init__.py:174-182 | A cached average is returned as it is, otherwise it is computed from the accumulators and cached. |
| `Ledger.AverageIsRounded` | src/gsy_e/models/market/__init__.py:174-182 | The average is a multiple of a ten-thousandth within half of one of accumulated price over accumulated energy. |
| `Runs.ValidAfterRun` | src/gsy_e/models/market/one_sided.py:122-415 | In every state any run of postings, deletions, acceptances, batches and matching ticks leads to, ids are distinct, offers carry at least the tolerance at a price that is not negative, bids carry more than the tolerance. |
| `Acceptance.OfferAcceptedIff` | src/gsy_e/models/market/one_sided.py:316-376 | accept_offer succeeds if and only if the market is writable, the offer is open, the energy is between the tolerance and the offer plus the tolerance, and the fee class has a price. |
| `Acceptance.FailedAcceptOfferIsAtomicIff` | src/gsy_e/models/market/one_sided.py:342-376 | When accept_offer raises, open offers, trades and accumulators are as before if and only if it was not a partial acceptance whose fee turned out undefined after the split; then the book has gained exactly the residual. |
| `Acceptance.ConstantFeesNeverStrand` | src/gsy_e/models/market/one_sided.py:281-302 | With constant fees that exception cannot happen, so accept_offer is all-or-nothing for every energy argument. |
| `Conservation.StrandingHappens` | src/gsy_e/models/market/one_sided.py:345-376 | A run of two actions, a posting at price zero and a request for half of it, after which a market of 1 kWh holds 1.5 kWh. |
| `Acceptance.BidAcceptedIff` | src/gsy_e/models/market/two_sided.py:300-379 | accept_bid succeeds under exactly the stated conditions; when it raises, an open bid is gone and the book has lost energy, while the ledger is untouched. |
| `Acceptance.PostedBidPriceIff` | src/gsy_e/models/market/two_sided.py:154-184 | A bid is posted if and only if its energy is above the tolerance and the price before fees is not negative; the price it then has is not negative exactly if it is not adapted, fees are constant, or the price is above zero or the original price absent or not negative. |
| `Acceptance.PartOfNegativeBidIsLost` | src/gsy_e/models/market/two_sided.py:222-322 | Of an open bid with a negative price no part can be taken: every partial request raises and loses the bid. |
| `Acceptance.PairCompletesIff` | src/gsy_e/models/market/two_sided.py:381-409 | A pair completes if and only if each leg would on its own; if only the offer leg does, one trade stays booked and the bid is lost. |
| `Acceptance.ValidatedPairCompletes` | src/gsy_e/models/market/two_sided.py:549-586 | A validated pair of more than the tolerance, with a price and a bid that is not negative, always completes, so accept_bid cannot fail there. |
| `Acceptance.TolerancePairHalfCompletes` | src/gsy_e/models/market/two_sided.py:506-512 | At exactly the tolerance every such pair of orders above three tolerances half-completes: the offer side accepts what the bid side refuses to split off. |
| `Acceptance.AcceptedOfferEffect` | src/gsy_e/models/market/one_sided.py:378-415 | Everything a successful accept_offer does: the book without the offer and with its residual, the trade's terms, the events in order. |
| `Acceptance.AcceptedBidEffect` | src/gsy_e/models/market/two_sided.py:339-379 | The same for accept_bid, including that only a chain trade is booked. |
| `Acceptance.LegsAgree` | src/gsy_e/models/market/two_sided.py:281-286 | Both legs of a pair have the same traders and the same price and fee per energy, and only the offer leg is booked. |
| `Prices.PricedIff` | src/gsy_e/models/market/grid_fees/base_model.py:47-70 | The fee class has a price exactly if fees are constant or the shares lost and gained do not cancel out; the price times the divisor is energy times trade rate times what the offer gained, the fee times the divisor is fee rate times trade rate times energy; with constant fees the price is the bid's rate and the fee the rate per energy. |
| `Prices.AcceptedOfferIsPriced` | src/gsy_e/models/market/one_sided.py:203-214 | What an accepted offer costs: without a trade info its energy at its own rate; with one, at its trade rate in a one-sided market and as the fee class prices it in a two-sided one; one-sided fees are the rate per energy or the percentage of the whole original price. |
| `Prices.AcceptedBidIsPriced` | src/gsy_e/models/market/two_sided.py:281-379 | What an accepted bid pays, in a match as in a chain trade, from the rates of the trade info alone. |
| `Prices.PricesOfPartsAddUp` | src/gsy_e/models/market/one_sided.py:305-415 | However many parts an offer is taken in without a trade info, one-sided or not, they cost what their energy is worth at its rate. |
| `Prices.RequestTakes` | src/gsy_e/models/market/one_sided.py:325-326 | A request takes the whole order exactly if none is specified or the difference is within 1e-8 or a billionth. |
| `Clearing.TradedPairIsSettled` | src/gsy_e/models/market/two_sided.py:477-517 | A recommendation that trades was within the bounds; both legs are of the selected energy and priced at the same rates, which come from the orders' prices, original prices and energies and the recommended rate: the bid's original rate under pay-as-bid, otherwise the recommended rate scaled back by what the bid lost to percentage fees or raised by what it lost to constant ones. |
| `Clearing.BidPaysItsRate` | src/gsy_e/models/market/two_sided.py:486-504 | Under pay-as-bid a bid that lost nothing on its way pays exactly its rate for the traded energy, whatever the offer gained. |
| `Acceptance.SnapIsSmall` | src/gsy_e/models/market/one_sided.py:325-326 | Snapping to the whole order moves the traded energy up by the tolerance at most. |
| `Settlement.FeasibleRecSettles` | src/gsy_e/models/market/two_sided.py:447-517 | A feasible recommendation trades: one trade per leg, of the selected energy up to the snap, and both books change by that order and its residual only. |
| `Settlement.RestIsFeasible` | src/gsy_e/models/market/two_sided.py:649-669 | After a step of a feasible batch the rewritten rest is feasible again. |
| `Settlement.FeasibleBatchTrades` | src/gsy_e/models/market/two_sided.py:439-517 | A feasible batch raises nothing, every recommendation yields exactly one offer and one bid trade between its traders of its energy, and the offer legs are what is booked, in order. |
| `Settlement.FeasibleBatchSettlesOrder` | src/gsy_e/models/market/two_sided.py:620-669 | Each order, under the id its successive residuals end up with, has its energy less what was selected from it; a remainder within the tolerance is dropped. |
| `Settlement.EveryOpenOrderIsAnHeir` | src/gsy_e/models/market/two_sided.py:439-517 | Nothing else is open after a feasible batch: each open order descends from one that was open before. |
| `Settlement.HeirsDiffer` | src/gsy_e/models/market/two_sided.py:439-517 | Different orders never end up as the same one. |
| `Settlement.PairRatesOfResiduals` | src/gsy_e/models/market/two_sided.py:577-586 | Replacing orders by residuals of theirs changes neither a rate check nor the rates a pair is settled at. |
| `Validation.OutsideIsRefused` | src/gsy_e/models/market/two_sided.py:477-485 | An entry whose selected energy is not positive or exceeds either order's, or whose rate is above the bid's or below the offer's by more than the tolerance, is passed over, or raises with an external algorithm; the market stays as it is. |
| `Validation.OwnPairIsPassedOver` | src/gsy_e/models/market/two_sided.py:473-475 | An entry for two orders of the same trader is passed over. |
| `Validation.UnknownIsRefused` | src/gsy_e/models/market/two_sided.py:448-470 | An entry for an id that is not open and whose origin has no open order raises, and the market stays as it is. |
| `Validation.OriginStandsIn` | src/gsy_e/models/market/two_sided.py:447-460 | An offer id that is not open stands for the first open offer of the origin. |
| `Validation.OriginStandsInForBids` | src/gsy_e/models/market/two_sided.py:462-470 | The same for bids. |
| `Validation.TradesAreWithinBounds` | src/gsy_e/models/market/two_sided.py:549-586 | However a batch ends, every trade it announces was recommended within these bounds, of the bid and of the offer as they were open before, between different traders. |
| `ExternalMatching.BatchAgreesWithOneByOne` | src/gsy_e/models/matching_engine_matcher/matching_engine_external_matcher.py:163-181 | When every open order has an origin of its own, a batch that raises nothing and the same recommendations run one at a time, found again by origin instead of being rewritten, leave the identical market, ids included, and the statuses are the outcomes of the batch entry by entry. |
| `ExternalMatching.FeasibleBatchOneByOne` | src/gsy_e/models/matching_engine_matcher/matching_engine_external_matcher.py:163-181 | In particular for every feasible batch, where the one-by-one run does not abort and reports success for every recommendation. |
| `ExternalMatching.MatchOneByOne` | src/gsy_e/models/matching_engine_matcher/matching_engine_external_matcher.py:163-184 | The loop over single recommendations, with its caught exceptions and statuses, computes the specified market and report. |
| `ExternalMatching.RefusalGoesOn` | src/gsy_e/models/matching_engine_matcher/matching_engine_external_matcher.py:163-181 | An entry that is refused or passed over is reported as failed, and the others are matched as if it were not there. |
| `ExternalMatching.OtherErrorsAbort` | src/gsy_e/models/matching_engine_matcher/matching_engine_external_matcher.py:163-181 | Any other exception, here of a read-only market, ends the run where it is raised. |
| `MatchingEngine.RoundTakesEnergy` | src/gsy_e/models/market/two_sided.py:439-517 | A matching call that reports trades has lowered the open offer energy by the tolerance at least, whatever the recommendations. |
| `MatchingEngine.RoundDropsUnits` | src/gsy_e/models/matching_engine_matcher/matching_engine_matcher_interface.py:56-70 | Hence the measure that makes the match-until-done loop end, for any matcher at all. |
| `MatchingEngine.MatchRecommendations` | src/gsy_e/models/matching_engine_matcher/matching_engine_matcher_interface.py:43-71 | The loop over the markets, missing ones skipped, gives each in turn the specified market; an exception ends it and leaves the markets behind untouched. |
| `MatchingEngine.MatchMarketRecommendations` | src/gsy_e/models/matching_engine_matcher/matching_engine_matcher_interface.py:51-71 | The loop over one market terminates with the specified market: it stops when nothing is recommended or nothing trades, and only then sets the flag. |
| `MatchingEngine.LoopEndsDone` | src/gsy_e/models/matching_engine_matcher/matching_engine_matcher_interface.py:56-71 | For any algorithm, a loop that raises nothing ends with the flag set and in a market for which the algorithm recommends nothing that trades. |
| `Skipping.SkippingLosesNothing` | src/gsy_e/models/matching_engine_matcher/matching_engine_matcher_interface.py:51-71 | Whatever pairs a sound matcher is complete for, none of them is open in any reachable state whose flag says that there is no new order; if it recommends something for these pairs only, matching anyway would change nothing. |
| `Skipping.LoopKeepsHonesty` | src/gsy_e/models/matching_engine_matcher/matching_engine_matcher_interface.py:56-71 | The loop leaves an honest flag, for any such relation on pairs, even when it raises half-way. |
| `Skipping.SoundIsExactUpToTolerance` | src/gsy_e/models/market/two_sided.py:577-586 | A sound matcher recommends something only where some pair passes validation at some rate, tolerances included, so one that is complete for these pairs loses nothing by skipping. |
| `Skipping.ExactAndTolerantOnesExist` | src/gsy_e/models/matching_engine_matcher/matching_engine_matcher_interface.py:65-67 | There are sound matchers complete for exactly the pairs that cross, and for exactly those that cross within the tolerances. |
| `FairMarkets.FairOrdersGiveFairInfo` | src/gsy_e/models/market/two_sided.py:468-504 | A bid whose price did not grow on its way and an offer priced above zero wherever its device asks for a price are cleared at rates that the fee class can price. |
| `FairMarkets.FairStepStrandsNothing` | src/gsy_e/models/market/one_sided.py:345-376 | With constant fees no action strands a residual; neither does any action in a market of such orders, which fair actions preserve; and actions that ask for more than the tolerance, and no more than is there, lose no bid either, batches and ticks included. |
| `Conservation.OfferEnergyIsConserved` | src/gsy_e/models/market/one_sided.py:122-201 | Over every run, posted offer energy plus what failing acceptances stranded equals open plus traded plus deleted energy, up to the tolerance per trade; the stranded energy is told from the states the steps start in, is zero exactly if no step strands a residual, and is zero in fair runs and with constant fees. |
| `BidConservation.BidEnergyIsConserved` | src/gsy_e/models/market/two_sided.py:138-379 | Over every run, failing steps included, posted bid energy equals open plus traded plus deleted plus lost energy, up to the tolerance per trade; the lost energy is told from the states the steps start in, is zero exactly if no step reaches the acceptance of an open bid that cannot go through, and is zero in fair and careful runs. |
| `BidConservation.LosingHappens` | src/gsy_e/models/market/two_sided.py:222-322 | A run of two actions, a posting at price zero with a negative original price and a request for half of it, that loses a bid of 1 kWh. |
| `BidConservation.BidNotFoundIff` | src/gsy_e/models/market/two_sided.py:300-302 | The one error after which accept_bid has left the market as it was. |
| `Ledger.LedgerInEveryRun` | src/gsy_e/models/market/__init__.py:239-261 | In every reachable state the trades are the booked ones, in order; fee, price and energy totals are the sums over them, each trader's energy is what they moved to it, these energies cancel out, and a cached average is the current one. |
| `FutureLedger.FutureLedgerInEveryRun` | src/gsy_e/models/market/future.py:180-191 | In a future or forward market, whose rotation drops trades, these totals are the sums over all trades ever booked, the list holds exactly those of the open slots, and the total energy equals that of the list if and only if nothing was traded in a slot that is gone. |
| `Splits.SplitsConserve` | src/gsy_e/models/market/one_sided.py:223-258 | However an order is cut into pieces, and these again, the pieces' energies, prices and original prices add up to the order's. |
| `Splits.SplitsKeepRates` | src/gsy_e/models/market/one_sided.py:223-258 | Every such piece has the order's rates. |
| `Splits.PiecesPassTheSameChecks` | src/gsy_e/models/market/two_sided.py:577-586 | So it passes exactly the rate checks the order passes and is settled at the same rates. |
| `Splits.FeesOfPartsAddUpIff` | src/gsy_e/models/market/one_sided.py:203-214 | Taking an offer in two parts of a one-sided market costs the same percentage fee as taking it at once only if no fee is due at all: each part is charged on the whole original price. |
| `StrategyOffers.Offers.OnTrade` | src/gsy_e/models/strategy/__init__.py:457-470 | A sold offer is recorded, and the piece it was split from leaves the posted ones. |
| `StrategyOffers.Offers.OnOfferSplit` | src/gsy_e/models/strategy/__init__.py:472-480 | The residual is posted and the accepted piece takes the place of the original. |
| `StrategyOffers.RemovedIs` | src/gsy_e/models/strategy/__init__.py:441-450 | Removing an offer takes it out of the posted ones exactly if it is not sold. |
| `StrategyOffers.Offers.Replace` | src/gsy_e/models/strategy/__init__.py:452-455 | The new offer is posted only if the old one was not sold. |
| `StrategyOffers.Offers.OpenInMarket` | src/gsy_e/models/strategy/__init__.py:330-341 | The posted offers, of the slot if one is given, that are not among the sold ones. |
| `OfferCoherence.SuccessfulAcceptanceKeepsCoherence` | src/gsy_e/models/strategy/__init__.py:457-480 | After a full or partial trade, at any depth of splitting, the offers the records call open are again exactly the owner's open offers in the market. |
| `OfferCoherence.FailedAcceptanceKeepsCoherenceIff` | src/gsy_e/models/market/one_sided.py:342-376 | A failing acceptance keeps them in agreement if and only if it strands no residual of the owner's. |
| `OfferCoherence.StepKeepsIff` | src/gsy_e/models/strategy/__init__.py:420-480 | Every action of somebody else, batches and matching ticks included and whatever it raises, keeps them in agreement if and only if it strands no residual of the owner's. |
| `OwnerMoves.UpdateOffer` | src/gsy_e/models/strategy/__init__.py:764-786 | Deleting, re-posting and replacing one offer, with the exception swallowed, has the specified effect on market and records. |
| `OwnerMoves.UpdateOfferRates` | src/gsy_e/models/strategy/__init__.py:757-786 | The loop over the posted offers likewise. |
| `OwnerMoves.UpdateKeepsIff` | src/gsy_e/models/strategy/__init__.py:769-786 | Updating one offer keeps the agreement if and only if there is nothing to update, it is sold, or the market accepts the rate; otherwise the offer is gone from the market and stays open in the records. |
| `OwnerMoves.UpdatingAllKeepsIff` | src/gsy_e/models/strategy/__init__.py:757-786 | The same for a whole re-pricing. |
| `OfferRates.OffersEndAtTheRate` | src/gsy_e/models/strategy/__init__.py:757-786 | At an accepted rate each unsold offer of the slot that was more than the tolerance off is replaced by one of its energy, slot and device at the rate plus the fee; all others stay as they were, in order. |
| `OfferRates.ReplacingLeavesOne` | src/gsy_e/models/strategy/__init__.py:542-570 | A replacing posting that does not raise leaves the new offer as the only posted one of its slot. |
| `OwnerMoves.RemoveOfferFromCacheAndMarket` | src/gsy_e/models/strategy/__init__.py:426-439 | The posted offer with the given id, or every open one, is deleted in the market and then forgotten; the first refused deletion ends it and leaves the rest. |
| `OwnerMoves.PostNewOffer` | src/gsy_e/models/strategy/__init__.py:542-570 | Posting with replacement: the offers posted in the slot go one by one, then the new one is posted and recorded, or the first exception ends it. |
| `OwnerMoves.ReplacingKeepsIff` | src/gsy_e/models/strategy/__init__.py:542-570 | Such a posting raises if and only if a sold offer of the slot is still posted, the market is read-only or it refuses the new offer; the agreement is kept either way. |
| `OwnerRuns.RefusedRateHappens` | src/gsy_e/models/strategy/__init__.py:769-786 | A run of three moves, posting, recording and re-pricing below zero, after which an offer is open in the records and not in the market. |
| `OwnerRuns.MoveKeepsAgreementIff` | src/gsy_e/models/strategy/__init__.py:426-480 | Each move of the owner and each action of the others keeps the agreement if and only if a condition on the state it starts in holds. |
| `OwnerRuns.MindfulRunsAreAllowed` | src/gsy_e/models/strategy/__init__.py:330-341 | With constant fees and accepted rates, and in markets of fair orders where only what is fair is done, that condition holds throughout. |
| `OwnerRuns.RecordsAgreeInEveryRun` | src/gsy_e/models/market/__init__.py:294-297 | Over every run of postings, with or without replacement, withdrawals, safe re-pricings and foreign actions that strand nothing of the owner's, also ones that trade an offer before its posting is recorded, open_in_market is the market's open offers of that seller; sold_energy is the recorded sold energy, up to the tolerance per trade, plus what was sold to bids without an offer, and that is zero exactly if there was no such trade. |
| `OwnerRuns.SoldToBidsHappens` | src/gsy_e/models/strategy/market_agents/two_sided_engine.py:209-220 | A run in which a bid accepted in the owner's name raises its sold_energy by 1 kWh that its records do not have. |
| `BidMoves.BidEnabledStrategy.RemoveBidFromPending` | src/gsy_e/models/strategy/__init__.py:965-981 | The bid with the given id, or every recorded one, leaves the market, if it is there, and the records, the deletion events coming back in between. |
| `BidMoves.BidEnabledStrategy.EventBidTraded` | src/gsy_e/models/strategy/__init__.py:1077-1085 | The traded bid is recorded, and every pending record of its id goes, the original's as well as the accepted piece's; a bid that were still open would be deleted in the market. |
| `BidMoves.BidEnabledStrategy.Handle` | src/gsy_e/models/strategy/__init__.py:1060-1085 | The three handlers together do to the records what the events say, and nothing for other events or other buyers. |
| `BidMoves.BidEnabledStrategy.UpdateBidRates` | src/gsy_e/models/strategy/__init__.py:861-877 | The loop that replaces the slot's bids has the specified effect, up to the first refused posting. |
| `BidMoves.BidEnabledStrategy.PostBid` | src/gsy_e/models/strategy/__init__.py:826-859 | Existing bids of the slot go first if asked for; the new one is recorded once the market has taken it. |
| `StrategyBids.AcceptedBidKeeps` | src/gsy_e/models/strategy/__init__.py:1067-1085 | After a split and its trade, although original and accepted piece share an id and both are recorded in between, the records are again the market's bids of that buyer, order by order. |
| `StrategyBids.FailedBidKeepsIff` | src/gsy_e/models/market/two_sided.py:300-322 | A failing accept_bid keeps the records right if and only if the bid was not open or not the owner's. |
| `StrategyBids.MatchAllKeepsIff` | src/gsy_e/models/market/two_sided.py:439-517 | A whole batch, however it ends, keeps them right if and only if it loses no bid of the owner's. |
| `StrategyBids.StepKeepsIff` | src/gsy_e/models/strategy/__init__.py:1060-1085 | So does every action of somebody else. |
| `BidMoves.RepricingKeeps` | src/gsy_e/models/strategy/__init__.py:861-877 | Re-pricing bids keeps the agreement even when the market refuses a price half-way. |
| `BidRates.BidsEndAtTheRate` | src/gsy_e/models/strategy/__init__.py:861-877 | Re-pricing raises exactly if the rate is below zero and some bid is off it; otherwise each bid of the slot that was more than the tolerance off is replaced by one of its energy and slot at the rate, and all others stay as they were, in order, in the records and in the market. |
| `BidRates.ReplacingLeavesOne` | src/gsy_e/models/strategy/__init__.py:826-859 | A replacing posting leaves the new bid, if the market takes it, as the only recorded one of its slot. |
| `BidMoves.MindfulRunsAreAllowed` | src/gsy_e/models/strategy/__init__.py:826-877 | Where the others only do what is fair and careful, no move of any permitted run loses a bid of the owner's. |
| `BidMoves.RecordsAgreeInEveryRun` | src/gsy_e/models/strategy/__init__.py:965-995 | In every state reachable without losing a bid of the owner's, the recorded bids are the market's open bids of that buyer, without a duplicate and in the market's order. |
| `FutureOrders.FutureOrders.SetItem` | src/gsy_e/models/market/future.py:50-54 | An assignment updates dictionary and slot list together. |
| `FutureOrders.FutureOrders.DelItem` | src/gsy_e/models/market/future.py:56-60 | So does a removal. |
| `FutureOrders.AssigningKeepsCoherenceIff` | src/gsy_e/models/market/future.py:50-54 | An assignment keeps every slot list equal to the slot's part of the dictionary if and only if the id was not in use. |
| `FutureOrders.TakingKeepsCoherence` | src/gsy_e/models/market/future.py:56-60 | A removal always does, and its list.remove never raises. |
| `FutureSlots.FutureMarkets.ExpireOrders` | src/gsy_e/models/market/future.py:168-178 | Exactly the orders and slot lists up to the given slot go, no removal raises, and each cancelled order is announced once. |
| `FutureSlots.FutureMarkets.DeleteOrdersInOldFutureMarkets` | src/gsy_e/models/market/future.py:180-191 | Both sides and the trades are cut at the same slot, and the lists keep agreeing. |
| `FutureSlots.FutureMarkets.CreateFutureMarketSlots` | src/gsy_e/models/market/future.py:229-237 | The slots it opens are the specified ones, no list that holds orders is overwritten, and the agreement is kept. |
| `FutureSlots.FutureMarkets.SetOpenMarketSlotParameters` | src/gsy_e/models/market/future.py:281-295 | The assertions of the slot parameters hold for every slot the creation loop can reach. |
| `FutureSlots.FutureMarkets.SlotTradeMapping` | src/gsy_e/models/market/future.py:109-115 | The mapping is total: every trade finds its slot, and each slot gets exactly its trades in order. |
| `FutureSlots.OpenedIff` | src/gsy_e/models/market/future.py:211-227 | A slot is opened if and only if it lies on the block's grid up to the end time, is not open, lies in the simulation and closes later than now; and it is opened once. |
| `FutureSlots.BlocksAreWellFormed` | src/gsy_e/models/market/forward.py:92-149 | The future, intraday and day-forward calendars meet what the slot theorems ask of a block, the future one for every configured duration. |
| `Calendars.FutureOpens` | src/gsy_e/models/market/future.py:193-227 | A future market opens every slot length from the next slot up to the end of the configured duration. |
| `Calendars.IntradayOpens` | src/gsy_e/models/market/forward.py:92-118 | An intraday market opens every quarter of an hour from half an hour up to a day ahead. |
| `Calendars.DayForwardOpens` | src/gsy_e/models/market/forward.py:120-149 | A day-forward market opens every hour of the seven days from tomorrow on, while there is more than a day to go. |
| `Calendars.ParametersInMinutes` | src/gsy_e/models/market/future.py:281-295 | Opening, closing, start and end of delivery of a slot of each calendar. |
| `MarketRotation.ForwardMarketRotator.Rotate` | src/gsy_e/models/area/market_rotators.py:61-72 | Both loops of a rotation, over the parameters in any insertion order, have the specified effect, and nothing happens when it is not the time. |
| `MarketRotation.RotationIsExact` | src/gsy_e/models/area/market_rotators.py:61-72 | Although each closed slot drops everything up to it, precisely the slots whose closing time has come lose orders and trades, and the parameters that remain are those of the slots that remain. |
| `FutureTrading.AcceptanceKeepsListsIff` | src/gsy_e/models/market/one_sided.py:342-383 | Replaying accept_offer's dictionary operations on a future market leaves the open offers of accept_offer and never raises; the slot lists stay right if and only if no residual is stranded. |
| `FutureTrading.StepMirrors` | src/gsy_e/models/market/future.py:44-60 | The dictionary operations of each market action that strands nothing, batches and matching loops included, lead to exactly that action's books and never assign an id in use. |
| `FutureTrading.StepKeepsListsIff` | src/gsy_e/models/market/future.py:44-60 | Replayed on a future market, the operations of any action never raise and lead to its offers; the slot lists of the offers are right afterwards if and only if it strands no residual. |
| `EarlyOrders.PostingOfferKeepsListsIff` | src/gsy_e/models/market/future.py:260-274 | A market takes an offer for a slot that is not open; the two sides then know different slots, and for an open slot they never do. |
| `EarlyOrders.PostingBidKeepsListsIff` | src/gsy_e/models/market/future.py:243-258 | The same for a bid. |
| `EarlyOrders.EarlyBidBlocksItsSlot` | src/gsy_e/models/market/future.py:216-222 | A bid for a slot that is not open keeps that slot from ever being opened, in whatever cycles follow. |
| `EarlyOrders.EarlyOfferIsForgotten` | src/gsy_e/models/market/future.py:50-60 | An offer for a slot that is not open is dropped from the slot's list when the slot opens; it stays open in the dictionary and taking it out raises. |
| `FutureRuns.FairRunsAreAllowed` | src/gsy_e/models/market/future.py:44-60 | With constant fees, and in markets of fair orders where only what is fair is done, no action of a run strands a residual. |
| `FutureRuns.SlotListsAgreeInEveryRun` | src/gsy_e/models/market/future.py:44-60 | In every state reachable by orders for open slots and actions that strand nothing, both sides know the same slots, each open order is once in its own slot's list and in no other, every trade's slot is known, and every open slot has sound parameters (a forward market: no other slot has any). |
| `FutureRuns.SlotsAfterCycle` | src/gsy_e/models/area/area.py:257-267 | What a cycle opens and closes: a removed slot has closed, and after a due rotation no open slot has. |
| `Calendars.FutureSlotsAfterCycle` | src/gsy_e/models/market/future.py:180-237 | After a cycle a future market has exactly the slots to come that it had and those in range. |
| `Calendars.ForwardSlotsAfterCycle` | src/gsy_e/models/area/market_rotators.py:61-72 | After a cycle a forward market has the slots it had, less the closed ones if it was time to rotate, and those in range. |
| `FutureRuns.RemovedSlotsNeverReopen` | src/gsy_e/models/area/area.py:257-267 | Under a clock that never goes back a slot that a cycle has removed is never open again. |
| `FutureRuns.FutureParametersPileUp` | src/gsy_e/models/area/market_rotators.py:40-48 | A future market keeps the parameters of every slot it ever opened. |
| `MarketBuffers.MarketRotator.Rotate` | src/gsy_e/models/area/market_rotators.py:138-191 | Moving and deleting, each a loop over a list of slots taken beforehand, have the specified effect on both buffers. |
| `MarketBuffers.AreaMarkets.CycleMarkets` | src/gsy_e/models/area/area.py:257-287 | Rotation, creation of the spot market and creation of the settlement market of the last past market, in this order. |
| `MarketBuffers.MovingIsExact` | src/gsy_e/models/area/market_rotators.py:168-181 | Markets before the limit leave in order and closed, the others stay. |
| `MarketBuffers.BuffersAfterCycle` | src/gsy_e/models/area/markets.py:190-255 | The exact contents of all four buffers after any number of cycles, for every retention setting. |
| `MarketBuffers.BuffersInEveryCycle` | src/gsy_e/models/area/market_rotators.py:138-234 | After every cycle the open spot market is the current slot's, the past ones are closed and are exactly the retained window, settlement markets are open only for kept past slots (for all of them unless everything is retained), and at most one past settlement market is kept, unless everything is retained. |
| `SorTes.SorTesTankEnergyParameters.EventMarketCycle` | src/gsy_e/models/strategy/heatpump_with_sortes_tank.py:323-364 | Forgetting old slots, settling the last one and populating the new one, as specified, or a failing assertion. |
| `SorTes.SorTesTankEnergyParameters.UpdateLastTimeSlotData` | src/gsy_e/models/strategy/heatpump_with_sortes_tank.py:494-558 | The settlement's case distinction with its assertions. |
| `SorTes.SorTesTankEnergyParameters.EventTradedEnergy` | src/gsy_e/models/strategy/heatpump_with_sortes_tank.py:336-385 | A trade counts as bought and lowers all three demands, not below zero. |
| `SorTes.SorTesTankMinimiseSwitchStrategy.Calculate` | src/gsy_e/models/strategy/heat_pump_soc_management.py:76-153 | The state machine, with the limits of the tank's own rule, computes the specified mode and energy. |
| `SorTesRuns.PowerSigns` | src/gsy_e/models/strategy/heatpump_with_sortes_tank.py:71-91 | The extrapolated charging power is negative exactly above 47.5 degrees, the discharging power exactly below -25 degrees. |
| `TankPlans.PowerLiesOnLine` | src/gsy_e/models/strategy/heatpump_with_sortes_tank.py:71-91 | Between two entries of a performance map, and beyond the outer ones, the power lies on the line through the two. |
| `TankPlans.EnergiesOfSlot` | src/gsy_e/models/strategy/heatpump_with_sortes_tank.py:388-420 | Charging is evaluated five degrees above the outside temperature and discharging five below, over the slot length. |
| `TankPlans.DemandsAfterCycle` | src/gsy_e/models/strategy/heatpump_with_sortes_tank.py:399-470 | After every cycle that goes through, demand times COP is the slot's heat; the most to buy adds the charged energy and its condenser share, the least saves the discharged energy less the evaporator share, within the limits. |
| `TankPlans.FirstBidOfSlot` | src/gsy_e/models/strategy/heatpump_with_sortes_tank.py:599-609 | The bid a slot starts with, by the mode decided on. |
| `TankPlans.DecisionIs` | src/gsy_e/models/strategy/heat_pump_soc_management.py:76-153 | The mode from charge, rates and the switch held for an hour, and what is stored of it. |
| `TankPlans.CycleSettles` | src/gsy_e/models/strategy/heatpump_with_sortes_tank.py:494-558 | A cycle that goes through moves the charge by the mode's energy in percent of the capacity and records it with the condenser's or evaporator's share, or moves nothing if the demand was met. |
| `TankPlans.TradeCounts` | src/gsy_e/models/strategy/heatpump_with_sortes_tank.py:336-385 | A trade counts in full as bought and traded and lowers all three demands, not below zero. |
| `SorTesRuns.DecidingAgainChangesNothing` | src/gsy_e/models/strategy/heatpump_with_sortes_tank.py:142-156 | A second calculate in the same slot stores and buys for the same mode. |
| `SorTesRuns.SwitchIsHeld` | src/gsy_e/models/strategy/heat_pump_soc_management.py:113-127 | A switch to charging or discharging is followed by no change of the stored mode for an hour, whatever calls are made. |
| `SorTesRuns.SlotBuysWhatItPlanned` | src/gsy_e/models/strategy/heatpump_with_sortes_tank.py:599-609 | However often a slot's bid is updated and in whatever pieces it is filled, no more is bought than first planned, for the same mode, and open is always the bid for the rest. |
| `SorTesRuns.PlannedEnergySettlesIff` | src/gsy_e/models/strategy/heatpump_with_sortes_tank.py:494-540 | Whatever part of the energy planned for a mode was bought, the assertions of the settlement pass if and only if the demand was met up to the tolerance, the stored mode is discharging, or the slot charges and less than the tolerance of the plan is missing. |
| `SorTesRuns.FilledServesIff` | src/gsy_e/models/strategy/heatpump_with_sortes_tank.py:521-524 | If nothing of the bid is left open, they pass if and only if the slot does not charge, less than the tolerance is missing, or the net energy is within the tolerance. |
| `SorTesRuns.ShortOfToleranceFails` | src/gsy_e/models/strategy/heatpump_with_sortes_tank.py:521-524 | In every charging slot with more than three tolerances to charge, a trade that leaves exactly the tolerance of the bid leaves no bid open, and the assertion fails. |
| `SorTesRuns.ColdSnapFails` | src/gsy_e/models/strategy/heatpump_with_sortes_tank.py:526-535 | A run from activation, with both bids filled exactly, whose second slot at -25 degrees ends in a failing assertion. |
| `SorTesRuns.ExactlyFilledSettlesIff` | src/gsy_e/models/strategy/heatpump_with_sortes_tank.py:494-540 | With bids filled exactly, and powers of either sign, no assertion fails if and only if a condition on mode, demand and the energies of the performance maps holds. |
| `SorTesRuns.SlotSettlesIff` | src/gsy_e/models/strategy/heatpump_with_sortes_tank.py:494-550 | Whatever was bought in it, a slot settles if and only if that condition holds, and then moves the state of charge by exactly the step of the stored mode, or not at all if the demand was met. |
| `SorTesRuns.TankIsSafeInEveryRun` | src/gsy_e/models/strategy/heatpump_with_sortes_tank.py:436-558 | From activation on, with temperatures between -20 and 42.5 degrees: whatever is bought, no assertion fails if and only if every slot meets the condition; in a run that leaves no bid open that is so exactly if every charging slot misses less than the tolerance or has its net energy within it, and the state of charge stays within its limits widened by one discharging and one charging step. |

## Left out

- The classes Offer, Bid, Trade and BidOfferMatch come from a library that is not part of this model, and neither is the COP model; `original_price`, `accumulated_grid_fees` (original less current price) and equality of orders are modelled from their uses.
- Matching requirements and attributes, and their adaptation in residuals (two_sided.py:519-547, 591-618, 634-647): they depend on library code that is not shown.
- Settlement.FeasibleBatchTrades: the traded energy is within the tolerance of the selected one for energies up to 10000 kWh, where the relative part of `isclose` is no wider than the tolerance; larger orders are not called feasible.
- Bid and offer histories, trade ids, times of creation, and `min_trade_price`/`max_trade_price`.
- Forwarding of orders and trades between markets (the `update_forwarded` and `propagate` members of the fee classes); a trade info is either absent or complete.
- MatchingEngine.MatchRecommendations: the algorithm is handed the open offers and bids of one market, not a dictionary of them by area and slot.
- ExternalMatching.MatchOneByOne: the recommendations are for one market and none was turned down by `validate_and_report`, which belongs to the transport.
- FutureSlots.FutureMarkets.DeleteOrdersInOldFutureMarkets: the offer and bid histories, cut at the same slot, are not kept.
- Several markets in one strategy's records, `bought` offers, and the removal of records of past markets.
- Rounding: `round(x, 4)` rounds half up here, and real arithmetic stands for floats and decimals.
- Locks, the random order of listeners, logging, blockchain calls and every transport (redis, websockets).
- In runs, an order never gets its id from outside; single calls with explicit ids are covered by the market object.
- BalancingMarket, the balancing buffer, and cycles that return early on deactivation.
- Week, month and year calendars: they are arbitrary blocks with a positive slot duration and closing times that keep the order of slots; `config.slot_length` and `GlobalConfig.slot_length` are taken to be the same.
- Expiry in a future market whose slot lists are already wrong (after a stranded residual) is not modelled; the market object asks for lists that agree.
- Spot and settlement markets in the buffers are records of slot and read-only mark, not market objects; an aliased market kept elsewhere is not captured.
- Profiles of the tank that have gaps: after activation every slot is in the ambient temperature profile, and the first slot's predecessor is not.
- TwoSided.TwoSidedMarket.UpdateStatsAfterTrade: `min_trade_price` and `max_trade_price` are not modelled; they are read by statistics only.
- OwnerRuns.RecordsAgreeInEveryRun: actions that strand a residual of the owner's and re-pricings that the market refuses are excluded, by exact conditions on the states they start in.
- BidMoves.RecordsAgreeInEveryRun: actions that lose a bid of the owner's are excluded, by the exact condition on the states they start in; a bid is handed to `accept_bid` as it is open in the market.
- FutureTrading.StepMirrors: a bid is handed to `accept_bid` with the time slot it is open for.
- FutureRuns.SlotListsAgreeInEveryRun: orders are posted into open slots only and no action strands a residual, the two exact conditions; trading in a market that has taken an order for a slot that is not open is not followed any further.
- Plots, exports, databases, area serialisation, aggregator connections and live events: plumbing without invariants of its own.
