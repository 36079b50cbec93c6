/** The two grid-fee classes of a market. Python's `Decimal` raises on a zero divisor; that is
    the only way a fee computation can fail here, and `None` stands for it. */
module Fees {
  import opened Numeric

  datatype FeeClass = PercentageFee(rate: real) | ConstantFee(rate: real)

  // The rates a trade is priced from; `TradeBidOfferInfo`, with every field filled in.
  datatype TradeInfo = TradeInfo(
    originalBidRate: real, propagatedBidRate: real,
    originalOfferRate: real, propagatedOfferRate: real, tradeRate: real)

  datatype Priced = Priced(feeRate: real, tradeRate: real)

  function IncomingBidRate(fee: FeeClass, sourceRate: real, originalRate: real): real {
    match fee
    case PercentageFee(_) => if sourceRate != 0.0 then sourceRate else originalRate
    case ConstantFee(_) => sourceRate
  }

  function IncomingOfferRate(fee: FeeClass, sourceRate: real, originalRate: real): real {
    match fee
    case PercentageFee(r) => sourceRate + originalRate * r
    case ConstantFee(r) => sourceRate + r
  }

  function BidPriceWithFee(fee: FeeClass, price: real, originalPrice: real, energy: real): real
    requires energy != 0.0
  {
    IncomingBidRate(fee, price / energy, originalPrice / energy) * energy
  }

  function OfferPriceWithFee(fee: FeeClass, price: real, originalPrice: real, energy: real): real
    requires energy != 0.0
  {
    IncomingOfferRate(fee, price / energy, originalPrice / energy) * energy
  }

  // The rate the original device pays, scaled back from the clearing rate.
  function OriginalTradeRate(fee: FeeClass, originalBidRate: real, propagatedBidRate: real, clearingRate: real)
    : Option<real>
  {
    match fee
    case PercentageFee(_) =>
      if propagatedBidRate == 0.0 then None
      else Some(clearingRate * (originalBidRate / propagatedBidRate))
    case ConstantFee(_) => Some(clearingRate + (originalBidRate - propagatedBidRate))
  }

  function DemandSideTax(info: TradeInfo): real {
    if info.originalBidRate == 0.0 then 0.0 else 1.0 - info.propagatedBidRate / info.originalBidRate
  }

  function SupplySideTax(info: TradeInfo): real {
    if info.originalOfferRate == 0.0 then 0.0 else info.propagatedOfferRate / info.originalOfferRate - 1.0
  }

  // (grid fee rate, trade rate including fees) of a trade that carries both sides' rates.
  function TradePriceAndFees(fee: FeeClass, info: TradeInfo): Option<Priced> {
    match fee
    case ConstantFee(r) => Some(Priced(r, info.propagatedBidRate))
    case PercentageFee(r) => PriceFromTaxes(r, info.tradeRate, DemandSideTax(info), SupplySideTax(info))
  }

  function PriceFromTaxes(rate: real, tradeRate: real, demandSideTax: real, supplySideTax: real): Option<Priced> {
    var divisor := 1.0 + (demandSideTax + supplySideTax);
    if divisor == 0.0 then None
    else
      var revenue := tradeRate / divisor;
      Some(Priced(revenue * rate, revenue + revenue * supplySideTax))
  }

  // A caller can rule the failing divisor out by looking at the orders' rates alone: a bid that
  // lost nothing to fees it did not have, and an offer priced above zero.
  lemma FeesAreDefined(fee: FeeClass, info: TradeInfo)
    requires info.originalBidRate == 0.0 || info.propagatedBidRate / info.originalBidRate <= 1.0
    requires info.originalOfferRate == 0.0 || info.propagatedOfferRate / info.originalOfferRate > 0.0
    ensures TradePriceAndFees(fee, info).Some?
  {
    assert DemandSideTax(info) >= 0.0;
    assert SupplySideTax(info) > -1.0;
  }
}
