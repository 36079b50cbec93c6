/** Splitting an order, to any depth, conserves it: the pieces add up to the original and every
    piece keeps its rates. */
module Splits {
  import opened Numeric
  import opened Books
  import opened MarketState
  import opened Acceptance
  import opened Settlement

  // How an order is cut up: not at all, or into an accepted and a residual piece that are cut
  // up further.
  datatype Cut = Whole | Cut(energy: real, accepted: Cut, residual: Cut)

  function Accepted(side: Side, o: Order, energy: real): Order
    requires o.energy > 0.0
  {
    AcceptedPiece(o, energy, OriginalPriceOn(side, o))
  }

  function Residual(side: Side, o: Order, energy: real, freshId: nat): Order
    requires o.energy > 0.0
  {
    ResidualPiece(o, energy, OriginalPriceOn(side, o), freshId)
  }

  // Every cut takes some, but not all, of what it cuts.
  predicate Fits(whole: real, cut: Cut)
    decreases cut
  {
    cut.Cut? ==> 0.0 < cut.energy < whole && Fits(cut.energy, cut.accepted) && Fits(whole - cut.energy, cut.residual)
  }

  function Cuts(cut: Cut): nat {
    if cut.Whole? then 0 else 1 + Cuts(cut.accepted) + Cuts(cut.residual)
  }

  // The pieces left in the end; residuals get the ids from `freshId` on.
  function Pieces(side: Side, o: Order, cut: Cut, freshId: nat): seq<Order>
    requires o.energy > 0.0 && Fits(o.energy, cut)
    decreases cut
  {
    if cut.Whole? then [o]
    else Pieces(side, Accepted(side, o, cut.energy), cut.accepted, freshId + 1) +
         Pieces(side, Residual(side, o, cut.energy, freshId), cut.residual, freshId + 1 + Cuts(cut.accepted))
  }

  function Prices(b: Book): real {
    if b == [] then 0.0 else b[0].price + Prices(b[1..])
  }

  function OriginalPrices(b: Book): real {
    if b == [] then 0.0 else b[0].originalPrice + OriginalPrices(b[1..])
  }

  lemma {:induction false} SumsOfBoth(b: Book, c: Book)
    ensures Energy(b + c) == Energy(b) + Energy(c)
    ensures Prices(b + c) == Prices(b) + Prices(c)
    ensures OriginalPrices(b + c) == OriginalPrices(b) + OriginalPrices(c)
  {
    if b == [] {
      assert b + c == c;
    } else {
      assert (b + c)[1..] == b[1..] + c;
      SumsOfBoth(b[1..], c);
    }
  }

  lemma AcceptedIsPricedLike(side: Side, o: Order, energy: real)
    requires 0.0 < energy < o.energy
    ensures PricedLike(side, o, Accepted(side, o, energy))
  {
    var a, original := Accepted(side, o, energy), OriginalPriceOn(side, o);
    ResidualRates(o, energy, original, 0);
    match side
    case OfferSide =>
      if o.originalPrice == 0.0 {
        assert o.OriginalRate() == 0.0;
        assert a.OriginalRate() == a.Rate();
      } else {
        assert a.OriginalRate() == o.OriginalRate();
      }
    case BidSide =>
      BidRateIsOriginal(o);
      BidRateIsOriginal(a);
      if o.price >= 0.0 {
        SplitIsPositive(o, energy, original, 0);
      }
  }

  // Both pieces of one split add up to the order.
  lemma PiecesAddUp(side: Side, o: Order, energy: real, freshId: nat)
    requires 0.0 < energy < o.energy
    ensures var a, r := Accepted(side, o, energy), Residual(side, o, energy, freshId);
            && a.energy + r.energy == o.energy && a.price + r.price == o.price
            && a.originalPrice + r.originalPrice == OriginalPriceOn(side, o)
            && OriginalPriceOn(side, a) == a.originalPrice && OriginalPriceOn(side, r) == r.originalPrice
  {
    var share, original := energy / o.energy, OriginalPriceOn(side, o);
    ShareInside(energy, o.energy);
    RestShare(energy, o.energy);
    assert o.price * share + (1.0 - share) * o.price == o.price;
    assert share * original + (1.0 - share) * original == original;
  }

  // However an order is cut up: energies, prices and original prices of the pieces add up to the
  // order's ...
  lemma {:induction false} SplitsConserve(side: Side, o: Order, cut: Cut, freshId: nat)
    requires o.energy > 0.0 && Fits(o.energy, cut)
    ensures AddUpTo(Pieces(side, o, cut, freshId), Cuts(cut) + 1, o.energy, o.price, OriginalPriceOfAll(side, o, cut))
    decreases cut
  {
    hide Pieces, Accepted, Residual, OriginalPriceOfAll, AddUpTo, Fits, Cuts;
    if cut.Whole? {
      WholeAddsUp(side, o, freshId);
    } else {
      CutFits(o.energy, cut);
      PieceEnergies(side, o, cut.energy, freshId);
      SplitsConserve(side, Accepted(side, o, cut.energy), cut.accepted, freshId + 1);
      SplitsConserve(side, Residual(side, o, cut.energy, freshId), cut.residual, freshId + 1 + Cuts(cut.accepted));
      CutAddsUp(side, o, cut, freshId);
    }
  }

  // The first cut puts a price in the place of an original price of zero.
  function OriginalPriceOfAll(side: Side, o: Order, cut: Cut): real {
    if cut.Whole? then o.originalPrice else OriginalPriceOn(side, o)
  }

  lemma CutAddsUp(side: Side, o: Order, cut: Cut, freshId: nat)
    requires o.energy > 0.0 && Fits(o.energy, cut) && cut.Cut?
    requires Accepted(side, o, cut.energy).energy == cut.energy
    requires Residual(side, o, cut.energy, freshId).energy == o.energy - cut.energy
    requires var a := Accepted(side, o, cut.energy);
             AddUpTo(Pieces(side, a, cut.accepted, freshId + 1), Cuts(cut.accepted) + 1, a.energy, a.price,
                     OriginalPriceOfAll(side, a, cut.accepted))
    requires var r := Residual(side, o, cut.energy, freshId);
             AddUpTo(Pieces(side, r, cut.residual, freshId + 1 + Cuts(cut.accepted)), Cuts(cut.residual) + 1,
                     r.energy, r.price, OriginalPriceOfAll(side, r, cut.residual))
    ensures AddUpTo(Pieces(side, o, cut, freshId), Cuts(cut) + 1, o.energy, o.price, OriginalPriceOfAll(side, o, cut))
  {
    hide Pieces, Accepted, Residual, OriginalPriceOn, AddUpTo, Fits;
    var a, r := Accepted(side, o, cut.energy), Residual(side, o, cut.energy, freshId);
    PiecesOfCut(side, o, cut, freshId);
    CutFits(o.energy, cut);
    PiecesAddUp(side, o, cut.energy, freshId);
    BothAddUp(Pieces(side, a, cut.accepted, freshId + 1), Cuts(cut.accepted) + 1, a,
              Pieces(side, r, cut.residual, freshId + 1 + Cuts(cut.accepted)), Cuts(cut.residual) + 1, r);
  }

  lemma CutFits(whole: real, cut: Cut)
    requires cut.Cut? && Fits(whole, cut)
    ensures 0.0 < cut.energy < whole && Fits(cut.energy, cut.accepted) && Fits(whole - cut.energy, cut.residual)
  {
  }

  ghost predicate AddUpTo(pieces: seq<Order>, count: nat, energy: real, price: real, originalPrice: real) {
    |pieces| == count && Energy(pieces) == energy && Prices(pieces) == price && OriginalPrices(pieces) == originalPrice
  }

  lemma WholeAddsUp(side: Side, o: Order, freshId: nat)
    requires o.energy > 0.0
    ensures AddUpTo(Pieces(side, o, Whole, freshId), Cuts(Whole) + 1, o.energy, o.price,
                    OriginalPriceOfAll(side, o, Whole))
  {
    assert [o][1..] == [];
  }

  lemma BothAddUp(b: seq<Order>, n: nat, x: Order, c: seq<Order>, k: nat, y: Order)
    requires AddUpTo(b, n, x.energy, x.price, x.originalPrice) && AddUpTo(c, k, y.energy, y.price, y.originalPrice)
    ensures AddUpTo(b + c, n + k, x.energy + y.energy, x.price + y.price, x.originalPrice + y.originalPrice)
  {
    SumsOfBoth(b, c);
  }

  lemma PiecesOfCut(side: Side, o: Order, cut: Cut, freshId: nat)
    requires o.energy > 0.0 && Fits(o.energy, cut) && cut.Cut?
    requires Accepted(side, o, cut.energy).energy == cut.energy
    requires Residual(side, o, cut.energy, freshId).energy == o.energy - cut.energy
    ensures Pieces(side, o, cut, freshId) ==
            Pieces(side, Accepted(side, o, cut.energy), cut.accepted, freshId + 1) +
            Pieces(side, Residual(side, o, cut.energy, freshId), cut.residual, freshId + 1 + Cuts(cut.accepted))
  {
    hide Accepted, Residual;
  }

  // ... and every piece is priced like the order.
  lemma {:induction false} SplitsKeepRates(side: Side, o: Order, cut: Cut, freshId: nat)
    requires o.energy > 0.0 && Fits(o.energy, cut)
    ensures forall p :: p in Pieces(side, o, cut, freshId) ==> PricedLike(side, o, p)
    decreases cut
  {
    hide PricedLike, Accepted, Residual, Pieces, Fits, Cuts;
    if cut.Whole? {
      WholeIsPricedLike(side, o);
      OnlyPiece(side, o, freshId);
    } else {
      CutFits(o.energy, cut);
      PieceEnergies(side, o, cut.energy, freshId);
      PiecesOfCut(side, o, cut, freshId);
      var a, r := Accepted(side, o, cut.energy), Residual(side, o, cut.energy, freshId);
      AcceptedIsPricedLike(side, o, cut.energy);
      RestIsPricedLike(side, o, cut.energy, freshId);
      SplitsKeepRates(side, a, cut.accepted, freshId + 1);
      SplitsKeepRates(side, r, cut.residual, freshId + 1 + Cuts(cut.accepted));
      AllPricedLike(side, o, a, Pieces(side, a, cut.accepted, freshId + 1));
      AllPricedLike(side, o, r, Pieces(side, r, cut.residual, freshId + 1 + Cuts(cut.accepted)));
    }
  }

  lemma RestIsPricedLike(side: Side, o: Order, energy: real, freshId: nat)
    requires 0.0 < energy < o.energy
    ensures PricedLike(side, o, Residual(side, o, energy, freshId))
  {
    hide PricedLike, ResidualPiece, OriginalPriceOn;
    ResidualIsPricedLike(side, o, energy, freshId);
  }

  lemma OnlyPiece(side: Side, o: Order, freshId: nat)
    requires o.energy > 0.0
    ensures Fits(o.energy, Whole) && Pieces(side, o, Whole, freshId) == [o]
  {
  }

  lemma AllPricedLike(side: Side, o: Order, piece: Order, pieces: seq<Order>)
    requires o.energy > 0.0 && PricedLike(side, o, piece)
    requires forall p :: p in pieces ==> PricedLike(side, piece, p)
    ensures forall p :: p in pieces ==> PricedLike(side, o, p)
  {
    forall p | p in pieces ensures PricedLike(side, o, p) {
      PricedLikeChain(side, o, piece, p);
    }
  }

  lemma PieceEnergies(side: Side, o: Order, energy: real, freshId: nat)
    requires 0.0 < energy < o.energy
    ensures Accepted(side, o, energy).energy == energy
    ensures Residual(side, o, energy, freshId).energy == o.energy - energy
  {
  }

  lemma WholeIsPricedLike(side: Side, o: Order)
    requires o.energy > 0.0
    ensures PricedLike(side, o, o)
  {
  }

  // A piece passes every rate check its original passes, and is settled at the same rates.
  lemma PiecesPassTheSameChecks(cfg: Config, o: Order, b: Order, offerCut: Cut, bidCut: Cut, freshId: nat,
                                o': Order, b': Order, clearingRate: real)
    requires o.energy > 0.0 && b.energy > 0.0 && Fits(o.energy, offerCut) && Fits(b.energy, bidCut)
    requires o' in Pieces(OfferSide, o, offerCut, freshId) && b' in Pieces(BidSide, b, bidCut, freshId)
    ensures o'.energy > 0.0 && b'.energy > 0.0
    ensures (b'.Rate() + TOL < clearingRate <==> b.Rate() + TOL < clearingRate)
    ensures (o'.Rate() > clearingRate + TOL <==> o.Rate() > clearingRate + TOL)
    ensures PairRates(cfg, o', b', clearingRate) == PairRates(cfg, o, b, clearingRate)
  {
    SplitsKeepRates(OfferSide, o, offerCut, freshId);
    SplitsKeepRates(BidSide, b, bidCut, freshId);
    PairRatesOfResiduals(cfg, o, b, o', b', clearingRate);
  }

  // In a one-sided simulation a percentage fee is charged on the original price of the whole
  // offer, whatever part of it is taken.
  lemma OneSidedFee(cfg: Config, m: Market, id: nat, buyer: Trader, energy: Option<real>)
    requires cfg.oneSided && cfg.fee.PercentageFee? && Valid(m) && !m.readonly
    requires Find(m.offers, id).Some? && OfferLegGoesThrough(cfg, Find(m.offers, id).value, energy, None)
    ensures var (m', r) := AcceptOffer(cfg, m, id, buyer, energy, None, None);
            var o := Find(m.offers, id).value;
            var left := Remainder(o, RequestedEnergy(energy, o.energy), OriginalOfferPrice(o), m.nextId);
            && Valid(m') && r.Ok? && o.energy > 0.0 && r.value.feePrice == cfg.fee.rate * OriginalOfferPrice(o)
            && r.value.residual == left && (left.Some? ==> Find(m'.offers, left.value.id) == left)
            && !m'.readonly
  {
    OfferAcceptedIff(cfg, m, id, buyer, energy, None, None);
    ValidAfterAcceptOffer(cfg, m, id, buyer, energy, None, None);
    hide AcceptOffer, Pop;
    AcceptedOfferEffect(cfg, m, id, buyer, energy, None, None);
    FreshOffer(m.offers, m.nextId);
    FindBookAfter(m.offers, id, AcceptOffer(cfg, m, id, buyer, energy, None, None).1.value.residual);
  }

  // So taking an offer in two parts costs the same as taking it at once only if no fee is due.
  lemma FeesOfPartsAddUpIff(cfg: Config, m: Market, id: nat, buyer: Trader, part: real)
    requires cfg.oneSided && cfg.fee.PercentageFee? && Valid(m) && !m.readonly
    requires Find(m.offers, id).Some? && TOL <= part < Find(m.offers, id).value.energy - TOL
    requires RequestedEnergy(Some(part), Find(m.offers, id).value.energy) == part
    ensures var whole := AcceptOffer(cfg, m, id, buyer, None, None, None).1;
            var (m1, first) := AcceptOffer(cfg, m, id, buyer, Some(part), None, None);
            && whole.Ok? && first.Ok? && first.value.residual.Some? && Valid(m1)
            && var second := AcceptOffer(cfg, m1, first.value.residual.value.id, buyer, None, None, None).1;
            && second.Ok?
            && (first.value.feePrice + second.value.feePrice == whole.value.feePrice <==>
                cfg.fee.rate == 0.0 || OriginalOfferPrice(Find(m.offers, id).value) == 0.0)
  {
    hide AcceptOffer, Find;
    var o := Find(m.offers, id).value;
    OneSidedFee(cfg, m, id, buyer, None);
    OneSidedFee(cfg, m, id, buyer, Some(part));
    var m1 := AcceptOffer(cfg, m, id, buyer, Some(part), None, None).0;
    var r := Residual(OfferSide, o, part, m.nextId);
    PiecesAddUp(OfferSide, o, part, m.nextId);
    OneSidedFee(cfg, m1, r.id, buyer, None);
    ShareInside(part, o.energy);
    RestShare(part, o.energy);
  }

}
