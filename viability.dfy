/** The tier heuristic that rejects implausible offers (is_offer_viable) and
    the filter built on it (filter_viable_offers). An offer converts `have`
    into `want` at `conversionRate` units of `want` per unit of `have`. */
module Viability {
  import opened Results
  import opened Catalog
  import opened OfferParser

  /** The rule itself, on tiers: trading from a numerically higher tier (a
      cheaper currency) into a lower one above par is rejected. The symmetric
      rule for trading down below par is deliberately absent. */
  predicate TierRuleAccepts(wantTier: int, haveTier: int, rate: real) {
    !(haveTier > wantTier && rate > 1.0)
  }

  /** is_offer_viable: `have` is looked up first, then `want`; a name missing
      from the table is a KeyError. */
  function IsOfferViable(want: string, have: string, offer: Offer): (r: Result<bool>)
    ensures have !in CURRENCIES ==> r == Err(UnknownCurrency(have))
    ensures have in CURRENCIES && want !in CURRENCIES ==> r == Err(UnknownCurrency(want))
    ensures have in CURRENCIES && want in CURRENCIES ==>
      r.Ok? && (r.value <==> TierRuleAccepts(CURRENCIES[want].tier, CURRENCIES[have].tier, offer.conversionRate))
  {
    match Lookup(have)
    case Err(e) => Err(e)
    case Ok(haveCurrency) =>
      match Lookup(want)
      case Err(e) => Err(e)
      case Ok(wantCurrency) =>
        Ok(TierRuleAccepts(wantCurrency.tier, haveCurrency.tier, offer.conversionRate))
  }

  /** The offer is rejected exactly when `have` is in a numerically higher tier
      than `want` and the rate is above 1. */
  lemma RejectedIff(want: string, have: string, offer: Offer)
    requires want in CURRENCIES && have in CURRENCIES
    ensures IsOfferViable(want, have, offer) == Ok(false)
            <==> CURRENCIES[have].tier > CURRENCIES[want].tier && offer.conversionRate > 1.0
    ensures IsOfferViable(want, have, offer) == Ok(true)
            <==> !(CURRENCIES[have].tier > CURRENCIES[want].tier && offer.conversionRate > 1.0)
  {
  }

  /** Within one tier every rate is viable. */
  lemma SameTierAlwaysViable(want: string, have: string, offer: Offer)
    requires want in CURRENCIES && have in CURRENCIES
    requires CURRENCIES[want].tier == CURRENCIES[have].tier
    ensures IsOfferViable(want, have, offer) == Ok(true)
  {
  }

  /** Trading a more valuable currency into a cheaper one is never filtered,
      whatever the rate, also below 1: the symmetric rule is disabled. */
  lemma TradingDownAlwaysViable(want: string, have: string, offer: Offer)
    requires want in CURRENCIES && have in CURRENCIES
    requires CURRENCIES[have].tier < CURRENCIES[want].tier
    ensures IsOfferViable(want, have, offer) == Ok(true)
  {
  }

  /** A rate at or below par is viable for every known pair. */
  lemma ParRateAlwaysViable(want: string, have: string, offer: Offer)
    requires want in CURRENCIES && have in CURRENCIES
    requires offer.conversionRate <= 1.0
    ensures IsOfferViable(want, have, offer) == Ok(true)
  {
  }

  /** Trading up a tier above par is rejected. */
  lemma TradingUpAboveParRejected(want: string, have: string, offer: Offer)
    requires want in CURRENCIES && have in CURRENCIES
    requires CURRENCIES[have].tier > CURRENCIES[want].tier && offer.conversionRate > 1.0
    ensures IsOfferViable(want, have, offer) == Ok(false)
  {
  }

  /** A listing whose exact rate is at or below par cannot be pushed above it by
      the 4-digit rounding, so it is viable for every known pair. */
  lemma ParListingViable(want: string, have: string, contactIgn: string, exactRate: real, stock: int)
    requires want in CURRENCIES && have in CURRENCIES
    requires exactRate <= 1.0
    ensures IsOfferViable(want, have, Offer(contactIgn, Round4(exactRate), stock)) == Ok(true)
  {
  }

  ghost predicate Kept(want: string, have: string, o: Offer) {
    IsOfferViable(want, have, o) == Ok(true)
  }

  /** filter_viable_offers: is_offer_viable is evaluated on each offer in turn,
      so an unknown currency is an error only when there is an offer to judge. */
  function FilterViableOffers(want: string, have: string, offers: seq<Offer>): (r: Result<seq<Offer>>)
    ensures r.Err? <==> offers != [] && (have !in CURRENCIES || want !in CURRENCIES)
    ensures r.Err? ==> r.error == UnknownCurrency(if have !in CURRENCIES then have else want)
    ensures r.Ok? ==> IsSubsequence(r.value, offers)
    ensures r.Ok? ==> forall o :: o in r.value <==> o in offers && Kept(want, have, o)
    ensures r.Ok? ==> forall o :: multiset(r.value)[o] == if Kept(want, have, o) then multiset(offers)[o] else 0
  {
    if offers == [] then Ok([])
    else
      match IsOfferViable(want, have, offers[0])
      case Err(e) => Err(e)
      case Ok(keep) =>
        assert offers == [offers[0]] + offers[1..];
        var rest := FilterViableOffers(want, have, offers[1..]).value;
        if keep then
          assert ([offers[0]] + rest)[1..] == rest;
          Ok([offers[0]] + rest)
        else Ok(rest)
  }

  /** Filtering an already filtered list changes nothing. */
  lemma {:induction false} FilterIdempotent(want: string, have: string, offers: seq<Offer>)
    requires FilterViableOffers(want, have, offers).Ok?
    ensures FilterViableOffers(want, have, FilterViableOffers(want, have, offers).value)
            == FilterViableOffers(want, have, offers)
  {
    if offers != [] {
      FilterIdempotent(want, have, offers[1..]);
      var rest := FilterViableOffers(want, have, offers[1..]).value;
      if IsOfferViable(want, have, offers[0]) == Ok(true) {
        assert ([offers[0]] + rest)[0] == offers[0];
        assert ([offers[0]] + rest)[1..] == rest;
      }
    }
  }
}
