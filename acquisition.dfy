/** Fetching the offers for one currency pair (fetch_conversion_offers) and for
    a list of pairs (parallel_fetch_conversion_offers).

    The marketplace is a parameter: it answers a search query with the
    `displayoffer` listings of the response document, or with the exception
    the HTTP request raised. */
module Acquisition {
  import opened Results
  import opened Catalog
  import opened OfferParser
  import opened Viability

  /** The query parameters of one search request. */
  datatype Query = Query(league: string, want: nat, have: nat, online: bool)

  type Marketplace = Query -> Result<seq<Fragment>>

  /** The dictionary fetch_conversion_offers returns. */
  datatype Bundle = Bundle(offers: seq<Offer>, want: string, have: string, league: string)

  /** The search query for a pair: ids from the table, online sellers only. */
  function SearchQuery(league: string, want: string, have: string): (q: Query)
    requires want in CURRENCIES && have in CURRENCIES
    ensures q.league == league && q.online
    ensures q.want == CURRENCIES[want].id && q.have == CURRENCIES[have].id
  {
    Query(league, CURRENCIES[want].id, CURRENCIES[have].id, true)
  }

  /** The parse of the marketplace's answer to the pair's query. */
  function ParsedResponse(market: Marketplace, parseFloat: string -> Option<real>, parseInt: string -> Option<int>,
                          league: string, want: string, have: string): (r: Result<seq<Offer>>)
    requires want in CURRENCIES && have in CURRENCIES
    ensures market(SearchQuery(league, want, have)).Err? ==> r == Err(market(SearchQuery(league, want, have)).error)
    ensures market(SearchQuery(league, want, have)).Ok? ==>
      r == ParseConversionOffers(market(SearchQuery(league, want, have)).value, parseFloat, parseInt)
    ensures r.Ok? ==> |r.value| <= MAX_OFFERS
  {
    match market(SearchQuery(league, want, have))
    case Err(e) => Err(e)
    case Ok(rows) => ParseConversionOffers(rows, parseFloat, parseInt)
  }

  /** fetch_conversion_offers: look up `want`, then `have`, send one request,
      parse the answer (at most five offers) and keep the viable ones. */
  function FetchConversionOffers(market: Marketplace, parseFloat: string -> Option<real>,
                                 parseInt: string -> Option<int>,
                                 league: string, want: string, have: string): (r: Result<Bundle>)
    ensures want !in CURRENCIES ==> r == Err(UnknownCurrency(want))
    ensures want in CURRENCIES && have !in CURRENCIES ==> r == Err(UnknownCurrency(have))
    ensures want in CURRENCIES && have in CURRENCIES ==>
      (r.Ok? <==> ParsedResponse(market, parseFloat, parseInt, league, want, have).Ok?)
    ensures want in CURRENCIES && have in CURRENCIES && r.Err? ==>
      r.error == ParsedResponse(market, parseFloat, parseInt, league, want, have).error
    ensures r.Ok? ==> r.value.want == want && r.value.have == have && r.value.league == league
    ensures r.Ok? ==> |r.value.offers| <= MAX_OFFERS
    ensures r.Ok? ==>
      && want in CURRENCIES && have in CURRENCIES
      && IsSubsequence(r.value.offers, ParsedResponse(market, parseFloat, parseInt, league, want, have).value)
    ensures r.Ok? ==>
      r.value.offers == FilterViableOffers(want, have, ParsedResponse(market, parseFloat, parseInt, league, want, have).value).value
    ensures r.Ok? ==> forall o :: o in r.value.offers <==>
      o in ParsedResponse(market, parseFloat, parseInt, league, want, have).value && IsOfferViable(want, have, o) == Ok(true)
  {
    if want !in CURRENCIES then Err(UnknownCurrency(want))
    else if have !in CURRENCIES then Err(UnknownCurrency(have))
    else
      match ParsedResponse(market, parseFloat, parseInt, league, want, have)
      case Err(e) => Err(e)
      case Ok(offers) =>
        var viable := FilterViableOffers(want, have, offers).value;
        SubsequenceLength(viable, offers);
        Ok(Bundle(viable, want, have, league))
  }

  /** The argument triples built from the shared league and each pair. */
  function FetchParams(league: string, pairs: seq<(string, string)>): (params: seq<(string, string, string)>)
    ensures |params| == |pairs|
    ensures forall i | 0 <= i < |pairs| :: params[i] == (league, pairs[i].0, pairs[i].1)
  {
    seq(|pairs|, i requires 0 <= i < |pairs| => (league, pairs[i].0, pairs[i].1))
  }

  /** executor.map(fetch, params) collected by list(): the results in
      submission order, or the error of the first failed fetch by position,
      which is the first one list() raises. */
  function CollectInOrder(fetch: ((string, string, string)) -> Result<Bundle>,
                          params: seq<(string, string, string)>): (r: Result<seq<Bundle>>)
    ensures r.Ok? <==> forall i | 0 <= i < |params| :: fetch(params[i]).Ok?
    ensures r.Ok? ==> |r.value| == |params|
    ensures r.Ok? ==> forall i | 0 <= i < |params| :: Ok(r.value[i]) == fetch(params[i])
    ensures r.Err? ==> exists i | 0 <= i < |params| ::
      && fetch(params[i]) == Err(r.error)
      && forall j | 0 <= j < i :: fetch(params[j]).Ok?
  {
    var results := seq(|params|, i requires 0 <= i < |params| => fetch(params[i]));
    assert forall i | 0 <= i < |params| :: results[i] == fetch(params[i]);
    Collect(results)
  }

  /** parallel_fetch_conversion_offers, run sequentially: one bundle per pair,
      in the order of the pairs, or the error of the first pair that failed. */
  function ParallelFetchConversionOffers(market: Marketplace, parseFloat: string -> Option<real>,
                                         parseInt: string -> Option<int>,
                                         league: string, pairs: seq<(string, string)>): (r: Result<seq<Bundle>>)
    ensures r.Ok? <==> forall i | 0 <= i < |pairs| ::
      FetchConversionOffers(market, parseFloat, parseInt, league, pairs[i].0, pairs[i].1).Ok?
    ensures r.Ok? ==> |r.value| == |pairs|
    ensures r.Ok? ==> forall i | 0 <= i < |pairs| ::
      Ok(r.value[i]) == FetchConversionOffers(market, parseFloat, parseInt, league, pairs[i].0, pairs[i].1)
    ensures r.Ok? ==> forall i | 0 <= i < |pairs| ::
      r.value[i].want == pairs[i].0 && r.value[i].have == pairs[i].1 && r.value[i].league == league
    ensures r.Err? ==> exists i | 0 <= i < |pairs| ::
      && FetchConversionOffers(market, parseFloat, parseInt, league, pairs[i].0, pairs[i].1) == Err(r.error)
      && forall j | 0 <= j < i :: FetchConversionOffers(market, parseFloat, parseInt, league, pairs[j].0, pairs[j].1).Ok?
  {
    var params := FetchParams(league, pairs);
    CollectInOrder((p: (string, string, string)) => FetchConversionOffers(market, parseFloat, parseInt, p.0, p.1, p.2), params)
  }
}
