# Currency-flip offer collection, modelled in Dafny

This project models the market-data side of a currency-flip planner for an
online game's trading site. The planner keeps a static table of currencies,
each with a marketplace id and a tier (1 is the most valuable). For each
`(want, have)` pair it fetches the site's listings, parses each listing into
an offer `{contact_ign, conversion_rate, stock}` and keeps the first five.
It then drops the offers that the tier heuristic calls implausible: trading
a cheaper currency into a more valuable one at more than 1:1. A collector
runs this over a list of pairs and returns the bundles in the order of the
pairs. A separate tool names its data snapshots after the current time.

Modules and files:

- `results.dfy` (`Results`): `Option`, `Result` and the `Error` kinds. Each
  error kind matches an exception the Python code can raise. The file also
  has the subsequence predicate.
- `catalog.dfy` (`Catalog`): the currency table, the lookup, and the facts
  about tiers and ids.
- `parser.dfy` (`OfferParser`): parsing a single listing and parsing a whole
  response; the 4-digit rounding.
- `viability.dfy` (`Viability`): the tier rule and the offer filter.
- `acquisition.dfy` (`Acquisition`): the fetch for one pair and the
  order-preserving fetch over many pairs.
- `collector.dfy` (`Collector`): the snapshot file name. It is an imperative
  method with the source's loop over the separators.

The modelled parts of `src/flip.py` are pure, so they are modelled as functions. Each
Python exception becomes an `Err` value. Errors propagate the way the
exceptions do: nothing in the source catches them. The parts that cannot be
modelled directly are parameters of the functions:

- the HTTP request: a `Marketplace` function from a `Query` to the listings
  of the response, or to the error the request raised;
- `float()` and `int()`: functions that return `None` where Python raises
  `ValueError`.

The model follows the code as written:

- A listing that has a stock attribute but a missing or malformed value, or
  a zero buy value, raises an exception. That exception aborts the parse of
  the whole response, the fetch for that pair, and the whole parallel
  collection. The listing is not just skipped. Every row is parsed before
  the cut to five, so a bad sixth listing still aborts.
- A non-2xx HTTP status is not an error: `requests.get` returns, and the
  body is parsed anyway. Only exceptions raised by the request become
  `TransportFailure`.
- A zero buy value is Python's `ZeroDivisionError`, modelled as
  `ZeroBuyValue`.
- The offer record has only the three fields the code builds. It does not
  carry want, have or league; the bundle carries those.

## Model

| member | source | states |
|---|---|---|
| Catalog.Lookup | src/flip.py:121-122 | a name gives its table entry exactly when it is in the table; any other name is `UnknownCurrency(name)` (KeyError) |
| Catalog.TiersInRange | src/flip.py:41-110 | every tier in the table is 1, 2 or 3 |
| Catalog.IdsDistinct | src/flip.py:41-110 | no two currencies share a marketplace id |
| OfferParser.Round4 | src/flip.py:205 | the rounded rate is a multiple of 1/10000 within 1/20000 of the exact rate |
| OfferParser.Round4KeepsPar | src/flip.py:205 | rounding keeps a rate at or below 1 at or below 1, and a rate above 1 at or above 1 |
| OfferParser.Round4Exact | src/flip.py:205 | a rate with at most four decimals is unchanged by rounding |
| OfferParser.ParseConversionOffer | src/flip.py:198-212 | no `data-stock` gives `None` (and only then); otherwise, in the source's order: a missing or malformed sell or buy value is an error, a zero buy value is `ZeroBuyValue`, a malformed `data-stock` is `MalformedNumber(data-stock)`, a missing `data-ign` is `MissingAttribute(data-ign)`; an offer has `stock` = int(data-stock), `contact_ign` = data-ign and rate = round(sell/buy, 4) |
| OfferParser.WellFormedListingParses | src/flip.py:203-212 | a listing with all four attributes well formed and a non-zero buy value always yields an offer |
| OfferParser.ParseExample | src/flip.py:203-211 | stock "12", sell 3.0, buy 2.0 parse to rate 1.5 and stock 12 |
| OfferParser.ParseAll | src/flip.py:194 | every listing is parsed in order; success exactly when every listing parses, with result i the parse of listing i; otherwise the error of the first listing that fails |
| OfferParser.Present | src/flip.py:195 | dropping the `None` entries gives a subsequence of the `Some` entries, in order, whose length is the number of `Some` entries, so all of them are kept; an offer is in it exactly when it was parsed |
| OfferParser.PresentCounts | src/flip.py:195 | each offer occurs in the result exactly as often as it was parsed |
| OfferParser.ParseConversionOffers | src/flip.py:191-195 | fails exactly when some listing fails to parse, with that error; otherwise at most 5 offers, the first min(5, k) of the k parsed offers in document order |
| OfferParser.InactiveListingIgnored | src/flip.py:194-201 | inserting a listing without `data-stock` anywhere in the response does not change the result |
| OfferParser.PresentAllIgnoresInactive | src/flip.py:194-201 | the same, one level down: the inactive listing changes neither the error nor the present offers of the full parse |
| Viability.IsOfferViable | src/flip.py:168-185 | `have` is looked up before `want` (KeyError for the first missing one); for known names the verdict is the one-sided tier rule |
| Viability.RejectedIff | src/flip.py:176-185 | for known names: rejected exactly when tier(have) > tier(want) and the rate is above 1; accepted exactly otherwise |
| Viability.SameTierAlwaysViable | src/flip.py:176-185 | within one tier every rate is viable |
| Viability.TradingDownAlwaysViable | src/flip.py:179-185 | when tier(have) < tier(want) every rate is viable, including rates below 1: the symmetric rule is disabled |
| Viability.ParRateAlwaysViable | src/flip.py:176-177 | a rate at most 1 is viable for every known pair |
| Viability.TradingUpAboveParRejected | src/flip.py:176-177 | from a numerically higher tier into a lower one, a rate above 1 is rejected |
| Viability.ParListingViable | src/flip.py:176-177 | a listing whose exact sell/buy ratio is at most 1 stays viable after the 4-digit rounding |
| Viability.FilterViableOffers | src/flip.py:160-161 | an unknown currency is an error exactly when there is an offer to judge; otherwise the result is an order-preserving subsequence that keeps each viable offer with its full multiplicity and drops every other |
| Viability.FilterIdempotent | src/flip.py:161 | filtering the filtered offers again gives the same result |
| Acquisition.SearchQuery | src/flip.py:119-124 | the query carries the league, the table ids of want and have, and online = true |
| Acquisition.ParsedResponse | src/flip.py:126-127 | a request that raises gives its error; otherwise the parse of the response's listings, at most 5 offers |
| Acquisition.FetchConversionOffers | src/flip.py:117-135 | an unknown want, then an unknown have, is an error; otherwise it succeeds exactly when the request and the parse do, with their error if not; the bundle echoes league, want and have and holds exactly `FilterViableOffers(want, have, parsed offers)`: at most 5 offers, an order-preserving subsequence of the parsed offers that holds exactly the viable ones |
| Acquisition.FetchParams | src/flip.py:149 | one argument triple per pair, `(league, want, have)`, in order |
| Results.Collect | src/flip.py:153 | a list of results collected in order: all values exactly when every result is a value, with value i from result i; otherwise the error of the first failure by position |
| Acquisition.CollectInOrder | src/flip.py:151-154 | `executor.map(fetch, params)` collected in submission order: success exactly when every fetch succeeds, with result i the fetch of triple i; otherwise the error of the first failed fetch by position |
| Acquisition.ParallelFetchConversionOffers | src/flip.py:139-154 | one bundle per pair; bundle i is the fetch for pair i and echoes its want, have and the league; on failure it has the error of the first failing pair in input order |
| Collector.BeforeFirstDot | data_analysis/collector.py:8 | the result is a prefix of the text with no `.`, and ends either at the end of the text or right before its first `.` |
| Collector.BeforeFirstDotSplit | data_analysis/collector.py:8 | for a text `head + "." + tail` with no `.` in `head`, the prefix is exactly `head` |
| Collector.ReplaceChar | data_analysis/collector.py:10 | same length; each occurrence of the old character becomes the new one and every other character stays in place |
| Collector.Sanitized | data_analysis/collector.py:9-10 | the replacement of all three separators keeps the length |
| Collector.GenFilename | data_analysis/collector.py:7-11 | the loop over `-`, `:`, space produces the sanitized prefix followed by `.pickle` |
| Collector.FilenameShape | data_analysis/collector.py:8-11 | the name ends with `.pickle`; the stem has the prefix's length; separators become `_` and other characters stay in place; the stem has no separator and no `.` |
| Collector.SanitizedIdempotent | data_analysis/collector.py:9-10 | running the replacements over an already processed stem changes nothing |
| Collector.Example | data_analysis/collector.py:7-11 | "2018-06-01 12:34:56.789012" becomes "2018_06_01_12_34_56.pickle" |

## Left out

- The HTTP request, its URL and the `requests` library: the network is the `Marketplace` parameter.
- HTML parsing with BeautifulSoup and `find_all(class_="displayoffer")`: the response is given directly as the list of listing attribute maps, in document order.
- The thread pool with 20 workers: only its result is modelled, the results collected in input order, run one after another. Completion order and concurrency are not modelled. In the source, once one result raises, the result iterator of `executor.map` cancels the futures that have not started, so with more than 20 pairs some later fetches may never run. The model does not say which fetches run; it gives only the error that `list()` raises first.
- Floating point: rates are exact rationals. `Round4` rounds half to even on the exact quotient. It does not model the binary representation error of Python floats.
- `float()` and `int()` parsing of the attribute text: parameters that give `None` where Python raises `ValueError`.
- Infinities and NaN: `float()` accepts `"inf"` and `"nan"`, and `sell/buy` can overflow to infinity. A `real` cannot express these values. In the source a NaN rate passes `is_offer_viable`, because `nan > 1` is false; the model does not capture that case.
- The unused inner `build_params` in the parallel fetch: dead code.
- `run()` in the collector: argument parsing, the path-finder class, pickling and file writing. `src/pathfinder.py` is not part of this model.
- `datetime.now()`: the timestamp text `str(datetime.now())` is the parameter of `GenFilename`.
