/** Turning marketplace listings into conversion offers (parse_conversion_offer
    and parse_conversion_offers).

    A listing fragment is the attribute dictionary of one `displayoffer`
    element; the HTML document itself is given as the sequence of those
    fragments, in document order. The numeric conversions `float()` and
    `int()` are parameters: they return None where Python raises ValueError. */
module OfferParser {
  import opened Results

  type Fragment = map<string, string>

  /** One willingness to trade, as the dictionary the parser builds. */
  datatype Offer = Offer(contactIgn: string, conversionRate: real, stock: int)

  const STOCK := "data-stock"
  const SELL_VALUE := "data-sellvalue"
  const BUY_VALUE := "data-buyvalue"
  const IGN := "data-ign"

  /** The parsed list is cut to its first five entries. */
  const MAX_OFFERS := 5

  /** round(x, 4) on an exact rational: to the nearest multiple of 1/10000,
      ties to the even multiple. */
  function Round4(x: real): (r: real)
    ensures (r * 10000.0).Floor as real == r * 10000.0
    ensures -0.00005 <= r - x <= 0.00005
  {
    var scaled := x * 10000.0;
    var f := scaled.Floor;
    var frac := scaled - f as real;
    var n := if frac < 0.5 then f
             else if frac > 0.5 then f + 1
             else if f % 2 == 0 then f else f + 1;
    n as real / 10000.0
  }

  /** Rounding never moves a rate across par: at or below 1 stays at or below 1,
      above 1 stays at or above 1. */
  lemma Round4KeepsPar(x: real)
    ensures x <= 1.0 ==> Round4(x) <= 1.0
    ensures x > 1.0 ==> Round4(x) >= 1.0
  {
  }

  /** A rate that already has at most four decimal places is kept as it is. */
  lemma Round4Exact(k: int)
    ensures Round4(k as real / 10000.0) == k as real / 10000.0
  {
  }

  predicate HasNumber(fragment: Fragment, attr: string, parse: string -> Option<real>) {
    attr in fragment && parse(fragment[attr]).Some?
  }

  /** Parsing one listing: inactive listings (no stock attribute) give None;
      otherwise every attribute is read, in the order the Python code reads them,
      and the first failure is the error. */
  function ParseConversionOffer(fragment: Fragment, parseFloat: string -> Option<real>,
                                parseInt: string -> Option<int>): (r: Result<Option<Offer>>)
    ensures STOCK !in fragment ==> r == Ok(None)
    ensures r == Ok(None) ==> STOCK !in fragment
    ensures STOCK in fragment && !HasNumber(fragment, SELL_VALUE, parseFloat) ==>
      r == Err(if SELL_VALUE in fragment then MalformedNumber(SELL_VALUE) else MissingAttribute(SELL_VALUE))
    ensures STOCK in fragment && HasNumber(fragment, SELL_VALUE, parseFloat) && !HasNumber(fragment, BUY_VALUE, parseFloat) ==>
      r == Err(if BUY_VALUE in fragment then MalformedNumber(BUY_VALUE) else MissingAttribute(BUY_VALUE))
    ensures (&& STOCK in fragment
             && HasNumber(fragment, SELL_VALUE, parseFloat) && HasNumber(fragment, BUY_VALUE, parseFloat)
             && parseFloat(fragment[BUY_VALUE]).value == 0.0) ==> r == Err(ZeroBuyValue)
    ensures (&& STOCK in fragment
             && HasNumber(fragment, SELL_VALUE, parseFloat) && HasNumber(fragment, BUY_VALUE, parseFloat)
             && parseFloat(fragment[BUY_VALUE]).value != 0.0
             && parseInt(fragment[STOCK]).None?) ==> r == Err(MalformedNumber(STOCK))
    ensures (&& STOCK in fragment
             && HasNumber(fragment, SELL_VALUE, parseFloat) && HasNumber(fragment, BUY_VALUE, parseFloat)
             && parseFloat(fragment[BUY_VALUE]).value != 0.0
             && parseInt(fragment[STOCK]).Some? && IGN !in fragment) ==> r == Err(MissingAttribute(IGN))
    ensures r.Ok? && r.value.Some? ==>
      && HasNumber(fragment, SELL_VALUE, parseFloat) && HasNumber(fragment, BUY_VALUE, parseFloat)
      && parseFloat(fragment[BUY_VALUE]).value != 0.0
      && STOCK in fragment && parseInt(fragment[STOCK]) == Some(r.value.value.stock)
      && IGN in fragment && r.value.value.contactIgn == fragment[IGN]
      && r.value.value.conversionRate
         == Round4(parseFloat(fragment[SELL_VALUE]).value / parseFloat(fragment[BUY_VALUE]).value)
  {
    if STOCK !in fragment then Ok(None)
    else if SELL_VALUE !in fragment then Err(MissingAttribute(SELL_VALUE))
    else if parseFloat(fragment[SELL_VALUE]).None? then Err(MalformedNumber(SELL_VALUE))
    else if BUY_VALUE !in fragment then Err(MissingAttribute(BUY_VALUE))
    else if parseFloat(fragment[BUY_VALUE]).None? then Err(MalformedNumber(BUY_VALUE))
    else
      var sellValue := parseFloat(fragment[SELL_VALUE]).value;
      var buyValue := parseFloat(fragment[BUY_VALUE]).value;
      if buyValue == 0.0 then Err(ZeroBuyValue)
      else
        var rate := Round4(sellValue / buyValue);
        if parseInt(fragment[STOCK]).None? then Err(MalformedNumber(STOCK))
        else if IGN !in fragment then Err(MissingAttribute(IGN))
        else Ok(Some(Offer(fragment[IGN], rate, parseInt(fragment[STOCK]).value)))
  }

  /** A listing carrying every attribute with well-formed values and a non-zero
      buy value parses to an offer (the other direction of the contract above). */
  lemma WellFormedListingParses(fragment: Fragment, parseFloat: string -> Option<real>,
                                parseInt: string -> Option<int>)
    requires STOCK in fragment && IGN in fragment && parseInt(fragment[STOCK]).Some?
    requires HasNumber(fragment, SELL_VALUE, parseFloat) && HasNumber(fragment, BUY_VALUE, parseFloat)
    requires parseFloat(fragment[BUY_VALUE]).value != 0.0
    ensures ParseConversionOffer(fragment, parseFloat, parseInt).Ok?
    ensures ParseConversionOffer(fragment, parseFloat, parseInt).value.Some?
  {
  }

  /** stock "12", sell value 3.0 and buy value 2.0 give stock 12 at rate 1.5. */
  lemma ParseExample(parseFloat: string -> Option<real>, parseInt: string -> Option<int>)
    requires parseInt("12") == Some(12)
    requires parseFloat("3.0") == Some(3.0) && parseFloat("2.0") == Some(2.0)
    ensures ParseConversionOffer(map[STOCK := "12", SELL_VALUE := "3.0", BUY_VALUE := "2.0", IGN := "seller"],
                                 parseFloat, parseInt)
            == Ok(Some(Offer("seller", 1.5, 12)))
  {
  }

  /** Every listing parsed in order: the first failing listing gives the error. */
  function ParseAll(rows: seq<Fragment>, parseFloat: string -> Option<real>,
                    parseInt: string -> Option<int>): (r: Result<seq<Option<Offer>>>)
    ensures r.Ok? <==> forall i | 0 <= i < |rows| :: ParseConversionOffer(rows[i], parseFloat, parseInt).Ok?
    ensures r.Ok? ==> |r.value| == |rows|
    ensures r.Ok? ==> forall i | 0 <= i < |rows| :: ParseConversionOffer(rows[i], parseFloat, parseInt) == Ok(r.value[i])
    ensures r.Err? ==> exists i | 0 <= i < |rows| ::
      && ParseConversionOffer(rows[i], parseFloat, parseInt) == Err(r.error)
      && forall j | 0 <= j < i :: ParseConversionOffer(rows[j], parseFloat, parseInt).Ok?
  {
    if rows == [] then Ok([])
    else
      match ParseConversionOffer(rows[0], parseFloat, parseInt)
      case Err(e) => Err(e)
      case Ok(first) =>
        match ParseAll(rows[1..], parseFloat, parseInt)
        case Err(e) =>
          ghost var i :| 0 <= i < |rows| - 1 && ParseConversionOffer(rows[1..][i], parseFloat, parseInt) == Err(e)
            && forall j | 0 <= j < i :: ParseConversionOffer(rows[1..][j], parseFloat, parseInt).Ok?;
          assert rows[1..][i] == rows[i + 1];
          assert ParseConversionOffer(rows[i + 1], parseFloat, parseInt) == Err(e);
          Err(e)
        case Ok(rest) => Ok([first] + rest)
  }

  /** The parsed offers without the skipped (None) entries, in order. */
  function Present(parsed: seq<Option<Offer>>): (r: seq<Offer>)
    ensures |r| <= |parsed|
    ensures forall o :: o in r <==> Some(o) in parsed
    ensures IsSubsequence(seq(|r|, i requires 0 <= i < |r| => Some(r[i])), parsed)
    ensures |r| == |parsed| - multiset(parsed)[None]
  {
    if parsed == [] then []
    else
      var rest := Present(parsed[1..]);
      assert parsed == [parsed[0]] + parsed[1..];
      assert multiset(parsed) == multiset{parsed[0]} + multiset(parsed[1..]);
      match parsed[0]
      case None => rest
      case Some(o) =>
        var r := [o] + rest;
        assert seq(|r|, i requires 0 <= i < |r| => Some(r[i]))[1..] == seq(|rest|, i requires 0 <= i < |rest| => Some(rest[i]));
        r
  }

  /** Present keeps every parsed offer as often as it was parsed. */
  lemma {:induction false} PresentCounts(parsed: seq<Option<Offer>>)
    ensures forall o :: multiset(Present(parsed))[o] == multiset(parsed)[Some(o)]
  {
    if parsed != [] {
      PresentCounts(parsed[1..]);
      assert parsed == [parsed[0]] + parsed[1..];
      assert multiset(parsed) == multiset{parsed[0]} + multiset(parsed[1..]);
      var rest := Present(parsed[1..]);
      if parsed[0].Some? {
        assert Present(parsed) == [parsed[0].value] + rest;
        assert multiset([parsed[0].value] + rest) == multiset{parsed[0].value} + multiset(rest);
      }
    }
  }

  /** The whole of parse_conversion_offers: all listings are parsed (so a
      malformed listing anywhere is an error), inactive ones are dropped and
      the first five offers are kept. */
  function ParseConversionOffers(rows: seq<Fragment>, parseFloat: string -> Option<real>,
                                 parseInt: string -> Option<int>): (r: Result<seq<Offer>>)
    ensures r.Ok? <==> ParseAll(rows, parseFloat, parseInt).Ok?
    ensures r.Err? ==> r.error == ParseAll(rows, parseFloat, parseInt).error
    ensures r.Ok? ==> |r.value| <= MAX_OFFERS
    ensures r.Ok? ==>
      var present := Present(ParseAll(rows, parseFloat, parseInt).value);
      r.value == present[..Min(MAX_OFFERS, |present|)]
  {
    match ParseAll(rows, parseFloat, parseInt)
    case Err(e) => Err(e)
    case Ok(parsed) =>
      var present := Present(parsed);
      Ok(present[..Min(MAX_OFFERS, |present|)])
  }

  /** An inactive listing anywhere in the document changes nothing. */
  lemma {:induction false} InactiveListingIgnored(before: seq<Fragment>, fragment: Fragment, after: seq<Fragment>,
                                                 parseFloat: string -> Option<real>, parseInt: string -> Option<int>)
    requires STOCK !in fragment
    ensures ParseConversionOffers(before + [fragment] + after, parseFloat, parseInt)
            == ParseConversionOffers(before + after, parseFloat, parseInt)
  {
    PresentAllIgnoresInactive(before, fragment, after, parseFloat, parseInt);
  }

  lemma {:induction false} PresentAllIgnoresInactive(before: seq<Fragment>, fragment: Fragment, after: seq<Fragment>,
                                                    parseFloat: string -> Option<real>, parseInt: string -> Option<int>)
    requires STOCK !in fragment
    ensures ParseAll(before + [fragment] + after, parseFloat, parseInt).Err?
            == ParseAll(before + after, parseFloat, parseInt).Err?
    ensures ParseAll(before + [fragment] + after, parseFloat, parseInt).Err? ==>
            ParseAll(before + [fragment] + after, parseFloat, parseInt).error
            == ParseAll(before + after, parseFloat, parseInt).error
    ensures ParseAll(before + [fragment] + after, parseFloat, parseInt).Ok? ==>
            Present(ParseAll(before + [fragment] + after, parseFloat, parseInt).value)
            == Present(ParseAll(before + after, parseFloat, parseInt).value)
  {
    if before == [] {
      assert before + [fragment] + after == [fragment] + after;
      assert ([fragment] + after)[1..] == after;
      assert before + after == after;
      match ParseAll(after, parseFloat, parseInt)
      case Err(e) =>
      case Ok(rest) =>
        assert ([None] + rest)[1..] == rest;
    } else {
      var head := before[0];
      assert before + [fragment] + after == [head] + (before[1..] + [fragment] + after);
      assert before + after == [head] + (before[1..] + after);
      assert ([head] + (before[1..] + [fragment] + after))[1..] == before[1..] + [fragment] + after;
      assert ([head] + (before[1..] + after))[1..] == before[1..] + after;
      PresentAllIgnoresInactive(before[1..], fragment, after, parseFloat, parseInt);
      match ParseConversionOffer(head, parseFloat, parseInt)
      case Err(e) =>
      case Ok(first) =>
        match ParseAll(before[1..] + after, parseFloat, parseInt)
        case Err(e) =>
        case Ok(rest) =>
          var rest' := ParseAll(before[1..] + [fragment] + after, parseFloat, parseInt).value;
          assert ([first] + rest)[1..] == rest;
          assert ([first] + rest')[1..] == rest';
    }
  }
}
