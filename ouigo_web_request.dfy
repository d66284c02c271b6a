/** The parsing half of OUIGO/web_request.py: the station suggestion each configured name
    selects, the consistency and price checks on the three result columns, and the rows
    appended to the ledger, all or nothing. The browser is replaced by its outcome: either the
    texts it showed, or the exception it raised before they were read. Whether a price text
    reads as a number is a parameter of the model (`isNumber`), standing for Python's
    `float`. */
module OuigoWebRequest {
  import opened Wrappers
  import opened Text
  import opened ExistingOutput

  /** The texts the OUIGO pages show for one search: the origin and destination
      suggestion lists, and the departure, arrival and price columns of the results. */
  datatype OuigoPage = OuigoPage(originSuggestions: seq<string>, destinationSuggestions: seq<string>,
                                 departures: seq<string>, arrivals: seq<string>, prices: seq<string>)

  /** A suggestion matches a configured station when, both lower-cased, the station's name
      occurs in the suggestion's text. */
  predicate Matches(station: string, suggestion: string)
  {
    Contains(Lower(suggestion), Lower(station))
  }

  /** The suggestion loop: the first matching suggestion is clicked; when none matches, a
      ValueError is raised. */
  method SelectStation(station: string, suggestions: seq<string>) returns (r: Result<nat>)
    ensures r.Ok? ==>
              && r.value < |suggestions| && Matches(station, suggestions[r.value])
              && forall k :: 0 <= k < r.value ==> !Matches(station, suggestions[k])
    ensures r.Err? ==>
              r.error == ValueError && forall k :: 0 <= k < |suggestions| ==> !Matches(station, suggestions[k])
  {
    var needle := Lower(station);
    var i := 0;
    while i < |suggestions|
      invariant 0 <= i <= |suggestions|
      invariant forall k :: 0 <= k < i ==> !Matches(station, suggestions[k])
    {
      if ContainsScan(Lower(suggestions[i]), needle) {
        return Ok(i);
      }
      i := i + 1;
    }
    return Err(ValueError);
  }

  /** The price check: the sold-out text 'tren completo' (any case, trailing whitespace
      ignored) is accepted as it stands; any other text must read as a number once ',' is
      turned into '.' and '€' is removed. */
  predicate PriceAccepted(price: string, isNumber: string -> bool)
  {
    SoldOut(price) || isNumber(NumberText(price))
  }

  /** The sold-out marker: lower-cased and stripped of trailing whitespace, the text is
      'tren completo'. */
  predicate SoldOut(price: string)
  {
    RStrip(Lower(price)) == "tren completo"
  }

  /** One more accepted price extends the accepted prefix. */
  lemma AcceptedStep(prices: seq<string>, i: nat, isNumber: string -> bool)
    requires i < |prices|
    requires forall k :: 0 <= k < i ==> PriceAccepted(prices[k], isNumber)
    requires SoldOut(prices[i]) || isNumber(NumberText(prices[i]))
    ensures forall k :: 0 <= k < i + 1 ==> PriceAccepted(prices[k], isNumber)
  {
  }

  /** The three result columns are consistent: equally long and not empty. */
  predicate Consistent(page: OuigoPage)
  {
    |page.departures| == |page.arrivals| == |page.prices| > 0
  }

  /** The result loop of `ouigo_services`: TimeoutException when the columns differ in
      length or are empty, or when some price is not accepted; otherwise one row per index,
      in index order, with the price text kept as the page showed it. */
  method BuildRows(q: Search, page: OuigoPage, isNumber: string -> bool) returns (r: Result<seq<LedgerRow>>)
    ensures r.Ok? <==>
              Consistent(page) && forall i :: 0 <= i < |page.prices| ==> PriceAccepted(page.prices[i], isNumber)
    ensures r.Err? ==> r.error == TimeoutException
    ensures r.Ok? ==>
              && |r.value| == |page.departures|
              && forall i :: 0 <= i < |r.value| ==>
                   r.value[i] == Found(q, page.departures[i], page.arrivals[i], page.prices[i], "OUIGO")
  {
    if !(|page.departures| == |page.arrivals| == |page.prices|) {
      return Err(TimeoutException);
    } else if |page.departures| == 0 {
      return Err(TimeoutException);
    }
    var rows: seq<LedgerRow> := [];
    var i := 0;
    while i < |page.departures|
      invariant 0 <= i <= |page.departures|
      invariant forall k :: 0 <= k < i ==> PriceAccepted(page.prices[k], isNumber)
      invariant |rows| == i
      invariant forall k :: 0 <= k < i ==>
                  rows[k] == Found(q, page.departures[k], page.arrivals[k], page.prices[k], "OUIGO")
    {
      var price := page.prices[i];
      if SoldOut(price) {
      } else if !isNumber(NumberText(price)) {
        return Err(TimeoutException);
      }
      AcceptedStep(page.prices, i, isNumber);
      rows := rows + [Found(q, page.departures[i], page.arrivals[i], price, "OUIGO")];
      i := i + 1;
    }
    r := Ok(rows);
  }

  /** `ouigo_services` after the browser: select the origin, then the destination (a
      ValueError when either has no matching suggestion), check the results, and append the
      rows' lines to the ledger only once every row passed. */
  method OuigoServices(q: Search, browser: Result<OuigoPage>, isNumber: string -> bool)
    returns (written: Result<seq<string>>)
    ensures browser.Err? ==> written == Err(browser.error)
    ensures browser.Ok? && !Offered(q.origin, browser.value.originSuggestions) ==> written == Err(ValueError)
    ensures (browser.Ok? && Offered(q.origin, browser.value.originSuggestions)
             && !Offered(q.destination, browser.value.destinationSuggestions)) ==> written == Err(ValueError)
    ensures (browser.Ok? && Offered(q.origin, browser.value.originSuggestions)
             && Offered(q.destination, browser.value.destinationSuggestions)) ==>
              var page := browser.value;
              if Consistent(page) && forall i :: 0 <= i < |page.prices| ==> PriceAccepted(page.prices[i], isNumber)
              then written.Ok? && |written.value| == |page.departures|
                   && forall i :: 0 <= i < |page.departures| ==>
                        written.value[i] == RowLine(Found(q, page.departures[i], page.arrivals[i], page.prices[i], "OUIGO"))
              else written == Err(TimeoutException)
  {
    if browser.Err? {
      return Err(browser.error);
    }
    var page := browser.value;
    var origin := SelectStation(q.origin, page.originSuggestions);
    if origin.Err? {
      return Err(origin.error);
    }
    var destination := SelectStation(q.destination, page.destinationSuggestions);
    if destination.Err? {
      return Err(destination.error);
    }
    var rows := BuildRows(q, page, isNumber);
    if rows.Err? {
      return Err(rows.error);
    }
    var lines: seq<string> := [];
    var k := 0;
    while k < |rows.value|
      invariant 0 <= k <= |rows.value|
      invariant |lines| == k
      invariant forall j :: 0 <= j < k ==> lines[j] == RowLine(rows.value[j])
    {
      lines := lines + [RowLine(rows.value[k])];
      k := k + 1;
    }
    written := Ok(lines);
  }

  /** Some suggestion matches the station. */
  predicate Offered(station: string, suggestions: seq<string>)
  {
    exists k :: 0 <= k < |suggestions| && Matches(station, suggestions[k])
  }

  /** The exception kinds `ouigo_services_try` turns into False; ValueError is not one. */
  const OuigoCaught: set<PyError> := {TimeoutException, NoSuchElementException,
    UnexpectedAlertPresentException, ElementNotInteractableException}

  /** `ouigo_services_try`: True when the search completed and wrote its rows, False for the
      kinds it catches; a station missing from the suggestions escapes as ValueError. */
  method OuigoServicesTry(q: Search, browser: Result<OuigoPage>, isNumber: string -> bool)
    returns (found: Result<bool>, written: seq<string>)
    ensures browser.Ok? && !Offered(q.origin, browser.value.originSuggestions) ==> found == Err(ValueError)
    ensures browser.Ok? && !Offered(q.destination, browser.value.destinationSuggestions) ==> found.Err? && found.error == ValueError
    ensures found == Ok(true) <==>
              && browser.Ok? && Offered(q.origin, browser.value.originSuggestions)
              && Offered(q.destination, browser.value.destinationSuggestions)
              && Consistent(browser.value)
              && forall i :: 0 <= i < |browser.value.prices| ==> PriceAccepted(browser.value.prices[i], isNumber)
    ensures found == Ok(false) <==>
              || (browser.Err? && browser.error in OuigoCaught)
              || (browser.Ok? && Offered(q.origin, browser.value.originSuggestions)
                  && Offered(q.destination, browser.value.destinationSuggestions)
                  && !(Consistent(browser.value)
                       && forall i :: 0 <= i < |browser.value.prices| ==> PriceAccepted(browser.value.prices[i], isNumber)))
    ensures found != Ok(true) ==> written == []
    ensures found == Ok(true) ==>
              && |written| == |browser.value.departures|
              && forall i :: 0 <= i < |written| ==>
                   written[i] == RowLine(Found(q, browser.value.departures[i], browser.value.arrivals[i],
                                               browser.value.prices[i], "OUIGO"))
  {
    var outcome := OuigoServices(q, browser, isNumber);
    found := Catch(outcome, OuigoCaught);
    written := if outcome.Ok? then outcome.value else [];
  }
}
