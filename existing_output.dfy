/** The output ledger of common/existing_output.py: its header, the request planner (the
    cross product of station pairs and travel dates) and the filter that skips requests
    already answered on the same search date. The ledger file is a sequence of rows and a
    flag saying whether the file exists. */
module ExistingOutput {
  import opened Wrappers
  import opened Text

  /** Column names of the pipe-delimited ledger, in file order. */
  const LedgerFields: seq<string> := ["origin_station", "destination_station", "travel_date",
    "departure_time", "arrival_time", "price", "company", "search_date", "search_time"]

  /** One train service, as one ledger line holds it. */
  datatype LedgerRow = LedgerRow(origin: string, destination: string, travelDate: string,
                                 departureTime: string, arrivalTime: string, price: string,
                                 company: string, searchDate: string, searchTime: string)

  /** A request: origin station, destination station, travel date and search date. */
  datatype Request = Request(origin: string, destination: string, travelDate: string,
                             searchDate: string)

  /** An (origin, destination) pair of the configuration. */
  datatype StationPair = StationPair(origin: string, destination: string)

  /** One search as the scrapers run it: the stations and travel date asked for, and the
      date and time of the search that every row found is stamped with. */
  datatype Search = Search(origin: string, destination: string, travelDate: string,
                           searchDate: string, searchTime: string)

  /** The ledger row a scraper builds for one service found by `q`. */
  function Found(q: Search, departure: string, arrival: string, price: string, company: string): LedgerRow
  {
    LedgerRow(q.origin, q.destination, q.travelDate, departure, arrival, price, company,
              q.searchDate, q.searchTime)
  }

  /** The search time stamp: hour and minute, each zero-padded to two digits, joined by ':'. */
  function SearchTime(hour: nat, minute: nat): (t: string)
    requires hour < 24 && minute < 60
    ensures |t| == 5 && t[2] == ':'
    ensures ParseInt(t[..2]) == Some(hour) && ParseInt(t[3..]) == Some(minute)
  {
    var h, m := ZFill(DecimalString(hour), 2), ZFill(DecimalString(minute), 2);
    ParseZFill2(hour);
    ParseZFill2(minute);
    ColonFields(h, m);
    h + [':'] + m
  }

  lemma ColonFields(a: string, b: string)
    requires |a| == 2 && |b| == 2
    ensures var t := a + [':'] + b; |t| == 5 && t[2] == ':' && t[..2] == a && t[3..] == b
  {
    var t := a + [':'] + b;
    assert t[..2] == a && t[3..] == b;
  }

  /** How a price text is handed to `float`: ',' turned into '.', then every '€' removed;
      a text without '€' only has its commas turned into points. */
  function NumberText(price: string): (t: string)
    ensures '€' !in t && ',' !in t
    ensures '€' !in price ==> t == ReplaceChar(price, ',', '.')
  {
    var t := RemoveChar(ReplaceChar(price, ',', '.'), '€');
    assert ',' !in t by {
      RemoveCharKeeps(ReplaceChar(price, ',', '.'), '€', ',');
    }
    assert '€' !in price ==> '€' !in ReplaceChar(price, ',', '.') by {
      if '€' !in price {
        RemoveCharKeeps(price, ',', '€');
        forall i | 0 <= i < |price|
          ensures ReplaceChar(price, ',', '.')[i] != '€'
        {
        }
      }
    }
    t
  }

  /** The normalisation works character by character: '€' is dropped, ',' becomes '.', and
      every other character is kept, in order. */
  lemma NumberTextPieces(a: string, b: string)
    ensures NumberText(a + b) == NumberText(a) + NumberText(b)
    ensures forall c :: NumberText([c]) == if c == '€' then [] else if c == ',' then ['.'] else [c]
  {
    ReplaceCharAppend(a, b, ',', '.');
    RemoveCharAppend(ReplaceChar(a, ',', '.'), ReplaceChar(b, ',', '.'), '€');
    forall c
      ensures NumberText([c]) == if c == '€' then [] else if c == ',' then ['.'] else [c]
    {
      ReplaceCharAppend([c], [], ',', '.');
      RemoveCharAppend(ReplaceChar([c], ',', '.'), [], '€');
    }
  }

  /** The values of a row in ledger column order. */
  function Fields(row: LedgerRow): (fs: seq<string>)
    ensures |fs| == |LedgerFields|
  {
    [row.origin, row.destination, row.travelDate, row.departureTime, row.arrivalTime,
     row.price, row.company, row.searchDate, row.searchTime]
  }

  /** A value that can stand in a ledger column without breaking the line apart. */
  predicate PlainField(s: string)
  {
    '|' !in s && '\n' !in s
  }

  predicate PlainRow(row: LedgerRow)
  {
    forall i :: 0 <= i < |Fields(row)| ==> PlainField(Fields(row)[i])
  }

  /** The line the scrapers append for a row: the values joined by '|', then a newline. */
  function RowLine(row: LedgerRow): string
  {
    Join(Fields(row), '|') + "\n"
  }

  /** How the ledger reader sees one line: the text before the newline split on '|', nine
      values for the nine columns; anything else is not a row. */
  function ReadRow(line: string): Option<LedgerRow>
  {
    if line == [] || line[|line| - 1] != '\n' then None
    else
      var vs := Split(line[..|line| - 1], '|');
      if |vs| != 9 then None
      else Some(LedgerRow(vs[0], vs[1], vs[2], vs[3], vs[4], vs[5], vs[6], vs[7], vs[8]))
  }

  /** A row written by a scraper reads back as the same row. */
  lemma RowLineReadBack(row: LedgerRow)
    requires PlainRow(row)
    ensures ReadRow(RowLine(row)) == Some(row)
  {
    var line := RowLine(row);
    assert line[..|line| - 1] == Join(Fields(row), '|');
    SplitJoin(Fields(row), '|');
  }

  lemma LedgerFieldsPlain()
    ensures forall i :: 0 <= i < |LedgerFields| ==> '|' !in LedgerFields[i]
  {
    forall i | 0 <= i < |LedgerFields|
      ensures '|' !in LedgerFields[i]
    {
      var f := LedgerFields[i];
      assert forall k :: 0 <= k < |f| ==> f[k] != '|';
    }
  }

  /** `initialize_output_file`: the header line, the nine column names joined by '|'; read
      back, it names exactly those columns. */
  function InitializeOutputFile(): (text: string)
    ensures |text| > 0 && text[|text| - 1] == '\n'
    ensures Split(text[..|text| - 1], '|') == LedgerFields
  {
    var text := Join(LedgerFields, '|') + "\n";
    LedgerFieldsPlain();
    SplitJoin(LedgerFields, '|');
    assert text[..|text| - 1] == Join(LedgerFields, '|');
    text
  }

  /** The request a ledger row answers. */
  function Key(row: LedgerRow): Request
  {
    Request(row.origin, row.destination, row.travelDate, row.searchDate)
  }

  /** The set of requests the ledger already answers. */
  function LedgerKeys(ledger: seq<LedgerRow>): set<Request>
  {
    if ledger == [] then {} else LedgerKeys(ledger[..|ledger| - 1]) + {Key(ledger[|ledger| - 1])}
  }

  lemma {:induction false} LedgerKeysSpec(ledger: seq<LedgerRow>, q: Request)
    ensures q in LedgerKeys(ledger) <==> exists i :: 0 <= i < |ledger| && Key(ledger[i]) == q
  {
    if ledger != [] {
      var front := ledger[..|ledger| - 1];
      LedgerKeysSpec(front, q);
      if exists i :: 0 <= i < |front| && Key(front[i]) == q {
        var i :| 0 <= i < |front| && Key(front[i]) == q;
        assert Key(ledger[i]) == q;
      }
      if exists i :: 0 <= i < |ledger| && Key(ledger[i]) == q {
        var i :| 0 <= i < |ledger| && Key(ledger[i]) == q;
        if i < |front| {
          assert Key(front[i]) == q;
        }
      }
    }
  }

  /** The requests of `s` that `answered` does not hold, in order, duplicates kept. */
  function Fresh(s: seq<Request>, answered: set<Request>): seq<Request>
  {
    if s == [] then []
    else
      var rest := Fresh(s[..|s| - 1], answered);
      if s[|s| - 1] in answered then rest else rest + [s[|s| - 1]]
  }

  /** `discard_existing_services`: the key set of the ledger is built first, then every
      request not in it is kept. */
  method DiscardExistingServices(services: seq<Request>, ledger: seq<LedgerRow>)
    returns (remaining: seq<Request>)
    ensures remaining == Fresh(services, LedgerKeys(ledger))
  {
    var existing: set<Request> := {};
    var i := 0;
    while i < |ledger|
      invariant 0 <= i <= |ledger|
      invariant existing == LedgerKeys(ledger[..i])
    {
      assert ledger[..i + 1][..i] == ledger[..i];
      existing := existing + {Key(ledger[i])};
      i := i + 1;
    }
    assert ledger[..i] == ledger;
    remaining := [];
    var j := 0;
    while j < |services|
      invariant 0 <= j <= |services|
      invariant remaining == Fresh(services[..j], existing)
    {
      assert services[..j + 1][..j] == services[..j];
      if services[j] !in existing {
        remaining := remaining + [services[j]];
      }
      j := j + 1;
    }
    assert services[..j] == services;
  }

  /** A request survives the filter exactly when it was asked for and no ledger row
      answers it. */
  lemma {:induction false} FreshMembers(s: seq<Request>, answered: set<Request>, q: Request)
    ensures q in Fresh(s, answered) <==> q in s && q !in answered
  {
    if s != [] {
      var front := s[..|s| - 1];
      FreshMembers(front, answered, q);
      assert s == front + [s[|s| - 1]];
    }
  }

  /** The filter keeps every copy of a surviving request and drops every copy of an
      answered one. */
  lemma {:induction false} FreshCounts(s: seq<Request>, answered: set<Request>, q: Request)
    ensures multiset(Fresh(s, answered))[q] == if q in answered then 0 else multiset(s)[q]
  {
    if s != [] {
      var front := s[..|s| - 1];
      FreshCounts(front, answered, q);
      assert s == front + [s[|s| - 1]];
    }
  }

  /** `a` is `b` with some entries left out, the rest in their order. */
  predicate IsSubsequence(a: seq<Request>, b: seq<Request>)
    decreases |b|
  {
    a == [] ||
    (b != [] &&
     ((a[|a| - 1] == b[|b| - 1] && IsSubsequence(a[..|a| - 1], b[..|b| - 1])) ||
      IsSubsequence(a, b[..|b| - 1])))
  }

  /** The filter keeps order: its result is a subsequence of its input. */
  lemma {:induction false} FreshSubsequence(s: seq<Request>, answered: set<Request>)
    ensures IsSubsequence(Fresh(s, answered), s)
  {
    if s != [] {
      var front := s[..|s| - 1];
      FreshSubsequence(front, answered);
      var r := Fresh(s, answered);
      if s[|s| - 1] !in answered {
        assert r[..|r| - 1] == Fresh(front, answered);
      }
    }
  }

  /** Filtering a second time changes nothing. */
  lemma {:induction false} FreshIdempotent(s: seq<Request>, answered: set<Request>)
    ensures Fresh(Fresh(s, answered), answered) == Fresh(s, answered)
  {
    if s != [] {
      var front := s[..|s| - 1];
      FreshIdempotent(front, answered);
      var r := Fresh(s, answered);
      if s[|s| - 1] !in answered {
        assert r[..|r| - 1] == Fresh(front, answered);
      }
    }
  }

  /** The requests for one station pair, one per travel date, in date order. */
  function PairRequests(od: StationPair, dates: seq<string>, searchDate: string): seq<Request>
  {
    if dates == [] then []
    else PairRequests(od, dates[..|dates| - 1], searchDate)
         + [Request(od.origin, od.destination, dates[|dates| - 1], searchDate)]
  }

  /** All requests: each station pair in turn, and for it each travel date in turn. */
  function CrossProduct(ods: seq<StationPair>, dates: seq<string>, searchDate: string): seq<Request>
  {
    if ods == [] then []
    else CrossProduct(ods[..|ods| - 1], dates, searchDate)
         + PairRequests(ods[|ods| - 1], dates, searchDate)
  }

  lemma {:induction false} PairRequestsAt(od: StationPair, dates: seq<string>, searchDate: string, j: int)
    requires 0 <= j < |dates|
    ensures |PairRequests(od, dates, searchDate)| == |dates|
    ensures PairRequests(od, dates, searchDate)[j] == Request(od.origin, od.destination, dates[j], searchDate)
  {
    var front := dates[..|dates| - 1];
    if j < |front| {
      PairRequestsAt(od, front, searchDate, j);
    } else if front != [] {
      PairRequestsAt(od, front, searchDate, 0);
    }
  }

  lemma {:induction false} PairRequestsLength(od: StationPair, dates: seq<string>, searchDate: string)
    ensures |PairRequests(od, dates, searchDate)| == |dates|
  {
    if dates != [] {
      PairRequestsAt(od, dates, searchDate, 0);
    }
  }

  lemma {:induction false} CrossProductLength(ods: seq<StationPair>, dates: seq<string>, searchDate: string)
    ensures |CrossProduct(ods, dates, searchDate)| == |ods| * |dates|
  {
    if ods != [] {
      var front := ods[..|ods| - 1];
      PairRequestsLength(ods[|ods| - 1], dates, searchDate);
      CrossProductLength(front, dates, searchDate);
      assert (|front| + 1) * |dates| == |front| * |dates| + |dates|;
    }
  }

  lemma RowMajorBound(i: nat, n: nat, m: nat, j: nat)
    requires i < n && j < m
    ensures i * m + j < n * m
  {
    assert (i + 1) * m <= n * m;
  }

  /** The plan has one request per (pair, date); the one at row-major position
      `i * |dates| + j` is pair `i` with date `j`, and every one carries the search date. */
  lemma {:induction false} CrossProductAt(ods: seq<StationPair>, dates: seq<string>, searchDate: string, i: nat, j: nat)
    requires i < |ods| && j < |dates|
    ensures |CrossProduct(ods, dates, searchDate)| == |ods| * |dates|
    ensures CrossProduct(ods, dates, searchDate)[i * |dates| + j]
            == Request(ods[i].origin, ods[i].destination, dates[j], searchDate)
  {
    CrossProductLength(ods, dates, searchDate);
    var m := |dates|;
    var front := ods[..|ods| - 1];
    var head := CrossProduct(front, dates, searchDate);
    CrossProductLength(front, dates, searchDate);
    PairRequestsAt(ods[|ods| - 1], dates, searchDate, j);
    if i < |front| {
      RowMajorBound(i, |front|, m, j);
      CrossProductAt(front, dates, searchDate, i, j);
      assert ods[i] == front[i];
    } else {
      assert i == |front|;
      assert i * m + j == |head| + j;
    }
  }

  /** The planning loop of `load_services_to_request`: for each pair, for each date, append
      the request. */
  method PlanRequests(ods: seq<StationPair>, dates: seq<string>, searchDate: string)
    returns (plan: seq<Request>)
    ensures plan == CrossProduct(ods, dates, searchDate)
  {
    plan := [];
    var i := 0;
    while i < |ods|
      invariant 0 <= i <= |ods|
      invariant plan == CrossProduct(ods[..i], dates, searchDate)
    {
      ghost var before := plan;
      var j := 0;
      while j < |dates|
        invariant 0 <= j <= |dates|
        invariant plan == before + PairRequests(ods[i], dates[..j], searchDate)
      {
        assert dates[..j + 1][..j] == dates[..j];
        plan := plan + [Request(ods[i].origin, ods[i].destination, dates[j], searchDate)];
        j := j + 1;
      }
      assert dates[..j] == dates;
      assert ods[..i + 1][..i] == ods[..i];
      i := i + 1;
    }
    assert ods[..i] == ods;
  }

  /** `load_services_to_request`: the planned requests, and the header text when the
      ledger does not exist yet and is created. With `repeatServices` the whole plan is
      kept; without it, requests the ledger already answers are dropped. */
  method LoadServicesToRequest(ods: seq<StationPair>, dates: seq<string>, searchDate: string,
                               ledgerExists: bool, ledger: seq<LedgerRow>, repeatServices: bool)
    returns (remaining: seq<Request>, created: Option<string>)
    ensures !ledgerExists ==>
              remaining == CrossProduct(ods, dates, searchDate) && created == Some(InitializeOutputFile())
    ensures ledgerExists && repeatServices ==>
              remaining == CrossProduct(ods, dates, searchDate) && created == None
    ensures ledgerExists && !repeatServices ==>
              remaining == Fresh(CrossProduct(ods, dates, searchDate), LedgerKeys(ledger)) && created == None
  {
    var plan := PlanRequests(ods, dates, searchDate);
    if ledgerExists {
      created := None;
      if repeatServices {
        remaining := plan;
      } else {
        remaining := DiscardExistingServices(plan, ledger);
      }
    } else {
      created := Some(InitializeOutputFile());
      remaining := plan;
    }
  }
}
