/** The parsing half of AVLO/web_request.py: the text of each result block on the AVLO
    results page becomes one ledger row, and the rows are appended to the ledger only when
    the page gave at least one. The browser is replaced by its outcome: either the texts of
    the result blocks, or the exception it raised before they were read. */
module AvloWebRequest {
  import opened Wrappers
  import opened Text
  import opened ExistingOutput

  /** What the scraper makes of one result block. */
  datatype BlockReading =
    | Blank                      // the block has no text and is passed over
    | Service(row: LedgerRow)    // departure, arrival and price were read
    | TooShort                   // one line only: reading the arrival raises IndexError

  /** One block: its lines; the first is the departure time, the second the arrival time
      and the last the price, which is copied as it stands. */
  function ReadBlock(text: string, q: Search): BlockReading
  {
    var lines := Split(text, '\n');
    if lines == [""] then Blank
    else if |lines| < 2 then TooShort
    else Service(Found(q, lines[0], lines[1], lines[|lines| - 1], "AVLO"))
  }

  /** Exactly the empty block is passed over, and exactly a non-empty block without a
      newline is too short. */
  lemma ReadBlockSkipsAndFails(text: string, q: Search)
    ensures ReadBlock(text, q).Blank? <==> text == ""
    ensures ReadBlock(text, q).TooShort? <==> text != "" && '\n' !in text
  {
    SplitSingle(text, '\n');
    if Split(text, '\n') == [""] {
      JoinSplit(text, '\n');
    }
  }

  /** In a block that gives a row, the departure is the text before the first newline and
      the price the text after the last one; the row carries the search and the 'AVLO' tag. */
  lemma ReadBlockFields(text: string, q: Search)
    requires ReadBlock(text, q).Service?
    ensures var row := ReadBlock(text, q).row;
            && row == Found(q, row.departureTime, row.arrivalTime, row.price, "AVLO")
            && '\n' !in row.departureTime && '\n' !in row.price
            && |text| >= |row.departureTime| + 1 + |row.price|
            && text[..|row.departureTime|] == row.departureTime
            && text[|row.departureTime|] == '\n'
            && text[|text| - |row.price|..] == row.price
            && text[|text| - |row.price| - 1] == '\n'
  {
    var lines := Split(text, '\n');
    var first, last := lines[0], lines[|lines| - 1];
    assert ReadBlock(text, q).row == Found(q, first, lines[1], last, "AVLO");
    assert '\n' !in first && '\n' !in last;
    JoinSplit(text, '\n');
    JoinEnds(lines, '\n');
  }

  /** The rows the blocks give, in page order. */
  function BlockRows(texts: seq<string>, q: Search): seq<LedgerRow>
  {
    if texts == [] then []
    else
      var rows := BlockRows(texts[..|texts| - 1], q);
      match ReadBlock(texts[|texts| - 1], q)
      case Service(row) => rows + [row]
      case _ => rows
  }

  /** No more rows than blocks, and every row is stamped with the search and tagged 'AVLO'. */
  lemma {:induction false} BlockRowsStamped(texts: seq<string>, q: Search)
    ensures |BlockRows(texts, q)| <= |texts|
    ensures forall r :: r in BlockRows(texts, q) ==>
              r == Found(q, r.departureTime, r.arrivalTime, r.price, "AVLO")
  {
    if texts != [] {
      BlockRowsStamped(texts[..|texts| - 1], q);
    }
  }

  /** When every block gives a row, row `i` comes from block `i`: page order is kept. */
  lemma {:induction false} BlockRowsInOrder(texts: seq<string>, q: Search, i: int)
    requires forall k :: 0 <= k < |texts| ==> ReadBlock(texts[k], q).Service?
    requires 0 <= i < |texts|
    ensures |BlockRows(texts, q)| == |texts|
    ensures BlockRows(texts, q)[i] == ReadBlock(texts[i], q).row
  {
    var front := texts[..|texts| - 1];
    assert forall k :: 0 <= k < |front| ==> front[k] == texts[k];
    if i < |front| {
      BlockRowsInOrder(front, q, i);
    } else if front != [] {
      BlockRowsInOrder(front, q, 0);
    }
  }

  /** `avlo_services` after the browser: read every block (a one-line block raises
      IndexError), raise TimeoutException when no row was found, and otherwise append the
      rows' lines to the ledger. */
  method AvloServices(q: Search, page: Result<seq<string>>) returns (written: Result<seq<string>>)
    ensures page.Err? ==> written == Err(page.error)
    ensures page.Ok? && (exists i :: 0 <= i < |page.value| && ReadBlock(page.value[i], q).TooShort?) ==>
              written == Err(IndexError)
    ensures page.Ok? && (forall i :: 0 <= i < |page.value| ==> !ReadBlock(page.value[i], q).TooShort?) ==>
              if BlockRows(page.value, q) == [] then written == Err(TimeoutException)
              else written.Ok? && |written.value| == |BlockRows(page.value, q)|
                   && forall k :: 0 <= k < |written.value| ==> written.value[k] == RowLine(BlockRows(page.value, q)[k])
  {
    if page.Err? {
      return Err(page.error);
    }
    var texts := page.value;
    var rows: seq<LedgerRow> := [];
    var i := 0;
    while i < |texts|
      invariant 0 <= i <= |texts|
      invariant forall k :: 0 <= k < i ==> !ReadBlock(texts[k], q).TooShort?
      invariant rows == BlockRows(texts[..i], q)
    {
      assert texts[..i + 1][..i] == texts[..i];
      var reading := ReadBlock(texts[i], q);
      if reading.TooShort? {
        return Err(IndexError);
      }
      if reading.Service? {
        rows := rows + [reading.row];
      }
      i := i + 1;
    }
    assert texts[..i] == texts;
    if |rows| == 0 {
      return Err(TimeoutException);
    }
    var lines: seq<string> := [];
    var k := 0;
    while k < |rows|
      invariant 0 <= k <= |rows|
      invariant |lines| == k
      invariant forall j :: 0 <= j < k ==> lines[j] == RowLine(rows[j])
    {
      lines := lines + [RowLine(rows[k])];
      k := k + 1;
    }
    written := Ok(lines);
  }

  /** The exception kinds `avlo_services_try` turns into False. */
  const AvloCaught: set<PyError> := {TimeoutException, NoSuchElementException,
    UnexpectedAlertPresentException, ElementNotInteractableException, WebDriverException,
    IndexError}

  /** `avlo_services_try`: True when the search completed and wrote its rows, False for the
      kinds it catches, and what it wrote. */
  method AvloServicesTry(q: Search, page: Result<seq<string>>) returns (found: Result<bool>, written: seq<string>)
    ensures found == Ok(true) <==>
              page.Ok? && (forall i :: 0 <= i < |page.value| ==> !ReadBlock(page.value[i], q).TooShort?)
              && BlockRows(page.value, q) != []
    ensures page.Ok? ==> found.Ok?
    ensures found.Err? <==> page.Err? && page.error !in AvloCaught
    ensures found != Ok(true) ==> written == []
    ensures found == Ok(true) ==> |written| == |BlockRows(page.value, q)| > 0
    ensures found == Ok(true) ==>
              forall k :: 0 <= k < |written| ==> written[k] == RowLine(BlockRows(page.value, q)[k])
  {
    var outcome := AvloServices(q, page);
    found := Catch(outcome, AvloCaught);
    written := if outcome.Ok? then outcome.value else [];
  }
}
