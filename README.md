# hs-train-scraping, modelled in Dafny

hs-train-scraping collects Spanish high-speed train prices (AVLO and OUIGO) into a
pipe-delimited ledger, one line per train service found, stamped with the date and time of
the search. A round-trip finder then reads the ledger back and ranks go/return pairs by
total price. This project models the bookkeeping around the browser automation:

- **Dates**, in `dates.dfy`. It covers:
  - `DD/MM/YYYY` parsing and formatting;
  - proleptic Gregorian dates with Python's day ordinals;
  - inclusive date ranges and day offsets, with the exceptions Python raises (ValueError, AssertionError, OverflowError).
- **The ledger**, in `existing_output.dfy`. It covers:
  - the header line;
  - the request plan, which is the cross product of station pairs and travel dates;
  - the filter that drops requests the ledger already answers for the same search date;
  - how a ledger line is written and read back.
- **The missing-services report**, in `missing_services.dfy`.
- **The post-browser half of both scrapers**, in `avlo_web_request.dfy` and `ouigo_web_request.dfy`. It covers:
  - result blocks and columns turned into ledger rows, all or nothing;
  - OUIGO station suggestion matching and price validation;
  - the `*_services_try` exception mapping.
- **The AVLO acquisition driver**, in `avlo_main.dfy`: the start-date check, and the retry loop with its abort after 21 consecutive failures. The loop is specified by `Run`, a recursive function that makes the same attempts and records each one: the request chosen and whether services were found.
- **The round-trip finder**, in `round_trips.dfy`. It covers:
  - ledger rows filed by travel date;
  - every go/return pair a trip length apart;
  - the stable price sort and cheapest-selection;
  - the ranked output lines.

Shared pieces live in two more files:

- `wrappers.dfy`: `Option`, `Result`, the Python exception kinds involved, and `try/except` as `Catch`.
- `text.dfy`: the Python string operations the code relies on. These are `str(n)`, `int(s)`, `zfill`, clamped slicing, `split`/`join`, `lower`, `in`, `rstrip` and `replace`.

The browser, the clock, `random.choice` and Python's `float` are inputs of the model:

- **The browser** is the texts a page showed, or the exception raised before they were read.
- **The clock** is the search date and time, passed as arguments.
- **The random choice** is an oracle `pick(t)`, the index picked at attempt `t`, taken modulo the pending count.
- **The scraper's verdict** is an oracle `succeeds(t, request)`.
- **Price parsing** is an oracle: `priceOf(text)` (a price in whole units such as cents, or None for ValueError) or `isNumber(text)`.
- **Price formatting** is an oracle, `show(price)`.

## Model

| member | source | states |
|---|---|---|
| Text.ParseIntSpec | common/dates.py:11-13 | the contract of `Text.ParseInt`: `int` on a slice accepts exactly the non-empty digit strings and reads their decimal value |
| Text.ParseDecimalString | common/dates.py:24-26 | `int(str(n)) == n` for every natural number |
| Text.ParseZFill2 | common/dates.py:24-25 | a number below 100 zero-padded to two digits reads back as the same number |
| Text.SplitJoin | round_trips_finder/main.py:26 | the contract of `Text.Split`, with `Text.JoinSplit`: splitting a pipe-joined line gives back the fields, when none holds the separator |
| Text.JoinSplit | AVLO/web_request.py:134 | the other half of `Text.Split`'s contract: joining the lines a text splits into gives the text back |
| Text.ContainsScan | OUIGO/web_request.py:110 | the scanning test is true exactly when the needle occurs somewhere in the text |
| Text.RStripSpec | OUIGO/web_request.py:210 | `rstrip` keeps the longest prefix not ending in whitespace, and drops only whitespace |
| Text.LowerSpec | OUIGO/web_request.py:110 | `lower` keeps the length and lowers each character on its own |
| Text.FirstIndex | AVLO/main.py:63 | the index of the first occurrence: it holds the element and no earlier index does |
| Text.RemoveCharAppend | OUIGO/web_request.py:214 | `replace(a, '')` works piece by piece: it distributes over concatenation and drops a single character exactly when it is `a`, so every other character is kept, in order |
| Wrappers.Catch | AVLO/web_request.py:34-42 | True exactly on completion, False exactly for a caught kind; any other kind propagates unchanged |
| Dates.DaysBeforeYearClosedForm | common/dates.py:11-13 | the days before year `y`, counted year by year, equal the closed form `365p + p/4 - p/100 + p/400` with `p = y - 1` |
| Dates.LastDayIsMaxOrdinal | common/dates.py:64 | 31/12/9999 is day 3652059, the largest date `timedelta` arithmetic can reach |
| Dates.FromOrdinal | common/dates.py:64 | the date built from an ordinal in range is a valid date with that ordinal |
| Dates.LexLessIsOrdinalLess | common/dates.py:42 | comparing dates as (year, month, day) tuples agrees with comparing their ordinals |
| Dates.OrdinalInjective | common/dates.py:11-13 | different valid dates have different ordinals |
| Dates.FromOrdinalOfOrdinal | common/dates.py:64 | ordinal, then back to a date, is the identity on valid dates |
| Dates.AddDays | common/dates.py:64 | `date + timedelta(days=k)` succeeds exactly when the ordinal stays in 1..3652059, landing on the ordinal plus `k`; otherwise OverflowError |
| Dates.StringToDate | common/dates.py:11-13 | a parsed date is valid and its day, month and year are what `int` reads from characters 0-1, 3-4 and 6-9; every failure is a ValueError |
| Dates.InvalidCalendarDateRejected | common/dates.py:11-13 | when the three slices read as numbers, parsing fails exactly when they do not form a calendar date |
| Dates.DateToStringFields | common/dates.py:24-26 | the contract of `Dates.DateToString`: the text is the day padded to two digits, '/', the month padded to two digits, '/', and the unpadded year: 7 to 10 characters |
| Dates.ParseFormatRoundTrip | common/dates.py:11-13 | parsing a formatted date gives the date back, for every year from 1 to 9999 |
| Dates.DateToStringInjective | common/dates.py:24-26 | different dates format to different strings |
| Dates.AddDaysToDateSpec | common/dates.py:56-66 | the outcome half of `Dates.AddDaysToDate`'s contract: an unreadable date gives ValueError; a readable one succeeds exactly when the result stays in the calendar, and fails otherwise with OverflowError |
| Dates.AddDaysToDateByOrdinal | common/dates.py:63-66 | the value half of `Dates.AddDaysToDate`'s contract: for a readable date, the result is the formatted date whose ordinal is the date's ordinal plus `k` when that stays in 1..3652059, and OverflowError otherwise |
| Dates.AddZeroDays | common/dates.py:63-66 | adding no days yields the formatted form of the parsed date |
| Dates.AddDaysCompose | common/dates.py:63-66 | adding `a` days and then `b` days equals adding `a + b` days |
| Dates.DayStringsAt | common/dates.py:44-53 | entry `k` of the day list is the formatted date with ordinal `lo + k` |
| Dates.LoadDatesInbetween | common/dates.py:31-53 | ValueError for an unreadable bound; AssertionError when first is after last; OverflowError when last is 31/12/9999; otherwise the formatted dates from first to last |
| Dates.CollectDays | common/dates.py:44-53 | the loop yields the formatted dates from first to last, or OverflowError when it steps past 31/12/9999 |
| Dates.AtOrBeforeIsOrdinal | common/dates.py:46 | `<=` on dates is `<=` on their ordinals |
| Dates.DatesBetweenShape | common/dates.py:44-53 | the range has last - first + 1 entries, starts at first and ends at last, and each entry is the day after the previous one by `add_days_to_date` |
| Dates.DatesBetweenIsAddDays | common/dates.py:56-66 | entry `k` of the range is exactly what `add_days_to_date(first, k)` returns |
| ExistingOutput.SearchTime | OUIGO/web_request.py:67 | the search time is five characters `HH:MM` whose fields read back as the hour and minute |
| ExistingOutput.NumberText | OUIGO/web_request.py:214 | the text handed to `float` holds no ',' and no '€'; for a price with no '€' it is the price with every ',' turned into '.' |
| ExistingOutput.NumberTextPieces | OUIGO/web_request.py:214 | the clean-up works character by character: it distributes over concatenation, drops '€', turns ',' into '.', and keeps every other character, in order |
| ExistingOutput.RowLineReadBack | AVLO/web_request.py:150-151 | a row written as a pipe-joined line reads back as the same nine column values |
| ExistingOutput.InitializeOutputFile | common/existing_output.py:12-14 | the header is one newline-terminated line that splits on the pipe character into exactly the nine column names |
| ExistingOutput.LedgerKeysSpec | common/existing_output.py:32-38 | a request is in the key set exactly when some ledger row has its origin, destination, travel date and search date |
| ExistingOutput.DiscardExistingServices | common/existing_output.py:18-44 | the result is the requests whose key no ledger row holds, in input order |
| ExistingOutput.FreshMembers | common/existing_output.py:40-44 | a request survives exactly when it was asked for and not already answered |
| ExistingOutput.FreshCounts | common/existing_output.py:40-44 | a surviving request keeps all its copies; an answered one keeps none |
| ExistingOutput.FreshSubsequence | common/existing_output.py:40-44 | the result is a subsequence of the input |
| ExistingOutput.FreshIdempotent | common/existing_output.py:40-44 | discarding twice equals discarding once |
| ExistingOutput.PairRequestsAt | common/existing_output.py:77-78 | the requests for one station pair are one per travel date, in date order |
| ExistingOutput.CrossProductLength | common/existing_output.py:74-78 | the plan has len(ods) × len(dates) requests |
| ExistingOutput.CrossProductAt | common/existing_output.py:74-78 | request `i * len(dates) + j` is pair `i` with date `j`, carrying the search date |
| ExistingOutput.PlanRequests | common/existing_output.py:74-78 | the planning loops yield exactly the cross product, pairs outer and dates inner |
| ExistingOutput.LoadServicesToRequest | common/existing_output.py:47-99 | with no ledger, the header is created and the whole plan returned; with a ledger and `repeat_services`, the whole plan; otherwise the plan minus answered requests |
| MissingServices.MissingLineReadBack | common/write_missing_services.py:19-21 | a report line splits back into origin, destination, operator and travel date; the search date is not written |
| MissingServices.WriteMissingServices | common/write_missing_services.py:4-21 | the text is the header line, then one line per missing request in input order: 1 + n lines |
| AvloWebRequest.ReadBlockSkipsAndFails | AVLO/web_request.py:134-139 | the outcome half of `AvloWebRequest.ReadBlock`'s contract: exactly the empty block is skipped, and exactly a non-empty block without a newline raises IndexError |
| AvloWebRequest.ReadBlockFields | AVLO/web_request.py:137-142 | the row half of `AvloWebRequest.ReadBlock`'s contract: the departure is the text before the first newline, the price the text after the last one, and the row carries the search and the 'AVLO' tag |
| AvloWebRequest.BlockRowsStamped | AVLO/web_request.py:132-143 | at most one row per block, each stamped with the search and tagged 'AVLO' |
| AvloWebRequest.BlockRowsInOrder | AVLO/web_request.py:132-143 | when every block gives a row, row `i` comes from block `i` |
| AvloWebRequest.AvloServices | AVLO/web_request.py:131-151 | browser errors pass through; a one-line block raises IndexError; no rows raises TimeoutException; otherwise one line per row, in page order |
| AvloWebRequest.AvloServicesTry | AVLO/web_request.py:15-42 | True exactly when rows were found and written, False for every caught kind (IndexError and WebDriverException included), nothing written unless True; when True, line `k` is the ledger line of row `k` |
| OuigoWebRequest.SelectStation | OUIGO/web_request.py:108-120 | the first suggestion whose lower-cased text contains the lower-cased station, or ValueError when none does |
| OuigoWebRequest.BuildRows | OUIGO/web_request.py:194-223 | succeeds exactly when the columns are equally long, not empty and every price is accepted, with TimeoutException otherwise; row `i` keeps the page's texts at index `i` and is tagged 'OUIGO' |
| OuigoWebRequest.OuigoServices | OUIGO/web_request.py:108-228 | ValueError for an unmatched origin or destination; otherwise the lines of all rows in index order when every check passes, or TimeoutException |
| OuigoWebRequest.OuigoServicesTry | OUIGO/web_request.py:13-42 | True exactly when everything passed; False for the caught kinds; an unmatched station escapes as ValueError; nothing written unless True; when True, line `i` is the ledger line of the row built from index `i` of the columns |
| AvloMain.RemoveFirstSpec | AVLO/main.py:63 | the contract of `AvloMain.RemoveFirst`: `list.remove` takes out exactly the first copy and keeps the rest in order |
| AvloMain.CheckStartDate | AVLO/main.py:36-41 | IndexError with no dates, ValueError for an unreadable date, AssertionError exactly when the first travel date is before the search date |
| AvloMain.CounterTrailing | AVLO/main.py:53-74 | a failure counter that reset at each success and reads `n` means the last `n` attempts all failed |
| AvloMain.RunEnds | AVLO/main.py:53-74 | a run of the loop ends with nothing pending or with the counter at 21, and the counter equals the number of failures since the last success |
| AvloMain.RunRemoves | AVLO/main.py:53-74 | the requests taken out of the pending list are exactly the ones chosen at successful attempts, one copy each |
| AvloMain.RunAttempts | AVLO/main.py:53-74 | attempt `k` of a run is judged by the scraper's verdict at attempt `k` on the request chosen there |
| AvloMain.RunFailsFrom | AVLO/main.py:53-74 | when the first 21 attempts all fail, the run leaves every request pending and ends with the counter at 21 |
| AvloMain.AbandonedAfterConsecutiveFailures | AVLO/main.py:53-74 | from a fresh start, what the loop removed is what it found; an abandoned run made at least 21 attempts, the last 21 all failed |
| AvloMain.AllFoundCompletes | AVLO/main.py:53-74 | when every search succeeds, the loop leaves nothing pending |
| AvloMain.AcquisitionLoop | AVLO/main.py:53-74 | the loop's final pending list and counter are those of the run `Run`; it ends with nothing pending, or with the counter at 21 and a sub-multiset of the initial requests; 21 failures from the start leave every request pending |
| AvloMain.MainFunction | AVLO/main.py:36-74 | start-date errors pass through; otherwise what is left pending is what the loop's run leaves of the plan, the run completes exactly when nothing is, an abandoned run ends in TypeError, and a run where every search succeeds completes |
| AvloMain.MainFunctionCorrected | AVLO/main.py:36-74 | as `MainFunction`, except that an abandoned run yields the missing-services report for 'AVLO': the header, then one line per pending request; a run where every search succeeds completes |
| RoundTrips.TrainOf | round_trips_finder/main.py:39-48 | a kept row's train carries the row's travel date and its parsed price |
| RoundTrips.FiledSpec | round_trips_finder/main.py:26-48 | a train is filed under `d` exactly when some row with the asked direction, a listed date `d` and a readable price gives it |
| RoundTrips.FiledAppend | round_trips_finder/main.py:26-48 | within a date, trains keep ledger order |
| RoundTrips.FiledDated | round_trips_finder/main.py:44-48 | every train filed under `d` travels on `d`, one of the travel dates |
| RoundTrips.LoadTrains | round_trips_finder/main.py:6-50 | a date is a key exactly when some train was filed under it, and the key holds exactly those trains, in ledger order |
| RoundTrips.LoadStep | round_trips_finder/main.py:28-48 | one kept row appends its train under its date, and any other row changes nothing |
| RoundTrips.LoadedByDate | round_trips_finder/main.py:44-48 | each key holds only trains of its own date, and every key is a travel date |
| RoundTrips.AddReturnsSpec | round_trips_finder/main.py:103-105 | the inner loop adds exactly the pairs of the go train with a return train, at the sum of their prices |
| RoundTrips.AddPairsSpec | round_trips_finder/main.py:102-105 | the two inner loops add exactly the pairs of a go train and a return train, at the sum of their prices |
| RoundTrips.ForDaysFails | round_trips_finder/main.py:87-88 | the trip-length loop fails exactly when some date addition fails, with that addition's error |
| RoundTrips.ForDaysAdds | round_trips_finder/main.py:87-105 | a completed trip-length loop adds exactly the pairs linked through the go date and a trip length, priced at the sum |
| RoundTrips.ForDatesFails | round_trips_finder/main.py:79-105 | the whole nest fails exactly when the date addition fails for a go date with go trains and some trip length |
| RoundTrips.ForDatesHolds | round_trips_finder/main.py:79-105 | a completed nest holds exactly the pairs linked through some go date and trip length, each priced at the sum |
| RoundTrips.ForDaysStep | round_trips_finder/main.py:87-105 | one more trip length extends the outcome so far by that trip length's return date |
| RoundTrips.ForDaysStaysFailed | round_trips_finder/main.py:88 | after a failed addition, later trip lengths do not change the outcome |
| RoundTrips.ForDatesStaysFailed | round_trips_finder/main.py:88 | after a failed addition, later go dates do not change the outcome |
| RoundTrips.PairTrains | round_trips_finder/main.py:102-105 | the two inner loops store every go/return pair at the sum of the prices |
| RoundTrips.PairForTripDays | round_trips_finder/main.py:87-105 | the trip-length loop for one go date equals its specification, failure included |
| RoundTrips.PossibleTrainCombinations | round_trips_finder/main.py:53-107 | the dictionary built by the loops equals the specification of the nest, failure included |
| RoundTrips.CombinationsAreRoundTrips | round_trips_finder/main.py:53-107 | with trains filed by date, a pair is a key exactly when both trains run on travel dates and the return date is the go date plus some trip length; every value is the sum of the prices |
| RoundTrips.CombinationsFail | round_trips_finder/main.py:79-88 | the call fails exactly when some go date with trains cannot be moved by some trip length, and only with ValueError or OverflowError |
| RoundTrips.WithTotalAppend | round_trips_finder/main.py:123 | picking the entries of one price distributes over concatenation |
| RoundTrips.InsertPermutes | round_trips_finder/main.py:123 | insertion adds one copy of the entry and keeps all others |
| RoundTrips.InsertSorted | round_trips_finder/main.py:123 | insertion into a price-sorted sequence keeps it sorted |
| RoundTrips.InsertStable | round_trips_finder/main.py:123 | insertion puts the entry after those of the same price |
| RoundTrips.StableSortSpec | round_trips_finder/main.py:123 | the contract of `RoundTrips.StableSort`, with `RoundTrips.StableSortStable`: `sorted` by price returns a price-ordered permutation of the items |
| RoundTrips.StableSortStable | round_trips_finder/main.py:123 | items of equal price keep their input order |
| RoundTrips.SelectCheapest | round_trips_finder/main.py:110-133 | as written: every combination is returned, in stable price order, whatever `min_i` is |
| RoundTrips.SelectCheapestKeepsDearer | round_trips_finder/main.py:110-133 | three combinations priced 10, 20 and 30 with `min_i` 1: the as-written result keeps all three and misses the documented result, which is the cheapest one alone |
| RoundTrips.CheapestCut | round_trips_finder/main.py:125-129 | stopping at the end, or at the first item dearer than the `min_i`-th, gives the documented prefix |
| RoundTrips.SortedPrefixBelow | round_trips_finder/main.py:128 | in a sorted sequence, everything before an item no dearer than a bound is below the bound too |
| RoundTrips.SelectCheapestCorrected | round_trips_finder/main.py:110-133 | corrected: the sorted prefix holding the `min_i` cheapest items and every item as cheap as the `min_i`-th, and nothing dearer |
| RoundTrips.RankFields | round_trips_finder/main.py:181-191 | an output line has fifteen fields, the first the rank and the tenth empty |
| RoundTrips.RankLineReadBack | round_trips_finder/main.py:181-191 | an output line splits back into its fifteen fields, and the first reads as the rank |
| RoundTrips.WriteRanking | round_trips_finder/main.py:177-193 | line `k` is the output line of the `k`-th selected item with rank `k`, ranks starting at 0 |

## Left out

- Selenium, the browser and its pages are not modelled. Each search's outcome is an input: the texts shown, or the exception raised before the parsing starts. Driver setup, waits, clicks and `driver.quit` are not modelled, and neither are the exceptions they raise mid-search.
- `datetime.now()` is not modelled. The search date and time, and today's date in `AVLO/main.py`, are parameters. `SearchTime` takes the hour and minute.
- `float` is not modelled. Parsing is the oracle `priceOf` or `isNumber`; prices are whole numbers; the `str` of a price is the oracle `show`. Float rounding in the sums of prices is therefore not modelled.
- `int` accepts only plain digit strings here. Python also accepts a sign, surrounding whitespace and underscores. A date string using those is parsed by Python but rejected by this model.
- `Text.LowerChar` lowers only ASCII and Latin-1 capitals. Python's `lower` covers all of Unicode.
- File handling is not modelled: opening, appending, closing, `os.path.exists` and `csv.DictReader`. The ledger is a sequence of `LedgerRow` plus a flag saying whether the file exists. The outputs are the lines written, in order. Quoting rules of `DictReader` and lines with a number of fields other than nine are not modelled.
- The ledger header is proved to split into the nine column names. Its exact character sequence is the constant `LedgerFields` joined by '|'.
- Configuration reading, the `__main__` blocks, every `print` and common/remaining_time.py are left out. All of these only read settings or print progress.
- `random.choice` is the oracle `pick`, and the scraper's verdict per attempt is the oracle `succeeds`. The oracle reduces the index modulo the pending count, so the chosen request is always pending.
- AvloMain.MainFunction: `load_services_to_request` is called with `repeat_services` left at True, as AVLO/main.py:45-46 does. The output file it opens is not modelled.
- RoundTrips.SelectCheapest: the combinations dictionary is a `map`, so its insertion order is not modelled. The items come in as a sequence in any order, and stability is stated relative to that order.
- RoundTrips.WriteRanking: the items come in as the selected sequence. Dictionary iteration order is not modelled; it equals the sorted order.
- The wiring of `main_function` in round_trips_finder/main.py is not one member. That wiring is: load the dates, load the trains twice with the stations swapped, combine, `select_cheapest(..., 50)`, write. Each step is modelled on its own.
- Dates.AddDaysToDate: its contract is stated by two lemmas rather than on the function. `Dates.AddDaysToDateSpec` says when it succeeds and which error it raises; `Dates.AddDaysToDateByOrdinal` says which date it returns.
- RoundTrips.PossibleTrainCombinations: its two innermost loops are the method `PairTrains`, and its trip-length loop is `PairForTripDays`.

## Findings

| source | as written | input that shows it | evidently intended | confidence | as-written member | corrected member |
|---|---|---|---|---|---|---|
| round_trips_finder/main.py:122-131 | `i` is never incremented, so `max_price` stays infinite (or is reset to each item's own price when `min_i` is 0) and every combination is kept | three combinations priced 10, 20 and 30 with `min_i` = 1: all three are returned (RoundTrips.SelectCheapestKeepsDearer) | the `min_i` cheapest combinations and every other one as cheap as the `min_i`-th; here only the one priced 10. The docstring says nothing for a `min_i` outside 1..n, n the number of combinations; the corrected selection then keeps every combination, because `i` is incremented before the test and never equals 0 or a value above n | not executed | RoundTrips.SelectCheapest | RoundTrips.SelectCheapestCorrected |
| AVLO/main.py:73 | `write_missing_services(services_to_request, dirname(output_path))` passes two arguments; the function takes three (common/write_missing_services.py:4) | any run with 21 consecutive failed searches while requests are pending: the call raises TypeError and no report is written | the report written with the operator 'AVLO' | not executed | AvloMain.MainFunction | AvloMain.MainFunctionCorrected |
