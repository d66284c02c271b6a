/** The missing-services report of common/write_missing_services.py: a header line and one
    line per request that got no answer. The file is overwritten, so its text is a function of
    the arguments alone; the list of lines below is that text, line by line. */
module MissingServices {
  import opened Text
  import opened ExistingOutput

  const ReportHeader: string := "origin_station|destination_station|operator|travel_date\n"

  /** The report line of one request: origin, destination, the operator, then the travel
      date; the search date is not written. */
  function MissingLine(q: Request, operator: string): string
  {
    Join([q.origin, q.destination, operator, q.travelDate], '|') + "\n"
  }

  /** A report line splits back into origin, destination, operator and travel date. */
  lemma MissingLineReadBack(q: Request, operator: string)
    requires PlainField(q.origin) && PlainField(q.destination)
    requires PlainField(operator) && PlainField(q.travelDate)
    ensures var line := MissingLine(q, operator);
            && |line| > 0 && line[|line| - 1] == '\n'
            && Split(line[..|line| - 1], '|') == [q.origin, q.destination, operator, q.travelDate]
  {
    var parts := [q.origin, q.destination, operator, q.travelDate];
    var line := MissingLine(q, operator);
    assert line[..|line| - 1] == Join(parts, '|');
    SplitJoin(parts, '|');
  }

  /** `write_missing_services`: the header, then one line per missing request, in order. */
  method WriteMissingServices(missing: seq<Request>, operator: string) returns (lines: seq<string>)
    ensures |lines| == 1 + |missing|
    ensures lines[0] == ReportHeader
    ensures forall i :: 0 <= i < |missing| ==> lines[i + 1] == MissingLine(missing[i], operator)
  {
    lines := [ReportHeader];
    var i := 0;
    while i < |missing|
      invariant 0 <= i <= |missing|
      invariant |lines| == 1 + i && lines[0] == ReportHeader
      invariant forall k :: 0 <= k < i ==> lines[k + 1] == MissingLine(missing[k], operator)
    {
      lines := lines + [MissingLine(missing[i], operator)];
      i := i + 1;
    }
  }
}
