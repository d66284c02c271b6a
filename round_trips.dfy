/** The round-trip finder of round_trips_finder/main.py: the ledger rows of one direction
    filed by travel date, every go/return pair whose return date is a configured number of
    days after the go date, the cheapest pairs, and the ranked output lines. Python's `float`
    is a parameter of the model: `priceOf(t)` is the price a price text `t` reads as, or
    None when `float` raises ValueError; prices are whole numbers here (cents, say), and the
    text `str(price)` writes is the parameter `show`. */
module RoundTrips {
  import opened Wrappers
  import opened Text
  import opened Dates
  import opened ExistingOutput

  /** A train as the finder keeps it: departure and arrival times, price, operator and
      travel date. Two trains with the same five values are the same train. */
  datatype Train = Train(departure: string, arrival: string, price: int, company: string, date: string)

  /** The direction and dates a call of `load_trains` asks for. */
  datatype Leg = Leg(origin: string, destination: string, travelDates: seq<string>)

  /** A ledger row `load_trains` keeps: the asked direction, a travel date in the list, and
      a price text that reads as a number once normalised. */
  predicate Kept(row: LedgerRow, leg: Leg, priceOf: string -> Option<int>)
  {
    && row.origin == leg.origin && row.destination == leg.destination
    && row.travelDate in leg.travelDates
    && priceOf(NumberText(row.price)).Some?
  }

  /** The train a kept row gives. */
  function TrainOf(row: LedgerRow, priceOf: string -> Option<int>): (t: Train)
    requires priceOf(NumberText(row.price)).Some?
    ensures t.date == row.travelDate && t.price == priceOf(NumberText(row.price)).value
  {
    Train(row.departureTime, row.arrivalTime, priceOf(NumberText(row.price)).value, row.company, row.travelDate)
  }

  /** The trains of the kept rows dated `d`, in ledger order. */
  function Filed(ledger: seq<LedgerRow>, leg: Leg, priceOf: string -> Option<int>, d: string): seq<Train>
  {
    if ledger == [] then []
    else
      var row := ledger[|ledger| - 1];
      Filed(ledger[..|ledger| - 1], leg, priceOf, d)
      + if Kept(row, leg, priceOf) && row.travelDate == d then [TrainOf(row, priceOf)] else []
  }

  /** A train is filed under `d` exactly when some kept row dated `d` gives it. */
  lemma {:induction false} FiledSpec(ledger: seq<LedgerRow>, leg: Leg, priceOf: string -> Option<int>, d: string, t: Train)
    ensures t in Filed(ledger, leg, priceOf, d) <==>
              exists i :: 0 <= i < |ledger| && Kept(ledger[i], leg, priceOf) && ledger[i].travelDate == d
                          && TrainOf(ledger[i], priceOf) == t
  {
    if ledger != [] {
      var front := ledger[..|ledger| - 1];
      FiledSpec(front, leg, priceOf, d, t);
      assert forall i :: 0 <= i < |front| ==> front[i] == ledger[i];
    }
  }

  /** Filing keeps ledger order: the trains of an earlier stretch of the ledger come before
      those of a later one. */
  lemma {:induction false} FiledAppend(a: seq<LedgerRow>, b: seq<LedgerRow>, leg: Leg,
                                       priceOf: string -> Option<int>, d: string)
    ensures Filed(a + b, leg, priceOf, d) == Filed(a, leg, priceOf, d) + Filed(b, leg, priceOf, d)
  {
    if b != [] {
      var front := b[..|b| - 1];
      assert (a + b)[..|a + b| - 1] == a + front;
      FiledAppend(a, front, leg, priceOf, d);
    } else {
      assert a + b == a;
    }
  }

  /** Every train filed under `d` travels on `d`, a date of the list. */
  lemma {:induction false} FiledDated(ledger: seq<LedgerRow>, leg: Leg, priceOf: string -> Option<int>, d: string)
    ensures forall t :: t in Filed(ledger, leg, priceOf, d) ==> t.date == d && d in leg.travelDates
  {
    if ledger != [] {
      FiledDated(ledger[..|ledger| - 1], leg, priceOf, d);
    }
  }

  /** `load_trains`: go through the ledger once, keep the rows of the asked direction and
      dates whose price reads as a number, and file their trains by travel date. A date is a
      key only when some train was filed under it. */
  method LoadTrains(ledger: seq<LedgerRow>, leg: Leg, priceOf: string -> Option<int>)
    returns (trains: map<string, seq<Train>>)
    ensures forall d :: d in trains <==> Filed(ledger, leg, priceOf, d) != []
    ensures forall d :: d in trains ==> trains[d] == Filed(ledger, leg, priceOf, d)
  {
    trains := map[];
    var i := 0;
    while i < |ledger|
      invariant 0 <= i <= |ledger|
      invariant forall d :: d in trains <==> Filed(ledger[..i], leg, priceOf, d) != []
      invariant forall d :: d in trains ==> trains[d] == Filed(ledger[..i], leg, priceOf, d)
    {
      var row := ledger[i];
      ghost var before := trains;
      if row.origin == leg.origin && row.destination == leg.destination && row.travelDate in leg.travelDates {
        var price := priceOf(NumberText(row.price));
        if price.Some? {
          var travelDate := row.travelDate;
          if travelDate !in trains {
            trains := trains[travelDate := []];
          }
          trains := trains[travelDate := trains[travelDate] + [Train(row.departureTime, row.arrivalTime, price.value, row.company, travelDate)]];
          assert trains == before[travelDate := (if travelDate in before then before[travelDate] else []) + [TrainOf(row, priceOf)]];
        }
      }
      LoadStep(ledger, i, leg, priceOf, before, trains);
      i := i + 1;
    }
    assert ledger[..i] == ledger;
  }

  /** One row of `LoadTrains`: a kept row's train is appended under its date (the date
      becoming a key if it was not one), and any other row leaves the map as it was. */
  lemma LoadStep(ledger: seq<LedgerRow>, i: nat, leg: Leg, priceOf: string -> Option<int>,
                 before: map<string, seq<Train>>, after: map<string, seq<Train>>)
    requires i < |ledger|
    requires forall d :: d in before <==> Filed(ledger[..i], leg, priceOf, d) != []
    requires forall d :: d in before ==> before[d] == Filed(ledger[..i], leg, priceOf, d)
    requires var row := ledger[i];
             after == if Kept(row, leg, priceOf)
                      then before[row.travelDate := (if row.travelDate in before then before[row.travelDate] else [])
                                                     + [TrainOf(row, priceOf)]]
                      else before
    ensures forall d :: d in after <==> Filed(ledger[..i + 1], leg, priceOf, d) != []
    ensures forall d :: d in after ==> after[d] == Filed(ledger[..i + 1], leg, priceOf, d)
  {
    assert ledger[..i + 1][..i] == ledger[..i];
  }

  /** Each key files only trains of its own date, as `LoadTrains` leaves it. */
  predicate FiledByDate(trains: map<string, seq<Train>>)
  {
    forall d, t :: d in trains && t in trains[d] ==> t.date == d
  }

  /** What `LoadTrains` returns files every train under its own date, one of the list. */
  lemma LoadedByDate(ledger: seq<LedgerRow>, leg: Leg, priceOf: string -> Option<int>, trains: map<string, seq<Train>>)
    requires forall d :: d in trains <==> Filed(ledger, leg, priceOf, d) != []
    requires forall d :: d in trains ==> trains[d] == Filed(ledger, leg, priceOf, d)
    ensures FiledByDate(trains)
    ensures forall d :: d in trains ==> d in leg.travelDates
  {
    forall d | d in trains
      ensures (forall t :: t in trains[d] ==> t.date == d) && d in leg.travelDates
    {
      FiledDated(ledger, leg, priceOf, d);
      assert trains[d][0] in Filed(ledger, leg, priceOf, d);
    }
  }

  /** A go train paired with a return train: the key of a combination. */
  datatype Combination = Combination(go: Train, ret: Train)

  /** Every combination is priced at the sum of its two trains' prices. */
  predicate Priced(m: map<Combination, int>)
  {
    forall k :: k in m ==> m[k] == k.go.price + k.ret.price
  }

  /** The innermost loop: the go train `g` paired with each return train in turn. */
  function AddReturns(m: map<Combination, int>, g: Train, rets: seq<Train>): map<Combination, int>
  {
    if rets == [] then m
    else
      var r := rets[|rets| - 1];
      AddReturns(m, g, rets[..|rets| - 1])[Combination(g, r) := g.price + r.price]
  }

  /** The two inner loops: each go train paired with each return train. */
  function AddPairs(m: map<Combination, int>, gos: seq<Train>, rets: seq<Train>): map<Combination, int>
  {
    if gos == [] then m
    else AddReturns(AddPairs(m, gos[..|gos| - 1], rets), gos[|gos| - 1], rets)
  }

  /** The loop over trip lengths for the go date `gd`: a failing date addition ends the
      whole computation; a return date outside the travel dates, or without return trains,
      adds nothing. */
  function ForDays(m: map<Combination, int>, gd: string, days: seq<int>,
                   go: map<string, seq<Train>>, ret: map<string, seq<Train>>, travelDates: seq<string>,
                   addDays: (string, int) -> Result<string>)
    : Result<map<Combination, int>>
    requires gd in go
  {
    if days == [] then Ok(m)
    else
      match ForDays(m, gd, days[..|days| - 1], go, ret, travelDates, addDays)
      case Err(e) => Err(e)
      case Ok(m') =>
        match addDays(gd, days[|days| - 1])
        case Err(e) => Err(e)
        case Ok(rd) =>
          if rd in travelDates && rd in ret then Ok(AddPairs(m', go[gd], ret[rd])) else Ok(m')
  }

  /** The outer loop over the go dates `ds`; a date without go trains is passed over. */
  function ForDates(ds: seq<string>, go: map<string, seq<Train>>, ret: map<string, seq<Train>>,
                    travelDates: seq<string>, tripDays: seq<int>,
                    addDays: (string, int) -> Result<string>): Result<map<Combination, int>>
  {
    if ds == [] then Ok(map[])
    else
      match ForDates(ds[..|ds| - 1], go, ret, travelDates, tripDays, addDays)
      case Err(e) => Err(e)
      case Ok(m) =>
        var gd := ds[|ds| - 1];
        if gd in go then ForDays(m, gd, tripDays, go, ret, travelDates, addDays) else Ok(m)
  }

  /** The pair `k` is wanted through go date `gd` and trip length `t`: the go train leaves on
      `gd`, and the return train on the date `t` days later, itself a travel date. */
  predicate Links(k: Combination, gd: string, t: int,
                  go: map<string, seq<Train>>, ret: map<string, seq<Train>>, travelDates: seq<string>,
                  addDays: (string, int) -> Result<string>)
  {
    && gd in go && k.go in go[gd]
    && addDays(gd, t).Ok?
    && addDays(gd, t).value in travelDates && addDays(gd, t).value in ret
    && k.ret in ret[addDays(gd, t).value]
  }

  /** After the innermost loop, exactly the pairs of `g` with a return train were added,
      each at the sum of the prices. */
  lemma {:induction false} AddReturnsSpec(m: map<Combination, int>, g: Train, rets: seq<Train>)
    ensures forall k :: k in AddReturns(m, g, rets) <==> k in m || (k.go == g && k.ret in rets)
    ensures Priced(m) ==> Priced(AddReturns(m, g, rets))
  {
    if rets != [] {
      AddReturnsSpec(m, g, rets[..|rets| - 1]);
      assert rets == rets[..|rets| - 1] + [rets[|rets| - 1]];
    }
  }

  /** After the two inner loops, exactly the pairs of a go train and a return train were
      added. */
  lemma {:induction false} AddPairsSpec(m: map<Combination, int>, gos: seq<Train>, rets: seq<Train>)
    ensures forall k :: k in AddPairs(m, gos, rets) <==> k in m || (k.go in gos && k.ret in rets)
    ensures Priced(m) ==> Priced(AddPairs(m, gos, rets))
  {
    if gos != [] {
      var front := gos[..|gos| - 1];
      AddPairsSpec(m, front, rets);
      AddReturnsSpec(AddPairs(m, front, rets), gos[|gos| - 1], rets);
      assert gos == front + [gos[|gos| - 1]];
    }
  }

  /** The loop over trip lengths fails exactly when some date addition fails, and then
      with that addition's error. */
  lemma {:induction false} ForDaysFails(m: map<Combination, int>, gd: string, days: seq<int>,
                                        go: map<string, seq<Train>>, ret: map<string, seq<Train>>,
                                        travelDates: seq<string>, addDays: (string, int) -> Result<string>)
    requires gd in go
    ensures var r := ForDays(m, gd, days, go, ret, travelDates, addDays);
            && (r.Ok? <==> forall j :: 0 <= j < |days| ==> addDays(gd, days[j]).Ok?)
            && (r.Err? ==> exists j :: 0 <= j < |days| && addDays(gd, days[j]) == Err(r.error))
  {
    if days != [] {
      var front := days[..|days| - 1];
      ForDaysFails(m, gd, front, go, ret, travelDates, addDays);
      assert forall j :: 0 <= j < |front| ==> front[j] == days[j];
    }
  }

  /** When the loop over trip lengths completes, it has added exactly the pairs linked
      through `gd` and one of the trip lengths, each at the sum of its trains' prices. */
  lemma {:induction false} ForDaysAdds(m: map<Combination, int>, gd: string, days: seq<int>,
                                       go: map<string, seq<Train>>, ret: map<string, seq<Train>>,
                                       travelDates: seq<string>, addDays: (string, int) -> Result<string>)
    requires gd in go
    requires ForDays(m, gd, days, go, ret, travelDates, addDays).Ok?
    ensures var m' := ForDays(m, gd, days, go, ret, travelDates, addDays).value;
            && (forall k :: k in m' <==>
                  k in m || exists j :: 0 <= j < |days| && Links(k, gd, days[j], go, ret, travelDates, addDays))
            && (Priced(m) ==> Priced(m'))
  {
    if days != [] {
      var front, t := days[..|days| - 1], days[|days| - 1];
      ForDaysAdds(m, gd, front, go, ret, travelDates, addDays);
      assert forall j :: 0 <= j < |front| ==> front[j] == days[j];
      var before := ForDays(m, gd, front, go, ret, travelDates, addDays).value;
      var rd := addDays(gd, t).value;
      if rd in travelDates && rd in ret {
        AddPairsSpec(before, go[gd], ret[rd]);
      }
    }
  }

  /** The whole nest fails exactly when the date addition fails for some go date with
      go trains and some trip length, and then with that addition's error. */
  lemma {:induction false} ForDatesFails(ds: seq<string>, go: map<string, seq<Train>>, ret: map<string, seq<Train>>,
                                         travelDates: seq<string>, tripDays: seq<int>,
                                         addDays: (string, int) -> Result<string>)
    ensures var r := ForDates(ds, go, ret, travelDates, tripDays, addDays);
            && (r.Ok? <==> forall i, j :: 0 <= i < |ds| && ds[i] in go && 0 <= j < |tripDays| ==>
                                           addDays(ds[i], tripDays[j]).Ok?)
            && (r.Err? ==> exists i, j :: 0 <= i < |ds| && 0 <= j < |tripDays| && addDays(ds[i], tripDays[j]) == Err(r.error))
  {
    if ds != [] {
      var front, gd := ds[..|ds| - 1], ds[|ds| - 1];
      ForDatesFails(front, go, ret, travelDates, tripDays, addDays);
      assert forall i :: 0 <= i < |front| ==> front[i] == ds[i];
      var r := ForDates(front, go, ret, travelDates, tripDays, addDays);
      if r.Ok? && gd in go {
        ForDaysFails(r.value, gd, tripDays, go, ret, travelDates, addDays);
      }
    }
  }

  /** When the whole nest completes, it holds exactly the pairs linked through some go
      date and some trip length, each priced at the sum of its trains' prices. */
  lemma {:induction false} ForDatesHolds(ds: seq<string>, go: map<string, seq<Train>>, ret: map<string, seq<Train>>,
                                         travelDates: seq<string>, tripDays: seq<int>,
                                         addDays: (string, int) -> Result<string>)
    requires ForDates(ds, go, ret, travelDates, tripDays, addDays).Ok?
    ensures var m := ForDates(ds, go, ret, travelDates, tripDays, addDays).value;
            && (forall k :: k in m <==>
                  exists i, j :: 0 <= i < |ds| && 0 <= j < |tripDays| && Links(k, ds[i], tripDays[j], go, ret, travelDates, addDays))
            && Priced(m)
  {
    if ds != [] {
      var front, gd := ds[..|ds| - 1], ds[|ds| - 1];
      ForDatesHolds(front, go, ret, travelDates, tripDays, addDays);
      assert forall i :: 0 <= i < |front| ==> front[i] == ds[i];
      var m := ForDates(front, go, ret, travelDates, tripDays, addDays).value;
      if gd in go {
        ForDaysAdds(m, gd, tripDays, go, ret, travelDates, addDays);
      }
    }
  }

  /** One more trip length: the outcome so far, extended by that trip length's return
      date. */
  lemma ForDaysStep(m: map<Combination, int>, gd: string, days: seq<int>, j: nat,
                    go: map<string, seq<Train>>, ret: map<string, seq<Train>>,
                    travelDates: seq<string>, addDays: (string, int) -> Result<string>)
    requires gd in go && j < |days|
    ensures ForDays(m, gd, days[..j + 1], go, ret, travelDates, addDays) ==
              match ForDays(m, gd, days[..j], go, ret, travelDates, addDays)
              case Err(e) => Err(e)
              case Ok(m') =>
                match addDays(gd, days[j])
                case Err(e) => Err(e)
                case Ok(rd) => if rd in travelDates && rd in ret then Ok(AddPairs(m', go[gd], ret[rd])) else Ok(m')
  {
    assert days[..j + 1][..j] == days[..j];
  }

  /** Once the loop over trip lengths has failed, later trip lengths do not change the
      outcome. */
  lemma {:induction false} ForDaysStaysFailed(m: map<Combination, int>, gd: string, days: seq<int>, n: nat,
                                              go: map<string, seq<Train>>, ret: map<string, seq<Train>>,
                                              travelDates: seq<string>, addDays: (string, int) -> Result<string>)
    requires gd in go && n <= |days|
    requires ForDays(m, gd, days[..n], go, ret, travelDates, addDays).Err?
    ensures ForDays(m, gd, days, go, ret, travelDates, addDays) == ForDays(m, gd, days[..n], go, ret, travelDates, addDays)
  {
    if n < |days| {
      var front := days[..|days| - 1];
      assert front[..n] == days[..n];
      ForDaysStaysFailed(m, gd, front, n, go, ret, travelDates, addDays);
    } else {
      assert days[..n] == days;
    }
  }

  /** Once the loop over go dates has failed, later go dates do not change the outcome. */
  lemma {:induction false} ForDatesStaysFailed(ds: seq<string>, n: nat, go: map<string, seq<Train>>,
                                               ret: map<string, seq<Train>>, travelDates: seq<string>,
                                               tripDays: seq<int>, addDays: (string, int) -> Result<string>)
    requires n <= |ds|
    requires ForDates(ds[..n], go, ret, travelDates, tripDays, addDays).Err?
    ensures ForDates(ds, go, ret, travelDates, tripDays, addDays) == ForDates(ds[..n], go, ret, travelDates, tripDays, addDays)
  {
    if n < |ds| {
      var front := ds[..|ds| - 1];
      assert front[..n] == ds[..n];
      ForDatesStaysFailed(front, n, go, ret, travelDates, tripDays, addDays);
    } else {
      assert ds[..n] == ds;
    }
  }

  /** The two inner loops of `possible_train_combinations`: every go train paired with every
      return train, in that order, each pair stored at the sum of the two prices. */
  method PairTrains(before: map<Combination, int>, goTrains: seq<Train>, returnTrains: seq<Train>)
    returns (combinations: map<Combination, int>)
    ensures combinations == AddPairs(before, goTrains, returnTrains)
  {
    combinations := before;
    var a := 0;
    while a < |goTrains|
      invariant 0 <= a <= |goTrains|
      invariant combinations == AddPairs(before, goTrains[..a], returnTrains)
    {
      assert goTrains[..a + 1][..a] == goTrains[..a];
      var goTrain := goTrains[a];
      ghost var atTrain := combinations;
      var b := 0;
      while b < |returnTrains|
        invariant 0 <= b <= |returnTrains|
        invariant combinations == AddReturns(atTrain, goTrain, returnTrains[..b])
      {
        assert returnTrains[..b + 1][..b] == returnTrains[..b];
        var returnTrain := returnTrains[b];
        var totalPrice := goTrain.price + returnTrain.price;
        combinations := combinations[Combination(goTrain, returnTrain) := totalPrice];
        b := b + 1;
      }
      assert returnTrains[..b] == returnTrains;
      a := a + 1;
    }
    assert goTrains[..a] == goTrains;
  }

  /** The loop over trip lengths for one go date: the return date of each trip length (an
      error from the date addition ends the loop); when it is a travel date with return
      trains, the go trains of the day paired with the return trains of that day. */
  method PairForTripDays(before: map<Combination, int>, goDate: string, go: map<string, seq<Train>>,
                         ret: map<string, seq<Train>>, travelDates: seq<string>, tripDays: seq<int>)
    returns (r: Result<map<Combination, int>>)
    requires goDate in go
    ensures r == ForDays(before, goDate, tripDays, go, ret, travelDates, AddDaysToDate)
  {
    var combinations := before;
    var goTrains := go[goDate];
    var j := 0;
    while j < |tripDays|
      invariant 0 <= j <= |tripDays|
      invariant ForDays(before, goDate, tripDays[..j], go, ret, travelDates, AddDaysToDate) == Ok(combinations)
    {
      var returnDate := AddDaysToDate(goDate, tripDays[j]);
      ForDaysStep(before, goDate, tripDays, j, go, ret, travelDates, AddDaysToDate);
      if returnDate.Err? {
        ForDaysStaysFailed(before, goDate, tripDays, j + 1, go, ret, travelDates, AddDaysToDate);
        return Err(returnDate.error);
      }
      if returnDate.value in travelDates && returnDate.value in ret {
        combinations := PairTrains(combinations, goTrains, ret[returnDate.value]);
      }
      j := j + 1;
    }
    assert tripDays[..j] == tripDays;
    r := Ok(combinations);
  }

  /** `possible_train_combinations`: for each travel date with go trains, for each trip
      length, the return date (an error from the date addition ends the call); when it is a
      travel date with return trains, every go train of the day paired with every return
      train of the return day, at the sum of their prices. */
  method PossibleTrainCombinations(go: map<string, seq<Train>>, ret: map<string, seq<Train>>,
                                   travelDates: seq<string>, tripDays: seq<int>)
    returns (r: Result<map<Combination, int>>)
    ensures r == ForDates(travelDates, go, ret, travelDates, tripDays, AddDaysToDate)
  {
    var combinations: map<Combination, int> := map[];
    var i := 0;
    while i < |travelDates|
      invariant 0 <= i <= |travelDates|
      invariant ForDates(travelDates[..i], go, ret, travelDates, tripDays, AddDaysToDate) == Ok(combinations)
    {
      var goDate := travelDates[i];
      assert travelDates[..i + 1][..i] == travelDates[..i];
      assert travelDates[..i + 1][i] == goDate;
      if goDate in go {
        var atDate := PairForTripDays(combinations, goDate, go, ret, travelDates, tripDays);
        if atDate.Err? {
          ForDatesStaysFailed(travelDates, i + 1, go, ret, travelDates, tripDays, AddDaysToDate);
          return Err(atDate.error);
        }
        combinations := atDate.value;
      }
      i := i + 1;
    }
    assert travelDates[..i] == travelDates;
    r := Ok(combinations);
  }

  /** With the trains filed by their own dates, the combinations are exactly the round
      trips: a go train on a travel date, and a return train on the travel date a trip
      length later; each priced at the sum of its trains' prices. */
  lemma CombinationsAreRoundTrips(go: map<string, seq<Train>>, ret: map<string, seq<Train>>,
                                  travelDates: seq<string>, tripDays: seq<int>)
    requires FiledByDate(go) && FiledByDate(ret)
    requires ForDates(travelDates, go, ret, travelDates, tripDays, AddDaysToDate).Ok?
    ensures var m := ForDates(travelDates, go, ret, travelDates, tripDays, AddDaysToDate).value;
            && Priced(m)
            && forall k :: k in m <==>
                 && k.go.date in travelDates && k.go.date in go && k.go in go[k.go.date]
                 && k.ret.date in travelDates && k.ret.date in ret && k.ret in ret[k.ret.date]
                 && exists j :: 0 <= j < |tripDays| && AddDaysToDate(k.go.date, tripDays[j]) == Ok(k.ret.date)
  {
    var m := ForDates(travelDates, go, ret, travelDates, tripDays, AddDaysToDate).value;
    ForDatesHolds(travelDates, go, ret, travelDates, tripDays, AddDaysToDate);
    forall k | k in m
      ensures k.go.date in travelDates && k.go.date in go && k.go in go[k.go.date]
      ensures k.ret.date in travelDates && k.ret.date in ret && k.ret in ret[k.ret.date]
      ensures exists j :: 0 <= j < |tripDays| && AddDaysToDate(k.go.date, tripDays[j]) == Ok(k.ret.date)
    {
      var i, j :| 0 <= i < |travelDates| && 0 <= j < |tripDays| && Links(k, travelDates[i], tripDays[j], go, ret, travelDates, AddDaysToDate);
      assert k.go.date == travelDates[i];
    }
    forall k: Combination | && k.go.date in travelDates && k.go.date in go && k.go in go[k.go.date]
               && k.ret.date in travelDates && k.ret.date in ret && k.ret in ret[k.ret.date]
               && exists j :: 0 <= j < |tripDays| && AddDaysToDate(k.go.date, tripDays[j]) == Ok(k.ret.date)
      ensures k in m
    {
      var j :| 0 <= j < |tripDays| && AddDaysToDate(k.go.date, tripDays[j]) == Ok(k.ret.date);
      var i :| 0 <= i < |travelDates| && travelDates[i] == k.go.date;
      assert Links(k, travelDates[i], tripDays[j], go, ret, travelDates, AddDaysToDate);
    }
  }

  /** The combinations fail exactly when some go date with go trains, moved by some trip
      length, cannot be read or leaves the calendar: ValueError or OverflowError. */
  lemma CombinationsFail(go: map<string, seq<Train>>, ret: map<string, seq<Train>>,
                         travelDates: seq<string>, tripDays: seq<int>)
    ensures var r := ForDates(travelDates, go, ret, travelDates, tripDays, AddDaysToDate);
            && (r.Ok? <==> forall i, j :: 0 <= i < |travelDates| && travelDates[i] in go && 0 <= j < |tripDays| ==>
                                           AddDaysToDate(travelDates[i], tripDays[j]).Ok?)
            && (r.Err? ==> r.error == ValueError || r.error == OverflowError)
  {
    var r := ForDates(travelDates, go, ret, travelDates, tripDays, AddDaysToDate);
    ForDatesFails(travelDates, go, ret, travelDates, tripDays, AddDaysToDate);
    if r.Err? {
      var i, j :| 0 <= i < |travelDates| && 0 <= j < |tripDays| && AddDaysToDate(travelDates[i], tripDays[j]) == Err(r.error);
      AddDaysToDateSpec(travelDates[i], tripDays[j]);
    }
  }

  /** One item of the combinations dictionary: a pair of trains and its total price. */
  datatype Entry = Entry(combo: Combination, total: int)

  /** Totals never decrease along the sequence. */
  predicate SortedByTotal(s: seq<Entry>)
  {
    forall i, j :: 0 <= i < j < |s| ==> s[i].total <= s[j].total
  }

  /** The entries of `s` priced `p`, in the order of `s`. */
  function WithTotal(s: seq<Entry>, p: int): seq<Entry>
  {
    if s == [] then []
    else WithTotal(s[..|s| - 1], p) + if s[|s| - 1].total == p then [s[|s| - 1]] else []
  }

  /** `e` placed after every entry that is not dearer than it. */
  function Insert(s: seq<Entry>, e: Entry): seq<Entry>
  {
    if s == [] || s[|s| - 1].total <= e.total then s + [e]
    else Insert(s[..|s| - 1], e) + [s[|s| - 1]]
  }

  /** `sorted(..., key=price)`: Python's sort is stable, modelled by insertion from the front. */
  function StableSort(s: seq<Entry>): seq<Entry>
  {
    if s == [] then [] else Insert(StableSort(s[..|s| - 1]), s[|s| - 1])
  }

  /** Filtering by price distributes over concatenation. */
  lemma {:induction false} WithTotalAppend(a: seq<Entry>, b: seq<Entry>, p: int)
    ensures WithTotal(a + b, p) == WithTotal(a, p) + WithTotal(b, p)
  {
    if b != [] {
      var front := b[..|b| - 1];
      assert (a + b)[..|a + b| - 1] == a + front;
      WithTotalAppend(a, front, p);
    } else {
      assert a + b == a;
    }
  }

  /** Inserting adds one copy of `e` and keeps everything else. */
  lemma {:induction false} InsertPermutes(s: seq<Entry>, e: Entry)
    ensures multiset(Insert(s, e)) == multiset(s) + multiset{e}
  {
    if !(s == [] || s[|s| - 1].total <= e.total) {
      var front := s[..|s| - 1];
      InsertPermutes(front, e);
      assert s == front + [s[|s| - 1]];
    }
  }

  /** Inserting into a sorted sequence keeps it sorted. */
  lemma {:induction false} InsertSorted(s: seq<Entry>, e: Entry)
    requires SortedByTotal(s)
    ensures SortedByTotal(Insert(s, e))
  {
    if !(s == [] || s[|s| - 1].total <= e.total) {
      var front, last := s[..|s| - 1], s[|s| - 1];
      InsertSorted(front, e);
      InsertPermutes(front, e);
      var t := Insert(front, e);
      forall i | 0 <= i < |t|
        ensures t[i].total <= last.total
      {
        assert t[i] in multiset(front) + multiset{e};
      }
    }
  }

  /** Inserting into a sorted sequence puts `e` after the entries of the same price. */
  lemma {:induction false} InsertStable(s: seq<Entry>, e: Entry, p: int)
    requires SortedByTotal(s)
    ensures WithTotal(Insert(s, e), p) == WithTotal(s, p) + if e.total == p then [e] else []
  {
    if s == [] || s[|s| - 1].total <= e.total {
      WithTotalAppend(s, [e], p);
      assert [e][..0] == [];
    } else {
      var front, last := s[..|s| - 1], s[|s| - 1];
      InsertStable(front, e, p);
      WithTotalAppend(Insert(front, e), [last], p);
      WithTotalAppend(front, [last], p);
      assert [last][..0] == [];
      assert s == front + [last];
    }
  }

  /** The sort returns a sorted permutation of its input. */
  lemma {:induction false} StableSortSpec(s: seq<Entry>)
    ensures SortedByTotal(StableSort(s))
    ensures multiset(StableSort(s)) == multiset(s) && |StableSort(s)| == |s|
  {
    if s != [] {
      var front, last := s[..|s| - 1], s[|s| - 1];
      StableSortSpec(front);
      var t := StableSort(front);
      assert StableSort(s) == Insert(t, last);
      InsertSorted(t, last);
      InsertPermutes(t, last);
      assert s == front + [last];
      assert multiset(s) == multiset(front) + multiset{last};
      assert |StableSort(s)| == |multiset(StableSort(s))|;
    }
  }

  /** The sort is stable: the entries of any one price keep their input order. */
  lemma {:induction false} StableSortStable(s: seq<Entry>, p: int)
    ensures WithTotal(StableSort(s), p) == WithTotal(s, p)
  {
    if s != [] {
      var front, last := s[..|s| - 1], s[|s| - 1];
      StableSortStable(front, p);
      StableSortSpec(front);
      InsertStable(StableSort(front), last, p);
    }
  }

  /** `select_cheapest` as written: the counter `i` is never incremented, so with `min_i`
      other than 0 the price bound stays infinite, and with `min_i` equal to 0 it is reset to
      each entry's own price before the comparison; no entry is ever left out. The result is
      the whole input in price order, whatever `minI` is. */
  method SelectCheapest(combinations: seq<Entry>, minI: int) returns (cheapest: seq<Entry>)
    ensures cheapest == StableSort(combinations)
    ensures |cheapest| == |combinations|
  {
    var sorted := StableSort(combinations);
    StableSortSpec(combinations);
    cheapest := [];
    var maxPrice: Option<int> := None;  // float('inf')
    var i := 0;
    var k := 0;
    while k < |sorted|
      invariant 0 <= k <= |sorted|
      invariant cheapest == sorted[..k]
      invariant minI != 0 ==> maxPrice.None?
    {
      var price := sorted[k].total;
      if i == minI {
        maxPrice := Some(price);
      }
      if maxPrice.Some? && price > maxPrice.value {
        break;
      }
      cheapest := cheapest + [sorted[k]];
      k := k + 1;
    }
    assert sorted[..k] == sorted;
  }

  /** What `select_cheapest` is documented to return from the sorted entries: a prefix
      holding the `minI` cheapest entries and every other entry as cheap as the `minI`-th,
      and nothing dearer; every entry when `minI` is not between 1 and their number. */
  predicate CheapestPrefix(sorted: seq<Entry>, minI: int, cheapest: seq<Entry>)
  {
    && |cheapest| <= |sorted| && cheapest == sorted[..|cheapest|]
    && (1 <= minI <= |sorted| ==>
          && minI <= |cheapest|
          && (forall k :: 0 <= k < |cheapest| ==> cheapest[k].total <= sorted[minI - 1].total)
          && (|cheapest| < |sorted| ==> sorted[|cheapest|].total > sorted[minI - 1].total))
    && (!(1 <= minI <= |sorted|) ==> cheapest == sorted)
  }

  /** The selection as written misses its documented result: of three combinations priced
      10, 20 and 30, with `minI` 1, it keeps all three where only the cheapest is meant. */
  lemma SelectCheapestKeepsDearer(a: Combination, b: Combination, c: Combination)
    ensures var s := [Entry(a, 10), Entry(b, 20), Entry(c, 30)];
            && StableSort(s) == s
            && !CheapestPrefix(StableSort(s), 1, StableSort(s))
            && CheapestPrefix(StableSort(s), 1, StableSort(s)[..1])
  {
    var s := [Entry(a, 10), Entry(b, 20), Entry(c, 30)];
    assert s[..2][..1] == [s[0]];
    assert s[..1][..0] == [];
    assert StableSort(s[..1]) == [s[0]];
    assert StableSort(s[..2]) == s[..2];
    assert StableSort(s) == s;
  }

  /** Where the corrected loop stops gives the documented prefix: at the end of the sorted
      entries, or at the first entry dearer than the `minI`-th. */
  lemma CheapestCut(sorted: seq<Entry>, minI: int, k: nat)
    requires SortedByTotal(sorted) && k <= |sorted|
    requires 1 <= minI <= k ==> sorted[k - 1].total <= sorted[minI - 1].total
    requires k == |sorted| || (1 <= minI <= k && sorted[k].total > sorted[minI - 1].total)
    ensures CheapestPrefix(sorted, minI, sorted[..k])
  {
    if 1 <= minI <= k {
      SortedPrefixBelow(sorted, k, sorted[minI - 1].total);
    }
  }

  /** In a sorted sequence, an entry no dearer than `bound` has only such entries before it. */
  lemma SortedPrefixBelow(s: seq<Entry>, k: nat, bound: int)
    requires SortedByTotal(s) && 0 < k <= |s| && s[k - 1].total <= bound
    ensures forall j :: 0 <= j < k ==> s[j].total <= bound
  {
  }

  /** `select_cheapest` with the counter incremented for every entry, before it is compared
      with `min_i`, as its documentation describes: the `minI` cheapest entries, and every
      other entry as cheap as the `minI`-th. */
  method SelectCheapestCorrected(combinations: seq<Entry>, minI: int) returns (cheapest: seq<Entry>)
    ensures CheapestPrefix(StableSort(combinations), minI, cheapest)
  {
    var sorted := StableSort(combinations);
    StableSortSpec(combinations);
    cheapest := [];
    var maxPrice: Option<int> := None;  // float('inf')
    var i := 0;
    var k := 0;
    while k < |sorted|
      invariant 0 <= k <= |sorted| && i == k
      invariant cheapest == sorted[..k]
      invariant maxPrice.Some? <==> 1 <= minI <= k
      invariant maxPrice.Some? ==> maxPrice.value == sorted[minI - 1].total && sorted[k - 1].total <= maxPrice.value
    {
      var price := sorted[k].total;
      i := i + 1;
      if i == minI {
        maxPrice := Some(price);
      }
      if maxPrice.Some? && price > maxPrice.value {
        break;
      }
      cheapest := cheapest + [sorted[k]];
      k := k + 1;
    }
    CheapestCut(sorted, minI, k);
  }

  /** The fields of one output line: rank, total, then the go train (operator, price,
      departure time, date, origin, arrival time, destination), an empty field, then the
      return train (operator, price, departure time, date, destination). */
  function RankFields(rank: nat, e: Entry, origin: string, destination: string, show: int -> string): (fields: seq<string>)
    ensures |fields| == 15 && fields[0] == DecimalString(rank) && fields[9] == ""
  {
    var g, r := e.combo.go, e.combo.ret;
    [DecimalString(rank), show(e.total) + "€",
     g.company, show(g.price) + "€", g.departure, g.date, origin, g.arrival, destination,
     "",
     r.company, show(r.price) + "€", r.departure, r.date, destination]
  }

  /** One line of the ranking file. */
  function RankLine(rank: nat, e: Entry, origin: string, destination: string, show: int -> string): string
  {
    Join(RankFields(rank, e, origin, destination, show), '|') + "\n"
  }

  /** When no value holds '|' or a newline, a ranking line splits back into its fifteen
      fields, and the first reads as the rank. */
  lemma RankLineReadBack(rank: nat, e: Entry, origin: string, destination: string, show: int -> string)
    requires var fields := RankFields(rank, e, origin, destination, show);
             forall k :: 0 <= k < |fields| ==> PlainField(fields[k])
    ensures var line := RankLine(rank, e, origin, destination, show);
            && |line| > 0 && line[|line| - 1] == '\n'
            && Split(line[..|line| - 1], '|') == RankFields(rank, e, origin, destination, show)
            && ParseInt(Split(line[..|line| - 1], '|')[0]) == Some(rank)
  {
    var fields := RankFields(rank, e, origin, destination, show);
    var line := RankLine(rank, e, origin, destination, show);
    assert line[..|line| - 1] == Join(fields, '|');
    SplitJoin(fields, '|');
    ParseDecimalString(rank);
  }

  /** The output loop of `main_function`: the entries in the order given, ranked from 0. */
  method WriteRanking(cheapest: seq<Entry>, origin: string, destination: string, show: int -> string)
    returns (lines: seq<string>)
    ensures |lines| == |cheapest|
    ensures forall k :: 0 <= k < |cheapest| ==> lines[k] == RankLine(k, cheapest[k], origin, destination, show)
  {
    lines := [];
    var i := 0;
    while i < |cheapest|
      invariant 0 <= i <= |cheapest| && |lines| == i
      invariant forall k :: 0 <= k < i ==> lines[k] == RankLine(k, cheapest[k], origin, destination, show)
    {
      lines := lines + [RankLine(i, cheapest[i], origin, destination, show)];
      i := i + 1;
    }
  }
}
