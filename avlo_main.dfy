/** The driver of AVLO/main.py: the check that the travel dates do not start before the
    search date, and the retry loop over the pending requests. The scraper is an oracle:
    `succeeds(t, x)` says whether attempt `t`, made for request `x`, found services; and
    `random.choice` is an oracle too: attempt `t` takes the request at index
    `pick(t) % |pending|`. */
module AvloMain {
  import opened Wrappers
  import opened Text
  import opened Dates
  import opened ExistingOutput
  import opened MissingServices

  /** The run is abandoned once the failure counter exceeds this value. */
  const MaxFailures: nat := 20

  /** `list.remove(x)`: the first occurrence of `x` taken out. */
  function RemoveFirst(s: seq<Request>, x: Request): (r: seq<Request>)
    requires x in s
    ensures |r| == |s| - 1
  {
    if s[0] == x then s[1..] else [s[0]] + RemoveFirst(s[1..], x)
  }

  /** Removing cuts `s` at the first occurrence of `x` and keeps both sides in order. */
  lemma {:induction false} RemoveFirstAt(s: seq<Request>, x: Request)
    requires x in s
    ensures RemoveFirst(s, x) == s[..FirstIndex(s, x)] + s[FirstIndex(s, x) + 1..]
  {
    if s[0] != x {
      assert x in s[1..];
      RemoveFirstAt(s[1..], x);
      var k := FirstIndex(s[1..], x);
      assert FirstIndex(s, x) == k + 1;
      assert s[..k + 1] == [s[0]] + s[1..][..k];
      assert s[k + 2..] == s[1..][k + 1..];
    }
  }

  /** Removing takes out exactly one copy of `x`, the first, and keeps the rest in order. */
  lemma RemoveFirstSpec(s: seq<Request>, x: Request)
    requires x in s
    ensures RemoveFirst(s, x) == s[..FirstIndex(s, x)] + s[FirstIndex(s, x) + 1..]
    ensures multiset(RemoveFirst(s, x)) == multiset(s) - multiset{x}
  {
    RemoveFirstAt(s, x);
    var k := FirstIndex(s, x);
    assert s == s[..k] + [x] + s[k + 1..];
  }

  /** The start-date check: the first travel date must not come before the search date.
      An empty list has no first date (IndexError); an unreadable date is a ValueError; a
      first date before the search date fails the assertion. */
  function CheckStartDate(travelDates: seq<string>, searchDate: string): (r: Result<()>)
    ensures travelDates == [] ==> r == Err(IndexError)
    ensures travelDates != [] && (StringToDate(travelDates[0]).Err? || StringToDate(searchDate).Err?) ==>
              r == Err(ValueError)
    ensures travelDates != [] && StringToDate(travelDates[0]).Ok? && StringToDate(searchDate).Ok? ==>
              (r.Ok? <==> Ordinal(StringToDate(searchDate).value) <= Ordinal(StringToDate(travelDates[0]).value))
              && (r.Err? ==> r.error == AssertionError)
  {
    if travelDates == [] then Err(IndexError)
    else
      match StringToDate(travelDates[0])
      case Err(e) => Err(e)
      case Ok(first) =>
        match StringToDate(searchDate)
        case Err(e) => Err(e)
        case Ok(today) =>
          AtOrBeforeIsOrdinal(today, first);
          if AtOrBefore(today, first) then Ok(()) else Err(AssertionError)
  }

  /** The first `MaxFailures + 1` attempts on `initial` all fail. */
  predicate FailsFromStart(initial: seq<Request>, pick: nat -> nat, succeeds: (nat, Request) -> bool)
    requires initial != []
  {
    forall t: nat :: t <= MaxFailures ==> !succeeds(t, initial[pick(t) % |initial|])
  }

  /** One attempt of the loop: the request picked, and whether services were found for it. */
  datatype Attempt = Attempt(chosen: Request, found: bool)

  /** How the loop ends: the requests still pending, the failure counter, and the attempts
      made, in order. */
  datatype Trace = Trace(pending: seq<Request>, failures: nat, attempts: seq<Attempt>)

  /** The loop as a recursive definition, from the pending requests, the failure counter and
      the number `t` of the next attempt: attempt `t` picks the request at `pick(t)` modulo the
      number pending; a success removes its first copy and resets the counter, a failure
      leaves the requests alone and bumps the counter, and a counter above `MaxFailures`
      ends the run. */
  function Run(pending: seq<Request>, failures: nat, t: nat,
               pick: nat -> nat, succeeds: (nat, Request) -> bool): Trace
    requires failures <= MaxFailures
    decreases |pending|, MaxFailures - failures
  {
    if pending == [] then Trace(pending, failures, [])
    else
      var chosen := pending[pick(t) % |pending|];
      if succeeds(t, chosen) then
        var rest := Run(RemoveFirst(pending, chosen), 0, t + 1, pick, succeeds);
        Trace(rest.pending, rest.failures, [Attempt(chosen, true)] + rest.attempts)
      else if failures + 1 > MaxFailures then
        Trace(pending, failures + 1, [Attempt(chosen, false)])
      else
        var rest := Run(pending, failures + 1, t + 1, pick, succeeds);
        Trace(rest.pending, rest.failures, [Attempt(chosen, false)] + rest.attempts)
  }

  /** The requests answered by a list of attempts, one copy per successful attempt. */
  function Answered(attempts: seq<Attempt>): multiset<Request>
  {
    if attempts == [] then multiset{}
    else (if attempts[0].found then multiset{attempts[0].chosen} else multiset{}) + Answered(attempts[1..])
  }

  /** The failure counter after `attempts`, starting from `f`: a success resets it to 0, a
      failure adds one. */
  function Counter(f: nat, attempts: seq<Attempt>): nat
  {
    if attempts == [] then f
    else if attempts[|attempts| - 1].found then 0
    else Counter(f, attempts[..|attempts| - 1]) + 1
  }

  /** The counter read from the front: the first attempt sets the starting value of the rest. */
  lemma {:induction false} CounterFirst(f: nat, a: Attempt, rest: seq<Attempt>)
    ensures Counter(f, [a] + rest) == Counter(if a.found then 0 else f + 1, rest)
  {
    if rest != [] {
      var front := rest[..|rest| - 1];
      assert ([a] + rest)[..|[a] + rest| - 1] == [a] + front;
      CounterFirst(f, a, front);
    }
  }

  /** A counter at `n` from a start of 0 means that the last `n` attempts all failed. */
  lemma {:induction false} CounterTrailing(attempts: seq<Attempt>, n: nat)
    requires Counter(0, attempts) == n
    ensures n <= |attempts|
    ensures forall k :: |attempts| - n <= k < |attempts| ==> !attempts[k].found
  {
    if n > 0 {
      var front := attempts[..|attempts| - 1];
      CounterTrailing(front, n - 1);
      assert forall k :: 0 <= k < |front| ==> front[k] == attempts[k];
    }
  }

  /** One step of `Run` from a non-empty state: the first attempt, and the run that follows
      it (none when the failure ends the run). */
  lemma RunStep(pending: seq<Request>, failures: nat, t: nat,
                pick: nat -> nat, succeeds: (nat, Request) -> bool)
    requires failures <= MaxFailures && pending != []
    ensures var chosen := pending[pick(t) % |pending|];
            var r := Run(pending, failures, t, pick, succeeds);
            && chosen in pending
            && |r.attempts| >= 1 && r.attempts[0] == Attempt(chosen, succeeds(t, chosen))
            && (succeeds(t, chosen) ==>
                  var rest := Run(RemoveFirst(pending, chosen), 0, t + 1, pick, succeeds);
                  r.pending == rest.pending && r.failures == rest.failures && r.attempts[1..] == rest.attempts)
            && (!succeeds(t, chosen) && failures + 1 > MaxFailures ==>
                  r.pending == pending && r.failures == failures + 1 && r.attempts[1..] == [])
            && (!succeeds(t, chosen) && failures + 1 <= MaxFailures ==>
                  var rest := Run(pending, failures + 1, t + 1, pick, succeeds);
                  r.pending == rest.pending && r.failures == rest.failures && r.attempts[1..] == rest.attempts)
  {
    var chosen := pending[pick(t) % |pending|];
    var r := Run(pending, failures, t, pick, succeeds);
    if succeeds(t, chosen) {
      var rest := Run(RemoveFirst(pending, chosen), 0, t + 1, pick, succeeds);
      assert r.attempts == [Attempt(chosen, true)] + rest.attempts;
    } else if failures + 1 <= MaxFailures {
      var rest := Run(pending, failures + 1, t + 1, pick, succeeds);
      assert r.attempts == [Attempt(chosen, false)] + rest.attempts;
    }
  }

  /** One turn of the loop, as the loop sees it: the run from here is the run from the next
      state, or stops here with the counter above `MaxFailures`. */
  lemma RunNext(pending: seq<Request>, failures: nat, t: nat,
                pick: nat -> nat, succeeds: (nat, Request) -> bool)
    requires failures <= MaxFailures && pending != []
    ensures var chosen := pending[pick(t) % |pending|];
            var r := Run(pending, failures, t, pick, succeeds);
            var next := if succeeds(t, chosen) then RemoveFirst(pending, chosen) else pending;
            var f := if succeeds(t, chosen) then 0 else failures + 1;
            && chosen in pending
            && (f <= MaxFailures ==>
                  && r.pending == Run(next, f, t + 1, pick, succeeds).pending
                  && r.failures == Run(next, f, t + 1, pick, succeeds).failures)
            && (f > MaxFailures ==> r.pending == pending && r.failures == f)
  {
    RunStep(pending, failures, t, pick, succeeds);
  }

  /** The loop ends with nothing pending or with the counter above `MaxFailures`, and the
      counter it ends with is the one its attempts give. */
  lemma {:induction false} RunEnds(pending: seq<Request>, failures: nat, t: nat,
                                   pick: nat -> nat, succeeds: (nat, Request) -> bool)
    requires failures <= MaxFailures
    ensures var r := Run(pending, failures, t, pick, succeeds);
            && (r.pending == [] || r.failures == MaxFailures + 1)
            && r.failures == Counter(failures, r.attempts)
    decreases |pending|, MaxFailures - failures
  {
    if pending != [] {
      var chosen := pending[pick(t) % |pending|];
      var r := Run(pending, failures, t, pick, succeeds);
      RunStep(pending, failures, t, pick, succeeds);
      var a := r.attempts[0];
      assert r.attempts == [a] + r.attempts[1..];
      CounterFirst(failures, a, r.attempts[1..]);
      if succeeds(t, chosen) {
        RunEnds(RemoveFirst(pending, chosen), 0, t + 1, pick, succeeds);
      } else if failures + 1 <= MaxFailures {
        RunEnds(pending, failures + 1, t + 1, pick, succeeds);
      }
    }
  }

  /** The requests answered by a first attempt and those after it. */
  lemma AnsweredFirst(a: Attempt, tail: seq<Attempt>)
    ensures Answered([a] + tail) == (if a.found then multiset{a.chosen} else multiset{}) + Answered(tail)
  {
    assert ([a] + tail)[1..] == tail;
  }

  /** A removal followed by the rest of the run accounts for every pending request. */
  lemma RemovedThenRest(pending: seq<Request>, chosen: Request, next: seq<Request>,
                        left: seq<Request>, answered: multiset<Request>)
    requires chosen in pending && multiset(next) == multiset(pending) - multiset{chosen}
    requires multiset(next) == multiset(left) + answered
    ensures multiset(pending) == multiset(left) + (multiset{chosen} + answered)
  {
    assert multiset(pending) == multiset(next) + multiset{chosen};
  }

  /** What the loop removes is one copy of the request of each successful attempt. */
  lemma {:induction false} RunRemoves(pending: seq<Request>, failures: nat, t: nat,
                                      pick: nat -> nat, succeeds: (nat, Request) -> bool)
    requires failures <= MaxFailures
    ensures var r := Run(pending, failures, t, pick, succeeds);
            multiset(pending) == multiset(r.pending) + Answered(r.attempts)
    decreases |pending|, MaxFailures - failures
  {
    if pending != [] {
      var chosen := pending[pick(t) % |pending|];
      var r := Run(pending, failures, t, pick, succeeds);
      RunStep(pending, failures, t, pick, succeeds);
      var a, tail := r.attempts[0], r.attempts[1..];
      assert r.attempts == [a] + tail;
      AnsweredFirst(a, tail);
      if succeeds(t, chosen) {
        var next := RemoveFirst(pending, chosen);
        RemoveFirstSpec(pending, chosen);
        RunRemoves(next, 0, t + 1, pick, succeeds);
        RemovedThenRest(pending, chosen, next, r.pending, Answered(tail));
      } else if failures + 1 <= MaxFailures {
        RunRemoves(pending, failures + 1, t + 1, pick, succeeds);
      }
    }
  }

  /** Attempt `k` of `attempts`, counted from attempt number `t`, succeeded exactly when the
      scraper found services for its request at that attempt. */
  predicate Judged(attempts: seq<Attempt>, t: nat, succeeds: (nat, Request) -> bool)
  {
    forall k :: 0 <= k < |attempts| ==> attempts[k].found == succeeds(t + k, attempts[k].chosen)
  }

  /** Every attempt of the loop is judged by the scraper's verdict at that attempt. */
  lemma {:induction false} RunAttempts(pending: seq<Request>, failures: nat, t: nat,
                                       pick: nat -> nat, succeeds: (nat, Request) -> bool)
    requires failures <= MaxFailures
    ensures Judged(Run(pending, failures, t, pick, succeeds).attempts, t, succeeds)
    decreases |pending|, MaxFailures - failures
  {
    if pending != [] {
      var chosen := pending[pick(t) % |pending|];
      if succeeds(t, chosen) {
        RunAttempts(RemoveFirst(pending, chosen), 0, t + 1, pick, succeeds);
      } else if failures + 1 <= MaxFailures {
        RunAttempts(pending, failures + 1, t + 1, pick, succeeds);
      }
      JudgedStep(pending, failures, t, pick, succeeds);
    }
  }

  /** The first attempt is judged by the verdict at attempt `t`; the rest of the run, when
      there is one, carries on from attempt `t + 1`. */
  lemma JudgedStep(pending: seq<Request>, failures: nat, t: nat,
                   pick: nat -> nat, succeeds: (nat, Request) -> bool)
    requires failures <= MaxFailures && pending != []
    requires var chosen := pending[pick(t) % |pending|];
             succeeds(t, chosen) ==>
               Judged(Run(RemoveFirst(pending, chosen), 0, t + 1, pick, succeeds).attempts, t + 1, succeeds)
    requires var chosen := pending[pick(t) % |pending|];
             !succeeds(t, chosen) && failures + 1 <= MaxFailures ==>
               Judged(Run(pending, failures + 1, t + 1, pick, succeeds).attempts, t + 1, succeeds)
    ensures Judged(Run(pending, failures, t, pick, succeeds).attempts, t, succeeds)
  {
    var chosen := pending[pick(t) % |pending|];
    var r := Run(pending, failures, t, pick, succeeds);
    RunStep(pending, failures, t, pick, succeeds);
    var a := r.attempts[0];
    if succeeds(t, chosen) {
      var rest := Run(RemoveFirst(pending, chosen), 0, t + 1, pick, succeeds);
      assert r.attempts == [a] + rest.attempts;
      ShiftAttempts(a, rest.attempts, t, succeeds);
    } else if failures + 1 <= MaxFailures {
      var rest := Run(pending, failures + 1, t + 1, pick, succeeds);
      assert r.attempts == [a] + rest.attempts;
      ShiftAttempts(a, rest.attempts, t, succeeds);
    } else {
      assert r.attempts == [a];
    }
  }

  /** Attempt numbers shift by one past the first attempt. */
  lemma ShiftAttempts(a: Attempt, tail: seq<Attempt>, t: nat, succeeds: (nat, Request) -> bool)
    requires a.found == succeeds(t, a.chosen)
    requires Judged(tail, t + 1, succeeds)
    ensures Judged([a] + tail, t, succeeds)
  {
    forall k | 1 <= k < |[a] + tail|
      ensures ([a] + tail)[k].found == succeeds(t + k, ([a] + tail)[k].chosen)
    {
      var j := k - 1;
      assert ([a] + tail)[k] == tail[j];
      assert t + 1 + j == t + k;
    }
  }

  /** A run is abandoned only after `MaxFailures + 1` consecutive failed attempts, and the
      requests it leaves pending are the initial ones minus one copy per success. */
  lemma AbandonedAfterConsecutiveFailures(initial: seq<Request>, pick: nat -> nat, succeeds: (nat, Request) -> bool)
    ensures var r := Run(initial, 0, 0, pick, succeeds);
            && multiset(initial) - multiset(r.pending) == Answered(r.attempts)
            && (r.pending != [] ==>
                  && |r.attempts| >= MaxFailures + 1
                  && forall k :: |r.attempts| - (MaxFailures + 1) <= k < |r.attempts| ==> !r.attempts[k].found)
  {
    var r := Run(initial, 0, 0, pick, succeeds);
    RunEnds(initial, 0, 0, pick, succeeds);
    RunRemoves(initial, 0, 0, pick, succeeds);
    if r.pending != [] {
      CounterTrailing(r.attempts, MaxFailures + 1);
    }
  }

  /** When every search succeeds, nothing is left pending. */
  lemma AllFoundCompletes(initial: seq<Request>, pick: nat -> nat, succeeds: (nat, Request) -> bool)
    requires forall t: nat, x: Request :: succeeds(t, x)
    ensures Run(initial, 0, 0, pick, succeeds).pending == []
  {
    var r := Run(initial, 0, 0, pick, succeeds);
    RunEnds(initial, 0, 0, pick, succeeds);
    RunAttempts(initial, 0, 0, pick, succeeds);
    if r.pending != [] {
      CounterTrailing(r.attempts, MaxFailures + 1);
    }
  }

  /** Attempts that all fail from a fresh counter leave the requests as they were, until the
      counter passes `MaxFailures`. */
  lemma {:induction false} RunFailsFrom(initial: seq<Request>, t: nat, pick: nat -> nat, succeeds: (nat, Request) -> bool)
    requires initial != [] && FailsFromStart(initial, pick, succeeds) && t <= MaxFailures
    ensures Run(initial, t, t, pick, succeeds).pending == initial
    ensures Run(initial, t, t, pick, succeeds).failures == MaxFailures + 1
    decreases MaxFailures - t
  {
    RunNext(initial, t, t, pick, succeeds);
    assert !succeeds(t, initial[pick(t) % |initial|]);
    if t + 1 <= MaxFailures {
      RunFailsFrom(initial, t + 1, pick, succeeds);
    }
  }

  /** The `while` loop of `main_function`: pick a pending request, ask the scraper; a
      success removes that request (its first copy) and resets the failure counter, a
      failure bumps it; once the counter exceeds `MaxFailures` the run is abandoned. The
      loop ends with nothing pending, or abandoned with the counter at `MaxFailures + 1`
      and a sub-multiset of the initial requests still pending. */
  method AcquisitionLoop(initial: seq<Request>, pick: nat -> nat, succeeds: (nat, Request) -> bool)
    returns (pending: seq<Request>, failures: nat)
    ensures pending == Run(initial, 0, 0, pick, succeeds).pending
    ensures failures == Run(initial, 0, 0, pick, succeeds).failures
    ensures pending == [] || failures == MaxFailures + 1
    ensures failures <= MaxFailures + 1
    ensures multiset(pending) <= multiset(initial)
    ensures initial != [] && FailsFromStart(initial, pick, succeeds) ==>
              pending == initial && failures == MaxFailures + 1
  {
    pending := initial;
    failures := 0;
    var t: nat := 0;
    ghost var outcome := Run(initial, 0, 0, pick, succeeds);
    RunRemoves(initial, 0, 0, pick, succeeds);
    if initial != [] && FailsFromStart(initial, pick, succeeds) {
      RunFailsFrom(initial, 0, pick, succeeds);
    }
    while |pending| > 0
      invariant failures <= MaxFailures
      invariant Run(pending, failures, t, pick, succeeds).pending == outcome.pending
      invariant Run(pending, failures, t, pick, succeeds).failures == outcome.failures
      decreases |pending|, MaxFailures - failures
    {
      var chosen := pending[pick(t) % |pending|];
      RunNext(pending, failures, t, pick, succeeds);
      if succeeds(t, chosen) {
        RemoveFirstSpec(pending, chosen);
        pending := RemoveFirst(pending, chosen);
        failures := 0;
      } else {
        failures := failures + 1;
      }
      if failures > MaxFailures {
        return;
      }
      t := t + 1;
    }
  }

  /** How a run ends: every request answered, or abandoned with a report of what was still
      pending. */
  datatype RunEnd = Completed | Abandoned(report: seq<string>)

  /** `main_function` as written: the abandon branch calls `write_missing_services` with two
      arguments where it takes three, so an abandoned run ends in a TypeError. The requests
      are planned with `repeat_services` left at True. */
  method MainFunction(travelDates: seq<string>, searchDate: string, ods: seq<StationPair>,
                      ledgerExists: bool, ledger: seq<LedgerRow>,
                      pick: nat -> nat, succeeds: (nat, Request) -> bool)
    returns (r: Result<RunEnd>, pending: seq<Request>)
    ensures CheckStartDate(travelDates, searchDate).Err? ==>
              r == Err(CheckStartDate(travelDates, searchDate).error)
    ensures CheckStartDate(travelDates, searchDate).Ok? ==>
              var plan := CrossProduct(ods, travelDates, searchDate);
              && multiset(pending) <= multiset(plan)
              && (r == Ok(Completed) <==> pending == [])
              && (r == Err(TypeError) <==> pending != [])
              && pending == Run(plan, 0, 0, pick, succeeds).pending
              && ((forall t: nat, x: Request :: succeeds(t, x)) ==> r == Ok(Completed))
              && (plan != [] && FailsFromStart(plan, pick, succeeds) ==> r == Err(TypeError) && pending == plan)
  {
    pending := [];
    var start := CheckStartDate(travelDates, searchDate);
    if start.Err? {
      return Err(start.error), pending;
    }
    var created;
    pending, created := LoadServicesToRequest(ods, travelDates, searchDate, ledgerExists, ledger, true);
    var failures;
    if forall t: nat, x: Request :: succeeds(t, x) {
      AllFoundCompletes(pending, pick, succeeds);
    }
    pending, failures := AcquisitionLoop(pending, pick, succeeds);
    if pending != [] {
      return Err(TypeError), pending;
    }
    r := Ok(Completed);
  }

  /** `main_function` with the operator passed to `write_missing_services`: an abandoned
      run writes the missing-services report for 'AVLO', one line per request still
      pending. */
  method MainFunctionCorrected(travelDates: seq<string>, searchDate: string, ods: seq<StationPair>,
                               ledgerExists: bool, ledger: seq<LedgerRow>,
                               pick: nat -> nat, succeeds: (nat, Request) -> bool)
    returns (r: Result<RunEnd>, pending: seq<Request>)
    ensures CheckStartDate(travelDates, searchDate).Err? ==>
              r == Err(CheckStartDate(travelDates, searchDate).error)
    ensures CheckStartDate(travelDates, searchDate).Ok? ==>
              var plan := CrossProduct(ods, travelDates, searchDate);
              && r.Ok? && multiset(pending) <= multiset(plan)
              && (r.value == Completed <==> pending == [])
              && (r.value.Abandoned? ==>
                    && |r.value.report| == 1 + |pending| && r.value.report[0] == ReportHeader
                    && forall i :: 0 <= i < |pending| ==> r.value.report[i + 1] == MissingLine(pending[i], "AVLO"))
              && pending == Run(plan, 0, 0, pick, succeeds).pending
              && ((forall t: nat, x: Request :: succeeds(t, x)) ==> r.value == Completed)
              && (plan != [] && FailsFromStart(plan, pick, succeeds) ==> r.value.Abandoned? && pending == plan)
  {
    pending := [];
    var start := CheckStartDate(travelDates, searchDate);
    if start.Err? {
      return Err(start.error), pending;
    }
    var created;
    pending, created := LoadServicesToRequest(ods, travelDates, searchDate, ledgerExists, ledger, true);
    var failures;
    if forall t: nat, x: Request :: succeeds(t, x) {
      AllFoundCompletes(pending, pick, succeeds);
    }
    pending, failures := AcquisitionLoop(pending, pick, succeeds);
    if pending != [] {
      var report := WriteMissingServices(pending, "AVLO");
      return Ok(Abandoned(report)), pending;
    }
    r := Ok(Completed);
  }
}
