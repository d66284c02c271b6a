/** Failure-carrying results and the Python exceptions the modelled code raises or catches. */
module Wrappers {

  datatype Option<+T> = None | Some(value: T)

  /** The exception kinds that occur in the modelled code. The four Selenium kinds are the
      ones the two scrapers' wrappers name; WebDriverException stands for any other fault
      the browser library reports. */
  datatype PyError =
    | ValueError
    | IndexError
    | OverflowError
    | AssertionError
    | TypeError
    | TimeoutException
    | NoSuchElementException
    | UnexpectedAlertPresentException
    | ElementNotInteractableException
    | WebDriverException

  datatype Result<+T> = Ok(value: T) | Err(error: PyError)

  /** A call wrapped in `try: ...; return True` with an `except` naming the kinds in
      `caught`, which returns False: a normal return is True, a caught exception False, and
      any other exception propagates unchanged. */
  function Catch<T>(outcome: Result<T>, caught: set<PyError>): (r: Result<bool>)
    ensures r == Ok(true) <==> outcome.Ok?
    ensures r == Ok(false) <==> outcome.Err? && outcome.error in caught
    ensures r.Err? <==> outcome.Err? && outcome.error !in caught
    ensures r.Err? ==> r.error == outcome.error
  {
    match outcome
    case Ok(_) => Ok(true)
    case Err(e) => if e in caught then Ok(false) else Err(e)
  }
}
