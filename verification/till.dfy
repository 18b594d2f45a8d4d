/** The keyword dispatch of `main` in `0001_till.py`, without the printing.
    The two clock readings the script takes (one inside the anchor, one
    inside interesting_deltas) are parameters, and dateutil's free-form
    parser is the uninterpreted parameter `parse` (None when it raises). */
module Till {
  import opened Errors
  import opened Calendar
  import opened Timestamps
  import opened Anchors
  import opened Deltas

  /** What one run does: nothing, a report of the target's deltas, or an
      uncaught exception. */
  datatype Outcome = NoOp | Report(target: DateTime, deltas: seq<Metric>) | Crash(error: Error)

  /** The parser only produces real timestamps. */
  ghost predicate ParserYieldsValid(parse: string -> Option<DateTime>) {
    forall s :: parse(s).Some? ==> Valid(parse(s).value)
  }

  predicate IsKeyword(token: string) {
    token == "eod" || token == "eow" || token == "mon" || token == "eoq"
  }

  /** The target a command-line token stands for. */
  function Resolve(token: string, now: DateTime, parse: string -> Option<DateTime>): (r: Result<DateTime>)
    requires Valid(now) && ParserYieldsValid(parse)
    ensures r.Ok? ==> Valid(r.value)
    ensures token == "eod" ==> r == Ok(EndOfDay(now))
    ensures token == "eow" ==> r == Ok(EndOfWeek(now))
    ensures token == "mon" ==> r == NextMonday(now)
    ensures token == "eoq" ==> r == Ok(EndOfQuarter(now))
    ensures token == "eod" ==> r.Ok? && r.value.date == now.date && (r.value.hour, r.value.minute, r.value.second) == (17, 0, 0)
    ensures token == "eow" ==> r.Ok? && Weekday(r.value.date) == Friday && !Before(r.value, now)
    ensures token == "mon" ==> (r.Ok? <==> DateBefore(now.date, LastMonday))
    ensures token == "mon" && r.Ok? ==> Weekday(r.value.date) == Monday && Before(now, r.value)
    ensures token == "eoq" ==> r.Ok? && r.value.date.month % 3 == 0 && r.value.date.year == now.date.year
    ensures !IsKeyword(token) ==> (r.Ok? <==> parse(token).Some?)
    ensures !IsKeyword(token) && r.Ok? ==> r.value == parse(token).value
    ensures r.Err? ==> r.error == (if token == "mon" then Overflow else Unparseable)
  {
    if token == "eod" then Ok(EndOfDay(now))
    else if token == "eow" then Ok(EndOfWeek(now))
    else if token == "mon" then NextMonday(now)
    else if token == "eoq" then Ok(EndOfQuarter(now))
    else
      match parse(token)
      case Some(t) => Ok(t)
      case None => Err(Unparseable)
  }

  /** `main(argv)`: an empty argument list does nothing; otherwise only the
      first argument is read, resolved to a target, and reported against
      the second clock reading. */
  function Main(argv: seq<string>, anchorNow: DateTime, reportNow: DateTime,
                parse: string -> Option<DateTime>): (r: Outcome)
    requires Valid(anchorNow) && Valid(reportNow) && ParserYieldsValid(parse)
    ensures r.NoOp? <==> argv == []
    ensures argv != [] ==> (r.Crash? <==> Resolve(argv[0], anchorNow, parse).Err?)
    ensures r.Crash? ==> r.error == Resolve(argv[0], anchorNow, parse).error
    ensures r.Report? ==>
              && r.target == Resolve(argv[0], anchorNow, parse).value
              && r.deltas == InterestingDeltas(r.target, reportNow)
              && |r.deltas| == |ReportOrder|
              && r.deltas[1].value * 604800.0 == TotalSeconds(reportNow, r.target)
  {
    if argv == [] then NoOp
    else
      match Resolve(argv[0], anchorNow, parse)
      case Err(e) => Crash(e)
      case Ok(future) => Report(future, InterestingDeltas(future, reportNow))
  }

  /** Arguments after the first are ignored. */
  lemma MainReadsOnlyFirstArgument(argv: seq<string>, anchorNow: DateTime, reportNow: DateTime,
                                   parse: string -> Option<DateTime>)
    requires Valid(anchorNow) && Valid(reportNow) && ParserYieldsValid(parse)
    requires argv != []
    ensures Main(argv, anchorNow, reportNow, parse) == Main([argv[0]], anchorNow, reportNow, parse)
  {
  }

  /** A keyword never reaches the parser. */
  lemma KeywordsIgnoreParser(token: string, now: DateTime,
                             p1: string -> Option<DateTime>, p2: string -> Option<DateTime>)
    requires Valid(now) && ParserYieldsValid(p1) && ParserYieldsValid(p2)
    requires IsKeyword(token)
    ensures Resolve(token, now, p1) == Resolve(token, now, p2)
  {
  }
}
