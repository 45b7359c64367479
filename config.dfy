/** The checks `main` applies to its command-line values before any refresh. */
module Config {
  import opened Wrappers

  const DEFAULT_LIMIT := 20
  const DEFAULT_MIN_INTERVAL := 900
  const DEFAULT_MAX_INTERVAL := 1200
  const DEFAULT_PORT := 8000

  /** The ValueError `main` raises, one per check, in the order of the checks. */
  datatype ConfigError =
    | LimitNotPositive
    | IntervalNotPositive
    | IntervalsInverted
    | PortNotPositive

  function Validate(limit: int, minInterval: int, maxInterval: int, port: int): (r: Result<(), ConfigError>)
    ensures r.Ok? <==> limit > 0 && minInterval > 0 && maxInterval > 0 && minInterval <= maxInterval && port > 0
    ensures r == Err(LimitNotPositive) <==> limit <= 0
    ensures r == Err(IntervalNotPositive) <==> limit > 0 && (minInterval <= 0 || maxInterval <= 0)
    ensures r == Err(IntervalsInverted) <==> limit > 0 && minInterval > 0 && maxInterval > 0 && minInterval > maxInterval
    ensures r == Err(PortNotPositive) <==>
      limit > 0 && minInterval > 0 && maxInterval > 0 && minInterval <= maxInterval && port <= 0
  {
    if limit <= 0 then Err(LimitNotPositive)
    else if minInterval <= 0 || maxInterval <= 0 then Err(IntervalNotPositive)
    else if minInterval > maxInterval then Err(IntervalsInverted)
    else if port <= 0 then Err(PortNotPositive)
    else Ok(())
  }

  lemma DefaultsAreValid()
    ensures Validate(DEFAULT_LIMIT, DEFAULT_MIN_INTERVAL, DEFAULT_MAX_INTERVAL, DEFAULT_PORT).Ok?
  {
  }
}
