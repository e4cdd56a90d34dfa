/** The notifications the monitor posts to its webhook, reduced to their kind.
    The message text, the timestamp and the HTTP transport are not modelled;
    a loss alert keeps the two losses its message reports. */
module Alerts {
  import opened Ratios

  /** Either nothing or one value; a tick emits at most one alert. */
  datatype Option<+T> = None | Some(value: T)

  datatype Alert =
    | TcpSucceeded
    | TcpFailed
    | LossIncreased(previous: Loss, current: Loss)
    | LossDecreased(previous: Loss, current: Loss)
  {
    /** True for the two alerts the TCP detector can emit. */
    predicate IsTcp() {
      TcpSucceeded? || TcpFailed?
    }
  }

  /** Number of ticks in `alerts` that emitted `a`. */
  function Occurrences(alerts: seq<Option<Alert>>, a: Alert): (n: nat)
    ensures n <= |alerts|
  {
    if |alerts| == 0 then 0
    else Occurrences(alerts[..|alerts| - 1], a) + (if alerts[|alerts| - 1] == Some(a) then 1 else 0)
  }
}
