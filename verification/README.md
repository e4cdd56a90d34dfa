# ReachabilityCheck in Dafny

ReachabilityCheck is a network reachability watchdog. Once per second it probes one host and posts a webhook notification when a probe fails repeatedly, when a connection recovers, or when the measured loss changes. The probe is either a TCP connect to a port or a single ICMP ping. This project models the two small state machines inside that loop as pure step functions over explicit state records:

- **TCP failure-streak detector** (`Tcp`). Its state is the process-wide count of failed connection attempts. A success after failures alerts "succeeded" and resets the count. A failure (connect timeout or name-resolution error) increments the count. It alerts "failed" whenever the count is at least the threshold, which is 3.
- **ICMP rolling-window loss detector** (`Icmp`). Its state is the window of the last 300 ping return codes, the packet loss and the previous tick's packet loss. Each tick appends the new return code and evicts the oldest code once the window holds 300. It then recomputes the loss as 100 × (number of code-1 entries) / (window length). It alerts "increased" or "decreased" when the loss differs from the previous tick's loss. Finally it copies the loss into the previous loss.
- **Scheduler** (`Monitor`). A port above 0 selects the TCP detector, otherwise the ICMP detector. Each tick feeds that detector one probe result.

The supporting modules are:

- `Alerts`: the alert kinds, and an `Option` because a tick emits at most one alert.
- `Ratios`: exact loss values.

The program computes loss as the float `(count / len) * 100`. The model keeps it as the exact pair `(lost, total)` and compares two losses by cross-multiplication. `Ratios.Percent` gives the real value, and `Ratios.PercentOrder` proves that the integer comparisons agree with comparing the real percentages. This is faithful to the float arithmetic for windows of at most 300 entries, for two reasons:

- Equal fractions round to the same float.
- Two different fractions with denominators at most 300 differ by at least 1/90000. Monotone rounding cannot reverse or merge them.

Probe results are inputs: a `Tcp.Outcome` per TCP tick and an integer return code per ICMP tick. Alerts are returned values; nothing is sent.

Runs are left folds that take one outcome per tick. Each detector has a closed-form reference that the run is proved to agree with on every tick:

- TCP: the failure streak at the end of the history (`Tcp.TrailingFailures`).
- ICMP: the newest min(n, 300) codes of the history (`Icmp.Recent`).

So the alerts are a function of the probe history alone, and replaying a history from the initial state replays its alerts.

Some behaviours of the program worth knowing:

- The TCP alert test is `>=`, so the "failed" alert repeats on every failing tick once the count reaches the threshold.
- The ICMP detector has no change threshold and no special 0 % or 100 % rules. Any change of loss alerts.
- The previous loss is overwritten on every tick, not only when an alert fires.
- Only return code 1 counts as loss; ping's code 2 (other errors) does not.

## Model

| member | source | states |
|---|---|---|
| Tcp.Step | ReachabilityCheck.py:19-38 | A success resets the count to 0. It alerts "succeeded" iff the count was positive and alerts nothing iff it was 0. A timeout or resolution failure adds exactly 1 to the count and never resets it. It alerts "failed" iff the new count is at least the threshold. |
| Tcp.RunCounterIsStreak | ReachabilityCheck.py:28-34 | From the initial count 0, the count after any outcome sequence equals the number of failures since the last success. |
| Tcp.RunAlertsMatchReference | ReachabilityCheck.py:28-38 | Every tick's alert is determined by the history up to it. A success alerts iff the streak before it was positive. A failure alerts iff the streak including it reaches the threshold. |
| Tcp.FailureStreakAlerts | ReachabilityCheck.py:32-38 | For k consecutive failures from the start and threshold t ≥ 1, the count is k. Exactly max(0, k − t + 1) "failed" alerts and no "succeeded" alerts are emitted. |
| Tcp.DefaultThresholdStreak | ReachabilityCheck.py:14-38 | With the default threshold 3, k consecutive failures from the start emit exactly max(0, k − 2) "failed" alerts. |
| Icmp.UpdateWindow | ReachabilityCheck.py:57-81 | A window of at most 300 codes is always updated. The result is one entry longer below capacity and 300 at capacity. Its last entry is the new code, and the rest is the old window minus its oldest entry when full (FIFO, nothing else changes). Only a window longer than 300 takes the "should never execute" branch. |
| Icmp.CountLostIsLostPositions | ReachabilityCheck.py:59 | The lost-probe count equals the number of window positions holding return code 1. |
| Icmp.CountLostExtremes | ReachabilityCheck.py:59 | Nothing is lost iff no entry is 1. Everything is lost iff every entry is 1. |
| Icmp.LossPercentOfWindow | ReachabilityCheck.py:59 | Loss equals 100 × (the number of positions i with w[i] = 1) / (window length). It lies in [0, 100]. It is 0 iff no code is 1 and 100 iff every code is 1. |
| Icmp.OnlyCodeOneIsLoss | ReachabilityCheck.py:71 | Two windows that agree on where code 1 sits have the same loss, so codes 0, 2 or any other value never count as loss. |
| Icmp.DecideByPercent | ReachabilityCheck.py:61-66 | The decision alerts "increased" iff the new percentage exceeds the previous one. It alerts "decreased" iff it is below, and nothing iff they are equal. There is no change threshold. |
| Icmp.Step | ReachabilityCheck.py:47-84 | After every tick the previous loss equals the loss just computed, whether or not an alert fired. From a valid state the window is updated as above and validity is kept. The alert compares the new loss with the loss of the tick before. |
| Icmp.StepAlertByPercent | ReachabilityCheck.py:73-78 | From a valid state, one tick alerts "increased", "decreased" or nothing exactly as its loss percentage is above, below or equal to the previous tick's. This holds on the full-window branch too. |
| Icmp.RecentStep | ReachabilityCheck.py:68-70 | Updating the newest 300 codes of a history with one more code gives the newest 300 codes of the longer history. |
| Icmp.RunWindowIsRecent | ReachabilityCheck.py:57-84 | From the initial state (empty window, both losses 0.0) the state stays valid. After n ticks the window is the newest min(n, 300) codes and has length min(n, 300), so the "should never execute" branch is unreachable. |
| Icmp.RunAlertsMatchReference | ReachabilityCheck.py:57-84 | Tick i's alert compares the loss of the newest codes before tick i with the loss of the newest codes after it, so the alerts depend only on the code history. |
| Ratios.Percent | ReachabilityCheck.py:59 | The percentage of a share of a non-empty window lies in [0, 100]. It is 0 iff nothing was lost and 100 iff everything was. |
| Ratios.PercentOrder | ReachabilityCheck.py:61-63 | Comparing losses by cross-multiplying (lost, total) pairs agrees exactly with comparing their percentages, both for < and for =. |
| Monitor.Tick | ReachabilityCheck.py:103-110 | A port above 0 runs the TCP step with threshold 3 on the connect outcome (new count and alert are exactly that step's) and leaves the ICMP state alone. Otherwise the ICMP step runs on the return code (new ICMP state and alert are exactly that step's) and the TCP count is unchanged. An alert is a TCP alert iff the mode is TCP. |
| Monitor.TcpModeRun | ReachabilityCheck.py:106-107 | In TCP mode the loop from the initial state equals the TCP detector run with threshold 3 on the connect outcomes, alert for alert, and the ICMP state stays initial. |
| Monitor.IcmpModeRun | ReachabilityCheck.py:109-110 | In ICMP mode the loop from the initial state equals the ICMP detector run on the return codes, alert for alert, and the TCP count stays 0. |

## Left out

- `socket.create_connection` and its 2-second timeout are network I/O. A connect is an input `Tcp.Outcome`. Exceptions other than a timeout or a resolution error end the process and are not modelled.
- Running the platform `ping` command and choosing `-n` or `-c` by operating system are process spawning and platform detection. A ping is an input return code.
- The webhook POST and the formatted message texts are HTTP transport and string formatting. An alert is a returned `Alerts.Alert`. Loss alerts carry the previous and new loss.
- Argument parsing, the timestamp, the one-second sleep and the endless `while True` loop are CLI and wall-clock concerns. `Monitor.Run` models any finite stretch of ticks.
- The debugging `print` of the two losses and the "should never execute" message are console output. That branch is modelled as leaving the window and loss unchanged with no alert.
- IEEE floating point is replaced by exact ratios, for the reason given above. The text of a float in a message is not modelled.
