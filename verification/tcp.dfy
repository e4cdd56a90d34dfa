/** The TCP failure-streak detector: a process-wide count of failed connection
    attempts, advanced once per tick by the outcome of one connect probe. */
module Tcp {
  import opened Alerts

  /** The alert threshold: the detector's `timeout` constructor parameter,
      whose default the scheduler never overrides. */
  const DefaultThreshold: int := 3

  /** What one connect probe can report. Any other exception ends the
      process and is not a monitored outcome. */
  datatype Outcome = Connected | Timeout | ResolutionFailure

  datatype State = State(failedAttempts: nat)

  /** The counter as the process starts. */
  const Initial: State := State(0)

  datatype StepResult = StepResult(state: State, alert: Option<Alert>)

  /** One tick: a success after failures alerts and resets; a failure
      increments and alerts whenever the count has reached the threshold. */
  function Step(s: State, threshold: int, o: Outcome): (r: StepResult)
    ensures o.Connected? ==> r.state.failedAttempts == 0
    ensures o.Connected? ==> (r.alert == Some(TcpSucceeded) <==> s.failedAttempts > 0)
    ensures o.Connected? ==> (r.alert == None <==> s.failedAttempts == 0)
    ensures !o.Connected? ==> r.state.failedAttempts == s.failedAttempts + 1
    ensures !o.Connected? ==> (r.alert == Some(TcpFailed) <==> r.state.failedAttempts >= threshold)
    ensures !o.Connected? ==> (r.alert == None <==> r.state.failedAttempts < threshold)
  {
    match o
    case Connected =>
      if s.failedAttempts > 0 then StepResult(State(0), Some(TcpSucceeded))
      else StepResult(s, None)
    case _ =>
      var n := s.failedAttempts + 1;
      StepResult(State(n), if n >= threshold then Some(TcpFailed) else None)
  }

  datatype RunResult = RunResult(state: State, alerts: seq<Option<Alert>>)

  /** Feeds the outcomes to the detector one tick at a time, keeping the
      alert (or its absence) of every tick. */
  function Run(s: State, threshold: int, os: seq<Outcome>): (r: RunResult)
    ensures |r.alerts| == |os|
  {
    if |os| == 0 then RunResult(s, [])
    else
      var before := Run(s, threshold, os[..|os| - 1]);
      var step := Step(before.state, threshold, os[|os| - 1]);
      RunResult(step.state, before.alerts + [step.alert])
  }

  /** Reference: the number of failures at the end of `os` since its last success. */
  function TrailingFailures(os: seq<Outcome>): nat
  {
    if |os| == 0 || os[|os| - 1].Connected? then 0
    else TrailingFailures(os[..|os| - 1]) + 1
  }

  /** Reference: the alert the detector owes on the last tick of history `h`,
      stated from the history alone. */
  function ExpectedAlert(threshold: int, h: seq<Outcome>): Option<Alert>
    requires |h| > 0
  {
    if h[|h| - 1].Connected? then
      if TrailingFailures(h[..|h| - 1]) > 0 then Some(TcpSucceeded) else None
    else if TrailingFailures(h) >= threshold then Some(TcpFailed)
    else None
  }

  /** From the initial state the counter is always the current failure streak. */
  lemma {:induction false} RunCounterIsStreak(threshold: int, os: seq<Outcome>)
    ensures Run(Initial, threshold, os).state.failedAttempts == TrailingFailures(os)
  {
    if |os| > 0 {
      RunCounterIsStreak(threshold, os[..|os| - 1]);
    }
  }

  /** A run over a longer history starts with the run over its prefix. */
  lemma {:induction false} RunPrefix(s: State, threshold: int, os: seq<Outcome>, k: nat)
    requires k <= |os|
    ensures Run(s, threshold, os).alerts[..k] == Run(s, threshold, os[..k]).alerts
    ensures k == |os| ==> Run(s, threshold, os).state == Run(s, threshold, os[..k]).state
  {
    assert os[..|os|] == os;
    if k < |os| {
      var p := os[..|os| - 1];
      RunPrefix(s, threshold, p, k);
      assert p[..k] == os[..k];
    }
  }

  /** Every tick's alert is the one the outcome history up to that tick demands. */
  lemma RunAlertsMatchReference(threshold: int, os: seq<Outcome>)
    ensures forall i :: 0 <= i < |os| ==>
      Run(Initial, threshold, os).alerts[i] == ExpectedAlert(threshold, os[..i + 1])
  {
    forall i | 0 <= i < |os|
      ensures Run(Initial, threshold, os).alerts[i] == ExpectedAlert(threshold, os[..i + 1])
    {
      var h := os[..i + 1];
      RunPrefix(Initial, threshold, os, i + 1);
      assert Run(Initial, threshold, os).alerts[i] == Run(Initial, threshold, h).alerts[i];
      assert h[..|h| - 1] == os[..i];
      RunCounterIsStreak(threshold, h[..|h| - 1]);
      RunCounterIsStreak(threshold, h);
    }
  }

  /** k consecutive failures from the initial state emit exactly
      max(0, k - threshold + 1) failure alerts: the alert repeats on every
      failing tick once the threshold is reached. */
  lemma {:induction false} FailureStreakAlerts(threshold: int, os: seq<Outcome>)
    requires threshold >= 1
    requires forall i :: 0 <= i < |os| ==> !os[i].Connected?
    ensures Run(Initial, threshold, os).state.failedAttempts == |os|
    ensures Occurrences(Run(Initial, threshold, os).alerts, TcpFailed)
      == if |os| >= threshold then |os| - threshold + 1 else 0
    ensures Occurrences(Run(Initial, threshold, os).alerts, TcpSucceeded) == 0
  {
    if |os| > 0 {
      var p := os[..|os| - 1];
      FailureStreakAlerts(threshold, p);
      var r := Run(Initial, threshold, os);
      assert r.alerts[..|r.alerts| - 1] == Run(Initial, threshold, p).alerts;
    }
  }

  /** With the default threshold of 3, k failures from the start emit max(0, k - 2) alerts. */
  lemma {:induction false} DefaultThresholdStreak(os: seq<Outcome>)
    requires forall i :: 0 <= i < |os| ==> !os[i].Connected?
    ensures Occurrences(Run(Initial, DefaultThreshold, os).alerts, TcpFailed)
      == if |os| >= 2 then |os| - 2 else 0
  {
    FailureStreakAlerts(DefaultThreshold, os);
  }
}
