/** The ICMP rolling-window loss detector: the last 300 ping return codes,
    the loss percentage over them, and the loss reported on the tick before. */
module Icmp {
  import opened Ratios
  import opened Alerts

  /** How many return codes the window keeps. */
  const Capacity: nat := 300

  /** `pingResults` holds ping return codes, oldest first; only code 1 is a
      lost probe. */
  datatype State = State(pingResults: seq<int>, packetLoss: Loss, previousPacketLoss: Loss)

  /** An empty window and both losses 0.0, as the process starts. */
  const Initial: State := State([], Zero, Zero)

  /** Number of lost probes (return code 1) in `w`. */
  function CountLost(w: seq<int>): (n: nat)
    ensures n <= |w|
  {
    if |w| == 0 then 0
    else CountLost(w[..|w| - 1]) + (if w[|w| - 1] == 1 then 1 else 0)
  }

  /** Reference: the positions of `w` that hold a lost probe. */
  function LostPositions(w: seq<int>): set<int>
  {
    set i | 0 <= i < |w| && w[i] == 1
  }

  /** The counter agrees with the set of lost positions. */
  lemma {:induction false} CountLostIsLostPositions(w: seq<int>)
    ensures CountLost(w) == |LostPositions(w)|
  {
    if |w| > 0 {
      var p := w[..|w| - 1];
      CountLostIsLostPositions(p);
      var extra := if w[|w| - 1] == 1 then {|w| - 1} else {};
      assert LostPositions(w) == LostPositions(p) + extra;
      assert LostPositions(p) !! extra;
    }
  }

  /** The loss of a non-empty window: lost probes out of all of them. */
  function LossRatio(w: seq<int>): Loss
    requires |w| > 0
  {
    Ratio(CountLost(w), |w|)
  }

  /** The loss of a window, 0.0 for the empty window the process starts with. */
  function LossOf(w: seq<int>): Loss
  {
    if |w| == 0 then Zero else LossRatio(w)
  }

  /** No code 1 in the window iff nothing counted as lost; only code 1
      everywhere iff everything did. */
  lemma {:induction false} CountLostExtremes(w: seq<int>)
    ensures CountLost(w) == 0 <==> forall i :: 0 <= i < |w| ==> w[i] != 1
    ensures CountLost(w) == |w| <==> forall i :: 0 <= i < |w| ==> w[i] == 1
  {
    if |w| > 0 {
      var p := w[..|w| - 1];
      CountLostExtremes(p);
      assert forall i :: 0 <= i < |p| ==> p[i] == w[i];
    }
  }

  /** The loss percentage of a non-empty window is 100 times its share of
      code-1 entries: within [0, 100], 0 iff nothing was lost and 100 iff
      everything was. */
  lemma LossPercentOfWindow(w: seq<int>)
    requires |w| > 0
    ensures Percent(LossRatio(w)) == (|LostPositions(w)| as real / |w| as real) * 100.0
    ensures 0.0 <= Percent(LossRatio(w)) <= 100.0
    ensures Percent(LossRatio(w)) == 0.0 <==> forall i :: 0 <= i < |w| ==> w[i] != 1
    ensures Percent(LossRatio(w)) == 100.0 <==> forall i :: 0 <= i < |w| ==> w[i] == 1
  {
    CountLostIsLostPositions(w);
    CountLostExtremes(w);
  }

  /** Return codes other than 1 (0, 2, or any other) never count as loss:
      two windows that agree on where code 1 sits have the same loss. */
  lemma {:induction false} OnlyCodeOneIsLoss(a: seq<int>, b: seq<int>)
    requires |a| == |b|
    requires forall i :: 0 <= i < |a| ==> (a[i] == 1 <==> b[i] == 1)
    ensures CountLost(a) == CountLost(b)
    ensures LossOf(a) == LossOf(b)
  {
    if |a| > 0 {
      OnlyCodeOneIsLoss(a[..|a| - 1], b[..|b| - 1]);
    }
  }

  /** The window update: append, and evict the oldest entry when the window
      was already full. A window longer than the capacity takes the branch
      the program reports as impossible and is left as it is (None). */
  function UpdateWindow(w: seq<int>, code: int): (r: Option<seq<int>>)
    ensures r.None? <==> |w| > Capacity
    ensures r.Some? ==> |r.value| == if |w| < Capacity then |w| + 1 else Capacity
    ensures r.Some? ==> r.value[|r.value| - 1] == code
    ensures r.Some? ==> r.value[..|r.value| - 1] == w[|w| + 1 - |r.value|..]
  {
    if |w| <= Capacity - 1 then Some(w + [code])
    else if |w| == Capacity then Some((w + [code])[1..])
    else None
  }

  /** The alert decision. There is no change threshold. */
  function Decide(previous: Loss, current: Loss): Option<Alert>
  {
    if Less(previous, current) then Some(LossIncreased(previous, current))
    else if Same(current, previous) then None
    else Some(LossDecreased(previous, current))
  }

  /** In percentages: "increased" iff the loss rose, "decreased" iff it fell,
      nothing iff it is unchanged; never more than one alert. */
  lemma DecideByPercent(previous: Loss, current: Loss)
    ensures Decide(previous, current) == Some(LossIncreased(previous, current)) <==> Percent(current) > Percent(previous)
    ensures Decide(previous, current) == Some(LossDecreased(previous, current)) <==> Percent(current) < Percent(previous)
    ensures Decide(previous, current) == None <==> Percent(current) == Percent(previous)
  {
    PercentOrder(previous, current);
    PercentOrder(current, previous);
  }

  /** The state between ticks: the window is within capacity, the loss agrees
      with it, and the previous loss has caught up with the loss. */
  predicate Valid(s: State)
  {
    && |s.pingResults| <= Capacity
    && s.packetLoss == LossOf(s.pingResults)
    && s.previousPacketLoss == s.packetLoss
  }

  datatype StepResult = StepResult(state: State, alert: Option<Alert>)

  /** One tick with the return code of one ping. */
  function Step(s: State, code: int): (r: StepResult)
    ensures r.state.previousPacketLoss == r.state.packetLoss
    ensures Valid(s) ==> Valid(r.state)
    ensures Valid(s) ==> UpdateWindow(s.pingResults, code).Some?
    ensures Valid(s) ==> r.state.pingResults == UpdateWindow(s.pingResults, code).value
    ensures Valid(s) ==> r.alert == Decide(s.packetLoss, r.state.packetLoss)
  {
    match UpdateWindow(s.pingResults, code)
    case Some(w) =>
      var loss := LossOf(w);
      StepResult(State(w, loss, loss), Decide(s.previousPacketLoss, loss))
    case None =>
      StepResult(State(s.pingResults, s.packetLoss, s.packetLoss), None)
  }

  /** Between ticks, one tick alerts "increased" iff its loss exceeds the
      loss of the tick before, "decreased" iff it is below it, and nothing iff
      the two are equal, whether or not the window was already full. */
  lemma StepAlertByPercent(s: State, code: int)
    requires Valid(s)
    ensures var r := Step(s, code);
      && (r.alert.Some? && r.alert.value.LossIncreased? <==> Percent(r.state.packetLoss) > Percent(s.packetLoss))
      && (r.alert.Some? && r.alert.value.LossDecreased? <==> Percent(r.state.packetLoss) < Percent(s.packetLoss))
      && (r.alert.None? <==> Percent(r.state.packetLoss) == Percent(s.packetLoss))
  {
    DecideByPercent(s.packetLoss, Step(s, code).state.packetLoss);
  }

  datatype RunResult = RunResult(state: State, alerts: seq<Option<Alert>>)

  /** Feeds the return codes to the detector one tick at a time. */
  function Run(s: State, codes: seq<int>): (r: RunResult)
    ensures |r.alerts| == |codes|
  {
    if |codes| == 0 then RunResult(s, [])
    else
      var before := Run(s, codes[..|codes| - 1]);
      var step := Step(before.state, codes[|codes| - 1]);
      RunResult(step.state, before.alerts + [step.alert])
  }

  /** Reference: the newest `Capacity` codes of a history (all of it when shorter). */
  function Recent(codes: seq<int>): (w: seq<int>)
    ensures |w| == if |codes| < Capacity then |codes| else Capacity
  {
    if |codes| <= Capacity then codes else codes[|codes| - Capacity..]
  }

  /** Updating the newest codes of a history's prefix with its last code
      gives the newest codes of the whole history. */
  lemma RecentStep(codes: seq<int>)
    requires |codes| > 0
    ensures UpdateWindow(Recent(codes[..|codes| - 1]), codes[|codes| - 1]) == Some(Recent(codes))
  {
    var p, c := codes[..|codes| - 1], codes[|codes| - 1];
    if |p| >= Capacity {
      var w := Recent(p);
      assert |w| == Capacity;
      assert (w + [c])[1..] == w[1..] + [c];
      assert w[1..] + [c] == codes[|codes| - Capacity..];
    } else {
      assert p + [c] == codes;
    }
  }

  /** From the initial state the window is exactly the newest min(n, 300)
      codes, the state stays valid, and so the impossible branch is never taken. */
  lemma {:induction false} RunWindowIsRecent(codes: seq<int>)
    ensures Valid(Run(Initial, codes).state)
    ensures Run(Initial, codes).state.pingResults == Recent(codes)
    ensures |Run(Initial, codes).state.pingResults| == if |codes| < Capacity then |codes| else Capacity
  {
    if |codes| > 0 {
      RunWindowIsRecent(codes[..|codes| - 1]);
      RecentStep(codes);
    }
  }

  /** A run over a longer history starts with the run over its prefix. */
  lemma {:induction false} RunPrefix(s: State, codes: seq<int>, k: nat)
    requires k <= |codes|
    ensures Run(s, codes).alerts[..k] == Run(s, codes[..k]).alerts
  {
    assert codes[..|codes|] == codes;
    if k < |codes| {
      var p := codes[..|codes| - 1];
      RunPrefix(s, p, k);
      assert p[..k] == codes[..k];
    }
  }

  /** Every tick's alert compares the loss over the newest codes after the
      tick with the loss over the newest codes before it: the alerts depend
      on the code history alone, so replaying it replays them. */
  lemma RunAlertsMatchReference(codes: seq<int>)
    ensures forall i :: 0 <= i < |codes| ==>
      Run(Initial, codes).alerts[i] == Decide(LossOf(Recent(codes[..i])), LossOf(Recent(codes[..i + 1])))
  {
    forall i | 0 <= i < |codes|
      ensures Run(Initial, codes).alerts[i] == Decide(LossOf(Recent(codes[..i])), LossOf(Recent(codes[..i + 1])))
    {
      AlertAt(codes, i);
    }
  }

  /** The alert of tick `i` is the alert of the last tick of the run over
      the first i + 1 codes. */
  lemma AlertAt(codes: seq<int>, i: nat)
    requires i < |codes|
    ensures Run(Initial, codes).alerts[i] == Decide(LossOf(Recent(codes[..i])), LossOf(Recent(codes[..i + 1])))
  {
    var h := codes[..i + 1];
    RunPrefix(Initial, codes, i + 1);
    assert Run(Initial, codes).alerts[i] == Run(Initial, h).alerts[i];
    assert h[..i] == codes[..i];
    LastAlert(h);
  }

  /** The last tick of a run from the initial state compares the loss of the
      newest codes with and without its own code. */
  lemma LastAlert(h: seq<int>)
    requires |h| > 0
    ensures Run(Initial, h).alerts[|h| - 1] == Decide(LossOf(Recent(h[..|h| - 1])), LossOf(Recent(h)))
  {
    var p := h[..|h| - 1];
    RunWindowIsRecent(p);
    RunWindowIsRecent(h);
    var before := Run(Initial, p);
    assert Run(Initial, h).alerts[|h| - 1] == Step(before.state, h[|h| - 1]).alert;
  }
}
