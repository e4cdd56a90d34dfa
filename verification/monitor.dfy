/** The sampling loop: once per tick one probe runs, and the port chooses
    which detector it feeds (a port above 0 selects TCP, otherwise ICMP).
    Both detectors' state is process-wide and starts as the process starts. */
module Monitor {
  import opened Alerts
  import Tcp
  import Icmp

  datatype State = State(tcp: Tcp.State, icmp: Icmp.State)

  /** Counter 0, empty window, both losses 0.0. */
  const Initial: State := State(Tcp.Initial, Icmp.Initial)

  /** The result of the one probe a tick runs. */
  datatype Probe = Connect(outcome: Tcp.Outcome) | Ping(returnCode: int)

  /** The probe a tick runs is the one its mode selects. */
  predicate Fits(port: int, p: Probe)
  {
    port > 0 <==> p.Connect?
  }

  datatype TickResult = TickResult(state: State, alert: Option<Alert>)

  /** One tick. The TCP detector is built afresh each tick with its default
      threshold; only the selected detector's state changes. */
  function Tick(s: State, port: int, p: Probe): (r: TickResult)
    requires Fits(port, p)
    ensures port > 0 ==> r.state.icmp == s.icmp
    ensures port > 0 ==> r.state.tcp == Tcp.Step(s.tcp, Tcp.DefaultThreshold, p.outcome).state
    ensures port > 0 ==> r.alert == Tcp.Step(s.tcp, Tcp.DefaultThreshold, p.outcome).alert
    ensures port <= 0 ==> r.state.tcp == s.tcp
    ensures port <= 0 ==> r.state.icmp == Icmp.Step(s.icmp, p.returnCode).state
    ensures port <= 0 ==> r.alert == Icmp.Step(s.icmp, p.returnCode).alert
    ensures r.alert.Some? ==> (r.alert.value.IsTcp() <==> port > 0)
  {
    if port > 0 then
      var t := Tcp.Step(s.tcp, Tcp.DefaultThreshold, p.outcome);
      TickResult(s.(tcp := t.state), t.alert)
    else
      var t := Icmp.Step(s.icmp, p.returnCode);
      TickResult(s.(icmp := t.state), t.alert)
  }

  predicate AllFit(port: int, ps: seq<Probe>)
  {
    forall i :: 0 <= i < |ps| ==> Fits(port, ps[i])
  }

  datatype RunResult = RunResult(state: State, alerts: seq<Option<Alert>>)

  /** The loop over a finite stretch of ticks. */
  function Run(s: State, port: int, ps: seq<Probe>): (r: RunResult)
    requires AllFit(port, ps)
    ensures |r.alerts| == |ps|
  {
    if |ps| == 0 then RunResult(s, [])
    else
      var before := Run(s, port, ps[..|ps| - 1]);
      var t := Tick(before.state, port, ps[|ps| - 1]);
      RunResult(t.state, before.alerts + [t.alert])
  }

  /** The connect outcomes of a TCP-mode stretch. */
  function Outcomes(ps: seq<Probe>): (os: seq<Tcp.Outcome>)
    requires forall i :: 0 <= i < |ps| ==> ps[i].Connect?
  {
    seq(|ps|, i requires 0 <= i < |ps| => ps[i].outcome)
  }

  /** The return codes of an ICMP-mode stretch. */
  function Codes(ps: seq<Probe>): (cs: seq<int>)
    requires forall i :: 0 <= i < |ps| ==> ps[i].Ping?
  {
    seq(|ps|, i requires 0 <= i < |ps| => ps[i].returnCode)
  }

  /** In TCP mode the loop is the TCP detector run with threshold 3 on the
      connect outcomes, and the ICMP state is never touched. */
  lemma {:induction false} TcpModeRun(port: int, ps: seq<Probe>)
    requires port > 0 && AllFit(port, ps)
    ensures Run(Initial, port, ps).state.icmp == Icmp.Initial
    ensures Run(Initial, port, ps).state.tcp == Tcp.Run(Tcp.Initial, Tcp.DefaultThreshold, Outcomes(ps)).state
    ensures Run(Initial, port, ps).alerts == Tcp.Run(Tcp.Initial, Tcp.DefaultThreshold, Outcomes(ps)).alerts
  {
    if |ps| > 0 {
      var p := ps[..|ps| - 1];
      TcpModeRun(port, p);
      assert Outcomes(ps)[..|ps| - 1] == Outcomes(p);
    }
  }

  /** In ICMP mode the loop is the ICMP detector run on the return codes,
      and the TCP counter stays 0. */
  lemma {:induction false} IcmpModeRun(port: int, ps: seq<Probe>)
    requires port <= 0 && AllFit(port, ps)
    ensures Run(Initial, port, ps).state.tcp == Tcp.Initial
    ensures Run(Initial, port, ps).state.icmp == Icmp.Run(Icmp.Initial, Codes(ps)).state
    ensures Run(Initial, port, ps).alerts == Icmp.Run(Icmp.Initial, Codes(ps)).alerts
  {
    if |ps| > 0 {
      var p := ps[..|ps| - 1];
      IcmpModeRun(port, p);
      assert Codes(ps)[..|ps| - 1] == Codes(p);
    }
  }
}
