/** Any number of tunnels at once, with one limiter (src/p2p_server.rs): sessions of one peer to one target share
    a bucket, whether they follow each other or overlap. */
module ManyTunnels {
  import opened ByteStrings
  import RateLimit
  import Tunnel

  datatype Session = Session(cfg: Tunnel.Config, state: Tunnel.State)

  /** The sessions that were ever opened, and the calls the limiter has served. */
  datatype State = State(sessions: seq<Session>, calls: seq<RateLimit.Call>)

  datatype Label = Open(cfg: Tunnel.Config) | Step(i: nat, act: Tunnel.Label) | RequestCall(call: RateLimit.Call)

  /** A session as it sees the shared limiter. */
  function View(s: State, i: nat): Tunnel.State
    requires i < |s.sessions|
  {
    s.sessions[i].state.(calls := s.calls)
  }

  ghost function Apply(s: State, l: Label): Option<State> {
    match l
    case Open(cfg) => Some(s.(sessions := s.sessions + [Session(cfg, Tunnel.Init(cfg, s.calls))]))
    case Step(i, act) =>
      if i >= |s.sessions| || act.OtherCall? then None
      else
        (match Tunnel.Apply(s.sessions[i].cfg, View(s, i), act)
         case Some(t) => Some(State(s.sessions[i := s.sessions[i].(state := t)], t.calls))
         case None => None)
    case RequestCall(call) => Some(s.(calls := s.calls + [call]))
  }

  ghost function Run(calls: seq<RateLimit.Call>, ls: seq<Label>): Option<State> {
    if ls == [] then Some(State([], calls))
    else
      match Run(calls, ls[..|ls| - 1])
      case Some(s) => Apply(s, ls[|ls| - 1])
      case None => None
  }

  // ---------------------------------------------------------------- each session is a tunnel

  ghost predicate IsTunnel(cfg: Tunnel.Config, s: Tunnel.State) {
    exists calls :: Tunnel.Reachable(cfg, calls, s)
  }

  /** The other sessions are, for each session, other users of the limiter. */
  ghost predicate AllTunnels(s: State) {
    forall i | 0 <= i < |s.sessions| :: IsTunnel(s.sessions[i].cfg, View(s, i))
  }

  lemma OthersCall(cfg: Tunnel.Config, s: Tunnel.State, c: RateLimit.Call)
    requires IsTunnel(cfg, s)
    ensures IsTunnel(cfg, s.(calls := s.calls + [c]))
  {
    var calls :| Tunnel.Reachable(cfg, calls, s);
    Tunnel.ReachStep(cfg, calls, s, Tunnel.OtherCall(c));
    assert Tunnel.Apply(cfg, s, Tunnel.OtherCall(c)).value == s.(calls := s.calls + [c]);
  }

  lemma OwnStep(cfg: Tunnel.Config, s: Tunnel.State, l: Tunnel.Label)
    requires IsTunnel(cfg, s) && Tunnel.Apply(cfg, s, l).Some?
    ensures IsTunnel(cfg, Tunnel.Apply(cfg, s, l).value)
  {
    var calls :| Tunnel.Reachable(cfg, calls, s);
    Tunnel.ReachStep(cfg, calls, s, l);
  }

  lemma NewTunnel(cfg: Tunnel.Config, calls: seq<RateLimit.Call>)
    ensures IsTunnel(cfg, Tunnel.Init(cfg, calls))
  {
    assert Tunnel.Run(cfg, calls, []) == Some(Tunnel.Init(cfg, calls));
    assert Tunnel.Reachable(cfg, calls, Tunnel.Init(cfg, calls));
  }

  /** A step of a tunnel adds at most one call, under its own key and rate. */
  lemma StepCall(cfg: Tunnel.Config, s: Tunnel.State, l: Tunnel.Label) returns (more: seq<RateLimit.Call>)
    requires Tunnel.Apply(cfg, s, l).Some? && !l.OtherCall?
    ensures Tunnel.Apply(cfg, s, l).value.calls == s.calls + more
    ensures more == [] || (l.ReadOne? && more == [RateLimit.Call(cfg.key, cfg.rate, l.now)])
  {
    if l.ReadOne? {
      more := if Tunnel.Read(cfg, s, l.now).calls == s.calls then [] else [RateLimit.Call(cfg.key, cfg.rate, l.now)];
    } else {
      Tunnel.StepCalls(cfg, s, l);
      more := [];
    }
    assert s.calls + [] == s.calls;
  }

  lemma OthersKeepGoing(s: State, more: seq<RateLimit.Call>, i: nat)
    requires i < |s.sessions| && IsTunnel(s.sessions[i].cfg, View(s, i)) && |more| <= 1
    ensures IsTunnel(s.sessions[i].cfg, s.sessions[i].state.(calls := s.calls + more))
  {
    if more == [] {
      assert s.calls + more == s.calls;
    } else {
      assert more == [more[0]];
      OthersCall(s.sessions[i].cfg, View(s, i), more[0]);
    }
  }

  lemma StepKeepsTunnels(s: State, l: Label)
    requires AllTunnels(s) && Apply(s, l).Some?
    ensures AllTunnels(Apply(s, l).value)
  {
    var t := Apply(s, l).value;
    match l
    case Open(cfg) =>
      NewTunnel(cfg, s.calls);
      assert forall i | 0 <= i < |s.sessions| :: View(t, i) == View(s, i);
    case RequestCall(call) =>
      forall i | 0 <= i < |t.sessions| ensures IsTunnel(t.sessions[i].cfg, View(t, i)) {
        OthersKeepGoing(s, [call], i);
      }
    case Step(k, act) =>
      var more := StepCall(s.sessions[k].cfg, View(s, k), act);
      OwnStep(s.sessions[k].cfg, View(s, k), act);
      forall i | 0 <= i < |t.sessions| ensures IsTunnel(t.sessions[i].cfg, View(t, i)) {
        if i != k {
          OthersKeepGoing(s, more, i);
        }
      }
  }

  /** Everything that holds of a tunnel holds of each of many. */
  lemma {:induction false} EachIsATunnel(calls: seq<RateLimit.Call>, ls: seq<Label>)
    requires Run(calls, ls).Some?
    ensures AllTunnels(Run(calls, ls).value)
  {
    if ls != [] {
      EachIsATunnel(calls, ls[..|ls| - 1]);
      StepKeepsTunnels(Run(calls, ls[..|ls| - 1]).value, ls[|ls| - 1]);
    }
  }

  // ---------------------------------------------------------------- the common budget

  /** The limited sessions of one key. */
  predicate Shares(x: Session, key: Bytes) { x.cfg.key == key && x.cfg.rate > 0 }

  function Passed(xs: seq<Session>, key: Bytes): nat {
    if xs == [] then 0
    else
      var x := xs[|xs| - 1];
      Passed(xs[..|xs| - 1], key) + if Shares(x, key) then Tunnel.DataPassed(x.state.consumed) else 0
  }

  /** Data messages that upstream got from all of them. */
  function Delivered(xs: seq<Session>, key: Bytes): nat {
    if xs == [] then 0
    else
      var x := xs[|xs| - 1];
      Delivered(xs[..|xs| - 1], key) + if Shares(x, key) then Tunnel.DataMsgs(x.state.delivered) else 0
  }

  function Requests(s: State, key: Bytes): seq<RateLimit.Call> { RateLimit.Requests(s.calls, key) }

  ghost predicate AllPaid(s: State, key: Bytes, first: nat) {
    var h := Requests(s, key);
    first <= |h| && Passed(s.sessions, key) <= RateLimit.Spent(h, first, |h|)
  }

  lemma {:induction false} PassedUpdate(xs: seq<Session>, i: nat, x: Session, key: Bytes)
    requires i < |xs| && x.cfg == xs[i].cfg
    ensures Passed(xs[i := x], key) ==
            Passed(xs, key) + if Shares(x, key) then Tunnel.DataPassed(x.state.consumed) -
                                                     Tunnel.DataPassed(xs[i].state.consumed) else 0
  {
    var n := |xs| - 1;
    if i == n {
      assert xs[i := x][..n] == xs[..n];
    } else {
      PassedUpdate(xs[..n], i, x, key);
      assert xs[i := x][..n] == xs[..n][i := x];
    }
  }

  lemma CallPays(calls: seq<RateLimit.Call>, c: RateLimit.Call, key: Bytes, first: nat)
    requires first <= |RateLimit.Requests(calls, key)|
    ensures var h, h' := RateLimit.Requests(calls, key), RateLimit.Requests(calls + [c], key);
            first <= |h'| && RateLimit.Spent(h, first, |h|) <= RateLimit.Spent(h', first, |h'|)
  {
    RateLimit.OneMoreCall(calls, c, key, first);
  }

  /** A session's step passes a data frame only if it spends a token. */
  lemma StepPays(cfg: Tunnel.Config, s: Tunnel.State, l: Tunnel.Label, key: Bytes, first: nat)
    requires Tunnel.Apply(cfg, s, l).Some? && !l.OtherCall?
    requires first <= |RateLimit.Requests(s.calls, key)|
    ensures var t := Tunnel.Apply(cfg, s, l).value;
            var h, h' := RateLimit.Requests(s.calls, key), RateLimit.Requests(t.calls, key);
            && first <= |h'|
            && RateLimit.Spent(h, first, |h|) <= RateLimit.Spent(h', first, |h'|)
            && (cfg.key == key && cfg.rate > 0 ==>
                  Tunnel.DataPassed(t.consumed) - Tunnel.DataPassed(s.consumed) <=
                  RateLimit.Spent(h', first, |h'|) - RateLimit.Spent(h, first, |h|))
  {
    if l.ReadOne? {
      var t := Tunnel.Read(cfg, s, l.now);
      RateLimit.OneMoreCall(s.calls, RateLimit.Call(cfg.key, cfg.rate, l.now), key, first);
      assert t.consumed != s.consumed ==> t.consumed[..|s.consumed|] == s.consumed;
    } else {
      Tunnel.StepCalls(cfg, s, l);
      assert Tunnel.Apply(cfg, s, l).value.consumed == s.consumed;
    }
  }

  lemma StepKeepsAllPaid(s: State, l: Label, key: Bytes, first: nat)
    requires AllPaid(s, key, first) && Apply(s, l).Some?
    ensures AllPaid(Apply(s, l).value, key, first)
  {
    match l
    case Open(cfg) =>
      var x := Session(cfg, Tunnel.Init(cfg, s.calls));
      assert (s.sessions + [x])[..|s.sessions|] == s.sessions;
    case RequestCall(call) => CallPays(s.calls, call, key, first);
    case Step(i, act) =>
      var x := s.sessions[i].(state := Tunnel.Apply(s.sessions[i].cfg, View(s, i), act).value);
      PassedUpdate(s.sessions, i, x, key);
      StepPays(s.sessions[i].cfg, View(s, i), act, key, first);
  }

  lemma {:induction false} RunKeepsAllPaid(calls: seq<RateLimit.Call>, ls: seq<Label>, key: Bytes)
    requires Run(calls, ls).Some?
    ensures AllPaid(Run(calls, ls).value, key, |RateLimit.Requests(calls, key)|)
  {
    if ls != [] {
      RunKeepsAllPaid(calls, ls[..|ls| - 1], key);
      StepKeepsAllPaid(Run(calls, ls[..|ls| - 1]).value, ls[|ls| - 1], key, |RateLimit.Requests(calls, key)|);
    }
  }

  lemma TunnelDelivers(cfg: Tunnel.Config, s: Tunnel.State, x: Tunnel.State)
    requires IsTunnel(cfg, s) && x.delivered == s.delivered && x.consumed == s.consumed
    ensures Tunnel.DataMsgs(x.delivered) <= Tunnel.DataPassed(x.consumed)
  {
    var calls :| Tunnel.Reachable(cfg, calls, s);
    assert Tunnel.Conserved(s) by { Tunnel.ReachableInv(cfg, calls, s); }
    Tunnel.DeliveredPassed(s);
  }

  lemma {:induction false} DeliveredIsPassed(xs: seq<Session>, calls: seq<RateLimit.Call>, key: Bytes)
    requires forall i | 0 <= i < |xs| :: IsTunnel(xs[i].cfg, xs[i].state.(calls := calls))
    ensures Delivered(xs, key) <= Passed(xs, key)
  {
    if xs != [] {
      var n := |xs| - 1;
      DeliveredIsPassed(xs[..n], calls, key);
      TunnelDelivers(xs[n].cfg, xs[n].state.(calls := calls), xs[n].state);
    }
  }

  /** All sessions of one peer to one target together, one after the other or at the same time, deliver no more
      data messages than the one budget of their calls. */
  lemma AllDeliveredWithinRate(calls: seq<RateLimit.Call>, ls: seq<Label>, key: Bytes)
    requires Run(calls, ls).Some?
    ensures var s := Run(calls, ls).value;
            RateLimit.WithinBudget(Requests(s, key), |RateLimit.Requests(calls, key)|, Delivered(s.sessions, key))
  {
    var s := Run(calls, ls).value;
    RunKeepsAllPaid(calls, ls, key);
    EachIsATunnel(calls, ls);
    assert forall i | 0 <= i < |s.sessions| :: IsTunnel(s.sessions[i].cfg, View(s, i));
    DeliveredIsPassed(s.sessions, s.calls, key);
    RateLimit.PaidIsWithinBudget(Requests(s, key), |RateLimit.Requests(calls, key)|, Delivered(s.sessions, key));
  }
}
