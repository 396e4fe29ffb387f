/** Dispatch of a request at one node and its relay over a network of nodes (src/p2p_server.rs). */
module Relay {
  import opened ByteStrings
  import opened Protocol
  import opened Proxy
  import RateLimit
  import Peers
  import Stats

  const RELAY_RATE: nat := 10

  // ---------------------------------------------------------------- the packet of a stream

  type Parser = Bytes -> Option<MeshPacket>

  /** The bytes a node takes for the packet, and what is left behind them: version 1 prefixes the
      length, version 0 uses the whole stream. */
  function RawPacket(v1: bool, s: Stream): Parsed<(Bytes, Bytes)> {
    if v1 then ReadHandshake(s)
    else
      match ReadAll(s, MAX_FRAME)
      case Ok(raw) => Ok((raw, []))
      case Err(e) => Err(e)
  }

  /** The packet of a stream and the stream behind it, if it can be read and parsed. */
  function PacketOf(parse: Parser, v1: bool, s: Stream): Option<(MeshPacket, Stream)> {
    match RawPacket(v1, s)
    case Ok((raw, rest)) =>
      (match parse(raw)
       case Some(pkt) => Some((pkt, Stream(rest, s.end)))
       case None => None)
    case Err(_) => None
  }

  /** A forwarded packet arrives as it was sent exactly when its JSON keeps the limit and the sender
      finished the stream. */
  lemma ForwardedPacketIsReadIff(parse: Parser, json: Bytes, pkt: MeshPacket, end: End)
    requires parse(json) == Some(pkt)
    ensures PacketOf(parse, false, Stream(json, end)) == Some((pkt, Stream([], end))) <==>
            |json| <= 8_388_608 && end == Finished
  {
  }

  // ---------------------------------------------------------------- dispatch at one node

  /** The four ways a parsed packet can go. */
  datatype Class = Rejected | Tunnelled | Executed | Relayed

  predicate IsWs(verb: Bytes) {
    |verb| == 2 && verb[0] in {87, 119} && verb[1] in {83, 115}
  }

  /** The limit a packet is measured against: the endpoint's own, or the one for foreign targets. */
  function AdmissionRate(e: Engine, target: Bytes): nat {
    if Serves(e, target) then RateFor(e, target) else RELAY_RATE
  }

  ghost function Classify(e: Engine, calls: seq<RateLimit.Call>, peer: Bytes, now: real, v1: bool,
                          pkt: MeshPacket): Class {
    if !RateLimit.Decides(calls, RateLimit.Call(peer, AdmissionRate(e, pkt.target), now)) then Rejected
    else if !Serves(e, pkt.target) then Relayed
    else if v1 && IsWs(pkt.verb) then Tunnelled
    else Executed
  }

  /** The method that asks for a tunnel, in any case. */
  lemma IsWsIff(verb: Bytes)
    ensures IsWs(verb) <==> verb in {Ascii("WS"), Ascii("Ws"), Ascii("wS"), Ascii("ws")}
  {
    assert Ascii("WS") == [87, 83] && Ascii("Ws") == [87, 115] && Ascii("wS") == [119, 83] && Ascii("ws") == [119, 115];
    if |verb| == 2 {
      assert verb == [verb[0], verb[1]];
    }
  }

  /** Which of a node's limits a packet is measured against: the request limit of the endpoint its target names,
      and 10 for a target that is not served. */
  lemma AdmissionRates(e: Engine, endpoints: seq<EndpointCfg>, target: Bytes)
    requires BuiltFrom(e, endpoints)
    ensures forall i | 0 <= i < |endpoints| && Names(endpoints, i, target) ::
              Serves(e, target) && AdmissionRate(e, target) == endpoints[i].rateLimitPerPeer
    ensures (if target == [] then endpoints == [] else forall ep | ep in endpoints :: ep.name != target) ==>
              !Serves(e, target) && AdmissionRate(e, target) == 10
  {
    ServedIff(e, endpoints, target);
    forall i | 0 <= i < |endpoints| && Names(endpoints, i, target)
      ensures Serves(e, target) && AdmissionRate(e, target) == endpoints[i].rateLimitPerPeer
    {
      LastEndpointCounts(e, endpoints, i, target);
    }
  }

  /** What becomes of a packet, by its admission, its target and its method. */
  lemma ClassifyRules(e: Engine, calls: seq<RateLimit.Call>, peer: Bytes, now: real, v1: bool, pkt: MeshPacket)
    ensures var cls := Classify(e, calls, peer, now, v1, pkt);
            var admitted := RateLimit.Decides(calls, RateLimit.Call(peer, AdmissionRate(e, pkt.target), now));
            var tunnel := v1 && pkt.verb in {Ascii("WS"), Ascii("Ws"), Ascii("wS"), Ascii("ws")};
            && (cls.Rejected? <==> !admitted)
            && (cls.Relayed? <==> admitted && !Serves(e, pkt.target))
            && (cls.Tunnelled? <==> admitted && Serves(e, pkt.target) && tunnel)
            && (cls.Executed? <==> admitted && Serves(e, pkt.target) && !tunnel)
  {
    IsWsIff(pkt.verb);
  }

  /** A peer that was not seen before and sends packets for one endpoint at one moment: exactly as many get in as
      the endpoint's request limit says, and all of them when it is 0. */
  lemma BurstGetsTheLimit(e: Engine, endpoints: seq<EndpointCfg>, i: nat, calls: seq<RateLimit.Call>, peer: Bytes,
                          now: real, v1: bool, pkt: MeshPacket, n: nat)
    requires BuiltFrom(e, endpoints) && i < |endpoints| && Names(endpoints, i, pkt.target)
    requires RateLimit.Requests(calls, peer) == []
    ensures var rate := endpoints[i].rateLimitPerPeer;
            var earlier := RateLimit.Copies(RateLimit.Call(peer, rate, now), n);
            Classify(e, calls + earlier, peer, now, v1, pkt) == Rejected <==> rate > 0 && n >= rate
  {
    AdmissionRates(e, endpoints, pkt.target);
    if endpoints[i].rateLimitPerPeer > 0 {
      RateLimit.BurstAdmitsTheRate(calls, RateLimit.Call(peer, endpoints[i].rateLimitPerPeer, now), n);
    }
  }

  // ---------------------------------------------------------------- the network

  /** The attempt indices that lead from the first node to a visit of another one. The peer store, the
      limiter and the upstream of a node may differ from one visit to the next, so the world says what
      a node is like when it is reached by a path. */
  type Path = seq<nat>

  /** What each attempt of a relay gives: index, candidate and packet decide the reply. */
  type Remote = (nat, Bytes, MeshPacket) -> Option<Bytes>

  /** The state one visit meets at a node, and what its upstream would answer. */
  datatype Visit = Visit(
    engine: Engine,
    peers: seq<Peers.Manifest>,
    calls: seq<RateLimit.Call>,
    clock: real,
    http: HttpResult,
    nowSecs: nat)

  /** What the dialling side sees of a handler that wrote nothing. */
  datatype Silence = SeenAsError | SeenAsEmpty

  /** What the transport does with one attempt. */
  datatype Link = NoConnection | NotUnderstood(silence: Silence) | Carried(replyArrives: bool, silence: Silence)

  datatype World = World(codec: Codec, visit: (Path, Bytes) -> Visit, link: Path -> Link)

  datatype Reply = Answer(bytes: Bytes) | NoReply | Tunnel

  /** What happens in the network, in order: a node handles a packet from a peer, a node dials another. */
  datatype Event =
    | Visited(path: Path, node: Bytes, peer: Bytes, v1: bool, packet: MeshPacket)
    | Attempted(path: Path, node: Bytes)

  datatype Outcome = Outcome(reply: Reply, log: seq<Event>)

  /** The engine a visit meets. A connection is authenticated to the id that was dialled. */
  function EngineAt(w: World, path: Path, id: Bytes): Engine {
    w.visit(path, id).engine.(nodeId := id)
  }

  ghost function ClassAt(w: World, path: Path, id: Bytes, peer: Bytes, v1: bool, pkt: MeshPacket): Class {
    Classify(EngineAt(w, path, id), w.visit(path, id).calls, peer, w.visit(path, id).clock, v1, pkt)
  }

  /** One handled stream, with everything that happens in the network because of it. */
  ghost function Handle(w: World, path: Path, id: Bytes, peer: Bytes, v1: bool, pkt: MeshPacket): Outcome
    decreases pkt.ttl as nat, 2
  {
    var e := EngineAt(w, path, id);
    var here := [Visited(path, id, peer, v1, pkt)];
    match ClassAt(w, path, id, peer, v1, pkt)
    case Rejected => Outcome(Answer(RejectReply(w.codec, e, pkt.target, w.visit(path, id).nowSecs)), here)
    case Tunnelled => Outcome(Tunnel, here)
    case Executed =>
      var v := w.visit(path, id);
      Outcome(Answer(ExecuteReply(w.codec, e, pkt.target, v.http, v.nowSecs)), here)
    case Relayed =>
      var r := RelayOn(w, path, id, pkt);
      Outcome(r.reply, here + r.log)
  }

  ghost function RelayOn(w: World, path: Path, id: Bytes, pkt: MeshPacket): Outcome
    decreases pkt.ttl as nat, 1
  {
    if pkt.ttl == 0 then Outcome(NoReply, [])
    else TryFrom(w, path, id, Peers.Candidates(w.visit(path, id).peers, pkt.target, id), 0, pkt.(ttl := pkt.ttl - 1))
  }

  /** The candidates from the i-th on, in order, until one gives a reply. */
  ghost function TryFrom(w: World, path: Path, id: Bytes, cands: seq<Bytes>, i: nat, fwd: MeshPacket): Outcome
    requires i <= |cands|
    decreases fwd.ttl as nat + 1, 0, |cands| - i
  {
    if i == |cands| then Outcome(NoReply, [])
    else
      var (seen, log) := Forward(w, path + [i], cands[i], id, fwd);
      if seen.Some? then Outcome(Answer(seen.value), log)
      else
        var later := TryFrom(w, path, id, cands, i + 1, fwd);
        Outcome(later.reply, log + later.log)
  }

  /** One attempt: what the dialling node gets to see, and what happened meanwhile. */
  ghost function Forward(w: World, path: Path, cand: Bytes, from: Bytes, fwd: MeshPacket): (Option<Bytes>, seq<Event>)
    decreases fwd.ttl as nat, 3
  {
    var dial := [Attempted(path, cand)];
    match w.link(path)
    case NoConnection => (None, dial)
    case NotUnderstood(silence) => (Silent(silence), dial)
    case Carried(replyArrives, silence) =>
      var out := Handle(w, path, cand, from, false, fwd);
      (match out.reply
       case Answer(b) => if replyArrives && |b| <= MAX_FRAME then Some(b) else None
       case NoReply => Silent(silence)
       case Tunnel => None,
       dial + out.log)
  }

  function Silent(s: Silence): Option<Bytes> { if s == SeenAsEmpty then Some([]) else None }

  // ---------------------------------------------------------------- every visit

  /** A visit `k` hops further on sees the original packet with `k` taken off its `ttl`. */
  ghost predicate OnCourse(e: Event, path: Path, pkt: MeshPacket) {
    var hops := |e.path| - |path|;
    path <= e.path && hops <= pkt.ttl as int &&
    (e.Visited? ==> e.packet == pkt.(ttl := (pkt.ttl as int - hops) as u8))
  }

  lemma OnCourseFromNextHop(e: Event, path: Path, i: nat, pkt: MeshPacket)
    requires pkt.ttl > 0 && OnCourse(e, path + [i], pkt.(ttl := pkt.ttl - 1))
    ensures OnCourse(e, path, pkt)
  {
    assert e.path[..|path|] == path;
  }

  /** Nesting and integrity on any topology: no path is longer than the `ttl` allows, and the packet
      never changes in anything but its `ttl`. */
  lemma {:induction false} EveryVisit(w: World, path: Path, id: Bytes, peer: Bytes, v1: bool, pkt: MeshPacket)
    ensures forall e | e in Handle(w, path, id, peer, v1, pkt).log :: OnCourse(e, path, pkt)
    decreases pkt.ttl as nat, 1
  {
    if ClassAt(w, path, id, peer, v1, pkt) == Relayed && pkt.ttl > 0 {
      EveryVisitFrom(w, path, id, Peers.Candidates(w.visit(path, id).peers, pkt.target, id), 0, pkt);
    }
  }

  lemma {:induction false} EveryVisitFrom(w: World, path: Path, id: Bytes, cands: seq<Bytes>, i: nat, pkt: MeshPacket)
    requires i <= |cands| && pkt.ttl > 0
    ensures forall e | e in TryFrom(w, path, id, cands, i, pkt.(ttl := pkt.ttl - 1)).log :: OnCourse(e, path, pkt)
    decreases pkt.ttl as nat, 0, |cands| - i
  {
    if i < |cands| {
      var fwd := pkt.(ttl := pkt.ttl - 1);
      EveryVisit(w, path + [i], cands[i], id, false, fwd);
      forall e | e in Forward(w, path + [i], cands[i], id, fwd).1
        ensures OnCourse(e, path, pkt)
      {
        OnCourseFromNextHop(e, path, i, pkt);
      }
      EveryVisitFrom(w, path, id, cands, i + 1, pkt);
    }
  }

  // ---------------------------------------------------------------- cost

  function Attempts(log: seq<Event>): nat {
    if log == [] then 0 else (if log[0].Attempted? then 1 else 0) + Attempts(log[1..])
  }

  lemma {:induction false} AttemptsAppend(a: seq<Event>, b: seq<Event>)
    ensures Attempts(a + b) == Attempts(a) + Attempts(b)
  {
    if a == [] {
      assert a + b == b;
    } else {
      AttemptsAppend(a[1..], b);
      assert (a + b)[1..] == a[1..] + b;
    }
  }

  /** d + d^2 + ... + d^t. */
  function Geometric(d: nat, t: nat): nat {
    if t == 0 then 0 else d * (1 + Geometric(d, t - 1))
  }

  ghost predicate FanOut(w: World, target: Bytes, d: nat) {
    forall path: Path, id: Bytes :: |Peers.Candidates(w.visit(path, id).peers, target, id)| <= d
  }

  /** Handling a packet costs at most d + d^2 + ... + d^ttl attempts in the whole network. */
  lemma {:induction false} CostBound(w: World, path: Path, id: Bytes, peer: Bytes, v1: bool, pkt: MeshPacket, d: nat)
    requires FanOut(w, pkt.target, d)
    ensures Attempts(Handle(w, path, id, peer, v1, pkt).log) <= Geometric(d, pkt.ttl as nat)
    decreases pkt.ttl as nat, 2
  {
    if ClassAt(w, path, id, peer, v1, pkt) == Relayed {
      RelayCostBound(w, path, id, pkt, d);
      AttemptsAppend([Visited(path, id, peer, v1, pkt)], RelayOn(w, path, id, pkt).log);
    }
  }

  lemma {:induction false} RelayCostBound(w: World, path: Path, id: Bytes, pkt: MeshPacket, d: nat)
    requires FanOut(w, pkt.target, d)
    ensures Attempts(RelayOn(w, path, id, pkt).log) <= Geometric(d, pkt.ttl as nat)
    decreases pkt.ttl as nat, 1
  {
    if pkt.ttl > 0 {
      var cands := Peers.Candidates(w.visit(path, id).peers, pkt.target, id);
      var each := 1 + Geometric(d, pkt.ttl as nat - 1);
      CostBoundFrom(w, path, id, cands, 0, pkt, d);
      RepeatedIsProduct(|cands|, each);
      Monotone(|cands|, d, each);
    }
  }

  ghost predicate StoresUpTo(w: World, n: nat) {
    forall path: Path, id: Bytes :: |w.visit(path, id).peers| <= n
  }

  /** The same in terms of what the nodes know: with at most `n` known peers per node, a packet costs at most
      n + n^2 + ... + n^ttl attempts, whatever its target. */
  lemma CostWithinStores(w: World, path: Path, id: Bytes, peer: Bytes, v1: bool, pkt: MeshPacket, n: nat)
    requires StoresUpTo(w, n)
    ensures Attempts(Handle(w, path, id, peer, v1, pkt).log) <= Geometric(n, pkt.ttl as nat)
  {
    forall path: Path, id: Bytes
      ensures |Peers.Candidates(w.visit(path, id).peers, pkt.target, id)| <= n
    {
      Peers.NoMoreThanKnown(w.visit(path, id).peers, pkt.target, id);
    }
    CostBound(w, path, id, peer, v1, pkt, n);
  }

  lemma Monotone(a: nat, b: nat, k: nat)
    requires a <= b
    ensures a * k <= b * k
  {
  }

  /** `n` times `one`, one at a time. */
  function Repeated(n: nat, one: nat): nat {
    if n == 0 then 0 else one + Repeated(n - 1, one)
  }

  lemma {:induction false} RepeatedIsProduct(n: nat, one: nat)
    ensures Repeated(n, one) == n * one
  {
    if n > 0 {
      RepeatedIsProduct(n - 1, one);
      assert n * one == one + (n - 1) * one;
    }
  }

  lemma ForwardCost(w: World, path: Path, cand: Bytes, from: Bytes, fwd: MeshPacket)
    ensures var log := Forward(w, path, cand, from, fwd).1;
            if w.link(path).Carried? then Attempts(log) == 1 + Attempts(Handle(w, path, cand, from, false, fwd).log)
            else Attempts(log) == 1
  {
    var dial := [Attempted(path, cand)];
    assert Attempts(dial) == 1;
    AttemptsAppend(dial, Handle(w, path, cand, from, false, fwd).log);
  }

  lemma TryFromCost(w: World, path: Path, id: Bytes, cands: seq<Bytes>, i: nat, fwd: MeshPacket)
    requires i < |cands|
    ensures var first := Attempts(Forward(w, path + [i], cands[i], id, fwd).1);
            var later := Attempts(TryFrom(w, path, id, cands, i + 1, fwd).log);
            Attempts(TryFrom(w, path, id, cands, i, fwd).log) ==
            if Forward(w, path + [i], cands[i], id, fwd).0.Some? then first else first + later
  {
    AttemptsAppend(Forward(w, path + [i], cands[i], id, fwd).1, TryFrom(w, path, id, cands, i + 1, fwd).log);
  }

  lemma {:induction false} CostBoundOnce(w: World, path: Path, id: Bytes, cands: seq<Bytes>, i: nat,
                                         fwd: MeshPacket, d: nat)
    requires FanOut(w, fwd.target, d) && i < |cands|
    ensures Attempts(TryFrom(w, path, id, cands, i, fwd).log) <=
            1 + Geometric(d, fwd.ttl as nat) + Attempts(TryFrom(w, path, id, cands, i + 1, fwd).log)
    decreases fwd.ttl as nat + 1, 0, 0
  {
    CostBound(w, path + [i], cands[i], id, false, fwd, d);
    ForwardCost(w, path + [i], cands[i], id, fwd);
    TryFromCost(w, path, id, cands, i, fwd);
  }

  lemma {:induction false} CostBoundFrom(w: World, path: Path, id: Bytes, cands: seq<Bytes>, i: nat,
                                         pkt: MeshPacket, d: nat)
    requires FanOut(w, pkt.target, d) && i <= |cands| && pkt.ttl > 0
    ensures Attempts(TryFrom(w, path, id, cands, i, pkt.(ttl := pkt.ttl - 1)).log) <=
            Repeated(|cands| - i, 1 + Geometric(d, pkt.ttl as nat - 1))
    decreases pkt.ttl as nat, 0, |cands| - i
  {
    if i < |cands| {
      var fwd := pkt.(ttl := pkt.ttl - 1);
      CostBoundOnce(w, path, id, cands, i, fwd, d);
      CostBoundFrom(w, path, id, cands, i + 1, pkt, d);
    }
  }

  /** A world in which nobody serves the target, nobody is over the limit, and all links work. A handler that
      writes nothing is seen in one way. */
  ghost predicate Hopeless(w: World, target: Bytes, silence: Silence) {
    && (forall path: Path, id: Bytes :: !Serves(w.visit(path, id).engine, target))
    && (forall path: Path :: w.link(path) == Carried(true, silence))
    && (forall path: Path, id: Bytes, peer: Bytes ::
          RateLimit.Decides(w.visit(path, id).calls, RateLimit.Call(peer, RELAY_RATE, w.visit(path, id).clock)))
  }

  /** Such a world where everybody knows `d` others and every failure is seen as one. */
  ghost predicate Fruitless(w: World, target: Bytes, d: nat) {
    && (forall path: Path, id: Bytes :: |Peers.Candidates(w.visit(path, id).peers, target, id)| == d)
    && Hopeless(w, target, SeenAsError)
  }

  /** The bound is exact: a fruitless search makes that many attempts and fails. */
  lemma {:induction false} CostAttained(w: World, path: Path, id: Bytes, peer: Bytes, v1: bool, pkt: MeshPacket, d: nat)
    requires Fruitless(w, pkt.target, d)
    ensures var out := Handle(w, path, id, peer, v1, pkt);
            out.reply == NoReply && Attempts(out.log) == Geometric(d, pkt.ttl as nat)
    decreases pkt.ttl as nat, 2
  {
    assert Resolve(EngineAt(w, path, id), pkt.target) == Resolve(w.visit(path, id).engine, pkt.target);
    assert ClassAt(w, path, id, peer, v1, pkt) == Relayed;
    RelayCostAttained(w, path, id, pkt, d);
    AttemptsAppend([Visited(path, id, peer, v1, pkt)], RelayOn(w, path, id, pkt).log);
  }

  lemma {:induction false} RelayCostAttained(w: World, path: Path, id: Bytes, pkt: MeshPacket, d: nat)
    requires Fruitless(w, pkt.target, d)
    ensures var out := RelayOn(w, path, id, pkt);
            out.reply == NoReply && Attempts(out.log) == Geometric(d, pkt.ttl as nat)
    decreases pkt.ttl as nat, 1
  {
    if pkt.ttl > 0 {
      CostAttainedFrom(w, path, id, Peers.Candidates(w.visit(path, id).peers, pkt.target, id), 0, pkt, d);
      RepeatedIsProduct(d, 1 + Geometric(d, pkt.ttl as nat - 1));
    }
  }

  lemma FruitlessStep(w: World, path: Path, id: Bytes, cands: seq<Bytes>, i: nat, fwd: MeshPacket)
    requires i < |cands| && w.link(path + [i]) == Carried(true, SeenAsError)
    requires Handle(w, path + [i], cands[i], id, false, fwd).reply == NoReply
    ensures var out, later := TryFrom(w, path, id, cands, i, fwd), TryFrom(w, path, id, cands, i + 1, fwd);
            out.reply == later.reply &&
            Attempts(out.log) == 1 + Attempts(Handle(w, path + [i], cands[i], id, false, fwd).log) + Attempts(later.log)
  {
    ForwardCost(w, path + [i], cands[i], id, fwd);
    TryFromCost(w, path, id, cands, i, fwd);
  }

  lemma {:induction false} CostAttainedOnce(w: World, path: Path, id: Bytes, cands: seq<Bytes>, i: nat,
          fwd: MeshPacket, d: nat)
    requires Fruitless(w, fwd.target, d) && i < |cands|
    ensures var out, later := TryFrom(w, path, id, cands, i, fwd), TryFrom(w, path, id, cands, i + 1, fwd);
            out.reply == later.reply &&
            Attempts(out.log) == 1 + Geometric(d, fwd.ttl as nat) + Attempts(later.log)
    decreases fwd.ttl as nat + 1, 0, 0
  {
    CostAttained(w, path + [i], cands[i], id, false, fwd, d);
    FruitlessStep(w, path, id, cands, i, fwd);
  }

  lemma {:induction false} CostAttainedFrom(w: World, path: Path, id: Bytes, cands: seq<Bytes>, i: nat,
          pkt: MeshPacket, d: nat)
    requires Fruitless(w, pkt.target, d) && i <= |cands| && pkt.ttl > 0
    ensures var out := TryFrom(w, path, id, cands, i, pkt.(ttl := pkt.ttl - 1));
            out.reply == NoReply &&
            Attempts(out.log) == Repeated(|cands| - i, 1 + Geometric(d, pkt.ttl as nat - 1))
    decreases pkt.ttl as nat, 0, |cands| - i
  {
    if i < |cands| {
      var fwd := pkt.(ttl := pkt.ttl - 1);
      CostAttainedOnce(w, path, id, cands, i, fwd, d);
      CostAttainedFrom(w, path, id, cands, i + 1, pkt, d);
    }
  }

  // ---------------------------------------------------------------- where an answer comes from

  /** The answer of one visit: the limiter refused the packet, or the node serves the target and ran it.
      A node that only passes the packet on makes no answer. */
  ghost predicate MadeBy(w: World, e: Event, b: Bytes) {
    e.Visited? &&
    var engine, now := EngineAt(w, e.path, e.node), w.visit(e.path, e.node).nowSecs;
    match ClassAt(w, e.path, e.node, e.peer, e.v1, e.packet)
    case Rejected => b == RejectReply(w.codec, engine, e.packet.target, now)
    case Executed => b == ExecuteReply(w.codec, engine, e.packet.target, w.visit(e.path, e.node).http, now)
    case _ => false
  }

  /** Relays add nothing: an answer is empty or, byte for byte, what one visited node made. */
  lemma {:induction false} AnswerIsMadeOnce(w: World, path: Path, id: Bytes, peer: Bytes, v1: bool, pkt: MeshPacket)
    ensures var out := Handle(w, path, id, peer, v1, pkt);
            out.reply.Answer? && out.reply.bytes != [] ==> exists e | e in out.log :: MadeBy(w, e, out.reply.bytes)
    decreases pkt.ttl as nat, 1
  {
    var out := Handle(w, path, id, peer, v1, pkt);
    match ClassAt(w, path, id, peer, v1, pkt)
    case Relayed =>
      if pkt.ttl > 0 {
        AnswerIsMadeOnceFrom(w, path, id, Peers.Candidates(w.visit(path, id).peers, pkt.target, id), 0, pkt);
        var r := RelayOn(w, path, id, pkt);
        if r.reply.Answer? && r.reply.bytes != [] {
          var e :| e in r.log && MadeBy(w, e, r.reply.bytes);
          assert e in out.log;
        }
      }
    case _ =>
      assert Visited(path, id, peer, v1, pkt) in out.log;
  }

  lemma {:induction false} AnswerIsMadeOnceFrom(w: World, path: Path, id: Bytes, cands: seq<Bytes>, i: nat,
          pkt: MeshPacket)
    requires i <= |cands| && pkt.ttl > 0
    ensures var out := TryFrom(w, path, id, cands, i, pkt.(ttl := pkt.ttl - 1));
            out.reply.Answer? && out.reply.bytes != [] ==> exists e | e in out.log :: MadeBy(w, e, out.reply.bytes)
    decreases pkt.ttl as nat, 0, |cands| - i
  {
    if i < |cands| {
      var fwd := pkt.(ttl := pkt.ttl - 1);
      var out := TryFrom(w, path, id, cands, i, fwd);
      var (seen, log) := Forward(w, path + [i], cands[i], id, fwd);
      if seen.Some? {
        AnswerIsMadeOnce(w, path + [i], cands[i], id, false, fwd);
        if seen.value != [] {
          var inner := Handle(w, path + [i], cands[i], id, false, fwd);
          assert w.link(path + [i]).Carried?;
          var e :| e in inner.log && MadeBy(w, e, seen.value);
          assert e in out.log;
        }
      } else {
        AnswerIsMadeOnceFrom(w, path, id, cands, i + 1, pkt);
        var later := TryFrom(w, path, id, cands, i + 1, fwd);
        if later.reply.Answer? && later.reply.bytes != [] {
          var e :| e in later.log && MadeBy(w, e, later.reply.bytes);
          assert e in out.log;
        }
      }
    }
  }

  /** What a claim says about the visit it comes from: a refusal by the limiter with status 429, or an
      execution with the upstream's status and body. */
  ghost predicate Reports(w: World, e: Event, claim: Claim) {
    e.Visited? && e.node == claim.nodeId &&
    match ClassAt(w, e.path, e.node, e.peer, e.v1, e.packet)
    case Rejected => claim.status == 429
    case Executed => (claim.status, claim.body) == UpstreamBody(w.codec, w.visit(e.path, e.node).http)
    case _ => false
  }

  /** End to end: any non-empty answer, over any path, verifies at the client as signed by a node the
      packet visited, and says what became of the packet there: refused or executed. */
  lemma RelayedAnswerVerifies(w: World, path: Path, id: Bytes, peer: Bytes, v1: bool, pkt: MeshPacket)
    requires Lawful(w.codec)
    requires var out := Handle(w, path, id, peer, v1, pkt); out.reply.Answer? && out.reply.bytes != []
    ensures var out := Handle(w, path, id, peer, v1, pkt);
            var claim := ReadClaim(w.codec, out.reply.bytes);
            claim.Some? && Verifies(w.codec, claim.value) &&
            exists e | e in out.log :: Reports(w, e, claim.value) && OnCourse(e, path, pkt)
  {
    var out := Handle(w, path, id, peer, v1, pkt);
    AnswerIsMadeOnce(w, path, id, peer, v1, pkt);
    EveryVisit(w, path, id, peer, v1, pkt);
    var e :| e in out.log && MadeBy(w, e, out.reply.bytes);
    assert OnCourse(e, path, pkt);
    MadeVerifies(w, e, out.reply.bytes);
  }

  lemma MadeVerifies(w: World, e: Event, b: Bytes)
    requires Lawful(w.codec) && MadeBy(w, e, b)
    ensures var claim := ReadClaim(w.codec, b);
            claim.Some? && Verifies(w.codec, claim.value) && Reports(w, e, claim.value)
  {
    var engine, now := EngineAt(w, e.path, e.node), w.visit(e.path, e.node).nowSecs;
    var target := e.packet.target;
    if ClassAt(w, e.path, e.node, e.peer, e.v1, e.packet) == Rejected {
      FinalizeVerifies(w.codec, engine.nodeId, target, 429, RefusalBody(w.codec), false, now);
    } else {
      var (status, raw) := UpstreamBody(w.codec, w.visit(e.path, e.node).http);
      FinalizeVerifies(w.codec, engine.nodeId, Resolve(engine, target).value.name, status, raw, false, now);
    }
  }

  /** What a node itself answers to a packet that it does not pass on: a signed 429 in its own name, what its
      upstream said, or the opening of a tunnel. A relayed packet with no hops left gets no answer. */
  lemma HandleByClass(w: World, path: Path, id: Bytes, peer: Bytes, v1: bool, pkt: MeshPacket)
    requires Lawful(w.codec)
    ensures var reply, v := Handle(w, path, id, peer, v1, pkt).reply, w.visit(path, id);
            match ClassAt(w, path, id, peer, v1, pkt)
            case Rejected =>
              reply.Answer? && exists body :: Says(w.codec, reply.bytes, id, pkt.target, 429, body, v.nowSecs)
            case Executed =>
              reply.Answer? && Serves(EngineAt(w, path, id), pkt.target) &&
              var name := Resolve(EngineAt(w, path, id), pkt.target).value.name;
              if v.http.Responded? then Says(w.codec, reply.bytes, id, name, v.http.status, v.http.body, v.nowSecs)
              else exists body :: Says(w.codec, reply.bytes, id, name, 502, body, v.nowSecs)
            case Tunnelled => reply == Tunnel
            case Relayed => pkt.ttl == 0 ==> reply == NoReply
  {
    var e, v := EngineAt(w, path, id), w.visit(path, id);
    match ClassAt(w, path, id, peer, v1, pkt)
    case Rejected => RefusalSaysLimit(w.codec, e, pkt.target, v.nowSecs);
    case Executed => ExecutionSaysWhatUpstreamDid(w.codec, e, pkt.target, v.http, v.nowSecs);
    case _ =>
  }

  // ---------------------------------------------------------------- answers come back

  /** The dialling node gets `b` from an attempt: what the handler answered, if it arrives and is not too long,
      or nothing at all where silence is seen as an empty answer. */
  predicate Gives(link: Link, reply: Reply, b: Bytes) {
    match link
    case NoConnection => false
    case NotUnderstood(silence) => silence == SeenAsEmpty && b == []
    case Carried(arrives, silence) =>
      match reply
      case Answer(bytes) => arrives && |bytes| <= 8_388_608 && b == bytes
      case NoReply => silence == SeenAsEmpty && b == []
      case Tunnel => false
  }

  ghost predicate GivesNothing(link: Link, reply: Reply) {
    forall b :: !Gives(link, reply, b)
  }

  lemma ForwardGives(w: World, path: Path, cand: Bytes, from: Bytes, fwd: MeshPacket)
    ensures var reply, seen := Handle(w, path, cand, from, false, fwd).reply, Forward(w, path, cand, from, fwd).0;
            && (forall b :: Gives(w.link(path), reply, b) <==> seen == Some(b))
            && (GivesNothing(w.link(path), reply) <==> seen == None)
  {
    var reply, seen := Handle(w, path, cand, from, false, fwd).reply, Forward(w, path, cand, from, fwd).0;
    assert forall b :: Gives(w.link(path), reply, b) <==> seen == Some(b);
    if seen.Some? {
      assert Gives(w.link(path), reply, seen.value);
    }
  }

  /** The reply of the handler at the k-th candidate. */
  ghost function ReplyAt(w: World, path: Path, id: Bytes, cands: seq<Bytes>, k: nat, fwd: MeshPacket): Reply
    requires k < |cands|
  {
    Handle(w, path + [k], cands[k], id, false, fwd).reply
  }

  lemma {:induction false} FirstAnswerFrom(w: World, path: Path, id: Bytes, cands: seq<Bytes>, i: nat, fwd: MeshPacket,
                                           k: nat, b: Bytes)
    requires i <= k < |cands|
    requires forall j | i <= j < k :: GivesNothing(w.link(path + [j]), ReplyAt(w, path, id, cands, j, fwd))
    requires Gives(w.link(path + [k]), ReplyAt(w, path, id, cands, k, fwd), b)
    ensures TryFrom(w, path, id, cands, i, fwd).reply == Answer(b)
    decreases k - i
  {
    ForwardGives(w, path + [i], cands[i], id, fwd);
    if i < k {
      FirstAnswerFrom(w, path, id, cands, i + 1, fwd, k, b);
    }
  }

  lemma {:induction false} NoAnswerFrom(w: World, path: Path, id: Bytes, cands: seq<Bytes>, i: nat, fwd: MeshPacket)
    requires i <= |cands|
    requires forall j | i <= j < |cands| :: GivesNothing(w.link(path + [j]), ReplyAt(w, path, id, cands, j, fwd))
    ensures TryFrom(w, path, id, cands, i, fwd).reply == NoReply
    decreases |cands| - i
  {
    if i < |cands| {
      ForwardGives(w, path + [i], cands[i], id, fwd);
      NoAnswerFrom(w, path, id, cands, i + 1, fwd);
    }
  }

  /** A relay hands back, byte for byte, what the first candidate gives that gives anything. */
  lemma FirstAnswerComesBack(w: World, path: Path, id: Bytes, peer: Bytes, v1: bool, pkt: MeshPacket, k: nat, b: Bytes)
    requires ClassAt(w, path, id, peer, v1, pkt) == Relayed && pkt.ttl > 0
    requires var cands, fwd := Peers.Candidates(w.visit(path, id).peers, pkt.target, id), pkt.(ttl := pkt.ttl - 1);
             && k < |cands|
             && (forall j | 0 <= j < k :: GivesNothing(w.link(path + [j]), ReplyAt(w, path, id, cands, j, fwd)))
             && Gives(w.link(path + [k]), ReplyAt(w, path, id, cands, k, fwd), b)
    ensures Handle(w, path, id, peer, v1, pkt).reply == Answer(b)
  {
    var cands, fwd := Peers.Candidates(w.visit(path, id).peers, pkt.target, id), pkt.(ttl := pkt.ttl - 1);
    FirstAnswerFrom(w, path, id, cands, 0, fwd, k, b);
  }

  /** And it fails when no candidate gives anything. */
  lemma NobodyAnswers(w: World, path: Path, id: Bytes, peer: Bytes, v1: bool, pkt: MeshPacket)
    requires ClassAt(w, path, id, peer, v1, pkt) == Relayed && pkt.ttl > 0
    requires var cands, fwd := Peers.Candidates(w.visit(path, id).peers, pkt.target, id), pkt.(ttl := pkt.ttl - 1);
             forall j | 0 <= j < |cands| :: GivesNothing(w.link(path + [j]), ReplyAt(w, path, id, cands, j, fwd))
    ensures Handle(w, path, id, peer, v1, pkt).reply == NoReply
  {
    var cands, fwd := Peers.Candidates(w.visit(path, id).peers, pkt.target, id), pkt.(ttl := pkt.ttl - 1);
    NoAnswerFrom(w, path, id, cands, 0, fwd);
  }

  // ---------------------------------------------------------------- order of the attempts

  /** The first reply among the candidates from the i-th on. `remote` is what each attempt gives. */
  function FirstReply(remote: Remote, cands: seq<Bytes>, i: nat, fwd: MeshPacket): Option<Bytes>
    requires i <= |cands|
    decreases |cands| - i
  {
    if i == |cands| then None
    else if remote(i, cands[i], fwd).Some? then remote(i, cands[i], fwd)
    else FirstReply(remote, cands, i + 1, fwd)
  }

  /** The replies that the network gives to the attempts of one relaying node. */
  ghost function Network(w: World, path: Path, id: Bytes): Remote {
    (i: nat, cand: Bytes, fwd: MeshPacket) => Forward(w, path + [i], cand, id, fwd).0
  }

  /** A relay answers with the first candidate that gives any reply, and fails exactly when none does. */
  lemma {:induction false} FirstReplyWins(w: World, path: Path, id: Bytes, cands: seq<Bytes>, i: nat, fwd: MeshPacket)
    requires i <= |cands|
    ensures var reply := FirstReply(Network(w, path, id), cands, i, fwd);
            TryFrom(w, path, id, cands, i, fwd).reply == if reply.Some? then Answer(reply.value) else NoReply
    ensures var reply := FirstReply(Network(w, path, id), cands, i, fwd);
            if reply.None? then forall j | i <= j < |cands| :: Network(w, path, id)(j, cands[j], fwd).None?
            else exists k | i <= k < |cands| :: (
              && Network(w, path, id)(k, cands[k], fwd) == reply
              && forall j | i <= j < k :: Network(w, path, id)(j, cands[j], fwd).None?)
    decreases |cands| - i
  {
    if i < |cands| {
      FirstReplyWins(w, path, id, cands, i + 1, fwd);
      if Network(w, path, id)(i, cands[i], fwd).Some? {
        assert FirstReply(Network(w, path, id), cands, i, fwd) == Network(w, path, id)(i, cands[i], fwd);
      }
    }
  }

  /** The reply of one node's `relay`. */
  function RelayReply(db: seq<Peers.Manifest>, id: Bytes, pkt: MeshPacket, remote: Remote): Reply {
    if pkt.ttl == 0 then NoReply
    else
      match FirstReply(remote, Peers.Candidates(db, pkt.target, id), 0, pkt.(ttl := pkt.ttl - 1))
      case Some(b) => Answer(b)
      case None => NoReply
  }

  /** The reply of one node to a packet of a class. */
  function ReplyOf(cls: Class, e: Engine, codec: Codec, db: seq<Peers.Manifest>, pkt: MeshPacket, http: HttpResult,
                   nowSecs: nat, remote: Remote): Reply
    requires cls == Executed ==> Serves(e, pkt.target)
  {
    match cls
    case Rejected => Answer(RejectReply(codec, e, pkt.target, nowSecs))
    case Tunnelled => Tunnel
    case Executed => Answer(ExecuteReply(codec, e, pkt.target, http, nowSecs))
    case Relayed => RelayReply(db, e.nodeId, pkt, remote)
  }

  /** The network-wide process is every node's own code: a visit replies as that node does when the
      network gives its attempts what their own visits reply. */
  lemma HandleIsEveryNodesCode(w: World, path: Path, id: Bytes, peer: Bytes, v1: bool, pkt: MeshPacket)
    ensures Handle(w, path, id, peer, v1, pkt).reply ==
            ReplyOf(ClassAt(w, path, id, peer, v1, pkt), EngineAt(w, path, id), w.codec, w.visit(path, id).peers, pkt,
                    w.visit(path, id).http, w.visit(path, id).nowSecs, Network(w, path, id))
  {
    if ClassAt(w, path, id, peer, v1, pkt) == Relayed && pkt.ttl > 0 {
      FirstReplyWins(w, path, id, Peers.Candidates(w.visit(path, id).peers, pkt.target, id), 0,
          pkt.(ttl := pkt.ttl - 1));
    }
  }

  // ---------------------------------------------------------------- announced targets

  lemma ForwardToServer(w: World, path: Path, cand: Bytes, from: Bytes, fwd: MeshPacket)
    requires Serves(w.visit(path, cand).engine, fwd.target)
    ensures var log := Forward(w, path, cand, from, fwd).1;
            (forall e | e in log :: e.path == path && e.node == cand) && Attempts(log) == 1
  {
    assert Resolve(EngineAt(w, path, cand), fwd.target) == Resolve(w.visit(path, cand).engine, fwd.target);
    var visit := [Visited(path, cand, from, false, fwd)];
    assert Handle(w, path, cand, from, false, fwd).log == visit;
    ForwardCost(w, path, cand, from, fwd);
    assert Attempts(visit) == 0;
  }

  /** The event is at one of the candidates, one hop away. */
  ghost predicate AtCandidate(e: Event, path: Path, cands: seq<Bytes>) {
    exists k :: 0 <= k < |cands| && e.path == path + [k] && e.node == cands[k]
  }

  /** A candidate that still serves what it announced is the end of the road: nothing happens more than one
      hop away and each candidate is dialled at most once. */
  lemma {:induction false} ServedTargetsGoNoFurther(w: World, path: Path, id: Bytes, cands: seq<Bytes>, i: nat,
          fwd: MeshPacket)
    requires i <= |cands|
    requires forall k | i <= k < |cands| :: Serves(w.visit(path + [k], cands[k]).engine, fwd.target)
    ensures var out := TryFrom(w, path, id, cands, i, fwd);
            (forall e | e in out.log :: AtCandidate(e, path, cands)) && Attempts(out.log) <= |cands| - i
    decreases |cands| - i
  {
    if i < |cands| {
      ForwardToServer(w, path + [i], cands[i], id, fwd);
      ServedTargetsGoNoFurther(w, path, id, cands, i + 1, fwd);
      TryFromCost(w, path, id, cands, i, fwd);
    }
  }

  /** What the store says about the endpoints of a node is still what the node is configured with. */
  ghost predicate Current(db: seq<Peers.Manifest>, configured: Bytes -> seq<EndpointCfg>) {
    forall m, name | m in db && name in m.endpoints :: exists ep :: ep in configured(m.nodeId) && ep.name == name
  }

  /** Every node that is reached in one hop runs the endpoints it is configured with. */
  ghost predicate AsConfigured(w: World, path: Path, configured: Bytes -> seq<EndpointCfg>) {
    forall k: nat, node: Bytes :: BuiltFrom(w.visit(path + [k], node).engine, configured(node))
  }

  lemma AskedNodeServes(db: seq<Peers.Manifest>, self: Bytes, target: Bytes, cand: Bytes,
                        configured: Bytes -> seq<EndpointCfg>, e: Engine)
    requires Current(db, configured) && BuiltFrom(e, configured(cand))
    requires cand in Peers.Candidates(db, target, self) && exists other :: Peers.Holds(db, target, self, other)
    ensures Serves(e, target)
  {
    Peers.CandidatesExact(db, target, self, cand);
    var m :| m in db && m.nodeId == cand && target in m.endpoints;
    var ep :| ep in configured(m.nodeId) && ep.name == target;
    AnnouncedMeansServed(e, configured(cand), ep);
  }

  lemma AskedNodesServe(w: World, path: Path, db: seq<Peers.Manifest>, self: Bytes, target: Bytes,
                        configured: Bytes -> seq<EndpointCfg>)
    requires Current(db, configured) && AsConfigured(w, path, configured)
    requires exists other :: Peers.Holds(db, target, self, other)
    ensures var cands := Peers.Candidates(db, target, self);
            forall k | 0 <= k < |cands| :: Serves(w.visit(path + [k], cands[k]).engine, target)
  {
    var cands := Peers.Candidates(db, target, self);
    forall k | 0 <= k < |cands|
      ensures Serves(w.visit(path + [k], cands[k]).engine, target)
    {
      AskedNodeServes(db, self, target, cands[k], configured, w.visit(path + [k], cands[k]).engine);
    }
  }

  /** The same from the announcements: when another node announced the target, the announcements are
      current and every node runs what it is configured with, then everything happens at the candidates,
      one hop away, each is dialled at most once, and a non-empty answer is what one of them made. */
  lemma AnnouncedTargetsGoNoFurther(w: World, path: Path, id: Bytes, pkt: MeshPacket,
                                    configured: Bytes -> seq<EndpointCfg>)
    requires Current(w.visit(path, id).peers, configured) && AsConfigured(w, path, configured)
    requires exists other :: Peers.Holds(w.visit(path, id).peers, pkt.target, id, other)
    ensures var out := RelayOn(w, path, id, pkt);
            var cands := Peers.Candidates(w.visit(path, id).peers, pkt.target, id);
            && (forall e | e in out.log :: AtCandidate(e, path, cands))
            && Attempts(out.log) <= |cands|
            && (out.reply.Answer? && out.reply.bytes != [] ==> exists e | e in out.log :: MadeBy(w, e, out.reply.bytes))
  {
    AskedNodesServe(w, path, w.visit(path, id).peers, id, pkt.target, configured);
    RelayToServers(w, path, id, pkt);
    CandidateMadeIt(w, path, id, pkt);
  }

  lemma RelayToServers(w: World, path: Path, id: Bytes, pkt: MeshPacket)
    requires var cands := Peers.Candidates(w.visit(path, id).peers, pkt.target, id);
             forall k | 0 <= k < |cands| :: Serves(w.visit(path + [k], cands[k]).engine, pkt.target)
    ensures var out := RelayOn(w, path, id, pkt);
            var cands := Peers.Candidates(w.visit(path, id).peers, pkt.target, id);
            (forall e | e in out.log :: AtCandidate(e, path, cands)) && Attempts(out.log) <= |cands|
  {
    if pkt.ttl > 0 {
      var cands := Peers.Candidates(w.visit(path, id).peers, pkt.target, id);
      ServedTargetsGoNoFurther(w, path, id, cands, 0, pkt.(ttl := pkt.ttl - 1));
    }
  }

  lemma ServerAnswers(w: World, path: Path, cand: Bytes, from: Bytes, fwd: MeshPacket)
    requires Serves(w.visit(path, cand).engine, fwd.target)
    ensures var reply := Handle(w, path, cand, from, false, fwd).reply;
            reply.Answer? && MadeBy(w, Visited(path, cand, from, false, fwd), reply.bytes)
  {
    assert Resolve(EngineAt(w, path, cand), fwd.target) == Resolve(w.visit(path, cand).engine, fwd.target);
  }

  /** For an announced target the first working link decides: the reply is what the node behind it made, a
      refusal or an execution, whatever the nodes after it would say. */
  lemma AnnouncedAnswerComesBack(w: World, path: Path, id: Bytes, peer: Bytes, v1: bool, pkt: MeshPacket,
                                 configured: Bytes -> seq<EndpointCfg>, k: nat)
    requires ClassAt(w, path, id, peer, v1, pkt) == Relayed && pkt.ttl > 0
    requires Current(w.visit(path, id).peers, configured) && AsConfigured(w, path, configured)
    requires exists other :: Peers.Holds(w.visit(path, id).peers, pkt.target, id, other)
    requires var cands, fwd := Peers.Candidates(w.visit(path, id).peers, pkt.target, id), pkt.(ttl := pkt.ttl - 1);
             && k < |cands|
             && (forall j | 0 <= j < k :: w.link(path + [j]) == NoConnection)
             && w.link(path + [k]).Carried? && w.link(path + [k]).replyArrives
             && (ReplyAt(w, path, id, cands, k, fwd).Answer? ==>
                   |ReplyAt(w, path, id, cands, k, fwd).bytes| <= 8_388_608)
    ensures var reply := Handle(w, path, id, peer, v1, pkt).reply;
            var cand := Peers.Candidates(w.visit(path, id).peers, pkt.target, id)[k];
            reply.Answer? && MadeBy(w, Visited(path + [k], cand, id, false, pkt.(ttl := pkt.ttl - 1)), reply.bytes)
  {
    var cands, fwd := Peers.Candidates(w.visit(path, id).peers, pkt.target, id), pkt.(ttl := pkt.ttl - 1);
    AskedNodesServe(w, path, w.visit(path, id).peers, id, pkt.target, configured);
    ServerAnswers(w, path + [k], cands[k], id, fwd);
    FirstAnswerComesBack(w, path, id, peer, v1, pkt, k, ReplyAt(w, path, id, cands, k, fwd).bytes);
  }

  /** A non-empty answer to a relayed packet is what one visited node made of it. */
  lemma CandidateMadeIt(w: World, path: Path, id: Bytes, pkt: MeshPacket)
    ensures var out := RelayOn(w, path, id, pkt);
            out.reply.Answer? && out.reply.bytes != [] ==> exists e | e in out.log :: MadeBy(w, e, out.reply.bytes)
  {
    if pkt.ttl > 0 {
      var cands := Peers.Candidates(w.visit(path, id).peers, pkt.target, id);
      AnswerIsMadeOnceFrom(w, path, id, cands, 0, pkt);
    }
  }

  // ---------------------------------------------------------------- the code of one node

  class Handler {
    const engine: Engine
    const codec: Codec
    const limiter: RateLimit.RateLimiter
    const stats: Stats.Stats
    const peers: Peers.PeerStore

    constructor (engine: Engine, codec: Codec, limiter: RateLimit.RateLimiter, stats: Stats.Stats,
                 peers: Peers.PeerStore)
      ensures this.engine == engine && this.codec == codec
      ensures this.limiter == limiter && this.stats == stats && this.peers == peers
    {
      this.engine, this.codec := engine, codec;
      this.limiter, this.stats, this.peers := limiter, stats, peers;
    }

    /** Lowers the `ttl` and asks the candidates in turn. */
    method Relay(pkt: MeshPacket, remote: Remote) returns (reply: Reply)
      ensures reply == RelayReply(peers.db, engine.nodeId, pkt, remote)
    {
      if pkt.ttl == 0 {
        return NoReply;
      }
      var fwd := pkt;
      fwd := fwd.(ttl := fwd.ttl - 1);
      var candidates := Peers.Providers(peers.db, pkt.target, engine.nodeId);
      if candidates == [] {
        candidates := Peers.Others(peers.db, engine.nodeId);
      }
      if candidates == [] {
        return NoReply;
      }
      var i := 0;
      while i < |candidates|
        invariant 0 <= i <= |candidates|
        invariant FirstReply(remote, candidates, 0, fwd) == FirstReply(remote, candidates, i, fwd)
      {
        match remote(i, candidates[i], fwd) {
          case Some(resp) => return Answer(resp);
          case None =>
        }
        i := i + 1;
      }
      reply := NoReply;
    }

    /** The bytes of the packet; the reader is left behind them. */
    method ReadRaw(recv: Reader, v1: bool) returns (raw: Parsed<Bytes>)
      requires recv.Valid()
      modifies recv
      ensures recv.Valid()
      ensures var spec := RawPacket(v1, old(recv.Rest()));
              if spec.Ok? then raw == Ok(spec.value.0) && recv.Rest() == Stream(spec.value.1, old(recv.Rest()).end)
              else raw == Err(spec.error)
    {
      if v1 {
        raw := ReadHandshakeV1(recv);
      } else {
        raw := recv.ReadToEnd(MAX_FRAME);
      }
    }

    /** One stream. Without a packet that can be read and parsed nothing is counted; a parsed packet is
        counted once in the total and once in its class, and its reply is the one of that class. The
        reader is left where a tunnel goes on reading. */
    method HandleStream(recv: Reader, parse: Parser, peer: Bytes, v1: bool, now: real, http: HttpResult, nowSecs: nat,
                        remote: Remote)
      returns (reply: Reply, cls: Option<Class>)
      requires limiter.Valid() && recv.Valid()
      modifies limiter, stats, recv
      ensures limiter.Valid() && recv.Valid()
      ensures PacketOf(parse, v1, old(recv.Rest())).None? ==>
                reply == NoReply && cls == None && unchanged(stats) && unchanged(limiter)
      ensures PacketOf(parse, v1, old(recv.Rest())).Some? ==>
        var (pkt, rest) := PacketOf(parse, v1, old(recv.Rest())).value;
        && recv.Rest() == rest
        && cls == Some(Classify(engine, old(limiter.history), peer, now, v1, pkt))
        && limiter.history == old(limiter.history) + [RateLimit.Call(peer, AdmissionRate(engine, pkt.target), now)]
        && stats.total == old(stats.total) + 1
        && stats.rejected == old(stats.rejected) + (if cls == Some(Rejected) then 1 else 0)
        && stats.proxied == old(stats.proxied) + (if cls in {Some(Executed), Some(Tunnelled)} then 1 else 0)
        && stats.relayed == old(stats.relayed) + (if cls == Some(Relayed) then 1 else 0)
        && stats.activeConnections == old(stats.activeConnections) && stats.activePeers == old(stats.activePeers)
        && reply == ReplyOf(cls.value, engine, codec, peers.db, pkt, http, nowSecs, remote)
    {
      var raw := ReadRaw(recv, v1);
      if raw.Err? {
        return NoReply, None;
      }
      var parsed := parse(raw.value);
      if parsed.None? {
        return NoReply, None;
      }
      var admitted;
      reply, admitted := HandlePacket(parsed.value, peer, v1, now, http, nowSecs, remote);
      cls := Some(admitted);
    }

    /** One parsed packet: the total, the limiter, and then its way. */
    method HandlePacket(pkt: MeshPacket, peer: Bytes, v1: bool, now: real, http: HttpResult, nowSecs: nat,
                        remote: Remote)
      returns (reply: Reply, cls: Class)
      requires limiter.Valid()
      modifies limiter, stats
      ensures limiter.Valid()
      ensures cls == Classify(engine, old(limiter.history), peer, now, v1, pkt)
      ensures limiter.history == old(limiter.history) + [RateLimit.Call(peer, AdmissionRate(engine, pkt.target), now)]
      ensures stats.total == old(stats.total) + 1
      ensures stats.rejected == old(stats.rejected) + (if cls == Rejected then 1 else 0)
      ensures stats.proxied == old(stats.proxied) + (if cls in {Executed, Tunnelled} then 1 else 0)
      ensures stats.relayed == old(stats.relayed) + (if cls == Relayed then 1 else 0)
      ensures stats.activeConnections == old(stats.activeConnections) && stats.activePeers == old(stats.activePeers)
      ensures reply == ReplyOf(cls, engine, codec, peers.db, pkt, http, nowSecs, remote)
    {
      stats.IncTotal();
      var rate := RELAY_RATE;
      if Serves(engine, pkt.target) {
        rate := RateFor(engine, pkt.target);
      }
      var ok := limiter.Allow(peer, rate, now);
      if !ok {
        stats.IncRejected();
        var body := RejectBody(codec, engine, pkt.target, nowSecs);
        return Answer(body), Rejected;
      }
      reply, cls := Dispatch(pkt, v1, http, nowSecs, remote);
    }

    /** The way of an admitted packet: into a tunnel, to the local upstream, or to another node. */
    method Dispatch(pkt: MeshPacket, v1: bool, http: HttpResult, nowSecs: nat, remote: Remote)
      returns (reply: Reply, cls: Class)
      modifies stats`proxied, stats`relayed
      ensures cls == if !Serves(engine, pkt.target) then Relayed else if v1 &&
              IsWs(pkt.verb) then Tunnelled else Executed
      ensures stats.proxied == old(stats.proxied) + (if cls == Relayed then 0 else 1)
      ensures stats.relayed == old(stats.relayed) + (if cls == Relayed then 1 else 0)
      ensures reply == ReplyOf(cls, engine, codec, peers.db, pkt, http, nowSecs, remote)
    {
      if v1 && IsWs(pkt.verb) && Serves(engine, pkt.target) {
        stats.IncProxied();
        return Tunnel, Tunnelled;
      }
      if Serves(engine, pkt.target) {
        stats.IncProxied();
        var body := Execute(codec, engine, pkt.target, http, nowSecs);
        reply := Answer(body.value);
        cls := Executed;
      } else {
        stats.IncRelayed();
        reply := Relay(pkt, remote);
        cls := Relayed;
      }
    }
  }
}
