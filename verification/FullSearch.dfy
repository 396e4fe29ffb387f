/** A relay search that costs all the attempts the TTL allows (src/p2p_server.rs), on a network whose
    nodes keep one limiter each: the complete graph. */
module FullSearch {
  import opened ByteStrings
  import opened Protocol
  import opened Proxy
  import opened Relay
  import Peers
  import RateLimit

  // ---------------------------------------------------------------- limiters that remember

  /** The calls that the visits of one node made to its limiter, in order. */
  function CallsTo(w: World, events: seq<Event>, node: Bytes): seq<RateLimit.Call> {
    if events == [] then []
    else
      var e := events[|events| - 1];
      CallsTo(w, events[..|events| - 1], node) + if e.Visited? && e.node == node then [VisitCall(w, e)] else []
  }

  function VisitCall(w: World, e: Event): RateLimit.Call
    requires e.Visited?
  {
    RateLimit.Call(e.peer, AdmissionRate(EngineAt(w, e.path, e.node), e.packet.target), w.visit(e.path, e.node).clock)
  }

  /** Each node has one limiter: a visit meets all calls that the earlier visits to the node made, and no
      others. Clocks run forward. */
  ghost predicate Remembered(w: World, log: seq<Event>) {
    && (forall n | 0 <= n < |log| && log[n].Visited? ::
          w.visit(log[n].path, log[n].node).calls == CallsTo(w, log[..n], log[n].node))
    && (forall m, n | 0 <= m < n < |log| && log[m].Visited? && log[n].Visited? ::
          w.visit(log[m].path, log[m].node).clock < w.visit(log[n].path, log[n].node).clock)
  }

  // ---------------------------------------------------------------- a path names one visit

  ghost predicate Distinct(log: seq<Event>) {
    forall m, n | 0 <= m < n < |log| && log[m].Visited? && log[n].Visited? :: log[m].path != log[n].path
  }

  lemma DistinctAppend(a: seq<Event>, b: seq<Event>)
    requires Distinct(a) && Distinct(b)
    requires forall x, y | x in a && y in b :: x.path != y.path
    ensures Distinct(a + b)
  {
  }

  /** The event belongs to the candidates from the i-th on. */
  ghost predicate Below(e: Event, path: Path, i: nat) {
    |path| < |e.path| && e.path[..|path|] == path && e.path[|path|] >= i
  }

  lemma BelowFromPrefix(e: Event, path: Path, i: nat)
    requires path + [i] <= e.path
    ensures Below(e, path, i) && e.path[|path|] == i
  {
    assert e.path[..|path|] == (path + [i])[..|path|] == path;
  }

  lemma ForwardBelow(w: World, path: Path, i: nat, cand: Bytes, from: Bytes, fwd: MeshPacket)
    ensures forall e | e in Forward(w, path + [i], cand, from, fwd).1 :: Below(e, path, i) && e.path[|path|] == i
  {
    EveryVisit(w, path + [i], cand, from, false, fwd);
    forall e | e in Forward(w, path + [i], cand, from, fwd).1
      ensures Below(e, path, i) && e.path[|path|] == i
    {
      if e != Attempted(path + [i], cand) {
        assert OnCourse(e, path + [i], fwd);
      }
      BelowFromPrefix(e, path, i);
    }
  }

  lemma {:induction false} SearchBelow(w: World, path: Path, id: Bytes, cands: seq<Bytes>, i: nat, fwd: MeshPacket)
    requires i <= |cands|
    ensures forall e | e in TryFrom(w, path, id, cands, i, fwd).log :: Below(e, path, i)
    decreases |cands| - i
  {
    if i < |cands| {
      ForwardBelow(w, path, i, cands[i], id, fwd);
      SearchBelow(w, path, id, cands, i + 1, fwd);
    }
  }

  /** No two visits of a search have the same path. */
  lemma {:induction false} VisitsAreDistinct(w: World, path: Path, id: Bytes, peer: Bytes, v1: bool, pkt: MeshPacket)
    ensures Distinct(Handle(w, path, id, peer, v1, pkt).log)
    decreases pkt.ttl as nat, 1
  {
    if ClassAt(w, path, id, peer, v1, pkt) == Relayed && pkt.ttl > 0 {
      var cands := Peers.Candidates(w.visit(path, id).peers, pkt.target, id);
      var fwd := pkt.(ttl := pkt.ttl - 1);
      SearchIsDistinct(w, path, id, cands, 0, pkt);
      SearchBelow(w, path, id, cands, 0, fwd);
      DistinctAppend([Visited(path, id, peer, v1, pkt)], TryFrom(w, path, id, cands, 0, fwd).log);
    }
  }

  lemma {:induction false} SearchIsDistinct(w: World, path: Path, id: Bytes, cands: seq<Bytes>, i: nat, pkt: MeshPacket)
    requires i <= |cands| && pkt.ttl > 0
    ensures Distinct(TryFrom(w, path, id, cands, i, pkt.(ttl := pkt.ttl - 1)).log)
    decreases pkt.ttl as nat, 0, |cands| - i
  {
    if i < |cands| {
      var fwd := pkt.(ttl := pkt.ttl - 1);
      var here := Forward(w, path + [i], cands[i], id, fwd).1;
      ForwardIsDistinct(w, path + [i], cands[i], id, fwd);
      SearchIsDistinct(w, path, id, cands, i + 1, pkt);
      ForwardBelow(w, path, i, cands[i], id, fwd);
      SearchBelow(w, path, id, cands, i + 1, fwd);
      DistinctAppend(here, TryFrom(w, path, id, cands, i + 1, fwd).log);
    }
  }

  lemma {:induction false} ForwardIsDistinct(w: World, path: Path, cand: Bytes, from: Bytes, fwd: MeshPacket)
    ensures Distinct(Forward(w, path, cand, from, fwd).1)
    decreases fwd.ttl as nat, 2
  {
    VisitsAreDistinct(w, path, cand, from, false, fwd);
  }

  // ---------------------------------------------------------------- fruitless searches go the same way

  ghost predicate SameStores(w: World, w': World) {
    forall path: Path, id: Bytes :: w.visit(path, id).peers == w'.visit(path, id).peers
  }

  /** A fruitless search leaves a trace that only depends on whom the nodes know. */
  lemma {:induction false} SameSearch(w: World, w': World, path: Path, id: Bytes, peer: Bytes, v1: bool,
                                      pkt: MeshPacket, d: nat)
    requires Fruitless(w, pkt.target, d) && Fruitless(w', pkt.target, d) && SameStores(w, w')
    ensures Handle(w, path, id, peer, v1, pkt) == Handle(w', path, id, peer, v1, pkt)
    decreases pkt.ttl as nat, 1
  {
    HopelessIsRelayed(w, path, id, peer, v1, pkt, SeenAsError);
    HopelessIsRelayed(w', path, id, peer, v1, pkt, SeenAsError);
    assert w.visit(path, id).peers == w'.visit(path, id).peers;
    if pkt.ttl > 0 {
      SameSearchFrom(w, w', path, id, Peers.Candidates(w.visit(path, id).peers, pkt.target, id), 0, pkt, d);
    }
  }

  lemma HopelessIsRelayed(w: World, path: Path, id: Bytes, peer: Bytes, v1: bool, pkt: MeshPacket, silence: Silence)
    requires Hopeless(w, pkt.target, silence)
    ensures ClassAt(w, path, id, peer, v1, pkt) == Relayed
  {
    assert Resolve(EngineAt(w, path, id), pkt.target) == Resolve(w.visit(path, id).engine, pkt.target);
  }

  lemma SameForward(w: World, w': World, path: Path, cand: Bytes, from: Bytes, fwd: MeshPacket)
    requires w.link(path) == w'.link(path)
    requires Handle(w, path, cand, from, false, fwd) == Handle(w', path, cand, from, false, fwd)
    ensures Forward(w, path, cand, from, fwd) == Forward(w', path, cand, from, fwd)
  {
  }

  lemma {:induction false} SameSearchFrom(w: World, w': World, path: Path, id: Bytes, cands: seq<Bytes>, i: nat,
                                          pkt: MeshPacket, d: nat)
    requires Fruitless(w, pkt.target, d) && Fruitless(w', pkt.target, d) && SameStores(w, w')
    requires i <= |cands| && pkt.ttl > 0
    ensures var fwd := pkt.(ttl := pkt.ttl - 1);
            TryFrom(w, path, id, cands, i, fwd) == TryFrom(w', path, id, cands, i, fwd)
    decreases pkt.ttl as nat, 0, |cands| - i
  {
    if i < |cands| {
      var fwd := pkt.(ttl := pkt.ttl - 1);
      SameSearch(w, w', path + [i], cands[i], id, false, fwd, d);
      SameForward(w, w', path + [i], cands[i], id, fwd);
      SameSearchFrom(w, w', path, id, cands, i + 1, pkt, d);
    }
  }

  // ---------------------------------------------------------------- the complete graph

  /** Node ids in key order. */
  function NodeName(i: nat): (id: Bytes)
    ensures |id| == i + 1
  {
    seq(i + 1, _ => 97)
  }

  /** One of the nodes i..n-1. */
  predicate InGraph(id: Bytes, i: nat, n: nat) {
    i < |id| <= n && id == NodeName(|id| - 1)
  }

  /** The store of a node that heard the announcements of all nodes i..n-1 but itself. */
  function Store(i: nat, n: nat, self: Bytes, name: Bytes): seq<Peers.Manifest>
    decreases n - i
  {
    if i >= n then []
    else
      (if NodeName(i) == self then [] else [Peers.Manifest(NodeName(i), [name], 0, 0, 0, 0, [], [], 0)]) +
      Store(i + 1, n, self, name)
  }

  lemma {:induction false} NamesAscend(i: nat, j: nat)
    requires i < j
    ensures LexLess(NodeName(i), NodeName(j))
  {
    if i > 0 {
      NamesAscend(i - 1, j - 1);
      assert NodeName(i)[1..] == NodeName(i - 1) && NodeName(j)[1..] == NodeName(j - 1);
    }
  }

  lemma InGraphFromNext(id: Bytes, i: nat, n: nat)
    requires i < n
    ensures InGraph(id, i, n) <==> id == NodeName(i) || InGraph(id, i + 1, n)
  {
  }

  lemma {:induction false} StoreHolds(i: nat, n: nat, self: Bytes, name: Bytes, id: Bytes)
    requires i <= n
    ensures forall m | m in Store(i, n, self, name) ::
              InGraph(m.nodeId, i, n) && m.nodeId != self && m.endpoints == [name]
    ensures InGraph(id, i, n) && id != self ==> exists m :: m in Store(i, n, self, name) && m.nodeId == id
    decreases n - i
  {
    if i < n {
      StoreHolds(i + 1, n, self, name, id);
      InGraphFromNext(id, i, n);
      var rest := Store(i + 1, n, self, name);
      var store := Store(i, n, self, name);
      forall m | m in rest
        ensures m in store && InGraph(m.nodeId, i, n)
      {
        InGraphFromNext(m.nodeId, i, n);
      }
      if id == NodeName(i) && id != self {
        assert store[0] in store;
      }
    }
  }

  lemma {:induction false} StoreIsOrdered(i: nat, n: nat, self: Bytes, name: Bytes)
    requires i <= n
    ensures Peers.Ordered(Store(i, n, self, name))
    decreases n - i
  {
    if i < n {
      var rest := Store(i + 1, n, self, name);
      StoreIsOrdered(i + 1, n, self, name);
      StoreHolds(i + 1, n, self, name, self);
      forall k | 0 <= k < |rest|
        ensures LexLess(NodeName(i), rest[k].nodeId)
      {
        assert rest[k] in rest;
        NamesAscend(i, |rest[k].nodeId| - 1);
      }
    }
  }

  lemma {:induction false} StoreSize(i: nat, n: nat, self: Bytes, name: Bytes, target: Bytes)
    requires i <= n && target != name
    ensures var db := Store(i, n, self, name);
            Peers.Providers(db, target, self) == [] &&
            |Peers.Others(db, self)| == n - i - if InGraph(self, i, n) then 1 else 0
    decreases n - i
  {
    if i < n {
      StoreSize(i + 1, n, self, name, target);
      InGraphFromNext(self, i, n);
      var db, rest := Store(i, n, self, name), Store(i + 1, n, self, name);
      if NodeName(i) == self {
        assert db == rest;
      } else {
        assert db[0].nodeId == NodeName(i) && target !in db[0].endpoints;
        assert db[1..] == rest;
      }
    }
  }

  // ---------------------------------------------------------------- its world

  /** When the visit of a path happened, as an index into a log; the end of the log if it did not. */
  function Moment(log: seq<Event>, path: Path): (n: nat)
    ensures n <= |log|
    ensures forall k | 0 <= k < n :: !(log[k].Visited? && log[k].path == path)
    ensures n < |log| ==> log[n].Visited? && log[n].path == path
  {
    if log == [] || (log[0].Visited? && log[0].path == path) then 0 else 1 + Moment(log[1..], path)
  }

  /** A tenth of a second for each event: the pace at which a limit of 10 per second is kept. */
  function Clock(n: nat): real { n as real / 10.0 }

  function CallsIn(events: seq<Event>, log: seq<Event>, node: Bytes): seq<RateLimit.Call> {
    if events == [] then []
    else
      var e := events[|events| - 1];
      CallsIn(events[..|events| - 1], log, node) +
      if e.Visited? && e.node == node then [RateLimit.Call(e.peer, RELAY_RATE, Clock(Moment(log, e.path)))] else []
  }

  /** `d + 1` nodes that all know each other, each with one endpoint `own`. A visit meets the limiter as
      the visits before it in `log` left it. A stranger would know `d` of the nodes. */
  function Graph(codec: Codec, d: nat, own: EndpointCfg, log: seq<Event>): World {
    World(codec,
          (path: Path, id: Bytes) =>
            Visit(Engine(id, map[own.name := own], Some(own.name)),
                  Store(0, if InGraph(id, 0, d + 1) then d + 1 else d, id, own.name),
                  CallsIn(log[..Moment(log, path)], log, id), Clock(Moment(log, path)), Unreachable([]), 0),
          (path: Path) => Carried(true, SeenAsError))
  }

  lemma {:induction false} CallsAreEarlier(log: seq<Event>, n: nat, node: Bytes)
    requires n <= |log|
    ensures forall c | c in CallsIn(log[..n], log, node) :: (Clock(n) - c.time) * RELAY_RATE as real >= 1.0
  {
    if n > 0 {
      CallsAreEarlier(log, n - 1, node);
      assert log[..n][..n - 1] == log[..n - 1];
    }
  }

  lemma {:induction false} RequestsAreCalls(history: seq<RateLimit.Call>, key: Bytes)
    ensures forall c | c in RateLimit.Requests(history, key) :: c in history
  {
    if history != [] {
      RequestsAreCalls(history[..|history| - 1], key);
    }
  }

  /** At that pace no limiter refuses anybody. */
  lemma GraphAdmits(log: seq<Event>, n: nat, node: Bytes, peer: Bytes)
    requires n <= |log|
    ensures RateLimit.Decides(CallsIn(log[..n], log, node), RateLimit.Call(peer, RELAY_RATE, Clock(n)))
  {
    var calls := CallsIn(log[..n], log, node);
    var c := RateLimit.Call(peer, RELAY_RATE, Clock(n));
    var h := RateLimit.Requests(calls, peer);
    CallsAreEarlier(log, n, node);
    RequestsAreCalls(calls, peer);
    if h != [] {
      assert h[|h| - 1] in calls;
    }
    RateLimit.WaitingIsEnough(calls, c);
  }

  lemma GraphIsFruitless(codec: Codec, d: nat, own: EndpointCfg, log: seq<Event>, target: Bytes)
    requires target != [] && target != own.name
    ensures Fruitless(Graph(codec, d, own, log), target, d)
  {
    var w := Graph(codec, d, own, log);
    forall path: Path, id: Bytes
      ensures |Peers.Candidates(w.visit(path, id).peers, target, id)| == d
    {
      StoreSize(0, if InGraph(id, 0, d + 1) then d + 1 else d, id, own.name, target);
    }
    forall path: Path, id: Bytes, peer: Bytes
      ensures RateLimit.Decides(w.visit(path, id).calls, RateLimit.Call(peer, RELAY_RATE, w.visit(path, id).clock))
    {
      GraphAdmits(log, Moment(log, path), id, peer);
    }
  }

  lemma {:induction false} GraphCalls(codec: Codec, d: nat, own: EndpointCfg, log: seq<Event>, n: nat, node: Bytes,
                                      target: Bytes)
    requires n <= |log| && target != [] && target != own.name
    requires forall e | e in log && e.Visited? :: e.packet.target == target
    ensures CallsTo(Graph(codec, d, own, log), log[..n], node) == CallsIn(log[..n], log, node)
  {
    if n > 0 {
      GraphCalls(codec, d, own, log, n - 1, node, target);
      assert log[..n][..n - 1] == log[..n - 1];
      assert log[n - 1] in log;
    }
  }

  lemma MomentIsIndex(log: seq<Event>, n: nat)
    requires Distinct(log) && n < |log| && log[n].Visited?
    ensures Moment(log, log[n].path) == n
  {
    var m := Moment(log, log[n].path);
    assert m <= n;
  }

  lemma GraphRemembers(codec: Codec, d: nat, own: EndpointCfg, log: seq<Event>, target: Bytes)
    requires Distinct(log) && target != [] && target != own.name
    requires forall e | e in log && e.Visited? :: e.packet.target == target
    ensures Remembered(Graph(codec, d, own, log), log)
  {
    var w := Graph(codec, d, own, log);
    forall n | 0 <= n < |log| && log[n].Visited?
      ensures w.visit(log[n].path, log[n].node).clock == Clock(n)
      ensures w.visit(log[n].path, log[n].node).calls == CallsTo(w, log[..n], log[n].node)
    {
      MomentIsIndex(log, n);
      GraphCalls(codec, d, own, log, n, log[n].node, target);
    }
  }

  // ---------------------------------------------------------------- the result

  /** Node `k` at any time: it runs the one endpoint `own`, and its store is one that `upsert` can build
      and holds a current announcement of every other node, and nothing else. */
  ghost predicate IsNode(v: Visit, k: nat, d: nat, own: EndpointCfg) {
    && BuiltFrom(v.engine, [own])
    && Peers.Ordered(v.peers)
    && (forall m | m in v.peers :: m.nodeId != NodeName(k) && m.endpoints == [own.name])
    && (forall id :: Peers.Knows(v.peers, NodeName(k), id) <==> InGraph(id, 0, d + 1) && id != NodeName(k))
  }

  ghost predicate CompleteGraph(w: World, d: nat, own: EndpointCfg) {
    && (forall path: Path, k: nat | k <= d :: IsNode(w.visit(path, NodeName(k)), k, d, own))
    && (forall path: Path :: w.link(path) == Carried(true, SeenAsError))
  }

  lemma OneEndpoint(e: Engine, own: EndpointCfg)
    requires e.byName == map[own.name := own] && e.defaultName == Some(own.name)
    ensures BuiltFrom(e, [own])
  {
    assert Table([own]) == Table([])[own.name := own];
  }

  lemma GraphIsComplete(codec: Codec, d: nat, own: EndpointCfg, log: seq<Event>)
    ensures CompleteGraph(Graph(codec, d, own, log), d, own)
  {
    var w := Graph(codec, d, own, log);
    forall path: Path, k: nat | k <= d
      ensures IsNode(w.visit(path, NodeName(k)), k, d, own)
    {
      var v := w.visit(path, NodeName(k));
      OneEndpoint(v.engine, own);
      StoreIsOrdered(0, d + 1, NodeName(k), own.name);
      StoreHolds(0, d + 1, NodeName(k), own.name, NodeName(k));
      forall id
        ensures Peers.Knows(v.peers, NodeName(k), id) <==> InGraph(id, 0, d + 1) && id != NodeName(k)
      {
        StoreHolds(0, d + 1, NodeName(k), own.name, id);
      }
    }
  }

  /** The bound of `CostBound` is paid in full by a run of the code. In the complete graph of `d + 1` nodes
      that each serve something else, with limiters that remember every call of the search and admit them
      all, a packet for a target that nobody serves makes d + d^2 + ... + d^ttl attempts and fails. */
  lemma CompleteGraphPaysInFull(codec: Codec, d: nat, own: EndpointCfg, peer: Bytes, v1: bool, pkt: MeshPacket)
    returns (w: World)
    requires pkt.target != [] && pkt.target != own.name
    ensures w.codec == codec && CompleteGraph(w, d, own)
    ensures var out := Handle(w, [], NodeName(0), peer, v1, pkt);
            Remembered(w, out.log) && out.reply == NoReply && Attempts(out.log) == Geometric(d, pkt.ttl as nat)
  {
    var blank := Graph(codec, d, own, []);
    var log := Handle(blank, [], NodeName(0), peer, v1, pkt).log;
    w := Graph(codec, d, own, log);
    GraphIsComplete(codec, d, own, log);
    GraphIsFruitless(codec, d, own, [], pkt.target);
    GraphIsFruitless(codec, d, own, log, pkt.target);
    SameSearch(blank, w, [], NodeName(0), peer, v1, pkt, d);
    CostAttained(w, [], NodeName(0), peer, v1, pkt, d);
    VisitsAreDistinct(w, [], NodeName(0), peer, v1, pkt);
    EveryVisit(w, [], NodeName(0), peer, v1, pkt);
    forall e | e in log && e.Visited?
      ensures e.packet.target == pkt.target
    {
      assert OnCourse(e, [], pkt);
    }
    GraphRemembers(codec, d, own, log, pkt.target);
  }

  // ---------------------------------------------------------------- the other transport

  /** Where a handler that writes nothing is seen as an empty answer instead, the first one ends the search: the
      packet goes down one path, with at most `ttl` attempts, and comes back unanswered or empty. */
  lemma {:induction false} EmptyAnswersEndTheSearch(w: World, path: Path, id: Bytes, peer: Bytes, v1: bool,
                                                    pkt: MeshPacket)
    requires Hopeless(w, pkt.target, SeenAsEmpty)
    ensures var out := Handle(w, path, id, peer, v1, pkt);
            && Attempts(out.log) <= pkt.ttl as nat
            && (out.reply == Answer([]) <==>
                pkt.ttl > 0 && Peers.Candidates(w.visit(path, id).peers, pkt.target, id) != [])
            && (out.reply == Answer([]) || out.reply == NoReply)
    decreases pkt.ttl as nat
  {
    HopelessIsRelayed(w, path, id, peer, v1, pkt, SeenAsEmpty);
    var cands := Peers.Candidates(w.visit(path, id).peers, pkt.target, id);
    var r := RelayOn(w, path, id, pkt);
    AttemptsAppend([Visited(path, id, peer, v1, pkt)], r.log);
    if pkt.ttl > 0 && cands != [] {
      var fwd := pkt.(ttl := pkt.ttl - 1);
      var (seen, log) := Forward(w, path + [0], cands[0], id, fwd);
      EmptyAnswersEndTheSearch(w, path + [0], cands[0], id, false, fwd);
      ForwardCost(w, path + [0], cands[0], id, fwd);
      assert seen == Some([]);
      assert r == TryFrom(w, path, id, cands, 0, fwd) == Outcome(Answer([]), log);
    } else if pkt.ttl > 0 {
      assert |cands| == 0;
      assert r == TryFrom(w, path, id, cands, 0, pkt.(ttl := pkt.ttl - 1)) == Outcome(NoReply, []);
    }
  }
}
