/** Components together: from the bytes of a client's stream through dispatch into a tunnel. */
module Session {
  import opened ByteStrings
  import opened Protocol
  import Proxy
  import RateLimit
  import Relay
  import Tunnel

  /** All that a version 1 client sends: the handshake with its packet, then frames. */
  function ClientBytes(json: Bytes, fs: seq<WsFrame>): Bytes
    requires |json| <= MAX_FRAME
  {
    HandshakeBytes(json).value + EncodeAll(fs)
  }

  /** However much of that arrives, the node reads the packet that was sent, or none when the cut is
      inside the handshake; a tunnel then starts at the first frame. */
  lemma CutStreamGivesPacket(parse: Relay.Parser, json: Bytes, pkt: MeshPacket, fs: seq<WsFrame>, k: nat, end: End)
    requires 1 <= |json| <= MAX_FRAME && parse(json) == Some(pkt)
    requires k <= |ClientBytes(json, fs)|
    ensures Relay.PacketOf(parse, true, Stream(ClientBytes(json, fs)[..k], end)) ==
            if k < 4 + |json| then None else Some((pkt, Stream(EncodeAll(fs)[..k - 4 - |json|], end)))
  {
    HandshakeTruncation(json, [], 4 + |json|, end);
    HandshakeTruncation(json, EncodeAll(fs), k, end);
  }

  /** The node reads a packet from the stream, and its limiter and name table send it into a tunnel. */
  ghost predicate OpensTunnel(parse: Relay.Parser, e: Proxy.Engine, calls: seq<RateLimit.Call>, peer: Bytes,
                              now: real, s: Stream) {
    Relay.PacketOf(parse, true, s).Some? &&
    Relay.Classify(e, calls, peer, now, true, Relay.PacketOf(parse, true, s).value.0) == Relay.Tunnelled
  }

  /** The session of the tunnel that is opened for a stream. */
  function Opened(parse: Relay.Parser, e: Proxy.Engine, peer: Bytes, opening: Tunnel.Opening, s: Stream): Tunnel.Config
    requires Relay.PacketOf(parse, true, s).Some?
  {
    var (pkt, client) := Relay.PacketOf(parse, true, s).value;
    Tunnel.SessionConfig(e, peer, pkt, opening, client)
  }

  ghost predicate NoReservedClose(ms: seq<Tunnel.Msg>) {
    forall m | m in ms && m.MClose? :: m.frame.Some? && m.frame.value.code !in {1005, 1006, 1015}
  }

  /** The request's call to the limiter. */
  function RequestCall(e: Proxy.Engine, peer: Bytes, pkt: MeshPacket, now: real): RateLimit.Call {
    RateLimit.Call(peer, Relay.AdmissionRate(e, pkt.target), now)
  }

  /** Admission of a tunnel: of whatever part of the client's stream arrives, the node opens a tunnel exactly
      when the handshake is whole, the method is `WS` in any case, the target names an endpoint of the node, and
      the peer is within the request limit of that endpoint. */
  lemma TunnelOpensIff(parse: Relay.Parser, json: Bytes, pkt: MeshPacket, fs: seq<WsFrame>, k: nat, end: End,
                       e: Proxy.Engine, endpoints: seq<Proxy.EndpointCfg>, calls: seq<RateLimit.Call>, peer: Bytes,
                       now: real)
    requires 1 <= |json| <= MAX_FRAME && parse(json) == Some(pkt)
    requires k <= |ClientBytes(json, fs)|
    ensures OpensTunnel(parse, e, calls, peer, now, Stream(ClientBytes(json, fs)[..k], end)) <==>
            && k >= 4 + |json| && pkt.verb in {Ascii("WS"), Ascii("Ws"), Ascii("wS"), Ascii("ws")}
            && Proxy.Serves(e, pkt.target)
            && RateLimit.Decides(calls, RateLimit.Call(peer, Proxy.RateFor(e, pkt.target), now))
    ensures Proxy.BuiltFrom(e, endpoints) ==>
            (Proxy.Serves(e, pkt.target) &&
             RateLimit.Decides(calls, RateLimit.Call(peer, Proxy.RateFor(e, pkt.target), now)) <==>
             exists i :: 0 <= i < |endpoints| && Proxy.Names(endpoints, i, pkt.target) &&
                 RateLimit.Decides(calls, RateLimit.Call(peer, endpoints[i].rateLimitPerPeer, now)))
  {
    CutStreamGivesPacket(parse, json, pkt, fs, k, end);
    Relay.ClassifyRules(e, calls, peer, now, true, pkt);
    if Proxy.BuiltFrom(e, endpoints) {
      Relay.AdmissionRates(e, endpoints, pkt.target);
    }
    if Proxy.BuiltFrom(e, endpoints) && Proxy.Serves(e, pkt.target) {
      var i := Proxy.ServedIsNamed(e, endpoints, pkt.target);
      assert Proxy.Names(endpoints, i, pkt.target);
    }
  }

  /** A tunnel's messages are limited by the message rate of the endpoint that its target names, under the key
      `peer:ws:target`. */
  lemma SessionLimits(e: Proxy.Engine, endpoints: seq<Proxy.EndpointCfg>, i: nat, peer: Bytes, pkt: MeshPacket,
                      opening: Tunnel.Opening, client: Stream)
    requires Proxy.BuiltFrom(e, endpoints) && i < |endpoints| && Proxy.Names(endpoints, i, pkt.target)
    ensures var cfg := Tunnel.SessionConfig(e, peer, pkt, opening, client);
            cfg.rate == endpoints[i].wsRateLimitPerPeer && cfg.key == peer + Ascii(":ws:") + pkt.target
  {
    Proxy.LastEndpointCounts(e, endpoints, i, pkt.target);
    RateLimit.TunnelKeyText(peer, pkt.target);
  }

  /** End to end: a client sends its packet and frames, and any part of that arrives at a node that opens a
      tunnel for it. At the end of every run of this tunnel, whatever calls the limiter has served by then,
      upstream has a prefix of the image of some first frames of the client up to its Close, only frames the
      limiter refused are missing from this image, while the pump lives it is known what upstream still
      lacks of it, and no Close in it is reserved. */
  lemma TunnelFromTheWire(parse: Relay.Parser, json: Bytes, pkt: MeshPacket, fs: seq<WsFrame>, k: nat, end: End,
                          e: Proxy.Engine, before: seq<RateLimit.Call>, peer: Bytes, now: real,
                          opening: Tunnel.Opening, calls: seq<RateLimit.Call>, ls: seq<Tunnel.Label>)
    requires 1 <= |json| <= MAX_FRAME && parse(json) == Some(pkt)
    requires k <= |ClientBytes(json, fs)| && forall f | f in fs :: Fits(f)
    requires OpensTunnel(parse, e, before, peer, now, Stream(ClientBytes(json, fs)[..k], end))
    requires Tunnel.Run(Opened(parse, e, peer, opening, Stream(ClientBytes(json, fs)[..k], end)), calls, ls).Some?
    ensures Proxy.Serves(e, pkt.target) && RateLimit.Decides(before, RequestCall(e, peer, pkt, now))
    ensures var cfg := Opened(parse, e, peer, opening, Stream(ClientBytes(json, fs)[..k], end));
            var s := Tunnel.Run(cfg, calls, ls).value;
            && cfg.key == RateLimit.TunnelKey(peer, pkt.target) && cfg.rate == Proxy.WsMsgRateFor(e, pkt.target)
            && s.delivered <= Tunnel.UpImage(s.consumed)
            && Tunnel.Frames(s.consumed) <= Tunnel.UntilClose(fs) <= fs
            && Tunnel.JudgedByLimiter(cfg, calls, s) && Tunnel.Accounted(cfg, calls, ls)
            && NoReservedClose(s.delivered)
  {
    CutStreamGivesPacket(parse, json, pkt, fs, k, end);
    var cfg := Tunnel.SessionConfig(e, peer, pkt, opening, Stream(EncodeAll(fs)[..k - 4 - |json|], end));
    assert cfg == Opened(parse, e, peer, opening, Stream(ClientBytes(json, fs)[..k], end));
    var s := Tunnel.Run(cfg, calls, ls).value;
    HandshakeTruncation(json, EncodeAll(fs), k, end);
    Tunnel.UplinkEndToEnd(cfg, calls, ls, fs, k - 4 - |json|);
    assert Tunnel.Reachable(cfg, calls, s);
    forall m | m in s.delivered && m.MClose?
      ensures m.frame.Some? && m.frame.value.code !in {1005, 1006, 1015}
    {
      Tunnel.NoReservedCloseUpstream(cfg, calls, s, m);
    }
  }

  /** The limiter calls of everybody else during a run of a tunnel. */
  function OthersCalls(ls: seq<Tunnel.Label>): seq<RateLimit.Call> {
    if ls == [] then []
    else
      var l := ls[|ls| - 1];
      OthersCalls(ls[..|ls| - 1]) + if l.OtherCall? then [l.call] else []
  }

  lemma StepMakesNoRequests(cfg: Tunnel.Config, s: Tunnel.State, l: Tunnel.Label, peer: Bytes)
    requires Tunnel.Apply(cfg, s, l).Some? && cfg.key != peer
    ensures RateLimit.Requests(Tunnel.Apply(cfg, s, l).value.calls, peer) ==
            RateLimit.Requests(if l.OtherCall? then s.calls + [l.call] else s.calls, peer)
  {
    if l.ReadOne? {
      RateLimit.RequestsAppend(s.calls, RateLimit.Call(cfg.key, cfg.rate, l.now), peer);
    } else {
      Tunnel.StepCalls(cfg, s, l);
    }
  }

  lemma SameRequestsGrow(x: seq<RateLimit.Call>, y: seq<RateLimit.Call>, c: RateLimit.Call, peer: Bytes)
    requires RateLimit.Requests(x, peer) == RateLimit.Requests(y, peer)
    ensures RateLimit.Requests(x + [c], peer) == RateLimit.Requests(y + [c], peer)
  {
    RateLimit.RequestsAppend(x, c, peer);
    RateLimit.RequestsAppend(y, c, peer);
  }

  lemma {:induction false} TunnelMakesNoRequests(cfg: Tunnel.Config, calls: seq<RateLimit.Call>,
          ls: seq<Tunnel.Label>, peer: Bytes)
    requires Tunnel.Run(cfg, calls, ls).Some? && cfg.key != peer
    ensures RateLimit.Requests(Tunnel.Run(cfg, calls, ls).value.calls, peer) ==
            RateLimit.Requests(calls + OthersCalls(ls), peer)
  {
    if ls == [] {
      assert calls + [] == calls;
    } else {
      var before, l := ls[..|ls| - 1], ls[|ls| - 1];
      var s := Tunnel.Run(cfg, calls, before).value;
      TunnelMakesNoRequests(cfg, calls, before, peer);
      StepMakesNoRequests(cfg, s, l, peer);
      if l.OtherCall? {
        SameRequestsGrow(s.calls, calls + OthersCalls(before), l.call, peer);
        Associative(calls, OthersCalls(before), [l.call]);
      } else {
        assert OthersCalls(ls) == OthersCalls(before);
      }
    }
  }

  /** Over whole runs: at any state of any tunnel, every request of every peer is decided as if the
      tunnel had not read a single frame. */
  lemma TunnelNeverCostsRequests(e: Proxy.Engine, owner: Bytes, pkt: MeshPacket, opening: Tunnel.Opening,
                                 client: Stream, calls: seq<RateLimit.Call>, ls: seq<Tunnel.Label>, c: RateLimit.Call)
    requires COLON !in owner && COLON !in c.key
    requires Tunnel.Run(Tunnel.SessionConfig(e, owner, pkt, opening, client), calls, ls).Some?
    ensures var s := Tunnel.Run(Tunnel.SessionConfig(e, owner, pkt, opening, client), calls, ls).value;
            RateLimit.Decides(s.calls, c) <==> RateLimit.Decides(calls + OthersCalls(ls), c)
  {
    RateLimit.TunnelKeysAreDistinct(owner, pkt.target, c.key, []);
    TunnelMakesNoRequests(Tunnel.SessionConfig(e, owner, pkt, opening, client), calls, ls, c.key);
  }
}
