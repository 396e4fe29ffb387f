/** The WebSocket tunnel of `handle_ws_stream` (src/p2p_server.rs): the reader task, the bounded
    channel, the pump and the session that ends them, under every interleaving. */
module Tunnel {
  import opened ByteStrings
  import opened Utf8
  import opened Endian
  import opened Protocol
  import RateLimit
  import Proxy

  const CAPACITY: nat := 128

  datatype CloseFrame = CloseFrame(code: u16, reason: Str)

  /** A WebSocket message of the upstream connection. */
  datatype Msg =
    | MText(text: Str)
    | MBinary(data: Bytes)
    | MPing(data: Bytes)
    | MPong(data: Bytes)
    | MClose(frame: Option<CloseFrame>)
    | MRaw

  // ---------------------------------------------------------------- what is forwarded

  /** Codes that section 7.4.1 of RFC 6455 forbids in a Close frame. */
  predicate Reserved(code: u16) { code == 1005 || code == 1006 || code == 1015 }

  function SafeCode(code: u16): u16 { if Reserved(code) then 1000 else code }

  function Upward(f: WsFrame): Msg {
    match f
    case Text(t) => MText(t)
    case Binary(d) => MBinary(d)
    case Ping(d) => MPing(d)
    case Pong(d) => MPong(d)
    case Close(code, reason) => MClose(Some(CloseFrame(SafeCode(code), reason)))
  }

  predicate IsData(f: WsFrame) { f.Text? || f.Binary? }

  /** A frame the reader took, how many calls the limiter had served before, and whether it let the frame
      pass. Only data frames are asked about. */
  datatype Consumed = Consumed(frame: WsFrame, turn: nat, allowed: bool)

  predicate Passes(c: Consumed) { IsData(c.frame) ==> c.allowed }

  /** The messages that should go upstream for the frames taken so far. */
  function UpImage(cs: seq<Consumed>): seq<Msg> {
    if cs == [] then []
    else
      var c := cs[|cs| - 1];
      UpImage(cs[..|cs| - 1]) + if Passes(c) then [Upward(c.frame)] else []
  }

  function Frames(cs: seq<Consumed>): (fs: seq<WsFrame>)
    ensures |fs| == |cs|
  {
    seq(|cs|, i requires 0 <= i < |cs| => cs[i].frame)
  }

  /** The frame that goes to the client for a message from upstream, if any. */
  function Downward(m: Msg): Option<WsFrame> {
    match m
    case MText(t) => Some(Text(t))
    case MBinary(d) => Some(Binary(d))
    case MPing(d) => Some(Ping(d))
    case MPong(d) => Some(Pong(d))
    case MClose(Some(f)) => Some(Close(f.code, f.reason))
    case MClose(None) => Some(Close(1000, []))
    case MRaw => None
  }

  /** The two translations undo each other, except where a reserved code is replaced. */
  lemma TranslationsUndo(f: WsFrame)
    ensures Downward(Upward(f)) == Some(f) <==> !(f.Close? && f.code in {1005, 1006, 1015})
  {
  }

  /** The opcode of a message (section 5.2 of RFC 6455); raw frames have none. */
  function Opcode(m: Msg): byte {
    match m
    case MText(_) => 0x1
    case MBinary(_) => 0x2
    case MClose(_) => 0x8
    case MPing(_) => 0x9
    case MPong(_) => 0xA
    case MRaw => 0
  }

  /** The payload of a message; the payload of a Close is its code and its reason. */
  function Body(m: Msg): Bytes {
    match m
    case MText(t) => t
    case MBinary(d) => d
    case MPing(d) => d
    case MPong(d) => d
    case MClose(Some(f)) => BeBytes(f.code as nat, 2) + f.reason
    case MClose(None) => []
    case MRaw => []
  }

  /** Both ways a message keeps its opcode, which is the kind byte on the wire, and its payload; only the code of
      a Close can change, from a reserved one or none to 1000. The limiter is asked about opcodes 1 and 2. */
  lemma OpcodesKept(f: WsFrame, m: Msg)
    ensures Opcode(Upward(f)) == Encode(f)[0]
    ensures Body(Upward(f)) ==
            if f.Close? && f.code in {1005, 1006, 1015} then BeBytes(1000, 2) + f.reason else Payload(f)
    ensures Downward(m).None? <==> Opcode(m) == 0
    ensures Downward(m).Some? ==>
              Encode(Downward(m).value)[0] == Opcode(m) &&
              Payload(Downward(m).value) == if m == MClose(None) then BeBytes(1000, 2) else Body(m)
    ensures IsData(f) <==> Encode(f)[0] in {1, 2}
    ensures DataMsg(m) <==> Opcode(m) in {1, 2}
  {
    if m == MClose(None) {
      assert BeBytes(1000, 2) + [] == BeBytes(1000, 2);
    }
  }

  function DownImage(ms: seq<Msg>): seq<WsFrame> {
    if ms == [] then []
    else
      var f := Downward(ms[|ms| - 1]);
      DownImage(ms[..|ms| - 1]) + if f.Some? then [f.value] else []
  }

  // ---------------------------------------------------------------- the machine

  /** How the session opens: refused with a Close, refused silently because the upstream's URL makes no
      request, or connected and acknowledged. The texts are free. */
  datatype Opening =
    | NoUpstreamUrl(reason: Str)
    | BadUpstreamUrl
    | ConnectFailed(reason: Str)
    | ConnectTimeout(reason: Str)
    | Connected(ack: Str)

  /** What the client is told first. */
  function Greeting(o: Opening): seq<WsFrame> {
    match o
    case Connected(ack) => [Text(ack)]
    case NoUpstreamUrl(reason) => [Close(1011, reason)]
    case BadUpstreamUrl => []
    case ConnectFailed(reason) => [Close(1011, reason)]
    case ConnectTimeout(reason) => [Close(1011, reason)]
  }

  /** What is fixed for a session: the limiter key and rate of its messages, how it opens, and all the
      client will ever send. */
  datatype Config = Config(key: Bytes, rate: nat, opening: Opening, client: Stream)

  /** The session of an admitted tunnel request. */
  function SessionConfig(e: Proxy.Engine, peer: Bytes, pkt: MeshPacket, opening: Opening, client: Stream): Config {
    Config(RateLimit.TunnelKey(peer, pkt.target), Proxy.WsMsgRateFor(e, pkt.target), opening, client)
  }

  datatype ReaderState = NotSpawned | Reading | Sending(msg: Msg) | Stopped

  /** `Writing` is a `write_all` in progress; `last` breaks the loop after it, `essential` on its failure. */
  datatype PumpState = Selecting | Delivering(msg: Msg) | Writing(pending: Bytes, last: bool, essential: bool) | Dead

  datatype Phase = OpeningPhase | Running | Winding | Detached | Over

  datatype State = State(
    phase: Phase,
    input: Stream,
    consumed: seq<Consumed>,
    calls: seq<RateLimit.Call>,
    reader: ReaderState,
    channel: seq<Msg>,
    pump: PumpState,
    delivered: seq<Msg>,
    dropped: seq<Msg>,
    received: seq<Msg>,
    wire: Bytes,
    wireBroken: bool)

  /** One atomic step of one of the tasks, of the session, or of another user of the limiter. */
  datatype Label =
    | ReadOne(now: real)
    | Enqueue
    | SendTimeout
    | SendClosed
    | TakeUp
    | Deliver
    | SinkFails(arrived: bool)
    | FromUpstream(msg: Msg)
    | UpstreamGone
    | WriteSome(k: nat)
    | WriteDone
    | WriteFails
    | SessionEnds
    | DayPasses
    | AbortReader
    | AbortPump(arrived: bool)
    | OtherCall(call: RateLimit.Call)

  function Init(cfg: Config, calls: seq<RateLimit.Call>): State {
    var (phase, pump) :=
      if cfg.opening.BadUpstreamUrl? then (Over, Dead)
      else (OpeningPhase, Writing(EncodeAll(Greeting(cfg.opening)), !cfg.opening.Connected?, true));
    State(phase, cfg.client, [], calls, NotSpawned, [], pump, [], [], [], [], false)
  }

  function Held(p: PumpState): seq<Msg> { if p.Delivering? then [p.msg] else [] }

  function Blocked(r: ReaderState): seq<Msg> { if r.Sending? then [r.msg] else [] }

  function Pending(p: PumpState): Bytes { if p.Writing? then p.pending else [] }

  /** The pump's end drops the receiving half of the channel with everything in it. */
  function EndPump(s: State, lost: seq<Msg>): State {
    s.(pump := Dead, channel := [], dropped := lost + s.channel + s.dropped)
  }

  ghost function Read(cfg: Config, s: State, now: real): State {
    match Decode(s.input)
    case Frame(f, rest) =>
      var call := RateLimit.Call(cfg.key, cfg.rate, now);
      var c := Consumed(f, |s.calls|, IsData(f) && RateLimit.Decides(s.calls, call));
      s.(input := Stream(rest, s.input.end),
         consumed := s.consumed + [c],
         calls := if IsData(f) then s.calls + [call] else s.calls,
         reader := if Passes(c) then Sending(Upward(f)) else Reading)
    case _ => s.(reader := Stopped)
  }

  ghost function Apply(cfg: Config, s: State, l: Label): Option<State> {
    match l
    case ReadOne(now) =>
      if s.reader != Reading then None else Some(Read(cfg, s, now))
    case Enqueue =>
      if !s.reader.Sending? || s.pump.Dead? || |s.channel| >= CAPACITY then None
      else Some(s.(channel := s.channel + [s.reader.msg], reader := if s.reader.msg.MClose? then Stopped else Reading))
    case SendTimeout =>
      if !s.reader.Sending? || !(s.reader.msg.MText? || s.reader.msg.MBinary?) then None
      else Some(s.(dropped := s.dropped + [s.reader.msg], reader := Stopped))
    case SendClosed =>
      if !s.reader.Sending? || !s.pump.Dead? then None
      else Some(s.(dropped := s.dropped + [s.reader.msg],
                   reader := if s.reader.msg.MPing? || s.reader.msg.MPong? then Reading else Stopped))
    case TakeUp =>
      if !s.pump.Selecting? || s.channel == [] then None
      else Some(s.(pump := Delivering(s.channel[0]), channel := s.channel[1..]))
    case Deliver =>
      if !s.pump.Delivering? then None
      else Some(s.(delivered := s.delivered + [s.pump.msg], pump := Selecting))
    case SinkFails(arrived) =>
      if !s.pump.Delivering? then None
      else if arrived then Some(EndPump(s.(delivered := s.delivered + [s.pump.msg]), []))
      else Some(EndPump(s, [s.pump.msg]))
    case FromUpstream(m) =>
      if !s.pump.Selecting? then None
      else
        var f := Downward(m);
        Some(s.(received := s.received + [m],
                pump := if f.Some? then Writing(Encode(f.value), m.MClose?, m.MText? || m.MBinary?) else Selecting))
    case UpstreamGone =>
      if !s.pump.Selecting? then None else Some(EndPump(s, []))
    case WriteSome(k) =>
      if !s.pump.Writing? || s.wireBroken || k > |s.pump.pending| then None
      else Some(s.(wire := s.wire + s.pump.pending[..k], pump := s.pump.(pending := s.pump.pending[k..])))
    case WriteDone =>
      if !s.pump.Writing? || s.pump.pending != [] then None
      else if s.phase == OpeningPhase then
        if s.pump.last then Some(EndPump(s, []).(phase := Over))
        else Some(s.(phase := Running, pump := Selecting, reader := Reading))
      else if s.pump.last then Some(EndPump(s, []))
      else Some(s.(pump := Selecting))
    case WriteFails =>
      if !s.pump.Writing? || s.pump.pending == [] then None
      else
        var t := s.(wireBroken := true);
        if s.phase == OpeningPhase then Some(EndPump(t, []).(phase := Over))
        else if s.pump.last || s.pump.essential then Some(EndPump(t, []))
        else Some(t.(pump := Selecting))
    case SessionEnds =>
      if s.phase != Running || !(s.reader.Stopped? || s.pump.Dead?) then None else Some(s.(phase := Winding))
    case DayPasses =>
      if s.phase != Running then None else Some(s.(phase := Detached))
    case AbortReader =>
      if s.phase != Winding then None
      else Some(s.(reader := Stopped, dropped := s.dropped + Blocked(s.reader)))
    case AbortPump(arrived) =>
      if s.phase != Winding || s.pump.Dead? then None
      else if arrived then Some(EndPump(s.(delivered := s.delivered + Held(s.pump)), []))
      else Some(EndPump(s, Held(s.pump)))
    case OtherCall(call) => Some(s.(calls := s.calls + [call]))
  }

  /** Any finite run from the start; None when some step was not enabled. */
  ghost function Run(cfg: Config, calls: seq<RateLimit.Call>, ls: seq<Label>): Option<State> {
    if ls == [] then Some(Init(cfg, calls))
    else
      match Run(cfg, calls, ls[..|ls| - 1])
      case Some(s) => Apply(cfg, s, ls[|ls| - 1])
      case None => None
  }

  // ---------------------------------------------------------------- the uplink

  /** Conservation: what should go upstream is, in order, what upstream has, what the pump holds, what
      is queued, what was given up, and what the reader is blocked on. */
  ghost predicate Conserved(s: State) {
    UpImage(s.consumed) == s.delivered + Held(s.pump) + s.channel + s.dropped + Blocked(s.reader)
  }

  ghost predicate UplinkInv(s: State) {
    && Conserved(s)
    && |s.channel| <= CAPACITY
    && (s.pump.Dead? ==> s.channel == [])
    && (!s.pump.Dead? ==> |s.dropped| <= 1 && forall m | m in s.dropped :: DataMsg(m))
    && (!s.pump.Dead? && !s.reader.Stopped? ==> s.dropped == [])
    && (s.reader.NotSpawned? ==> s.consumed == [])
    && (s.phase == OpeningPhase ==> s.reader.NotSpawned?)
    && (s.phase == Winding ==> s.reader.Stopped? || s.pump.Dead?)
  }

  /** Each frame taken adds its translation to the image, unless it is a data frame that was refused. */
  lemma UpImageAppend(cs: seq<Consumed>, c: Consumed)
    ensures UpImage([]) == []
    ensures UpImage(cs + [c]) == UpImage(cs) + if IsData(c.frame) && !c.allowed then [] else [Upward(c.frame)]
  {
    assert (cs + [c])[..|cs|] == cs;
  }

  lemma ReadKeepsUplink(cfg: Config, s: State, now: real)
    requires UplinkInv(s) && s.reader == Reading
    ensures UplinkInv(Read(cfg, s, now))
  {
    var t := Read(cfg, s, now);
    if Decode(s.input).Frame? {
      UpImageAppend(s.consumed, t.consumed[|s.consumed|]);
    }
  }

  predicate OfReader(l: Label) {
    l.ReadOne? || l.Enqueue? || l.SendTimeout? || l.SendClosed? || l.AbortReader?
  }

  lemma Append<T>(d: seq<T>, h: seq<T>, c: seq<T>, x: seq<T>, b: seq<T>)
    ensures d + h + c + [] + b == d + h + (c + b) + [] + []
    ensures d + h + c + x + b == d + h + c + (x + b) + []
  {
  }

  lemma ReaderKeepsUplink(cfg: Config, s: State, l: Label)
    requires UplinkInv(s) && OfReader(l) && Apply(cfg, s, l).Some?
    ensures UplinkInv(Apply(cfg, s, l).value)
  {
    if l.ReadOne? {
      ReadKeepsUplink(cfg, s, l.now);
    } else {
      Append(s.delivered, Held(s.pump), s.channel, s.dropped, Blocked(s.reader));
      assert Conserved(Apply(cfg, s, l).value);
    }
  }

  lemma Regroup<T>(d: seq<T>, h: seq<T>, c: seq<T>, x: seq<T>, b: seq<T>)
    ensures d + h + c + x + b == d + [] + [] + (h + c + x) + b
    ensures d + h + c + x + b == (d + h) + [] + [] + ([] + c + x) + b
    ensures d + h + c + x + b == (d + h) + [] + c + x + b
  {
  }

  lemma TakeFirst<T>(d: seq<T>, c: seq<T>, x: seq<T>, b: seq<T>)
    requires c != []
    ensures d + [] + c + x + b == d + [c[0]] + c[1..] + x + b
  {
  }

  lemma EndKeepsUplink(s: State, arrived: bool)
    requires UplinkInv(s)
    ensures var t := if arrived then EndPump(s.(delivered := s.delivered + Held(s.pump)), [])
            else EndPump(s, Held(s.pump));
            UplinkInv(t) && UplinkInv(t.(phase := Over)) && UplinkInv(t.(wireBroken := true)) &&
                UplinkInv(t.(wireBroken := true, phase := Over))
  {
    Regroup(s.delivered, Held(s.pump), s.channel, s.dropped, Blocked(s.reader));
  }

  lemma SinkKeepsUplink(cfg: Config, s: State, l: Label)
    requires UplinkInv(s) && (l.TakeUp? || l.Deliver? || l.SinkFails?) && Apply(cfg, s, l).Some?
    ensures UplinkInv(Apply(cfg, s, l).value)
  {
    match l
    case TakeUp => TakeFirst(s.delivered, s.channel, s.dropped, Blocked(s.reader));
    case Deliver => Regroup(s.delivered, Held(s.pump), s.channel, s.dropped, Blocked(s.reader));
    case SinkFails(arrived) => EndKeepsUplink(s, arrived);
  }

  lemma WriteDoneKeepsUplink(cfg: Config, s: State)
    requires UplinkInv(s) && Apply(cfg, s, WriteDone).Some?
    ensures UplinkInv(Apply(cfg, s, WriteDone).value)
  {
    EndKeepsUplink(s, false);
  }

  lemma WriteFailsKeepsUplink(cfg: Config, s: State)
    requires UplinkInv(s) && Apply(cfg, s, WriteFails).Some?
    ensures UplinkInv(Apply(cfg, s, WriteFails).value)
  {
    EndKeepsUplink(s, false);
  }

  lemma GoneKeepsUplink(cfg: Config, s: State)
    requires UplinkInv(s) && Apply(cfg, s, UpstreamGone).Some?
    ensures UplinkInv(Apply(cfg, s, UpstreamGone).value)
  {
    EndKeepsUplink(s, false);
  }

  lemma AbortKeepsUplink(cfg: Config, s: State, arrived: bool)
    requires UplinkInv(s) && Apply(cfg, s, AbortPump(arrived)).Some?
    ensures UplinkInv(Apply(cfg, s, AbortPump(arrived)).value)
  {
    EndKeepsUplink(s, arrived);
  }

  lemma OthersKeepUplink(cfg: Config, s: State, l: Label)
    requires UplinkInv(s) && Apply(cfg, s, l).Some?
    requires l.FromUpstream? || l.WriteSome? || l.SessionEnds? || l.DayPasses? || l.OtherCall?
    ensures UplinkInv(Apply(cfg, s, l).value)
  {
    var t := Apply(cfg, s, l).value;
    assert Held(t.pump) == Held(s.pump) && t.channel == s.channel && t.dropped == s.dropped && t.reader == s.reader;
  }

  lemma StepKeepsUplink(cfg: Config, s: State, l: Label)
    requires UplinkInv(s) && Apply(cfg, s, l).Some?
    ensures UplinkInv(Apply(cfg, s, l).value)
  {
    if OfReader(l) {
      ReaderKeepsUplink(cfg, s, l);
    } else {
      match l
      case UpstreamGone => GoneKeepsUplink(cfg, s);
      case WriteDone => WriteDoneKeepsUplink(cfg, s);
      case WriteFails => WriteFailsKeepsUplink(cfg, s);
      case AbortPump(arrived) => AbortKeepsUplink(cfg, s, arrived);
      case _ =>
        if l.TakeUp? || l.Deliver? || l.SinkFails? {
          SinkKeepsUplink(cfg, s, l);
        } else {
          OthersKeepUplink(cfg, s, l);
        }
    }
  }

  /** Nothing follows a Close: it is the last frame the reader takes. */
  ghost predicate CloseIsLast(s: State) {
    forall i | 0 <= i < |s.consumed| && s.consumed[i].frame.Close? ::
      i == |s.consumed| - 1 && (s.reader.Stopped? || (s.reader.Sending? && s.reader.msg.MClose?))
  }

  lemma ReadKeepsCloseLast(cfg: Config, s: State, now: real)
    requires CloseIsLast(s) && s.reader == Reading
    ensures CloseIsLast(Read(cfg, s, now))
  {
    assert forall i | 0 <= i < |s.consumed| :: !s.consumed[i].frame.Close?;
  }

  lemma StepKeepsCloseLast(cfg: Config, s: State, l: Label)
    requires CloseIsLast(s) && (s.reader.NotSpawned? ==> s.consumed == []) && Apply(cfg, s, l).Some?
    requires s.phase == OpeningPhase ==> s.reader.NotSpawned?
    ensures CloseIsLast(Apply(cfg, s, l).value)
  {
    if l.ReadOne? {
      ReadKeepsCloseLast(cfg, s, l.now);
    } else {
      assert Apply(cfg, s, l).value.consumed == s.consumed;
    }
  }

  /** The frames taken and the frames still to come are the frames of the client's stream. */
  ghost predicate ReadsClient(cfg: Config, s: State) {
    DecodeAll(cfg.client) == Prepend(Frames(s.consumed), DecodeAll(s.input))
  }

  lemma ReadKeepsReads(cfg: Config, s: State, now: real)
    requires ReadsClient(cfg, s) && Decode(s.input).Frame?
    ensures ReadsClient(cfg, Read(cfg, s, now))
  {
    var t := Read(cfg, s, now);
    var f, later := Decode(s.input).frame, DecodeAll(t.input);
    assert DecodeAll(s.input) == Prepend([f], later);
    assert Frames(t.consumed) == Frames(s.consumed) + [f];
    Associative(Frames(s.consumed), [f], later.0);
  }

  lemma StepKeepsReads(cfg: Config, s: State, l: Label)
    requires ReadsClient(cfg, s) && Apply(cfg, s, l).Some?
    ensures ReadsClient(cfg, Apply(cfg, s, l).value)
  {
    var t := Apply(cfg, s, l).value;
    if l.ReadOne? && Decode(s.input).Frame? {
      ReadKeepsReads(cfg, s, l.now);
    } else {
      assert t.input == s.input && t.consumed == s.consumed;
    }
  }

  // ---------------------------------------------------------------- what the limiter refused

  /** Each data frame asked the limiter once, in its turn, under the session's key and rate, and it passes
      exactly if the limiter's policy admits this call after all calls before it. */
  ghost predicate JudgedByLimiter(cfg: Config, calls: seq<RateLimit.Call>, s: State) {
    && calls <= s.calls
    && (forall i | 0 <= i < |s.consumed| && IsData(s.consumed[i].frame) ::
          && |calls| <= s.consumed[i].turn < |s.calls|
          && s.calls[s.consumed[i].turn].key == cfg.key && s.calls[s.consumed[i].turn].rate == cfg.rate
          && (s.consumed[i].allowed <==>
              RateLimit.Decides(s.calls[..s.consumed[i].turn], s.calls[s.consumed[i].turn])))
    && (forall i, j | 0 <= i < j < |s.consumed| && IsData(s.consumed[i].frame) && IsData(s.consumed[j].frame) ::
          s.consumed[i].turn < s.consumed[j].turn)
  }

  lemma LaterCallsKeepJudgement(cfg: Config, calls: seq<RateLimit.Call>, s: State, t: State, c: RateLimit.Call)
    requires JudgedByLimiter(cfg, calls, s)
    requires t.consumed == s.consumed && t.calls == s.calls + [c]
    ensures JudgedByLimiter(cfg, calls, t)
  {
    forall n | 0 <= n < |s.calls|
      ensures t.calls[..n] == s.calls[..n] && t.calls[n] == s.calls[n]
    {
    }
  }

  lemma ReadKeepsJudgement(cfg: Config, calls: seq<RateLimit.Call>, s: State, now: real)
    requires JudgedByLimiter(cfg, calls, s)
    ensures JudgedByLimiter(cfg, calls, Read(cfg, s, now))
  {
    var t := Read(cfg, s, now);
    if Decode(s.input).Frame? && IsData(Decode(s.input).frame) {
      var call := RateLimit.Call(cfg.key, cfg.rate, now);
      LaterCallsKeepJudgement(cfg, calls, s, s.(calls := s.calls + [call]), call);
      assert t.calls[..|s.calls|] == s.calls;
    }
  }

  lemma StepKeepsJudgement(cfg: Config, calls: seq<RateLimit.Call>, s: State, l: Label)
    requires JudgedByLimiter(cfg, calls, s) && Apply(cfg, s, l).Some?
    ensures JudgedByLimiter(cfg, calls, Apply(cfg, s, l).value)
  {
    match l
    case ReadOne(now) => ReadKeepsJudgement(cfg, calls, s, now);
    case OtherCall(call) => LaterCallsKeepJudgement(cfg, calls, s, Apply(cfg, s, l).value, call);
    case _ =>
      var t := Apply(cfg, s, l).value;
      assert t.consumed == s.consumed && t.calls == s.calls;
  }

  // ---------------------------------------------------------------- the downlink

  /** The frames for the client: how the session opens, then the images of the messages from upstream. */
  function Outgoing(cfg: Config, received: seq<Msg>): seq<WsFrame> {
    Greeting(cfg.opening) + DownImage(received)
  }

  predicate StaysRefused(s: State) {
    && s.received == []
    && s.reader.NotSpawned?
    && ((s.phase == OpeningPhase && s.pump.Writing? && s.pump.last) || (s.phase == Over && s.pump.Dead?))
  }

  /** The client's stream carries a prefix of the opening frame and the images of the messages taken
      from upstream; while nothing failed, only the frame being written is missing. */
  ghost predicate Carries(s: State, expected: Bytes) {
    && s.wire <= expected
    && (!s.wireBroken && !s.pump.Dead? ==> s.wire + Pending(s.pump) == expected)
  }

  ghost predicate WireInv(cfg: Config, s: State) {
    Carries(s, EncodeAll(Outgoing(cfg, s.received)))
  }

  /** Where the session stands, and that nothing is taken from upstream after its Close. */
  ghost predicate StageInv(cfg: Config, s: State) {
    && (s.phase == OpeningPhase ==> s.received == [] && s.pump.Writing?)
    && (s.phase == Over ==> s.reader.NotSpawned? && s.pump.Dead?)
    && (!cfg.opening.Connected? ==> StaysRefused(s))
    && (forall i | 0 <= i < |s.received| && s.received[i].MClose? ::
          i == |s.received| - 1 && (s.pump.Dead? || (s.pump.Writing? && s.pump.last)))
    && (s.phase != OpeningPhase && s.pump.Writing? ==>
          s.received != [] && s.pump.last == s.received[|s.received| - 1].MClose? &&
          s.pump.essential == DataMsg(s.received[|s.received| - 1]))
  }

  /** Once the session is open, or was refused with a write that did not fail, the greeting is on the wire. */
  ghost predicate Greeted(cfg: Config, s: State) {
    && (s.phase == OpeningPhase ==> !s.wireBroken)
    && (s.phase != OpeningPhase && (s.phase != Over || !s.wireBroken) ==> EncodeAll(Greeting(cfg.opening)) <= s.wire)
  }

  ghost predicate DownlinkInv(cfg: Config, s: State) {
    WireInv(cfg, s) && StageInv(cfg, s) && Greeted(cfg, s)
  }

  lemma EncodeAllAppend(fs: seq<WsFrame>, f: WsFrame)
    ensures EncodeAll(fs + [f]) == EncodeAll(fs) + Encode(f)
  {
    assert Encodings(fs + [f]) == Encodings(fs) + [Encode(f)];
    FlattenAppend(Encodings(fs), [Encode(f)]);
    assert Flatten([Encode(f)]) == Encode(f) + Flatten([]);
  }

  lemma EncodeOne(f: WsFrame)
    ensures EncodeAll([f]) == Encode(f)
  {
    EncodeAllAppend([], f);
    assert [] + [f] == [f] && EncodeAll([]) + Encode(f) == Encode(f);
  }

  lemma OutgoingGrows(cfg: Config, ms: seq<Msg>, m: Msg)
    ensures EncodeAll(Outgoing(cfg, ms + [m])) ==
            EncodeAll(Outgoing(cfg, ms)) + if Downward(m).Some? then Encode(Downward(m).value) else []
  {
    assert (ms + [m])[..|ms|] == ms;
    if Downward(m).Some? {
      var f := Downward(m).value;
      Associative(Greeting(cfg.opening), DownImage(ms), [f]);
      EncodeAllAppend(Outgoing(cfg, ms), f);
    } else {
      assert DownImage(ms + [m]) == DownImage(ms);
      assert EncodeAll(Outgoing(cfg, ms)) + [] == EncodeAll(Outgoing(cfg, ms));
    }
  }

  lemma ReceiveCarries(cfg: Config, s: State, m: Msg, before: Bytes, after: Bytes)
    requires Carries(s, before) && s.pump.Selecting?
    requires after == before + if Downward(m).Some? then Encode(Downward(m).value) else []
    ensures Carries(Apply(cfg, s, FromUpstream(m)).value, after)
  {
    assert s.wire <= before <= after;
    assert s.wire + [] == s.wire;
  }

  lemma WriteSomeCarries(cfg: Config, s: State, k: nat, expected: Bytes)
    requires Carries(s, expected) && Apply(cfg, s, WriteSome(k)).Some?
    ensures Carries(Apply(cfg, s, WriteSome(k)).value, expected)
  {
    var p := s.pump.pending;
    assert p == p[..k] + p[k..];
    Associative(s.wire, p[..k], p[k..]);
  }

  lemma StepCarries(cfg: Config, s: State, l: Label, expected: Bytes)
    requires Carries(s, expected) && !l.FromUpstream? && Apply(cfg, s, l).Some?
    ensures Carries(Apply(cfg, s, l).value, expected)
  {
    if l.WriteSome? {
      WriteSomeCarries(cfg, s, l.k, expected);
    } else {
      assert Apply(cfg, s, l).value.wire == s.wire;
    }
  }

  lemma StepReceives(cfg: Config, s: State, l: Label)
    requires Apply(cfg, s, l).Some?
    ensures Apply(cfg, s, l).value.received == if l.FromUpstream? then s.received + [l.msg] else s.received
  {
  }

  lemma WireFollows(cfg: Config, t: State, received: seq<Msg>, expected: Bytes)
    requires Carries(t, expected) && t.received == received
    requires expected == EncodeAll(Outgoing(cfg, received))
    ensures WireInv(cfg, t)
  {
  }

  lemma StepKeepsWire(cfg: Config, s: State, l: Label)
    requires WireInv(cfg, s) && Apply(cfg, s, l).Some?
    ensures WireInv(cfg, Apply(cfg, s, l).value)
  {
    var before := EncodeAll(Outgoing(cfg, s.received));
    StepReceives(cfg, s, l);
    if l.FromUpstream? {
      var after := EncodeAll(Outgoing(cfg, s.received + [l.msg]));
      OutgoingGrows(cfg, s.received, l.msg);
      ReceiveCarries(cfg, s, l.msg, before, after);
      WireFollows(cfg, Apply(cfg, s, l).value, s.received + [l.msg], after);
    } else {
      StepCarries(cfg, s, l, before);
      WireFollows(cfg, Apply(cfg, s, l).value, s.received, before);
    }
  }

  lemma StepKeepsWireBytes(cfg: Config, s: State, l: Label)
    requires Apply(cfg, s, l).Some?
    ensures s.wire <= Apply(cfg, s, l).value.wire
    ensures !l.WriteSome? ==> Apply(cfg, s, l).value.wire == s.wire
  {
  }

  lemma OpeningIsWritten(cfg: Config, s: State)
    requires DownlinkInv(cfg, s) && s.phase == OpeningPhase && Apply(cfg, s, WriteDone).Some?
    ensures EncodeAll(Greeting(cfg.opening)) == s.wire
  {
    assert Outgoing(cfg, []) == Greeting(cfg.opening);
    assert s.wire + [] == s.wire;
  }

  lemma StepLeavesOpening(cfg: Config, s: State, l: Label)
    requires Apply(cfg, s, l).Some?
    requires s.phase == OpeningPhase ==> s.pump.Writing?
    requires s.phase == Over ==> s.reader.NotSpawned? && s.pump.Dead?
    ensures var t := Apply(cfg, s, l).value;
            && (t.phase == OpeningPhase ==> s.phase == OpeningPhase && t.wireBroken == s.wireBroken)
            && (s.phase == OpeningPhase && t.phase != OpeningPhase ==>
                  l.WriteDone? || (l.WriteFails? && t.phase == Over && t.wireBroken))
            && (t.phase != OpeningPhase && (t.phase != Over || !t.wireBroken) && s.phase != OpeningPhase ==>
                  s.phase != Over || !s.wireBroken)
  {
  }

  lemma StepKeepsGreeted(cfg: Config, s: State, l: Label)
    requires DownlinkInv(cfg, s) && Apply(cfg, s, l).Some?
    ensures Greeted(cfg, Apply(cfg, s, l).value)
  {
    StepLeavesOpening(cfg, s, l);
    StepKeepsWireBytes(cfg, s, l);
    if s.phase == OpeningPhase && l.WriteDone? {
      OpeningIsWritten(cfg, s);
    }
  }

  lemma StepKeepsStage(cfg: Config, s: State, l: Label)
    requires StageInv(cfg, s) && Apply(cfg, s, l).Some?
    requires s.phase == OpeningPhase ==> s.reader.NotSpawned?
    ensures StageInv(cfg, Apply(cfg, s, l).value)
  {
    var t := Apply(cfg, s, l).value;
    assert l.FromUpstream? || t.received == s.received;
  }

  // ---------------------------------------------------------------- the message budget

  /** Data frames the limiter let pass. */
  function DataPassed(cs: seq<Consumed>): nat {
    if cs == [] then 0
    else
      var c := cs[|cs| - 1];
      DataPassed(cs[..|cs| - 1]) + if IsData(c.frame) && c.allowed then 1 else 0
  }

  /** The limiter's calls under the session's key, and how many there were before it. */
  function Own(cfg: Config, s: State): seq<RateLimit.Call> { RateLimit.Requests(s.calls, cfg.key) }

  /** Every data frame that passed spent a token of its own since the session began. */
  ghost predicate Paid(cfg: Config, before: nat, s: State) {
    cfg.rate > 0 ==>
      before <= |Own(cfg, s)| && DataPassed(s.consumed) <= RateLimit.Spent(Own(cfg, s), before, |Own(cfg, s)|)
  }

  lemma ReadKeepsPaid(cfg: Config, before: nat, s: State, now: real)
    requires Paid(cfg, before, s)
    ensures Paid(cfg, before, Read(cfg, s, now))
  {
    if cfg.rate > 0 && Decode(s.input).Frame? {
      RateLimit.OneMoreCall(s.calls, RateLimit.Call(cfg.key, cfg.rate, now), cfg.key, before);
      assert Read(cfg, s, now).consumed[..|s.consumed|] == s.consumed;
    }
  }

  lemma StepKeepsPaid(cfg: Config, before: nat, s: State, l: Label)
    requires Paid(cfg, before, s) && Apply(cfg, s, l).Some?
    ensures Paid(cfg, before, Apply(cfg, s, l).value)
  {
    match l
    case ReadOne(now) => ReadKeepsPaid(cfg, before, s, now);
    case OtherCall(call) =>
      if cfg.rate > 0 {
        RateLimit.OneMoreCall(s.calls, call, cfg.key, before);
      }
    case _ =>
  }

  lemma StepCalls(cfg: Config, s: State, l: Label)
    requires Apply(cfg, s, l).Some? && !l.ReadOne?
    ensures Apply(cfg, s, l).value.calls == if l.OtherCall? then s.calls + [l.call] else s.calls
  {
  }

  // ---------------------------------------------------------------- all runs

  ghost predicate Inv(cfg: Config, calls: seq<RateLimit.Call>, s: State) {
    && UplinkInv(s) && CloseIsLast(s) && ReadsClient(cfg, s) && DownlinkInv(cfg, s)
    && JudgedByLimiter(cfg, calls, s) && Paid(cfg, |RateLimit.Requests(calls, cfg.key)|, s)
  }

  lemma InitInv(cfg: Config, calls: seq<RateLimit.Call>)
    ensures Inv(cfg, calls, Init(cfg, calls))
  {
    var s := Init(cfg, calls);
    assert Frames([]) + DecodeAll(cfg.client).0 == DecodeAll(cfg.client).0;
    assert Outgoing(cfg, s.received) == Greeting(cfg.opening);
  }

  lemma {:induction false} RunKeepsInv(cfg: Config, calls: seq<RateLimit.Call>, ls: seq<Label>)
    requires Run(cfg, calls, ls).Some?
    ensures Inv(cfg, calls, Run(cfg, calls, ls).value)
  {
    if ls == [] {
      InitInv(cfg, calls);
    } else {
      var before := |RateLimit.Requests(calls, cfg.key)|;
      RunKeepsInv(cfg, calls, ls[..|ls| - 1]);
      var s, l := Run(cfg, calls, ls[..|ls| - 1]).value, ls[|ls| - 1];
      StepKeepsUplink(cfg, s, l);
      StepKeepsCloseLast(cfg, s, l);
      StepKeepsReads(cfg, s, l);
      StepKeepsWire(cfg, s, l);
      StepKeepsStage(cfg, s, l);
      StepKeepsGreeted(cfg, s, l);
      StepKeepsJudgement(cfg, calls, s, l);
      StepKeepsPaid(cfg, before, s, l);
    }
  }

  /** Some interleaving leads here. */
  ghost predicate Reachable(cfg: Config, calls: seq<RateLimit.Call>, s: State) {
    exists ls :: Run(cfg, calls, ls) == Some(s)
  }

  lemma ReachableInv(cfg: Config, calls: seq<RateLimit.Call>, s: State)
    requires Reachable(cfg, calls, s)
    ensures Inv(cfg, calls, s)
  {
    var ls :| Run(cfg, calls, ls) == Some(s);
    RunKeepsInv(cfg, calls, ls);
  }

  /** Uplink safety, at every state of every run: upstream has a prefix of the image of the frames
      taken, those are a prefix of what the client sent up to its Close, only frames the limiter refused are
      not in the image, and the channel keeps its capacity. The image is, in order, what was delivered, what
      the pump holds, what is queued, what was given up, and what the reader is blocked on. While the pump
      lives at most one message was given up, a Text or Binary one, and none while the reader lives too. */
  lemma UpstreamGetsAPrefix(cfg: Config, calls: seq<RateLimit.Call>, s: State)
    requires Reachable(cfg, calls, s)
    ensures && s.delivered <= UpImage(s.consumed)
            && Frames(s.consumed) <= UntilClose(DecodeAll(cfg.client).0) <= DecodeAll(cfg.client).0
            && JudgedByLimiter(cfg, calls, s)
            && |s.channel| <= 128
            && UpImage(s.consumed) == s.delivered + Held(s.pump) + s.channel + s.dropped + Blocked(s.reader)
            && (!s.pump.Dead? ==> |s.dropped| <= 1 && forall m | m in s.dropped :: DataMsg(m))
            && (!s.pump.Dead? && !s.reader.Stopped? ==> s.dropped == [])
  {
    ReachableInv(cfg, calls, s);
    PrefixOfLedger(s.delivered, Held(s.pump), s.channel, s.dropped, Blocked(s.reader));
    TakenUntilClose(cfg, s);
    UntilCloseIsPrefix(DecodeAll(cfg.client).0);
  }

  lemma PrefixOfLedger<T>(d: seq<T>, h: seq<T>, c: seq<T>, x: seq<T>, b: seq<T>)
    ensures d <= d + h + c + x + b
  {
  }

  // ---------------------------------------------------------------- what is missing upstream

  /** The frames up to the first Close, which is the last one a reader takes. */
  function UntilClose(fs: seq<WsFrame>): seq<WsFrame> {
    if fs == [] then [] else [fs[0]] + if fs[0].Close? then [] else UntilClose(fs[1..])
  }

  lemma {:induction false} UntilCloseIsPrefix(fs: seq<WsFrame>)
    ensures UntilClose(fs) <= fs
  {
    if fs != [] {
      UntilCloseIsPrefix(fs[1..]);
      assert fs == [fs[0]] + fs[1..];
    }
  }

  predicate EndsWithClose(fs: seq<WsFrame>) { fs != [] && fs[|fs| - 1].Close? }

  lemma UntilCloseOfCons(f: WsFrame, fs: seq<WsFrame>)
    ensures UntilClose([f] + fs) == [f] + if f.Close? then [] else UntilClose(fs)
  {
    assert ([f] + fs)[1..] == fs;
  }

  lemma {:induction false} UntilCloseSplits(a: seq<WsFrame>, b: seq<WsFrame>)
    requires forall i | 0 <= i < |a| && a[i].Close? :: i == |a| - 1
    ensures UntilClose(a + b) == if EndsWithClose(a) then a else a + UntilClose(b)
  {
    if a == [] {
      assert a + b == b;
    } else {
      var f, rest := a[0], a[1..];
      assert a == [f] + rest && a + b == [f] + (rest + b);
      UntilCloseOfCons(f, rest + b);
      if rest == [] {
        assert rest + b == b;
      } else {
        assert rest[|rest| - 1] == a[|a| - 1];
        UntilCloseSplits(rest, b);
        Associative([f], rest, UntilClose(b));
      }
    }
  }

  /** The reader never goes beyond the client's first Close. */
  lemma TakenUntilClose(cfg: Config, s: State)
    requires ReadsClient(cfg, s) && CloseIsLast(s)
    ensures Frames(s.consumed) <= UntilClose(DecodeAll(cfg.client).0)
    ensures Finished(s) ==> Frames(s.consumed) == UntilClose(DecodeAll(cfg.client).0)
  {
    var taken, left := Frames(s.consumed), DecodeAll(s.input).0;
    UntilCloseSplits(taken, left);
    if !Decode(s.input).Frame? {
      assert left == [] && taken + [] == taken;
    }
  }

  /** The reader has come to the end: of the stream, whichever way it stops, or to a Close. */
  ghost predicate Finished(s: State) {
    !Decode(s.input).Frame? || EndsWithClose(Frames(s.consumed))
  }

  /** A blocked reader is blocked on the frame it took last. */
  ghost predicate SendsLast(s: State) {
    s.reader.Sending? ==> s.consumed != [] && s.reader.msg == Upward(s.consumed[|s.consumed| - 1].frame)
  }

  lemma StepGivesUp(cfg: Config, s: State, l: Label)
    requires UplinkInv(s) && Apply(cfg, s, l).Some? && !Apply(cfg, s, l).value.pump.Dead?
    ensures !s.pump.Dead?
    ensures Apply(cfg, s, l).value.dropped != [] <==> s.dropped != [] || l.SendTimeout?
  {
  }

  lemma ReadFinishes(cfg: Config, s: State, now: real)
    ensures var t := Read(cfg, s, now);
            (s.reader == Reading ==> SendsLast(t)) && (t.reader.Stopped? ==> Finished(t))
  {
  }

  lemma StepFinishes(cfg: Config, s: State, l: Label)
    requires UplinkInv(s) && Apply(cfg, s, l).Some? && !Apply(cfg, s, l).value.pump.Dead?
    requires SendsLast(s) && (s.reader.Stopped? ==> Finished(s))
    ensures Apply(cfg, s, l).value.reader.Stopped? ==> Finished(Apply(cfg, s, l).value) || l.SendTimeout?
  {
    if l.ReadOne? {
      ReadFinishes(cfg, s, l.now);
    } else {
      var t := Apply(cfg, s, l).value;
      assert t.consumed == s.consumed && t.input == s.input;
    }
  }

  lemma StepSends(cfg: Config, s: State, l: Label)
    requires Apply(cfg, s, l).Some? && SendsLast(s)
    ensures SendsLast(Apply(cfg, s, l).value)
  {
    if !l.ReadOne? {
      assert Apply(cfg, s, l).value.consumed == s.consumed;
    }
  }

  /** What is missing while the pump lives, over whole runs. A message was given up exactly when a send timed
      out: otherwise all of the image is delivered, held, queued or in the reader's hands. And then a reader
      that has ended has taken all that the client sent up to its Close. Aborts need not be mentioned: by
      `UplinkInv` none meets a live reader while the pump lives. */
  ghost predicate Accounted(cfg: Config, calls: seq<RateLimit.Call>, ls: seq<Label>)
    requires Run(cfg, calls, ls).Some?
  {
    var s := Run(cfg, calls, ls).value;
    !s.pump.Dead? ==>
      && (UpImage(s.consumed) == s.delivered + Held(s.pump) + s.channel + Blocked(s.reader) <==> SendTimeout !in ls)
      && (s.reader.Stopped? && SendTimeout !in ls ==> Frames(s.consumed) == UntilClose(DecodeAll(cfg.client).0))
  }

  lemma {:induction false} RunAccounts(cfg: Config, calls: seq<RateLimit.Call>, ls: seq<Label>)
    requires Run(cfg, calls, ls).Some? && !Run(cfg, calls, ls).value.pump.Dead?
    ensures var s := Run(cfg, calls, ls).value;
            && (s.dropped != [] <==> SendTimeout in ls)
            && SendsLast(s)
            && (s.reader.Stopped? ==> Finished(s) || SendTimeout in ls)
  {
    if ls != [] {
      var before, l := ls[..|ls| - 1], ls[|ls| - 1];
      var s := Run(cfg, calls, before).value;
      assert ls == before + [l];
      assert UplinkInv(s) by { RunKeepsInv(cfg, calls, before); }
      StepGivesUp(cfg, s, l);
      RunAccounts(cfg, calls, before);
      StepSends(cfg, s, l);
      if SendTimeout !in before {
        StepFinishes(cfg, s, l);
      }
    }
  }

  lemma LedgerWithout<T>(d: seq<T>, h: seq<T>, c: seq<T>, x: seq<T>, b: seq<T>)
    ensures d + h + c + x + b == d + h + c + b <==> x == []
  {
    if x != [] {
      assert |d + h + c + x + b| > |d + h + c + b|;
    }
  }

  lemma NothingIsMissingIff(cfg: Config, calls: seq<RateLimit.Call>, ls: seq<Label>)
    requires Run(cfg, calls, ls).Some?
    ensures Accounted(cfg, calls, ls)
  {
    var s := Run(cfg, calls, ls).value;
    RunKeepsInv(cfg, calls, ls);
    if !s.pump.Dead? {
      RunAccounts(cfg, calls, ls);
      TakenUntilClose(cfg, s);
      LedgerWithout(s.delivered, Held(s.pump), s.channel, s.dropped, Blocked(s.reader));
    }
  }

  /** For a client that sent `fs`, cut off anywhere and in any way, upstream gets a prefix of the image
      of some first frames of `fs`, and while the pump lives it is known what is missing. */
  lemma UplinkEndToEnd(cfg: Config, calls: seq<RateLimit.Call>, ls: seq<Label>, fs: seq<WsFrame>, k: nat)
    requires Run(cfg, calls, ls).Some?
    requires forall f | f in fs :: Fits(f)
    requires k <= |EncodeAll(fs)| && cfg.client.bytes == EncodeAll(fs)[..k]
    ensures var s := Run(cfg, calls, ls).value;
            s.delivered <= UpImage(s.consumed) && Frames(s.consumed) <= UntilClose(fs) <= fs
    ensures JudgedByLimiter(cfg, calls, Run(cfg, calls, ls).value) && Accounted(cfg, calls, ls)
  {
    var s := Run(cfg, calls, ls).value;
    assert Reachable(cfg, calls, s);
    UpstreamGetsAPrefix(cfg, calls, s);
    NothingIsMissingIff(cfg, calls, ls);
    Truncation(fs, k, cfg.client.end);
    UntilCloseOfPrefix(DecodeAll(cfg.client).0, fs);
    UntilCloseIsPrefix(fs);
  }

  lemma {:induction false} UntilCloseOfPrefix(a: seq<WsFrame>, b: seq<WsFrame>)
    requires a <= b
    ensures UntilClose(a) <= UntilClose(b)
  {
    if a != [] {
      UntilCloseOfPrefix(a[1..], b[1..]);
    }
  }

  /** Back-pressure: while the pump lives, a reader with a message waits exactly when 128 messages are queued. */
  lemma ReaderWaitsIff(cfg: Config, calls: seq<RateLimit.Call>, s: State)
    requires Reachable(cfg, calls, s) && s.reader.Sending? && !s.pump.Dead?
    ensures Apply(cfg, s, Enqueue).None? <==> |s.channel| == 128
  {
    ReachableInv(cfg, calls, s);
  }

  /** The image of frames none of which is refused. */
  function Everything(cs: seq<Consumed>): (ms: seq<Msg>)
    ensures |ms| == |cs|
  {
    seq(|cs|, i requires 0 <= i < |cs| => Upward(cs[i].frame))
  }

  lemma {:induction false} ImageIsComplete(cs: seq<Consumed>)
    requires forall c | c in cs :: Passes(c)
    ensures UpImage(cs) == Everything(cs)
  {
    if cs != [] {
      ImageIsComplete(cs[..|cs| - 1]);
      assert cs[|cs| - 1] in cs;
    }
  }

  /** At rate 0 the limiter drops no frame. */
  lemma NoLimitDropsNothing(cfg: Config, calls: seq<RateLimit.Call>, s: State)
    requires Reachable(cfg, calls, s) && cfg.rate == 0
    ensures UpImage(s.consumed) == Everything(s.consumed)
  {
    ReachableInv(cfg, calls, s);
    ImageIsComplete(s.consumed);
  }

  /** Each call of the session comes at least 1/rate seconds after the one before under its key. */
  ghost predicate Spaced(cfg: Config, first: nat, calls: seq<RateLimit.Call>) {
    forall n | first <= n < |calls| && calls[n].key == cfg.key ::
      var h := RateLimit.Requests(calls[..n], cfg.key);
      h == [] || (calls[n].time - h[|h| - 1].time) * cfg.rate as real >= 1.0
  }

  lemma SpacedFramePasses(cfg: Config, calls: seq<RateLimit.Call>, s: State, i: nat)
    requires JudgedByLimiter(cfg, calls, s) && cfg.rate > 0
    requires Spaced(cfg, |calls|, s.calls) && i < |s.consumed|
    ensures Passes(s.consumed[i])
  {
    if IsData(s.consumed[i].frame) {
      var n := s.consumed[i].turn;
      RateLimit.WaitingIsEnough(s.calls[..n], s.calls[n]);
    }
  }

  /** A client that keeps the rate loses no frame to the limiter. */
  lemma SpacedFramesAllPass(cfg: Config, calls: seq<RateLimit.Call>, s: State)
    requires Reachable(cfg, calls, s) && cfg.rate > 0
    requires Spaced(cfg, |calls|, s.calls)
    ensures UpImage(s.consumed) == Everything(s.consumed)
  {
    ReachableInv(cfg, calls, s);
    forall i | 0 <= i < |s.consumed|
      ensures Passes(s.consumed[i])
    {
      SpacedFramePasses(cfg, calls, s, i);
    }
    ImageIsComplete(s.consumed);
  }

  lemma {:induction false} ImageMembers(cs: seq<Consumed>, m: Msg)
    requires m in UpImage(cs)
    ensures exists c | c in cs :: m == Upward(c.frame)
  {
    var last := cs[|cs| - 1];
    if m in UpImage(cs[..|cs| - 1]) {
      ImageMembers(cs[..|cs| - 1], m);
    } else {
      assert last in cs;
    }
  }

  /** No Close that reaches upstream has a reserved code, whatever bytes the client sent; other codes
      and all reasons arrive as they were read. */
  lemma NoReservedCloseUpstream(cfg: Config, calls: seq<RateLimit.Call>, s: State, m: Msg)
    requires Reachable(cfg, calls, s)
    requires m in s.delivered && m.MClose?
    ensures m.frame.Some? && m.frame.value.code !in {1005, 1006, 1015}
    ensures exists f | f in DecodeAll(cfg.client).0 :: f.Close? && f.reason == m.frame.value.reason &&
              m.frame.value.code == if f.code in {1005, 1006, 1015} then 1000 else f.code
  {
    assert s.delivered <= UpImage(s.consumed) && Frames(s.consumed) <= DecodeAll(cfg.client).0 by {
      UpstreamGetsAPrefix(cfg, calls, s);
    }
    var f := DeliveredFrame(s.consumed, DecodeAll(cfg.client).0, m);
    assert f.Close?;
  }

  lemma BareCloseIsRead(client: Stream, fs: seq<WsFrame>, payload: Bytes, rest: Bytes)
    requires (forall f | f in fs :: Fits(f) && !f.Close?) && |payload| <= 1
    requires client.bytes == EncodeAll(fs) + ([8, |payload| as byte, 0, 0, 0] + (payload + rest))
    ensures UntilClose(DecodeAll(client).0) == fs + [Close(1005, [])]
  {
    var tail := [8, |payload| as byte, 0, 0, 0] + (payload + rest);
    var behind := DecodeAll(Stream(rest, client.end)).0;
    ReadsThrough(fs, tail, client.end);
    BareCloseReadsAs1005(payload, rest, client.end);
    assert DecodeAll(Stream(tail, client.end)).0 == [Close(1005, [])] + behind;
    Associative(fs, [Close(1005, [])], behind);
    UntilCloseSplits(fs + [Close(1005, [])], behind);
  }

  /** A Close without a code: whatever frames come before it and whatever bytes behind it, the Close that upstream
      gets has code 1000 and an empty reason. */
  lemma BareCloseArrivesAs1000(cfg: Config, calls: seq<RateLimit.Call>, s: State, fs: seq<WsFrame>, payload: Bytes,
                               rest: Bytes, m: Msg)
    requires Reachable(cfg, calls, s) && m in s.delivered && m.MClose?
    requires (forall f | f in fs :: Fits(f) && !f.Close?) && |payload| <= 1
    requires cfg.client.bytes == EncodeAll(fs) + ([8, |payload| as byte, 0, 0, 0] + (payload + rest))
    ensures m == MClose(Some(CloseFrame(1000, [])))
  {
    BareCloseIsRead(cfg.client, fs, payload, rest);
    var sent := fs + [Close(1005, [])];
    assert s.delivered <= UpImage(s.consumed) && Frames(s.consumed) <= sent by {
      UpstreamGetsAPrefix(cfg, calls, s);
    }
    var f := DeliveredFrame(s.consumed, sent, m);
    assert f == sent[|fs|];
  }

  lemma DeliveredFrame(cs: seq<Consumed>, sent: seq<WsFrame>, m: Msg) returns (f: WsFrame)
    requires m in UpImage(cs) && Frames(cs) <= sent
    ensures f in sent && m == Upward(f)
  {
    ImageMembers(cs, m);
    var c :| c in cs && m == Upward(c.frame);
    var i :| 0 <= i < |cs| && cs[i] == c;
    f := c.frame;
    assert sent[i] == Frames(cs)[i] == f;
  }

  predicate DataMsg(m: Msg) { m.MText? || m.MBinary? }

  function ControlMsgs(ms: seq<Msg>): seq<Msg> {
    if ms == [] then []
    else
      var m := ms[|ms| - 1];
      ControlMsgs(ms[..|ms| - 1]) + if DataMsg(m) then [] else [m]
  }

  function ControlFrames(cs: seq<Consumed>): seq<Msg> {
    if cs == [] then []
    else
      var f := cs[|cs| - 1].frame;
      ControlFrames(cs[..|cs| - 1]) + if IsData(f) then [] else [Upward(f)]
  }

  /** The limiter never costs a Ping, a Pong or a Close: the control messages of the image are those of
      all frames taken. */
  lemma {:induction false} ControlFramesSurvive(cs: seq<Consumed>)
    ensures ControlMsgs(UpImage(cs)) == ControlFrames(cs)
  {
    if cs != [] {
      var before, c := cs[..|cs| - 1], cs[|cs| - 1];
      ControlFramesSurvive(before);
      if Passes(c) {
        assert UpImage(cs)[..|UpImage(before)|] == UpImage(before);
      } else {
        assert UpImage(cs) == UpImage(before);
      }
    }
  }

  lemma {:induction false} NoCloseInImage(cs: seq<Consumed>)
    requires forall c | c in cs :: !c.frame.Close?
    ensures forall m | m in UpImage(cs) :: !m.MClose?
  {
    if cs != [] {
      NoCloseInImage(cs[..|cs| - 1]);
      assert cs[|cs| - 1] in cs;
    }
  }

  lemma CloseEndsImage(s: State, i: nat)
    requires CloseIsLast(s)
    requires i < |UpImage(s.consumed)| && UpImage(s.consumed)[i].MClose?
    ensures i == |UpImage(s.consumed)| - 1
  {
    var cs := s.consumed;
    var before := cs[..|cs| - 1];
    forall c | c in before
      ensures !c.frame.Close?
    {
      var j :| 0 <= j < |before| && before[j] == c;
      assert cs[j] == c;
    }
    NoCloseInImage(before);
    assert forall j | 0 <= j < |UpImage(before)| ::
        UpImage(cs)[j] == UpImage(before)[j] && !UpImage(before)[j].MClose?;
  }

  /** Nothing is sent, queued or held behind a Close. */
  lemma NothingAfterClose(cfg: Config, calls: seq<RateLimit.Call>, s: State, i: nat)
    requires Reachable(cfg, calls, s)
    requires i < |UpImage(s.consumed)| && UpImage(s.consumed)[i].MClose?
    ensures i == |UpImage(s.consumed)| - 1
  {
    assert CloseIsLast(s) by { ReachableInv(cfg, calls, s); }
    CloseEndsImage(s, i);
  }

  /** The client's stream carries a prefix of the encoded frames for it; while the pump lives and the stream is
      not broken, only the bytes that are still being written are missing. */
  lemma WireIsPrefix(cfg: Config, calls: seq<RateLimit.Call>, s: State, k: nat)
    requires Reachable(cfg, calls, s) && k <= |s.wire|
    ensures k <= |EncodeAll(Outgoing(cfg, s.received))| && s.wire[..k] == EncodeAll(Outgoing(cfg, s.received))[..k]
    ensures !s.wireBroken && !s.pump.Dead? ==> s.wire + Pending(s.pump) == EncodeAll(Outgoing(cfg, s.received))
  {
    ReachableInv(cfg, calls, s);
  }

  /** Downlink safety, composed with the wire format: whatever part of its stream reaches the client,
      and however the stream stops, the client reads a prefix of the opening frame and the images of
      the upstream messages, in order, and then a clean end or a cut. */
  lemma ClientReadsAPrefix(cfg: Config, calls: seq<RateLimit.Call>, s: State, k: nat, end: End)
    requires Reachable(cfg, calls, s) && k <= |s.wire|
    requires forall f | f in Outgoing(cfg, s.received) :: Fits(f)
    ensures var (fs, ending) := DecodeAll(Stream(s.wire[..k], end));
            fs <= Outgoing(cfg, s.received) && (ending == CleanEnd || ending == Broken(CutError(end)))
  {
    WireIsPrefix(cfg, calls, s, k);
    Truncation(Outgoing(cfg, s.received), k, end);
  }

  lemma FirstFrameRead(f: WsFrame, wire: Bytes, images: seq<WsFrame>, end: End)
    requires Fits(f) && Encode(f) <= wire
    requires DecodeAll(Stream(wire, end)).0 <= [f] + images
    ensures var fs := DecodeAll(Stream(wire, end)).0;
            fs != [] && fs[0] == f && fs[1..] <= images
  {
    var tail := wire[|Encode(f)|..];
    assert wire == Encode(f) + tail;
    DecodeAllStep(f, tail, end);
  }

  /** A client that was connected reads the acknowledgement first, and behind it a prefix of the images of the
      messages from upstream. */
  lemma ClientReadsAckFirst(cfg: Config, calls: seq<RateLimit.Call>, s: State, ack: Str, end: End)
    requires Reachable(cfg, calls, s) && cfg.opening == Connected(ack)
    requires s.phase != OpeningPhase && (s.phase != Over || !s.wireBroken)
    requires |ack| <= 8_388_608 && forall f | f in DownImage(s.received) :: |Payload(f)| <= 8_388_608
    ensures var fs := DecodeAll(Stream(s.wire, end)).0;
            fs != [] && fs[0] == Text(ack) && fs[1..] <= DownImage(s.received)
  {
    assert EncodeAll(Greeting(cfg.opening)) <= s.wire by { ReachableInv(cfg, calls, s); }
    EncodeOne(Text(ack));
    assert s.wire[..|s.wire|] == s.wire;
    assert DecodeAll(Stream(s.wire, end)).0 <= [Text(ack)] + DownImage(s.received) by {
      AllFit(ack, DownImage(s.received));
      ClientReadsAPrefix(cfg, calls, s, |s.wire|, end);
    }
    FirstFrameRead(Text(ack), s.wire, DownImage(s.received), end);
  }

  lemma AllFit(ack: Str, images: seq<WsFrame>)
    requires |ack| <= 8_388_608 && forall f | f in images :: |Payload(f)| <= 8_388_608
    ensures forall f | f in [Text(ack)] + images :: Fits(f)
  {
  }

  /** When a write to the client fails the pump ends, unless it was passing on a Ping or a Pong. */
  lemma FailedWriteEndsPumpIff(cfg: Config, calls: seq<RateLimit.Call>, s: State)
    requires Reachable(cfg, calls, s) && s.phase != OpeningPhase && Apply(cfg, s, WriteFails).Some?
    ensures s.received != []
    ensures var last := s.received[|s.received| - 1];
            Apply(cfg, s, WriteFails).value.pump.Dead? <==> last.MClose? || last.MText? || last.MBinary?
  {
    assert StageInv(cfg, s) by { ReachableInv(cfg, calls, s); }
  }

  /** The other ways the pump ends: a failed send to upstream, and the end of the upstream connection. A reader
      whose pump has ended goes on over Ping and Pong and stops at anything else. */
  lemma WhatEndsTheTasks(cfg: Config, s: State, l: Label)
    requires Apply(cfg, s, l).Some?
    ensures l.SinkFails? || l.UpstreamGone? ==> Apply(cfg, s, l).value.pump.Dead?
    ensures l.SendClosed? ==>
              (Apply(cfg, s, l).value.reader.Stopped? <==> !(s.reader.msg.MPing? || s.reader.msg.MPong?))
    ensures l.SendTimeout? ==> Apply(cfg, s, l).value.reader.Stopped? && (s.reader.msg.MText? || s.reader.msg.MBinary?)
  {
  }

  /** A whole frame on the client's stream is read back, with everything before it, exactly when none
      of them is above the reader's limit; nothing checks that limit before writing. */
  lemma WholeFramesAreReadIff(cfg: Config, calls: seq<RateLimit.Call>, s: State, k: nat, end: End)
    requires Reachable(cfg, calls, s) && k <= |s.wire|
    ensures var whole := Outgoing(cfg, s.received)[..WholeChunks(Encodings(Outgoing(cfg, s.received)), k)];
            whole <= DecodeAll(Stream(s.wire[..k], end)).0 <==> forall f | f in whole :: Fits(f)
  {
    WireIsPrefix(cfg, calls, s, k);
    WholeFramesReadBackIff(Outgoing(cfg, s.received), k, end);
  }

  lemma {:induction false} NoCloseDown(ms: seq<Msg>)
    requires forall m | m in ms :: !m.MClose?
    ensures forall f | f in DownImage(ms) :: !f.Close?
  {
    if ms != [] {
      NoCloseDown(ms[..|ms| - 1]);
      assert ms[|ms| - 1] in ms;
    }
  }

  lemma CloseDownIsLast(ms: seq<Msg>, j: nat)
    requires forall i | 0 <= i < |ms| && ms[i].MClose? :: i == |ms| - 1
    requires j < |DownImage(ms)| && DownImage(ms)[j].Close?
    ensures j == |DownImage(ms)| - 1 && ms[|ms| - 1].MClose?
    ensures ms[|ms| - 1].frame.None? ==> DownImage(ms)[j] == Close(1000, [])
  {
    var before := ms[..|ms| - 1];
    forall m | m in before
      ensures !m.MClose?
    {
      var i :| 0 <= i < |before| && before[i] == m;
      assert ms[i] == m;
    }
    NoCloseDown(before);
    assert forall i | 0 <= i < |DownImage(before)| ::
        DownImage(ms)[i] == DownImage(before)[i] && !DownImage(before)[i].Close?;
  }

  lemma CloseIsLastOut(cfg: Config, s: State, i: nat)
    requires StageInv(cfg, s)
    requires i < |Outgoing(cfg, s.received)| && Outgoing(cfg, s.received)[i].Close?
    ensures i == |Outgoing(cfg, s.received)| - 1
    ensures cfg.opening.Connected? ==>
              s.received != [] &&
              var last := s.received[|s.received| - 1];
              last.MClose? && (last.frame.None? ==> Outgoing(cfg, s.received)[i] == Close(1000, []))
  {
    if cfg.opening.Connected? {
      assert Outgoing(cfg, s.received)[0] == Text(cfg.opening.ack);
      assert Outgoing(cfg, s.received)[i] == DownImage(s.received)[i - 1];
      CloseDownIsLast(s.received, i - 1);
    } else {
      assert Outgoing(cfg, s.received) == Greeting(cfg.opening);
    }
  }

  /** A Close is the last frame ever put on the client's stream, and a bare one carries code 1000. */
  lemma NothingAfterCloseDown(cfg: Config, calls: seq<RateLimit.Call>, s: State, i: nat)
    requires Reachable(cfg, calls, s)
    requires i < |Outgoing(cfg, s.received)| && Outgoing(cfg, s.received)[i].Close?
    ensures i == |Outgoing(cfg, s.received)| - 1
    ensures cfg.opening.Connected? ==>
              s.received != [] &&
              var last := s.received[|s.received| - 1];
              last.MClose? && (last.frame.None? ==> Outgoing(cfg, s.received)[i] == Close(1000, []))
  {
    assert StageInv(cfg, s) by { ReachableInv(cfg, calls, s); }
    CloseIsLastOut(cfg, s, i);
  }

  // ---------------------------------------------------------------- budget and refusal

  function DataMsgs(ms: seq<Msg>): nat {
    if ms == [] then 0
    else
      var m := ms[|ms| - 1];
      DataMsgs(ms[..|ms| - 1]) + if DataMsg(m) then 1 else 0
  }

  lemma {:induction false} DataOfPrefix(ms: seq<Msg>, k: nat)
    requires k <= |ms|
    ensures DataMsgs(ms[..k]) <= DataMsgs(ms)
    decreases |ms|
  {
    if k < |ms| {
      DataOfPrefix(ms[..|ms| - 1], k);
      assert ms[..|ms| - 1][..k] == ms[..k];
    } else {
      assert ms[..k] == ms;
    }
  }

  lemma {:induction false} DataOfImage(cs: seq<Consumed>)
    ensures DataMsgs(UpImage(cs)) == DataPassed(cs)
  {
    if cs != [] {
      var before, c := cs[..|cs| - 1], cs[|cs| - 1];
      DataOfImage(before);
      if Passes(c) {
        assert UpImage(cs)[..|UpImage(before)|] == UpImage(before);
      } else {
        assert UpImage(cs) == UpImage(before);
      }
    }
  }

  lemma DeliveredIsPaid(cfg: Config, calls: seq<RateLimit.Call>, s: State)
    requires cfg.rate > 0 && Reachable(cfg, calls, s)
    ensures var h, first := Own(cfg, s), |RateLimit.Requests(calls, cfg.key)|;
            first <= |h| && DataMsgs(s.delivered) <= RateLimit.Spent(h, first, |h|)
  {
    assert Conserved(s) && Paid(cfg, |RateLimit.Requests(calls, cfg.key)|, s) by { ReachableInv(cfg, calls, s); }
    DeliveredPassed(s);
  }

  /** Every data message that upstream has is a data frame that passed. */
  lemma DeliveredPassed(s: State)
    requires Conserved(s)
    ensures DataMsgs(s.delivered) <= DataPassed(s.consumed)
  {
    PrefixOfLedger(s.delivered, Held(s.pump), s.channel, s.dropped, Blocked(s.reader));
    DataOfImage(s.consumed);
    DataOfPrefix(UpImage(s.consumed), |s.delivered|);
    assert UpImage(s.consumed)[..|s.delivered|] == s.delivered;
  }

  /** The tunnel and the limiter together: upstream gets no more data messages in a session than the
      budget of the session's limiter calls. With clocks in order since its first one, and no call above a
      rate, that is what the rate allows from the first of these calls to the last. */
  lemma DeliveredWithinRate(cfg: Config, calls: seq<RateLimit.Call>, s: State)
    requires cfg.rate > 0 && Reachable(cfg, calls, s)
    ensures var h, first, n := Own(cfg, s), |RateLimit.Requests(calls, cfg.key)|, DataMsgs(s.delivered);
            RateLimit.WithinBudget(h, first, n)
  {
    DeliveredIsPaid(cfg, calls, s);
    RateLimit.PaidIsWithinBudget(Own(cfg, s), |RateLimit.Requests(calls, cfg.key)|, DataMsgs(s.delivered));
  }

  /** A refused session sends nothing upstream, and its client reads the Close or nothing. */
  lemma RefusedSessionOnlyCloses(cfg: Config, calls: seq<RateLimit.Call>, s: State)
    requires !cfg.opening.Connected? && Reachable(cfg, calls, s)
    ensures s.delivered == [] && s.consumed == []
    ensures if cfg.opening.BadUpstreamUrl? then s.wire == [] else s.wire <= Encode(Close(1011, cfg.opening.reason))
    ensures !cfg.opening.BadUpstreamUrl? && s.phase != OpeningPhase && !s.wireBroken ==>
              s.wire == Encode(Close(1011, cfg.opening.reason))
  {
    ReachableInv(cfg, calls, s);
    assert Outgoing(cfg, s.received) == Greeting(cfg.opening);
    if !cfg.opening.BadUpstreamUrl? {
      EncodeOne(Close(1011, cfg.opening.reason));
    }
    PrefixOfLedger(s.delivered, Held(s.pump), s.channel, s.dropped, Blocked(s.reader));
  }

  // ---------------------------------------------------------------- the machine does run

  lemma ReachStep(cfg: Config, calls: seq<RateLimit.Call>, s: State, l: Label)
    requires Reachable(cfg, calls, s) && Apply(cfg, s, l).Some?
    ensures Reachable(cfg, calls, Apply(cfg, s, l).value)
  {
    var ls :| Run(cfg, calls, ls) == Some(s);
    assert (ls + [l])[..|ls|] == ls;
    assert Run(cfg, calls, ls + [l]) == Apply(cfg, s, l);
  }

  lemma OpenedIsReachable(cfg: Config, calls: seq<RateLimit.Call>) returns (s: State)
    requires cfg.opening.Connected?
    ensures Reachable(cfg, calls, s)
    ensures s == Init(cfg, calls).(phase := Running, reader := Reading, pump := Selecting,
                                   wire := EncodeAll(Greeting(cfg.opening)))
  {
    s := Init(cfg, calls);
    assert Run(cfg, calls, []) == Some(s);
    var ack := EncodeAll(Greeting(cfg.opening));
    var write := WriteSome(|ack|);
    ReachStep(cfg, calls, s, write);
    s := Apply(cfg, s, write).value;
    assert s.pump.pending == [] && s.wire == ack;
    ReachStep(cfg, calls, s, WriteDone);
    s := Apply(cfg, s, WriteDone).value;
  }

  /** Connected, with nothing on the way. */
  ghost predicate Idle(s: State) {
    s.phase == Running && s.reader == Reading && s.pump.Selecting? && s.channel == []
  }

  lemma FrameCanBeRead(cfg: Config, calls: seq<RateLimit.Call>, s: State, now: real) returns (t: State)
    requires Reachable(cfg, calls, s) && s.reader == Reading
    ensures Reachable(cfg, calls, t) && t == Read(cfg, s, now)
  {
    ReachStep(cfg, calls, s, ReadOne(now));
    t := Apply(cfg, s, ReadOne(now)).value;
  }

  lemma MessageCanBeDelivered(cfg: Config, calls: seq<RateLimit.Call>, s: State) returns (t: State)
    requires Reachable(cfg, calls, s)
    requires s.reader.Sending? && s.pump.Selecting? && s.channel == []
    ensures Reachable(cfg, calls, t) && t.delivered == s.delivered + [s.reader.msg]
    ensures t.phase == s.phase && t.pump == Selecting && t.channel == []
    ensures t.reader == if s.reader.msg.MClose? then Stopped else Reading
    ensures t.input == s.input && t.consumed == s.consumed && t.dropped == s.dropped
  {
    var r := if s.reader.msg.MClose? then Stopped else Reading;
    var u := s.(channel := [s.reader.msg], reader := r);
    var v := u.(pump := Delivering(s.reader.msg), channel := []);
    QueueOne(cfg, s);
    ReachStep(cfg, calls, s, Enqueue);
    TakeOne(cfg, u);
    ReachStep(cfg, calls, u, TakeUp);
    t := v.(delivered := s.delivered + [s.reader.msg], pump := Selecting);
    ReachStep(cfg, calls, v, Deliver);
  }

  lemma QueueOne(cfg: Config, s: State)
    requires s.reader.Sending? && !s.pump.Dead? && s.channel == []
    ensures var r := if s.reader.msg.MClose? then Stopped else Reading;
            Apply(cfg, s, Enqueue) == Some(s.(channel := [s.reader.msg], reader := r))
  {
    assert s.channel + [s.reader.msg] == [s.reader.msg];
  }

  lemma TakeOne(cfg: Config, s: State)
    requires s.pump.Selecting? && |s.channel| == 1
    ensures Apply(cfg, s, TakeUp) == Some(s.(pump := Delivering(s.channel[0]), channel := []))
  {
    assert s.channel[1..] == [];
  }

  /** The first frame of any connected client does get through, if it is not a data frame the limiter refuses. */
  lemma FirstFrameCanGetThrough(cfg: Config, calls: seq<RateLimit.Call>, f: WsFrame, now: real) returns (s: State)
    requires cfg.opening.Connected? && Decode(cfg.client).Frame? && Decode(cfg.client).frame == f
    requires IsData(f) ==> RateLimit.Decides(calls, RateLimit.Call(cfg.key, cfg.rate, now))
    ensures Reachable(cfg, calls, s) && s.delivered == [Upward(f)]
  {
    s := OpenedIsReachable(cfg, calls);
    s := FrameCanBeRead(cfg, calls, s, now);
    s := MessageCanBeDelivered(cfg, calls, s);
  }

  /** One round of the reader and the pump: the next frame is refused, or read and delivered, or there is none. */
  lemma OneRound(cfg: Config, calls: seq<RateLimit.Call>, s: State, now: real) returns (t: State)
    requires Reachable(cfg, calls, s) && Idle(s)
    ensures Reachable(cfg, calls, t) && t.pump == Selecting && t.channel == [] && t.dropped == s.dropped
    ensures t.reader.Stopped? || (Idle(t) && |t.input.bytes| < |s.input.bytes|)
    ensures t.reader.Stopped? ==> Finished(t)
  {
    var u := FrameCanBeRead(cfg, calls, s, now);
    t := u;
    if u.reader.Sending? {
      t := MessageCanBeDelivered(cfg, calls, u);
    }
  }

  lemma {:induction false} RoundsToTheEnd(cfg: Config, calls: seq<RateLimit.Call>, s: State, now: real)
    returns (t: State)
    requires Reachable(cfg, calls, s) && Idle(s)
    ensures Reachable(cfg, calls, t) && t.pump == Selecting && t.channel == [] && t.dropped == s.dropped
    ensures t.reader.Stopped? && Finished(t)
    decreases |s.input.bytes|
  {
    t := OneRound(cfg, calls, s, now);
    if !t.reader.Stopped? {
      t := RoundsToTheEnd(cfg, calls, t, now);
    }
  }

  /** The safety results are not about an idle machine: whatever a connected client sends, some run takes all
      of it up to its Close and delivers all of the image. */
  lemma EverythingCanGetThrough(cfg: Config, calls: seq<RateLimit.Call>, now: real) returns (s: State)
    requires cfg.opening.Connected?
    ensures Reachable(cfg, calls, s)
    ensures Frames(s.consumed) == UntilClose(DecodeAll(cfg.client).0) && s.delivered == UpImage(s.consumed)
  {
    s := OpenedIsReachable(cfg, calls);
    s := RoundsToTheEnd(cfg, calls, s, now);
    assert ReadsClient(cfg, s) && CloseIsLast(s) && Conserved(s) by { ReachableInv(cfg, calls, s); }
    TakenUntilClose(cfg, s);
  }

  // ---------------------------------------------------------------- the downlink does run

  lemma CanStartWriting(cfg: Config, s: State, m: Msg)
    requires s.pump.Selecting? && Downward(m).Some?
    ensures Apply(cfg, s, FromUpstream(m)) ==
            Some(s.(received := s.received + [m],
                    pump := Writing(Encode(Downward(m).value), m.MClose?, m.MText? || m.MBinary?)))
  {
  }

  lemma CanWriteAll(cfg: Config, s: State)
    requires s.pump.Writing? && !s.wireBroken
    ensures Apply(cfg, s, WriteSome(|s.pump.pending|)) ==
            Some(s.(wire := s.wire + s.pump.pending, pump := s.pump.(pending := [])))
  {
    assert s.pump.pending[..|s.pump.pending|] == s.pump.pending;
    assert s.pump.pending[|s.pump.pending|..] == [];
  }

  /** A message from upstream can be passed on whole. */
  lemma MessageCanGoDown(cfg: Config, calls: seq<RateLimit.Call>, s: State, m: Msg) returns (t: State)
    requires Reachable(cfg, calls, s) && s.phase == Running && s.pump.Selecting? && !s.wireBroken
    ensures Reachable(cfg, calls, t) && t.phase == Running && !t.wireBroken
    ensures t.received == s.received + [m]
    ensures t.wire == s.wire + if Downward(m).Some? then Encode(Downward(m).value) else []
    ensures if m.MClose? then t.pump.Dead? else t.pump.Selecting?
  {
    if Downward(m).Some? {
      var bytes := Encode(Downward(m).value);
      var u := s.(received := s.received + [m], pump := Writing(bytes, m.MClose?, m.MText? || m.MBinary?));
      var v := u.(wire := s.wire + bytes, pump := u.pump.(pending := []));
      CanStartWriting(cfg, s, m);
      ReachStep(cfg, calls, s, FromUpstream(m));
      CanWriteAll(cfg, u);
      ReachStep(cfg, calls, u, WriteSome(|bytes|));
      t := if m.MClose? then EndPump(v, []) else v.(pump := Selecting);
      assert Apply(cfg, v, WriteDone) == Some(t);
      ReachStep(cfg, calls, v, WriteDone);
    } else {
      t := s.(received := s.received + [m]);
      assert Apply(cfg, s, FromUpstream(m)) == Some(t) && t.wire + [] == t.wire;
      ReachStep(cfg, calls, s, FromUpstream(m));
    }
  }

  /** Whatever upstream sends, up to a Close, some run puts the acknowledgement and all of its images on the
      client's stream. */
  lemma {:induction false} EverythingCanGoDown(cfg: Config, calls: seq<RateLimit.Call>, ack: Str, ms: seq<Msg>)
    returns (s: State)
    requires cfg.opening == Connected(ack)
    requires forall i | 0 <= i < |ms| && ms[i].MClose? :: i == |ms| - 1
    ensures Reachable(cfg, calls, s) && s.phase == Running && !s.wireBroken && s.received == ms
    ensures s.wire == Encode(Text(ack)) + EncodeAll(DownImage(ms))
    ensures ms == [] || !ms[|ms| - 1].MClose? ==> s.pump.Selecting?
  {
    if ms == [] {
      s := OpenedIsReachable(cfg, calls);
      EncodeOne(Text(ack));
      assert EncodeAll(DownImage(ms)) == [] && s.wire + [] == s.wire;
    } else {
      var before, m := ms[..|ms| - 1], ms[|ms| - 1];
      s := EverythingCanGoDown(cfg, calls, ack, before);
      s := MessageCanGoDown(cfg, calls, s, m);
      assert before + [m] == ms;
      ImagesGrow(ack, before, m);
    }
  }

  lemma ImagesGrow(ack: Str, ms: seq<Msg>, m: Msg)
    ensures Encode(Text(ack)) + EncodeAll(DownImage(ms + [m])) ==
            Encode(Text(ack)) + EncodeAll(DownImage(ms)) + if Downward(m).Some? then Encode(Downward(m).value) else []
  {
    assert (ms + [m])[..|ms|] == ms;
    if Downward(m).Some? {
      EncodeAllAppend(DownImage(ms), Downward(m).value);
    } else {
      assert DownImage(ms + [m]) == DownImage(ms);
    }
  }

  // ---------------------------------------------------------------- how sessions end

  /** When one task has ended by itself, the session can end the other. */
  lemma OneEndEndsBoth(cfg: Config, calls: seq<RateLimit.Call>, s: State) returns (t: State)
    requires Reachable(cfg, calls, s) && s.phase == Running && (s.reader.Stopped? || s.pump.Dead?)
    ensures Reachable(cfg, calls, t) && t.reader.Stopped? && t.pump.Dead?
    ensures t.delivered == s.delivered && t.consumed == s.consumed
  {
    var u := s.(phase := Winding);
    ReachStep(cfg, calls, s, SessionEnds);
    t := u.(reader := Stopped, dropped := u.dropped + Blocked(u.reader));
    assert Apply(cfg, u, AbortReader) == Some(t);
    ReachStep(cfg, calls, u, AbortReader);
    if !t.pump.Dead? {
      ReachStep(cfg, calls, t, AbortPump(false));
      t := Apply(cfg, t, AbortPump(false)).value;
    }
  }

  /** So a Close that the client sent may never reach upstream: the reader ends behind it, and the pump is aborted
      with the Close still in the queue. */
  lemma CloseCanBeLost(cfg: Config, calls: seq<RateLimit.Call>, now: real) returns (s: State)
    requires cfg.opening.Connected? && Decode(cfg.client).Frame? && Decode(cfg.client).frame.Close?
    ensures Reachable(cfg, calls, s) && Frames(s.consumed) == [Decode(cfg.client).frame]
    ensures s.delivered == [] && s.reader.Stopped? && s.pump.Dead?
  {
    var o := OpenedIsReachable(cfg, calls);
    var r := FrameCanBeRead(cfg, calls, o, now);
    QueueOne(cfg, r);
    ReachStep(cfg, calls, r, Enqueue);
    s := OneEndEndsBoth(cfg, calls, r.(channel := [r.reader.msg], reader := Stopped));
  }

  lemma StepStaysDetached(cfg: Config, s: State, l: Label)
    requires Apply(cfg, s, l).Some?
    ensures l.DayPasses? || s.phase == Detached ==> Apply(cfg, s, l).value.phase == Detached || s.phase == OpeningPhase
    ensures l.DayPasses? ==> Apply(cfg, s, l).value == s.(phase := Detached)
    ensures s.phase == Detached ==> !l.AbortReader? && !l.AbortPump? && !l.SessionEnds?
  {
  }

  /** The limit of a day only forgets the tasks: it changes nothing else, and none is aborted afterwards. */
  lemma {:induction false} DayForgetsTheTasks(cfg: Config, calls: seq<RateLimit.Call>, ls: seq<Label>)
    requires Run(cfg, calls, ls).Some? && DayPasses in ls
    ensures Run(cfg, calls, ls).value.phase == Detached
    ensures forall l: Label | l.AbortReader? || l.AbortPump? :: Apply(cfg, Run(cfg, calls, ls).value, l).None?
  {
    var before, l := ls[..|ls| - 1], ls[|ls| - 1];
    assert ls == before + [l];
    StepStaysDetached(cfg, Run(cfg, calls, before).value, l);
    if DayPasses in before {
      DayForgetsTheTasks(cfg, calls, before);
    }
  }
}
