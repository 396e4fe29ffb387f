/** Many streams on many connections at once: permits, request counters and live connections
    (`ApiProtocol::accept`, `Handler::handle_stream` and src/stats.rs) under every interleaving. */
module Admission {
  import opened ByteStrings
  import opened Protocol
  import opened Proxy
  import opened Relay
  import RateLimit
  import Stats

  const MAX_CONCURRENT_STREAMS_PER_CONN: nat := 16

  /** One accepted connection: its accept loop and the free permits of its semaphore. */
  datatype Conn = Conn(peer: Bytes, v1: bool, accepting: bool, permits: nat)

  /** What the limiter and the name table made of a packet; `limited` tells whether its rate was not 0. */
  datatype Verdict = Verdict(cls: Class, limited: bool)

  /** Where the task of one stream is. A parsed packet is in the total before it is judged, and judged
      before it is counted in its class. */
  datatype Stage =
    | Waiting
    | Parsing
    | Counted(pkt: MeshPacket)
    | Judged(verdict: Verdict)
    | Dispatched(verdict: Verdict)
    | Done(result: Option<Verdict>)

  datatype Task = Task(conn: nat, peer: Bytes, stage: Stage)

  datatype State = State(
    conns: seq<Conn>,
    tasks: seq<Task>,
    calls: seq<RateLimit.Call>,
    total: nat,
    proxied: nat,
    relayed: nat,
    rejected: nat,
    active: int)

  datatype Label =
    | Connect(peer: Bytes, v1: bool)
    | AcceptStream(c: nat)
    | StopAccepting(c: nat)
    | Acquire(i: nat)
    | ParseFails(i: nat)
    | CountPacket(i: nat, pkt: MeshPacket)
    | AskLimiter(i: nat, now: real)
    | CountClass(i: nat)
    | Finish(i: nat)
    | MessageCall(call: RateLimit.Call)

  const EMPTY: State := State([], [], [], 0, 0, 0, 0, 0)

  function SetStage(s: State, i: nat, stage: Stage): State
    requires i < |s.tasks|
  {
    s.(tasks := s.tasks[i := s.tasks[i].(stage := stage)])
  }

  function SetPermits(s: State, c: nat, permits: nat): State
    requires c < |s.conns|
  {
    s.(conns := s.conns[c := s.conns[c].(permits := permits)])
  }

  predicate Exists(s: State, i: nat) { i < |s.tasks| && s.tasks[i].conn < |s.conns| }

  function FreePermits(s: State, i: nat): nat
    requires Exists(s, i)
  {
    s.conns[s.tasks[i].conn].permits
  }

  /** One task moves on, and its connection has so many free permits. */
  function Move(s: State, i: nat, stage: Stage, permits: nat): State
    requires Exists(s, i)
  {
    SetPermits(SetStage(s, i, stage), s.tasks[i].conn, permits)
  }

  /** The limiter's call for a counted packet. */
  function PacketCall(e: Engine, s: State, i: nat, now: real): RateLimit.Call
    requires Exists(s, i) && s.tasks[i].stage.Counted?
  {
    RateLimit.Call(s.tasks[i].peer, AdmissionRate(e, s.tasks[i].stage.pkt.target), now)
  }

  ghost function VerdictFor(e: Engine, s: State, i: nat, now: real): Verdict
    requires Exists(s, i) && s.tasks[i].stage.Counted?
  {
    Verdict(Classify(e, s.calls, s.tasks[i].peer, now, s.conns[s.tasks[i].conn].v1, s.tasks[i].stage.pkt),
            PacketCall(e, s, i, now).rate > 0)
  }

  /** One atomic step: of an accept loop, of one stream's task, or of a tunnel that asks the limiter. */
  ghost function Apply(e: Engine, s: State, l: Label): Option<State> {
    match l
    case Connect(peer, v1) =>
      Some(s.(conns := s.conns + [Conn(peer, v1, true, MAX_CONCURRENT_STREAMS_PER_CONN)], active := s.active + 1))
    case AcceptStream(c) =>
      if c >= |s.conns| || !s.conns[c].accepting then None
      else Some(s.(tasks := s.tasks + [Task(c, s.conns[c].peer, Waiting)]))
    case StopAccepting(c) =>
      if c >= |s.conns| || !s.conns[c].accepting then None
      else Some(s.(conns := s.conns[c := s.conns[c].(accepting := false)], active := s.active - 1))
    case Acquire(i) =>
      if !Exists(s, i) || !s.tasks[i].stage.Waiting? || FreePermits(s, i) == 0 then None
      else Some(Move(s, i, Parsing, FreePermits(s, i) - 1))
    case ParseFails(i) =>
      if !Exists(s, i) || !s.tasks[i].stage.Parsing? then None
      else Some(Move(s, i, Done(None), FreePermits(s, i) + 1))
    case CountPacket(i, pkt) =>
      if !Exists(s, i) || !s.tasks[i].stage.Parsing? then None
      else Some(SetStage(s, i, Counted(pkt)).(total := s.total + 1))
    case AskLimiter(i, now) =>
      if !Exists(s, i) || !s.tasks[i].stage.Counted? then None
      else
        var call := PacketCall(e, s, i, now);
        Some(SetStage(s, i, Judged(VerdictFor(e, s, i, now))).(calls := s.calls + [call]))
    case CountClass(i) =>
      if !Exists(s, i) || !s.tasks[i].stage.Judged? then None
      else
        var t := SetStage(s, i, Dispatched(s.tasks[i].stage.verdict));
        Some(match s.tasks[i].stage.verdict.cls
             case Rejected => t.(rejected := s.rejected + 1)
             case Relayed => t.(relayed := s.relayed + 1)
             case _ => t.(proxied := s.proxied + 1))
    case Finish(i) =>
      if !Exists(s, i) || !s.tasks[i].stage.Dispatched? then None
      else Some(Move(s, i, Done(Some(s.tasks[i].stage.verdict)), FreePermits(s, i) + 1))
    case MessageCall(call) => Some(s.(calls := s.calls + [call]))
  }

  /** Any finite run from the start; None when some step was not enabled. */
  ghost function Run(e: Engine, ls: seq<Label>): Option<State> {
    if ls == [] then Some(EMPTY)
    else
      match Run(e, ls[..|ls| - 1])
      case Some(s) => Apply(e, s, ls[|ls| - 1])
      case None => None
  }

  // ---------------------------------------------------------------- counting tasks

  datatype Kind = PermitOf(c: nat) | Of(cls: Class) | Undispatched | Parsed | AdmittedFrom(peer: Bytes)

  /** What was decided about a packet. */
  function VerdictOf(t: Task): Option<Verdict> {
    match t.stage
    case Judged(v) => Some(v)
    case Dispatched(v) => Some(v)
    case Done(result) => result
    case _ => None
  }

  /** The class a packet is counted in. */
  function ClassOf(t: Task): Option<Class> {
    if t.stage.Judged? || VerdictOf(t).None? then None else Some(VerdictOf(t).value.cls)
  }

  predicate Is(t: Task, k: Kind) {
    match k
    case PermitOf(c) => t.conn == c && !t.stage.Waiting? && !t.stage.Done?
    case Of(cls) => ClassOf(t) == Some(cls)
    case Undispatched => t.stage.Counted? || t.stage.Judged?
    case Parsed => t.stage.Counted? || VerdictOf(t).Some?
    case AdmittedFrom(peer) =>
      t.peer == peer && VerdictOf(t).Some? && VerdictOf(t).value.limited && VerdictOf(t).value.cls != Rejected
  }

  function One(b: bool): nat { if b then 1 else 0 }

  function Count(ts: seq<Task>, k: Kind): nat {
    if ts == [] then 0 else Count(ts[..|ts| - 1], k) + One(Is(ts[|ts| - 1], k))
  }

  function Accepting(cs: seq<Conn>): nat {
    if cs == [] then 0 else Accepting(cs[..|cs| - 1]) + One(cs[|cs| - 1].accepting)
  }

  lemma {:induction false} CountUpdate(ts: seq<Task>, i: nat, t: Task, k: Kind)
    requires i < |ts|
    ensures Count(ts[i := t], k) + One(Is(ts[i], k)) == Count(ts, k) + One(Is(t, k))
  {
    var n := |ts| - 1;
    if i == n {
      assert ts[i := t][..n] == ts[..n];
    } else {
      CountUpdate(ts[..n], i, t, k);
      assert ts[i := t][..n] == ts[..n][i := t];
    }
  }

  lemma CountAppend(ts: seq<Task>, t: Task, k: Kind)
    ensures Count(ts + [t], k) == Count(ts, k) + One(Is(t, k))
  {
    assert (ts + [t])[..|ts|] == ts;
  }

  lemma {:induction false} CountNone(ts: seq<Task>, c: nat)
    requires forall t | t in ts :: t.conn != c
    ensures Count(ts, PermitOf(c)) == 0
  {
    if ts != [] {
      CountNone(ts[..|ts| - 1], c);
      assert ts[|ts| - 1] in ts;
    }
  }

  lemma {:induction false} AcceptingUpdate(cs: seq<Conn>, c: nat, x: Conn)
    requires c < |cs|
    ensures Accepting(cs[c := x]) + One(cs[c].accepting) == Accepting(cs) + One(x.accepting)
  {
    var n := |cs| - 1;
    if c == n {
      assert cs[c := x][..n] == cs[..n];
    } else {
      AcceptingUpdate(cs[..n], c, x);
      assert cs[c := x][..n] == cs[..n][c := x];
    }
  }

  lemma AcceptingAppend(cs: seq<Conn>, x: Conn)
    ensures Accepting(cs + [x]) == Accepting(cs) + One(x.accepting)
  {
    assert (cs + [x])[..|cs|] == cs;
  }

  /** Every parsed packet is waiting for its class or in exactly one of the four. */
  lemma {:induction false} ParsedSplits(ts: seq<Task>)
    ensures Count(ts, Parsed) == Count(ts, Undispatched) + Count(ts, Of(Rejected)) + Count(ts, Of(Relayed))
                                 + Count(ts, Of(Executed)) + Count(ts, Of(Tunnelled))
  {
    if ts != [] {
      ParsedSplits(ts[..|ts| - 1]);
      var t := ts[|ts| - 1];
      if ClassOf(t).Some? {
        match ClassOf(t).value
        case Rejected =>
        case Relayed =>
        case Executed =>
        case Tunnelled =>
      }
    }
  }

  // ---------------------------------------------------------------- invariants

  ghost predicate Wired(conns: seq<Conn>, ts: seq<Task>) {
    forall i | 0 <= i < |ts| :: ts[i].conn < |conns|
  }

  ghost predicate PermitsKept(conns: seq<Conn>, ts: seq<Task>) {
    forall c: nat | c < |conns| :: conns[c].permits + Count(ts, PermitOf(c)) == MAX_CONCURRENT_STREAMS_PER_CONN
  }

  ghost predicate Tallied(ts: seq<Task>, total: int, proxied: int, relayed: int, rejected: int) {
    && total == Count(ts, Parsed)
    && rejected == Count(ts, Of(Rejected))
    && relayed == Count(ts, Of(Relayed))
    && proxied == Count(ts, Of(Executed)) + Count(ts, Of(Tunnelled))
  }

  ghost predicate Inv(s: State) {
    && Wired(s.conns, s.tasks)
    && PermitsKept(s.conns, s.tasks)
    && Tallied(s.tasks, s.total, s.proxied, s.relayed, s.rejected)
    && s.active == Accepting(s.conns)
  }

  /** A task takes or gives back a permit exactly as it starts or stops holding one. */
  lemma MovedPermits(conns: seq<Conn>, ts: seq<Task>, i: nat, u: Task, permits: nat)
    requires Wired(conns, ts) && PermitsKept(conns, ts) && i < |ts| && u.conn == ts[i].conn
    requires permits + One(Is(u, PermitOf(u.conn))) == conns[u.conn].permits + One(Is(ts[i], PermitOf(u.conn)))
    ensures var conns' := conns[u.conn := conns[u.conn].(permits := permits)];
            Wired(conns', ts[i := u]) && PermitsKept(conns', ts[i := u]) && Accepting(conns') == Accepting(conns)
  {
    var conns' := conns[u.conn := conns[u.conn].(permits := permits)];
    AcceptingUpdate(conns, u.conn, conns'[u.conn]);
    forall c: nat | c < |conns'|
      ensures conns'[c].permits + Count(ts[i := u], PermitOf(c)) == MAX_CONCURRENT_STREAMS_PER_CONN
    {
      CountUpdate(ts, i, u, PermitOf(c));
    }
  }

  /** The counters follow a task into its class. */
  lemma MovedTally(ts: seq<Task>, i: nat, u: Task, total: int, proxied: int, relayed: int, rejected: int)
    requires Tallied(ts, total, proxied, relayed, rejected) && i < |ts|
    requires ClassOf(ts[i]) == None || ClassOf(u) == ClassOf(ts[i])
    ensures var landed := if ClassOf(ts[i]) == None then ClassOf(u) else None;
            Tallied(ts[i := u],
                    total + One(Is(u, Parsed)) - One(Is(ts[i], Parsed)),
                    proxied + One(landed in {Some(Executed), Some(Tunnelled)}),
                    relayed + One(landed == Some(Relayed)),
                    rejected + One(landed == Some(Rejected)))
  {
    CountUpdate(ts, i, u, Parsed);
    CountUpdate(ts, i, u, Of(Rejected));
    CountUpdate(ts, i, u, Of(Relayed));
    CountUpdate(ts, i, u, Of(Executed));
    CountUpdate(ts, i, u, Of(Tunnelled));
  }

  lemma NewTaskCounts(ts: seq<Task>, t: Task, k: Kind)
    requires t.stage.Waiting?
    ensures Count(ts + [t], k) == Count(ts, k)
  {
    CountAppend(ts, t, k);
  }

  lemma NewTaskPermits(conns: seq<Conn>, ts: seq<Task>, t: Task)
    requires t.stage.Waiting? && t.conn < |conns| && Wired(conns, ts) && PermitsKept(conns, ts)
    ensures Wired(conns, ts + [t]) && PermitsKept(conns, ts + [t])
  {
    forall c: nat | c < |conns|
      ensures conns[c].permits + Count(ts + [t], PermitOf(c)) == MAX_CONCURRENT_STREAMS_PER_CONN
    {
      NewTaskCounts(ts, t, PermitOf(c));
    }
  }

  lemma NewTaskTally(ts: seq<Task>, t: Task, total: int, proxied: int, relayed: int, rejected: int)
    requires t.stage.Waiting? && Tallied(ts, total, proxied, relayed, rejected)
    ensures Tallied(ts + [t], total, proxied, relayed, rejected)
  {
    NewTaskCounts(ts, t, Parsed);
    NewTaskCounts(ts, t, Of(Rejected));
    NewTaskCounts(ts, t, Of(Relayed));
    NewTaskCounts(ts, t, Of(Executed));
    NewTaskCounts(ts, t, Of(Tunnelled));
  }

  lemma NewConnection(conns: seq<Conn>, ts: seq<Task>, x: Conn)
    requires Wired(conns, ts) && PermitsKept(conns, ts)
    requires x.accepting && x.permits == MAX_CONCURRENT_STREAMS_PER_CONN
    ensures Wired(conns + [x], ts) && PermitsKept(conns + [x], ts) && Accepting(conns + [x]) == Accepting(conns) + 1
  {
    AcceptingAppend(conns, x);
    forall t | t in ts ensures t.conn != |conns| {
      var i :| 0 <= i < |ts| && ts[i] == t;
    }
    CountNone(ts, |conns|);
  }

  lemma MoveKeepsInv(s: State, i: nat, stage: Stage, permits: nat)
    requires Inv(s) && i < |s.tasks|
    requires var t, u := s.tasks[i], s.tasks[i].(stage := stage);
             && permits + One(Is(u, PermitOf(t.conn))) == FreePermits(s, i) + One(Is(t, PermitOf(t.conn)))
             && ClassOf(u) == ClassOf(t) && Is(t, Parsed) == Is(u, Parsed)
    ensures Inv(Move(s, i, stage, permits))
  {
    MovedPermits(s.conns, s.tasks, i, s.tasks[i].(stage := stage), permits);
    MovedTally(s.tasks, i, s.tasks[i].(stage := stage), s.total, s.proxied, s.relayed, s.rejected);
  }

  /** Counting and classifying keep the permit. */
  lemma SamePermits(s: State, i: nat, stage: Stage)
    requires Inv(s) && i < |s.tasks|
    requires Is(s.tasks[i].(stage := stage), PermitOf(s.tasks[i].conn)) == Is(s.tasks[i], PermitOf(s.tasks[i].conn))
    ensures Wired(s.conns, SetStage(s, i, stage).tasks) && PermitsKept(s.conns, SetStage(s, i, stage).tasks)
  {
    var u := s.tasks[i].(stage := stage);
    MovedPermits(s.conns, s.tasks, i, u, FreePermits(s, i));
    assert s.conns[u.conn := s.conns[u.conn].(permits := s.conns[u.conn].permits)] == s.conns;
  }

  lemma CountKeepsInv(e: Engine, s: State, i: nat, pkt: MeshPacket)
    requires Inv(s) && Apply(e, s, CountPacket(i, pkt)).Some?
    ensures Inv(Apply(e, s, CountPacket(i, pkt)).value)
  {
    SamePermits(s, i, Counted(pkt));
    MovedTally(s.tasks, i, s.tasks[i].(stage := Counted(pkt)), s.total, s.proxied, s.relayed, s.rejected);
  }

  lemma AskKeepsInv(e: Engine, s: State, i: nat, now: real)
    requires Inv(s) && Apply(e, s, AskLimiter(i, now)).Some?
    ensures Inv(Apply(e, s, AskLimiter(i, now)).value)
  {
    var stage := Judged(VerdictFor(e, s, i, now));
    SamePermits(s, i, stage);
    MovedTally(s.tasks, i, s.tasks[i].(stage := stage), s.total, s.proxied, s.relayed, s.rejected);
  }

  lemma CountClassKeepsInv(e: Engine, s: State, i: nat)
    requires Inv(s) && Apply(e, s, CountClass(i)).Some?
    ensures Inv(Apply(e, s, CountClass(i)).value)
  {
    var stage := Dispatched(s.tasks[i].stage.verdict);
    SamePermits(s, i, stage);
    MovedTally(s.tasks, i, s.tasks[i].(stage := stage), s.total, s.proxied, s.relayed, s.rejected);
  }

  lemma StopKeepsInv(e: Engine, s: State, c: nat)
    requires Inv(s) && Apply(e, s, StopAccepting(c)).Some?
    ensures Inv(Apply(e, s, StopAccepting(c)).value)
  {
    AcceptingUpdate(s.conns, c, s.conns[c].(accepting := false));
    var r := Apply(e, s, StopAccepting(c)).value;
    assert forall d: nat | d < |r.conns| :: r.conns[d].permits == s.conns[d].permits;
  }

  lemma ArrivalKeepsInv(e: Engine, s: State, l: Label)
    requires Inv(s) && (l.Connect? || l.AcceptStream?) && Apply(e, s, l).Some?
    ensures Inv(Apply(e, s, l).value)
  {
    match l
    case Connect(peer, v1) => NewConnection(s.conns, s.tasks, Conn(peer, v1, true, MAX_CONCURRENT_STREAMS_PER_CONN));
    case AcceptStream(c) =>
      NewTaskPermits(s.conns, s.tasks, Task(c, s.conns[c].peer, Waiting));
      NewTaskTally(s.tasks, Task(c, s.conns[c].peer, Waiting), s.total, s.proxied, s.relayed, s.rejected);
  }

  lemma AcquireKeepsInv(e: Engine, s: State, i: nat)
    requires Inv(s) && Apply(e, s, Acquire(i)).Some?
    ensures Inv(Apply(e, s, Acquire(i)).value)
  {
    MoveKeepsInv(s, i, Parsing, FreePermits(s, i) - 1);
  }

  lemma ParseFailKeepsInv(e: Engine, s: State, i: nat)
    requires Inv(s) && Apply(e, s, ParseFails(i)).Some?
    ensures Inv(Apply(e, s, ParseFails(i)).value)
  {
    MoveKeepsInv(s, i, Done(None), FreePermits(s, i) + 1);
  }

  lemma FinishKeepsInv(e: Engine, s: State, i: nat)
    requires Inv(s) && Apply(e, s, Finish(i)).Some?
    ensures Inv(Apply(e, s, Finish(i)).value)
  {
    MoveKeepsInv(s, i, Done(Some(s.tasks[i].stage.verdict)), FreePermits(s, i) + 1);
  }

  lemma StepKeepsInv(e: Engine, s: State, l: Label)
    requires Inv(s) && Apply(e, s, l).Some?
    ensures Inv(Apply(e, s, l).value)
  {
    match l
    case Acquire(i) => AcquireKeepsInv(e, s, i);
    case ParseFails(i) => ParseFailKeepsInv(e, s, i);
    case Finish(i) => FinishKeepsInv(e, s, i);
    case StopAccepting(c) => StopKeepsInv(e, s, c);
    case CountPacket(i, pkt) => CountKeepsInv(e, s, i, pkt);
    case AskLimiter(i, now) => AskKeepsInv(e, s, i, now);
    case CountClass(i) => CountClassKeepsInv(e, s, i);
    case MessageCall(_) =>
    case _ => ArrivalKeepsInv(e, s, l);
  }

  // ---------------------------------------------------------------- all runs

  lemma {:induction false} RunKeepsInv(e: Engine, ls: seq<Label>)
    requires Run(e, ls).Some?
    ensures Inv(Run(e, ls).value)
  {
    if ls != [] {
      RunKeepsInv(e, ls[..|ls| - 1]);
      StepKeepsInv(e, Run(e, ls[..|ls| - 1]).value, ls[|ls| - 1]);
    }
  }

  /** At every moment of every interleaving: each counted packet is in exactly one class or on its way
      to one, no connection runs more than 16 bodies and no permit is lost, and the gauge of
      connections is the number of live accept loops. */
  lemma AccountingHolds(e: Engine, ls: seq<Label>)
    requires Run(e, ls).Some?
    ensures var s := Run(e, ls).value;
            && s.total == s.proxied + s.relayed + s.rejected + Count(s.tasks, Undispatched)
            && s.total == Count(s.tasks, Parsed)
            && s.rejected == Count(s.tasks, Of(Rejected)) && s.relayed == Count(s.tasks, Of(Relayed))
            && s.proxied == Count(s.tasks, Of(Executed)) + Count(s.tasks, Of(Tunnelled))
            && s.active == Accepting(s.conns)
            && forall c: nat | c < |s.conns| ::
                 s.conns[c].permits + Count(s.tasks, PermitOf(c)) == 16
  {
    RunKeepsInv(e, ls);
    ParsedSplits(Run(e, ls).value.tasks);
  }

  /** What was decided about a packet is never changed, it is counted in that class and in no other, and no
      stream is forgotten. */
  lemma ClassIsFinal(e: Engine, s: State, l: Label, i: nat)
    requires Apply(e, s, l).Some? && i < |s.tasks|
    ensures var t := Apply(e, s, l).value;
            |s.tasks| <= |t.tasks| && t.tasks[i].conn == s.tasks[i].conn &&
            (VerdictOf(s.tasks[i]).Some? ==> VerdictOf(t.tasks[i]) == VerdictOf(s.tasks[i])) &&
            (ClassOf(s.tasks[i]).Some? ==> ClassOf(t.tasks[i]) == ClassOf(s.tasks[i]))
  {
  }

  /** A stream belongs to the peer of its connection. */
  ghost predicate OwnPeers(s: State) {
    forall i | 0 <= i < |s.tasks| :: s.tasks[i].conn < |s.conns| && s.tasks[i].peer == s.conns[s.tasks[i].conn].peer
  }

  lemma {:induction false} StreamsBelongToTheirPeer(e: Engine, ls: seq<Label>)
    requires Run(e, ls).Some?
    ensures OwnPeers(Run(e, ls).value)
  {
    if ls != [] {
      StreamsBelongToTheirPeer(e, ls[..|ls| - 1]);
      StepKeepsPeers(e, Run(e, ls[..|ls| - 1]).value, ls[|ls| - 1]);
    }
  }

  lemma StepKeepsPeers(e: Engine, s: State, l: Label)
    requires OwnPeers(s) && Apply(e, s, l).Some?
    ensures OwnPeers(Apply(e, s, l).value)
  {
    var t := Apply(e, s, l).value;
    assert forall c | 0 <= c < |s.conns| :: t.conns[c].peer == s.conns[c].peer;
  }

  /** A waiting stream can start exactly when fewer than 16 bodies of its connection run: sixteen run at once,
      and a seventeenth waits until one of them ends. */
  lemma StreamStartsIff(e: Engine, ls: seq<Label>, i: nat)
    requires Run(e, ls).Some? && i < |Run(e, ls).value.tasks|
    ensures var s := Run(e, ls).value;
            Apply(e, s, Acquire(i)).Some? <==>
            s.tasks[i].stage.Waiting? && Count(s.tasks, PermitOf(s.tasks[i].conn)) < 16
  {
    RunKeepsInv(e, ls);
    var s := Run(e, ls).value;
    assert s.tasks[i].conn < |s.conns|;
    assert PermitsKept(s.conns, s.tasks);
  }

  /** The step that a stream's task takes next. */
  function NextStep(t: Task, i: nat, pkt: MeshPacket, now: real): Label {
    match t.stage
    case Waiting => Acquire(i)
    case Parsing => CountPacket(i, pkt)
    case Counted(_) => AskLimiter(i, now)
    case Judged(_) => CountClass(i)
    case _ => Finish(i)
  }

  /** No stream is stuck: a task that is not done can take its next step at once, or waits on a connection that
      runs 16 bodies, and each of these can take its own. */
  lemma NoStreamIsStuck(e: Engine, ls: seq<Label>, i: nat, pkt: MeshPacket, now: real)
    requires Run(e, ls).Some? && i < |Run(e, ls).value.tasks| && !Run(e, ls).value.tasks[i].stage.Done?
    ensures var s := Run(e, ls).value;
            Apply(e, s, NextStep(s.tasks[i], i, pkt, now)).Some? <==>
            !(s.tasks[i].stage.Waiting? &&
              Count(s.tasks, PermitOf(s.tasks[i].conn)) == 16)
  {
    StreamStartsIff(e, ls, i);
    RunKeepsInv(e, ls);
    var s := Run(e, ls).value;
    assert s.tasks[i].conn < |s.conns|;
    assert PermitsKept(s.conns, s.tasks);
  }

  // ---------------------------------------------------------------- one peer's share

  /** The limiter's calls that a peer's packets made. */
  function Asked(s: State, peer: Bytes): seq<RateLimit.Call> { RateLimit.Requests(s.calls, peer) }

  /** Every packet that got in under a limit spent a token of its peer. */
  ghost predicate PaidFor(s: State, peer: Bytes) {
    Count(s.tasks, AdmittedFrom(peer)) <= RateLimit.Spent(Asked(s, peer), 0, |Asked(s, peer)|)
  }

  lemma EntryIsPaid(calls: seq<RateLimit.Call>, ts: seq<Task>, i: nat, u: Task, call: RateLimit.Call, peer: Bytes)
    requires i < |ts| && VerdictOf(ts[i]).None? && VerdictOf(u).Some? && u.peer == call.key
    requires VerdictOf(u).value.limited == (call.rate > 0)
    requires VerdictOf(u).value.cls != Rejected ==> RateLimit.Decides(calls, call)
    requires var h := RateLimit.Requests(calls, peer);
             Count(ts, AdmittedFrom(peer)) <= RateLimit.Spent(h, 0, |h|)
    ensures var h := RateLimit.Requests(calls + [call], peer);
            Count(ts[i := u], AdmittedFrom(peer)) <= RateLimit.Spent(h, 0, |h|)
  {
    CountUpdate(ts, i, u, AdmittedFrom(peer));
    RateLimit.OneMoreCall(calls, call, peer, 0);
  }

  lemma AskKeepsPaid(e: Engine, s: State, i: nat, now: real, peer: Bytes)
    requires PaidFor(s, peer) && Apply(e, s, AskLimiter(i, now)).Some?
    ensures PaidFor(Apply(e, s, AskLimiter(i, now)).value, peer)
  {
    var u := s.tasks[i].(stage := Judged(VerdictFor(e, s, i, now)));
    EntryIsPaid(s.calls, s.tasks, i, u, PacketCall(e, s, i, now), peer);
  }

  /** A task that moves on without being judged costs nothing. */
  lemma MoveKeepsPaid(s: State, t: State, i: nat, stage: Stage, peer: Bytes)
    requires PaidFor(s, peer) && i < |s.tasks| && t.calls == s.calls
    requires t.tasks == s.tasks[i := s.tasks[i].(stage := stage)]
    requires VerdictOf(s.tasks[i].(stage := stage)) == VerdictOf(s.tasks[i])
    ensures PaidFor(t, peer)
  {
    CountUpdate(s.tasks, i, s.tasks[i].(stage := stage), AdmittedFrom(peer));
  }

  lemma StepKeepsPaid(e: Engine, s: State, l: Label, peer: Bytes)
    requires PaidFor(s, peer) && Apply(e, s, l).Some?
    ensures PaidFor(Apply(e, s, l).value, peer)
  {
    var t := Apply(e, s, l).value;
    match l
    case AskLimiter(i, now) => AskKeepsPaid(e, s, i, now, peer);
    case CountClass(i) => MoveKeepsPaid(s, t, i, Dispatched(s.tasks[i].stage.verdict), peer);
    case AcceptStream(c) => NewTaskCounts(s.tasks, Task(c, s.conns[c].peer, Waiting), AdmittedFrom(peer));
    case Acquire(i) => MoveKeepsPaid(s, t, i, Parsing, peer);
    case ParseFails(i) => MoveKeepsPaid(s, t, i, Done(None), peer);
    case CountPacket(i, pkt) => MoveKeepsPaid(s, t, i, Counted(pkt), peer);
    case Finish(i) => MoveKeepsPaid(s, t, i, Done(Some(s.tasks[i].stage.verdict)), peer);
    case MessageCall(call) => RateLimit.OneMoreCall(s.calls, call, peer, 0);
    case _ => assert t.tasks == s.tasks && t.calls == s.calls;
  }

  lemma {:induction false} RunKeepsPaid(e: Engine, ls: seq<Label>, peer: Bytes)
    requires Run(e, ls).Some?
    ensures PaidFor(Run(e, ls).value, peer)
  {
    if ls != [] {
      RunKeepsPaid(e, ls[..|ls| - 1], peer);
      StepKeepsPaid(e, Run(e, ls[..|ls| - 1]).value, ls[|ls| - 1], peer);
    }
  }

  /** However many connections and streams a peer opens, and however they interleave, no more of its
      packets get in under a limit than the budget of its calls. With clocks in order and local and
      relayed requests at rates up to any one rate, that is the capacity at this rate plus the rate times
      the time from the peer's first call to its last. */
  lemma PeerWithinItsBudget(e: Engine, ls: seq<Label>, peer: Bytes)
    requires Run(e, ls).Some?
    ensures var s := Run(e, ls).value;
            RateLimit.WithinBudget(Asked(s, peer), 0, Count(s.tasks, AdmittedFrom(peer)))
  {
    RunKeepsPaid(e, ls, peer);
    var s := Run(e, ls).value;
    RateLimit.PaidIsWithinBudget(Asked(s, peer), 0, Count(s.tasks, AdmittedFrom(peer)));
  }

  // ---------------------------------------------------------------- the objects behind the machine

  /** The shared objects of a node are in the state that the machine describes. */
  ghost predicate Shows(stats: Stats.Stats, limiter: RateLimit.RateLimiter, s: State)
    reads stats, limiter
  {
    && stats.total == s.total && stats.proxied == s.proxied && stats.relayed == s.relayed
    && stats.rejected == s.rejected && stats.activeConnections == s.active
    && limiter.history == s.calls
  }

  ghost function Then(e: Engine, s: Option<State>, l: Label): Option<State> {
    match s
    case Some(t) => Apply(e, t, l)
    case None => None
  }

  /** The three steps of a task for its packet: total, limiter, class. */
  ghost function PacketSteps(e: Engine, s: State, i: nat, pkt: MeshPacket, now: real): Option<State> {
    Then(e, Then(e, Apply(e, s, CountPacket(i, pkt)), AskLimiter(i, now)), CountClass(i))
  }

  lemma PacketStepsCount(e: Engine, s: State, i: nat, pkt: MeshPacket, now: real)
    requires Exists(s, i) && s.tasks[i].stage.Parsing?
    ensures var peer, v1 := s.tasks[i].peer, s.conns[s.tasks[i].conn].v1;
            var cls := Classify(e, s.calls, peer, now, v1, pkt);
            var t := PacketSteps(e, s, i, pkt, now);
            && t.Some? && i < |t.value.tasks| && ClassOf(t.value.tasks[i]) == Some(cls)
            && t.value.calls == s.calls + [RateLimit.Call(peer, AdmissionRate(e, pkt.target), now)]
            && t.value.total == s.total + 1 && t.value.active == s.active
            && t.value.rejected == s.rejected + One(cls == Rejected)
            && t.value.relayed == s.relayed + One(cls == Relayed)
            && t.value.proxied == s.proxied + One(cls in {Executed, Tunnelled})
  {
    var s1 := Apply(e, s, CountPacket(i, pkt)).value;
    assert s1.tasks[i] == s.tasks[i].(stage := Counted(pkt)) && s1.calls == s.calls;
    var s2 := Apply(e, s1, AskLimiter(i, now)).value;
    assert s2.tasks[i].stage == Judged(VerdictFor(e, s1, i, now));
  }

  /** The handling of a packet is the three steps of its task: total, limiter, class. */
  method HandleAsSteps(h: Handler, ghost s: State, i: nat, pkt: MeshPacket, peer: Bytes, v1: bool, now: real,
                       http: HttpResult, nowSecs: nat, remote: Remote)
    returns (reply: Reply, cls: Class)
    requires h.limiter.Valid() && Shows(h.stats, h.limiter, s)
    requires Exists(s, i) && s.tasks[i].stage.Parsing?
    requires s.tasks[i].peer == peer && s.conns[s.tasks[i].conn].v1 == v1
    modifies h.limiter, h.stats
    ensures h.limiter.Valid()
    ensures var t := PacketSteps(h.engine, s, i, pkt, now);
            && t.Some? && Shows(h.stats, h.limiter, t.value)
            && i < |t.value.tasks| && ClassOf(t.value.tasks[i]) == Some(cls)
  {
    PacketStepsCount(h.engine, s, i, pkt, now);
    reply, cls := h.HandlePacket(pkt, peer, v1, now, http, nowSecs, remote);
  }

  /** A new guard is the arrival of a connection. */
  method OpenConnection(stats: Stats.Stats, limiter: RateLimit.RateLimiter, ghost e: Engine, ghost s: State,
                        peer: Bytes, v1: bool)
    returns (guard: Stats.ConnGuard)
    requires Shows(stats, limiter, s)
    modifies stats`activeConnections
    ensures guard.stats == stats
    ensures Shows(stats, limiter, Apply(e, s, Connect(peer, v1)).value)
  {
    guard := new Stats.ConnGuard(stats);
  }

  /** Dropping the guard is the end of its accept loop. */
  method CloseConnection(guard: Stats.ConnGuard, limiter: RateLimit.RateLimiter, ghost e: Engine, ghost s: State,
                         c: nat)
    requires Shows(guard.stats, limiter, s)
    requires c < |s.conns| && s.conns[c].accepting
    modifies guard.stats`activeConnections
    ensures Shows(guard.stats, limiter, Apply(e, s, StopAccepting(c)).value)
  {
    guard.Drop();
  }
}
