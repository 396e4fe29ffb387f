/** The proxy engine of src/proxy_engine.rs: which targets a node serves, and the signed `pdata` it
    puts into every answer. JSON, base64 and signatures come in as functions with their usual laws. */
module Proxy {
  import opened ByteStrings

  // ---------------------------------------------------------------- the name table

  datatype EndpointCfg = EndpointCfg(
    name: Bytes,
    localUrl: Bytes,
    rateLimitPerPeer: nat,
    localWsUrl: Option<Bytes>,
    wsRateLimitPerPeer: nat)

  datatype Engine = Engine(nodeId: Bytes, byName: map<Bytes, EndpointCfg>, defaultName: Option<Bytes>)

  function Resolve(e: Engine, target: Bytes): Option<EndpointCfg> {
    if target == [] then
      match e.defaultName
      case Some(n) => if n in e.byName then Some(e.byName[n]) else None
      case None => None
    else if target in e.byName then Some(e.byName[target])
    else None
  }

  predicate Serves(e: Engine, target: Bytes) { Resolve(e, target).Some? }

  function RateFor(e: Engine, target: Bytes): nat {
    match Resolve(e, target)
    case Some(ep) => ep.rateLimitPerPeer
    case None => 0
  }

  function WsMsgRateFor(e: Engine, target: Bytes): nat {
    match Resolve(e, target)
    case Some(ep) => ep.wsRateLimitPerPeer
    case None => 30
  }

  /** The endpoints by name; of several with one name the last inserted stays. */
  function Table(endpoints: seq<EndpointCfg>): map<Bytes, EndpointCfg> {
    if endpoints == [] then map[]
    else
      var ep := endpoints[|endpoints| - 1];
      Table(endpoints[..|endpoints| - 1])[ep.name := ep]
  }

  ghost predicate IsLeast(n: Option<Bytes>, names: set<Bytes>) {
    match n
    case None => names == {}
    case Some(x) => x in names && forall y | y in names :: y == x || LexLess(x, y)
  }

  ghost predicate BuiltFrom(e: Engine, endpoints: seq<EndpointCfg>) {
    e.byName == Table(endpoints) && IsLeast(e.defaultName, e.byName.Keys)
  }

  /** Reads the configured endpoints in whatever order the hash map yields them, and then the names
      in whatever order the table yields those. */
  method New(endpoints: seq<EndpointCfg>, nodeId: Bytes) returns (e: Engine)
    ensures e.nodeId == nodeId && BuiltFrom(e, endpoints)
  {
    var byName: map<Bytes, EndpointCfg> := map[];
    for i := 0 to |endpoints|
      invariant byName == Table(endpoints[..i])
    {
      assert endpoints[..i + 1][..i] == endpoints[..i];
      byName := byName[endpoints[i].name := endpoints[i]];
    }
    assert endpoints[..|endpoints|] == endpoints;
    var least: Option<Bytes> := None;
    var todo := byName.Keys;
    while todo != {}
      invariant todo <= byName.Keys
      invariant IsLeast(least, byName.Keys - todo)
      decreases |todo|
    {
      var k :| k in todo;
      if least.Some? {
        LexTotal(k, least.value);
        if LexLess(k, least.value) {
          forall y | y in byName.Keys - todo && y != least.value
            ensures LexLess(k, y)
          {
            LexTransitive(k, least.value, y);
          }
          least := Some(k);
        }
      } else {
        least := Some(k);
      }
      todo := todo - {k};
      assert byName.Keys - todo == byName.Keys - (todo + {k}) + {k};
    }
    assert byName.Keys - {} == byName.Keys;
    e := Engine(nodeId, byName, least);
  }

  lemma {:induction false} TableHolds(endpoints: seq<EndpointCfg>)
    ensures forall ep | ep in endpoints :: ep.name in Table(endpoints)
    ensures forall n | n in Table(endpoints) :: Table(endpoints)[n].name == n && Table(endpoints)[n] in endpoints
  {
    if endpoints != [] {
      TableHolds(endpoints[..|endpoints| - 1]);
    }
  }

  lemma {:induction false} TableHoldsLast(endpoints: seq<EndpointCfg>, i: nat)
    requires i < |endpoints| && forall j | i < j < |endpoints| :: endpoints[j].name != endpoints[i].name
    ensures endpoints[i].name in Table(endpoints) && Table(endpoints)[endpoints[i].name] == endpoints[i]
  {
    if i < |endpoints| - 1 {
      TableHoldsLast(endpoints[..|endpoints| - 1], i);
    }
  }

  lemma LexLessEmpty(n: Bytes)
    ensures !LexLess(n, [])
  {
  }

  /** Every announced name, the empty one included, resolves to an endpoint of that very name. */
  lemma AnnouncedMeansServed(e: Engine, endpoints: seq<EndpointCfg>, ep: EndpointCfg)
    requires BuiltFrom(e, endpoints) && ep in endpoints
    ensures Serves(e, ep.name) && Resolve(e, ep.name).value.name == ep.name
  {
    TableHolds(endpoints);
    if ep.name == [] {
      LexLessEmpty(e.defaultName.value);
    }
  }

  /** An empty target is served as soon as anything is, by the endpoint with the least name. */
  lemma DefaultServed(e: Engine, endpoints: seq<EndpointCfg>)
    requires BuiltFrom(e, endpoints) && endpoints != []
    ensures Serves(e, [])
    ensures var d := Resolve(e, []).value;
            d in endpoints && forall ep | ep in endpoints :: ep.name == d.name || LexLess(d.name, ep.name)
  {
    TableHolds(endpoints);
    assert endpoints[0] in endpoints;
  }

  /** The target names the i-th endpoint. Of several endpoints of one name the last counts, and an empty target
      names the endpoint with the least name. */
  ghost predicate Names(endpoints: seq<EndpointCfg>, i: nat, target: Bytes)
    requires i < |endpoints|
  {
    && (forall j | i < j < |endpoints| :: endpoints[j].name != endpoints[i].name)
    && (target == endpoints[i].name ||
        (target == [] &&
         forall ep | ep in endpoints :: ep.name == endpoints[i].name || LexLess(endpoints[i].name, ep.name)))
  }

  /** A target resolves to the endpoint it names, with that endpoint's two limits. */
  lemma LastEndpointCounts(e: Engine, endpoints: seq<EndpointCfg>, i: nat, target: Bytes)
    requires BuiltFrom(e, endpoints) && i < |endpoints| && Names(endpoints, i, target)
    ensures Resolve(e, target) == Some(endpoints[i])
    ensures RateFor(e, target) == endpoints[i].rateLimitPerPeer
    ensures WsMsgRateFor(e, target) == endpoints[i].wsRateLimitPerPeer
  {
    TableHolds(endpoints);
    TableHoldsLast(endpoints, i);
    assert endpoints[i] in endpoints;
    if target == [] {
      var least := e.defaultName.value;
      LexTotal(least, endpoints[i].name);
      LexLessEmpty(least);
    }
  }

  /** Which targets are served, and the limits of all others. */
  lemma ServedIff(e: Engine, endpoints: seq<EndpointCfg>, target: Bytes)
    requires BuiltFrom(e, endpoints)
    ensures Serves(e, target) <==>
            if target == [] then endpoints != [] else exists ep :: ep in endpoints && ep.name == target
    ensures !Serves(e, target) ==> RateFor(e, target) == 0 && WsMsgRateFor(e, target) == 30
  {
    TableHolds(endpoints);
    if target == [] && endpoints != [] {
      DefaultServed(e, endpoints);
    }
  }

  lemma {:induction false} LastOfName(endpoints: seq<EndpointCfg>, name: Bytes) returns (i: nat)
    requires name in Table(endpoints)
    ensures i < |endpoints| && endpoints[i].name == name && endpoints[i] == Table(endpoints)[name]
    ensures forall j | i < j < |endpoints| :: endpoints[j].name != name
  {
    var n := |endpoints| - 1;
    if endpoints[n].name == name {
      i := n;
    } else {
      i := LastOfName(endpoints[..n], name);
    }
  }

  /** Every served target names an endpoint. */
  lemma ServedIsNamed(e: Engine, endpoints: seq<EndpointCfg>, target: Bytes) returns (i: nat)
    requires BuiltFrom(e, endpoints) && Serves(e, target)
    ensures i < |endpoints| && Names(endpoints, i, target) && Resolve(e, target) == Some(endpoints[i])
  {
    TableHolds(endpoints);
    i := LastOfName(endpoints, if target == [] then e.defaultName.value else target);
    if target == [] {
      DefaultServed(e, endpoints);
    }
  }

  /** Map iteration order does not show: the default name depends only on which names there are, and
      with distinct names the whole engine only on which endpoints there are. */
  lemma IterationOrderDoesNotMatter(e: Engine, e': Engine, endpoints: seq<EndpointCfg>, endpoints': seq<EndpointCfg>)
    requires BuiltFrom(e, endpoints) && BuiltFrom(e', endpoints') && e.nodeId == e'.nodeId
    requires multiset(endpoints) == multiset(endpoints')
    ensures e.defaultName == e'.defaultName
    ensures (forall a, b | a in endpoints && b in endpoints && a.name == b.name :: a == b) ==> e == e'
  {
    TableHolds(endpoints);
    TableHolds(endpoints');
    forall ep ensures ep in endpoints <==> ep in endpoints' {
      assert ep in endpoints <==> ep in multiset(endpoints);
      assert ep in endpoints' <==> ep in multiset(endpoints');
    }
    assert e.byName.Keys == e'.byName.Keys;
    if e.defaultName.Some? {
      LexTotal(e.defaultName.value, e'.defaultName.value);
    }
    if (forall a, b | a in endpoints && b in endpoints && a.name == b.name :: a == b) {
      assert e.byName == e'.byName;
    }
  }

  // ---------------------------------------------------------------- JSON, base64, signatures

  datatype Json =
    | Null
    | Bool(b: bool)
    | Num(n: int)
    | Str(s: Bytes)
    | Arr(items: seq<Json>)
    | Obj(fields: map<Bytes, Json>)

  /** `sign` takes the signing node and the message. */
  datatype Codec = Codec(
    render: Json -> Bytes,
    parse: Bytes -> Option<Json>,
    toB64: Bytes -> Bytes,
    fromB64: Bytes -> Option<Bytes>,
    sign: (Bytes, Bytes) -> Bytes)

  ghost predicate Lawful(c: Codec) {
    && (forall j :: c.parse(c.render(j)) == Some(j))
    && c.parse([]) == None
    && (forall b :: c.fromB64(c.toB64(b)) == Some(b))
    && (forall id, m, id', m' :: c.sign(id, m) == c.sign(id', m') ==> id == id' && m == m')
  }

  // ---------------------------------------------------------------- decimal numbers

  /** A number as it is formatted into the signed bytes. */
  function Decimal(n: nat): (d: Bytes)
    ensures d != [] && forall b | b in d :: 48 <= b < 58
  {
    if n < 10 then [(48 + n) as byte] else Decimal(n / 10) + [(48 + n % 10) as byte]
  }

  /** Without leading zeros. */
  lemma {:induction false} DecimalIsShort(n: nat)
    ensures Decimal(n)[0] == 48 ==> Decimal(n) == [48]
    ensures n > 0 ==> Decimal(n)[0] != 48
  {
    if n >= 10 {
      DecimalIsShort(n / 10);
    }
  }

  function DecimalValue(d: Bytes): int {
    if d == [] then 0 else 10 * DecimalValue(d[..|d| - 1]) + d[|d| - 1] as int - 48
  }

  lemma {:induction false} DecimalReadsBack(n: nat)
    ensures DecimalValue(Decimal(n)) == n
  {
    if n >= 10 {
      DecimalReadsBack(n / 10);
      assert Decimal(n)[..|Decimal(n)| - 1] == Decimal(n / 10);
    } else {
      assert Decimal(n)[..0] == [];
    }
  }

  /** `node_id|status|signed_at|` and the body. */
  function SignedBytes(nodeId: Bytes, status: nat, signedAt: nat, body: Bytes): Bytes {
    nodeId + [PIPE] + (Decimal(status) + [PIPE] + (Decimal(signedAt) + [PIPE] + body))
  }

  /** The signed bytes determine everything that went into them. */
  lemma SignedBytesInjective(id: Bytes, status: nat, at: nat, body: Bytes, id': Bytes, status': nat, at': nat,
                             body': Bytes)
    requires PIPE !in id && PIPE !in id'
    ensures SignedBytes(id, status, at, body) == SignedBytes(id', status', at', body') <==>
            id == id' && status == status' && at == at' && body == body'
  {
    if SignedBytes(id, status, at, body) == SignedBytes(id', status', at', body') {
      var inner, inner' := Decimal(at) + [PIPE] + body, Decimal(at') + [PIPE] + body';
      SplitUnique(id, Decimal(status) + [PIPE] + inner, id', Decimal(status') + [PIPE] + inner', PIPE);
      SplitUnique(Decimal(status), inner, Decimal(status'), inner', PIPE);
      SplitUnique(Decimal(at), body, Decimal(at'), body', PIPE);
      DecimalReadsBack(status);
      DecimalReadsBack(status');
      DecimalReadsBack(at);
      DecimalReadsBack(at');
    }
  }

  /** The layout on a concrete answer. */
  lemma SignedLayout()
    ensures SignedBytes(Ascii("a"), 2, 7, Ascii("{")) == Ascii("a|2|7|{")
    ensures Decimal(429) == Ascii("429") && Decimal(0) == Ascii("0")
  {
    assert Decimal(42) == Decimal(4) + [50] && Decimal(429) == Decimal(42) + [57];
    assert SignedBytes(Ascii("a"), 2, 7, Ascii("{")) == [97, 124, 50, 124, 55, 124, 123];
    assert Ascii("a|2|7|{") == [97, 124, 50, 124, 55, 124, 123];
  }

  // ---------------------------------------------------------------- answers

  const PDATA: Bytes := Ascii("pdata")
  const V: Bytes := Ascii("v")
  const NODE_ID: Bytes := Ascii("node_id")
  const NAME: Bytes := Ascii("name")
  const STATUS: Bytes := Ascii("status")
  const SIGNED_AT: Bytes := Ascii("signed_at")
  const RELAYED: Bytes := Ascii("relayed")
  const ALG: Bytes := Ascii("alg")
  const SIG: Bytes := Ascii("sig")
  const BODY_B64: Bytes := Ascii("body_b64")

  function PdataObject(nodeId: Bytes, name: Bytes, status: nat, relayed: bool, signedAt: nat, sig: Bytes,
                       bodyB64: Bytes): Json {
    Obj(map[V := Num(1), NODE_ID := Str(nodeId), NAME := Str(name), STATUS := Num(status),
            SIGNED_AT := Num(signedAt), RELAYED := Bool(relayed), ALG := Str(Ascii("ed25519")),
            SIG := Str(sig), BODY_B64 := Str(bodyB64)])
  }

  function Pdata(c: Codec, nodeId: Bytes, name: Bytes, status: nat, raw: Bytes, relayed: bool, signedAt: nat): Json {
    var sig := c.sign(nodeId, SignedBytes(nodeId, status, signedAt, raw));
    PdataObject(nodeId, name, status, relayed, signedAt, sig, c.toB64(raw))
  }

  /** The answer: a JSON object body keeps its fields and gains `pdata`; any other body is wrapped. */
  function Finalize(c: Codec, nodeId: Bytes, name: Bytes, status: nat, raw: Bytes, relayed: bool,
                    signedAt: nat): Bytes {
    var pdata := Pdata(c, nodeId, name, status, raw, relayed, signedAt);
    match c.parse(raw)
    case Some(Obj(m)) => c.render(Obj(m[PDATA := pdata]))
    case _ => c.render(Obj(map[PDATA := pdata]))
  }

  method FinalizeBody(c: Codec, nodeId: Bytes, name: Bytes, status: nat, raw: Bytes, relayed: bool, signedAt: nat)
    returns (out: Bytes)
    ensures out == Finalize(c, nodeId, name, status, raw, relayed, signedAt)
  {
    var canon := nodeId + [PIPE] + (Decimal(status) + [PIPE] + (Decimal(signedAt) + [PIPE]));
    canon := canon + raw;
    assert canon == SignedBytes(nodeId, status, signedAt, raw);
    var sig := c.sign(nodeId, canon);
    var pdata := PdataObject(nodeId, name, status, relayed, signedAt, sig, c.toB64(raw));
    match c.parse(raw) {
      case Some(Obj(m)) =>
        var fields := m[PDATA := pdata];
        out := c.render(Obj(fields));
      case _ =>
        out := c.render(Obj(map[PDATA := pdata]));
    }
  }

  /** The fields a client reads, and the signature it found. */
  datatype Claim = Claim(nodeId: Bytes, status: nat, signedAt: nat, body: Bytes, sig: Bytes)

  function Field(fields: map<Bytes, Json>, key: Bytes): Json {
    if key in fields then fields[key] else Null
  }

  /** The client's side: take `pdata` out of the answer and decode the body. */
  function ReadClaim(c: Codec, response: Bytes): Option<Claim> {
    match c.parse(response)
    case Some(Obj(m)) =>
      (match Field(m, PDATA)
       case Obj(p) =>
         (match (Field(p, NODE_ID), Field(p, STATUS), Field(p, SIGNED_AT), Field(p, SIG), Field(p, BODY_B64))
          case (Str(id), Num(st), Num(at), Str(sig), Str(b64)) =>
            if st < 0 || at < 0 || c.fromB64(b64).None? then None
            else Some(Claim(id, st, at, c.fromB64(b64).value, sig))
          case _ => None)
       case _ => None)
    case _ => None
  }

  predicate Verifies(c: Codec, claim: Claim) {
    claim.sig == c.sign(claim.nodeId, SignedBytes(claim.nodeId, claim.status, claim.signedAt, claim.body))
  }

  lemma KeysDistinct()
    ensures STATUS != SIGNED_AT && STATUS != NODE_ID && SIGNED_AT != NODE_ID && SIG != STATUS && SIG != V && SIG != NAME
    ensures NODE_ID != NAME && NODE_ID != RELAYED && NODE_ID != ALG && NODE_ID != SIG && NODE_ID != BODY_B64 &&
            NODE_ID != V
    ensures STATUS != NAME && STATUS != RELAYED && STATUS != ALG && STATUS != BODY_B64 && STATUS != V
    ensures SIGNED_AT != NAME && SIGNED_AT != RELAYED && SIGNED_AT != ALG && SIGNED_AT != BODY_B64 && SIGNED_AT != SIG
    ensures NAME != RELAYED && NAME != ALG && NAME != BODY_B64 && NAME != V && RELAYED != ALG &&
            RELAYED != BODY_B64 && RELAYED != V
    ensures ALG != BODY_B64 && ALG != V && V != BODY_B64
    ensures SIG != ALG && SIG != BODY_B64 && SIG != RELAYED && SIG != SIGNED_AT && SIG != NODE_ID
  {
    assert STATUS[1] == 116 && RELAYED[1] == 101 && STATUS[0] == 115;
    assert NODE_ID[0] == 110 && RELAYED[0] == 114 && BODY_B64[0] == 98 && SIGNED_AT[0] == 115;
    assert ALG[0] == 97;
  }

  /** Whatever the upstream answered, the client finds exactly the signed status, time and body, and
      the signature verifies. */
  lemma FinalizeVerifies(c: Codec, nodeId: Bytes, name: Bytes, status: nat, raw: Bytes, relayed: bool, signedAt: nat)
    requires Lawful(c)
    ensures var claim := ReadClaim(c, Finalize(c, nodeId, name, status, raw, relayed, signedAt));
            claim.Some? && Verifies(c, claim.value) &&
            claim.value.nodeId == nodeId && claim.value.status == status &&
            claim.value.signedAt == signedAt && claim.value.body == raw
  {
    KeysDistinct();
    var pdata := Pdata(c, nodeId, name, status, raw, relayed, signedAt);
    assert Field(pdata.fields, NODE_ID) == Str(nodeId);
    assert Field(pdata.fields, STATUS) == Num(status);
    assert Field(pdata.fields, SIGNED_AT) == Num(signedAt);
    assert Field(pdata.fields, BODY_B64) == Str(c.toB64(raw));
    assert Field(pdata.fields, SIG) == Str(c.sign(nodeId, SignedBytes(nodeId, status, signedAt, raw)));
  }

  /** A number as it is printed: digits only, no leading zero, and this value. */
  predicate Prints(d: Bytes, n: nat) {
    && d != [] && (forall b | b in d :: 48 <= b < 58)
    && (d[0] == 48 ==> |d| == 1) && DecimalValue(d) == n
  }

  lemma SignedParts(nodeId: Bytes, status: nat, signedAt: nat, raw: Bytes) returns (s: Bytes, t: Bytes)
    ensures SignedBytes(nodeId, status, signedAt, raw) == nodeId + [124] + s + [124] + t + [124] + raw
    ensures Prints(s, status) && Prints(t, signedAt)
  {
    s, t := Decimal(status), Decimal(signedAt);
    DecimalReadsBack(status);
    DecimalReadsBack(signedAt);
    DecimalIsShort(status);
    DecimalIsShort(signedAt);
  }

  /** The nine fields of `pdata`, by their names. */
  function PdataFields(nodeId: Bytes, name: Bytes, status: nat, relayed: bool, at: nat, sig: Bytes,
                       bodyB64: Bytes): map<Bytes, Json> {
    map[Ascii("v") := Num(1),
        Ascii("node_id") := Str(nodeId),
        Ascii("name") := Str(name),
        Ascii("status") := Num(status),
        Ascii("signed_at") := Num(at),
        Ascii("relayed") := Bool(relayed),
        Ascii("alg") := Str(Ascii("ed25519")),
        Ascii("sig") := Str(sig),
        Ascii("body_b64") := Str(bodyB64)]
  }

  lemma PdataHasFields(nodeId: Bytes, name: Bytes, status: nat, relayed: bool, at: nat, sig: Bytes, bodyB64: Bytes)
    ensures PdataObject(nodeId, name, status, relayed, at, sig, bodyB64) ==
            Obj(PdataFields(nodeId, name, status, relayed, at, sig, bodyB64))
  {
  }

  lemma FinalizeHasPdata(c: Codec, nodeId: Bytes, name: Bytes, status: nat, raw: Bytes, relayed: bool, signedAt: nat)
    requires Lawful(c)
    ensures var answer := c.parse(Finalize(c, nodeId, name, status, raw, relayed, signedAt));
            answer.Some? && answer.value.Obj? &&
            Field(answer.value.fields, Ascii("pdata")) == Pdata(c, nodeId, name, status, raw, relayed, signedAt)
  {
  }

  /** Every answer carries exactly these nine fields under `pdata`, and its signature is one over the node id,
      the status, the time and the raw body, in this order, with bars between them. */
  lemma AnswerLayout(c: Codec, nodeId: Bytes, name: Bytes, status: nat, raw: Bytes, relayed: bool, signedAt: nat)
    returns (m: Bytes, s: Bytes, t: Bytes)
    requires Lawful(c)
    ensures m == nodeId + [124] + s + [124] + t + [124] + raw && Prints(s, status) && Prints(t, signedAt)
    ensures var answer := c.parse(Finalize(c, nodeId, name, status, raw, relayed, signedAt));
            answer.Some? && answer.value.Obj? &&
            Field(answer.value.fields, Ascii("pdata")) ==
            Obj(PdataFields(nodeId, name, status, relayed, signedAt, c.sign(nodeId, m), c.toB64(raw)))
  {
    m := SignedBytes(nodeId, status, signedAt, raw);
    s, t := SignedParts(nodeId, status, signedAt, raw);
    FinalizeHasPdata(c, nodeId, name, status, raw, relayed, signedAt);
    PdataHasFields(nodeId, name, status, relayed, signedAt, c.sign(nodeId, m), c.toB64(raw));
  }

  /** Every other field of an object body survives; a body that is not an object leaves only `pdata`,
      which also names the target and says that the answer was not relayed when it was made so. */
  lemma FinalizeKeepsFields(c: Codec, nodeId: Bytes, name: Bytes, status: nat, raw: Bytes, relayed: bool, signedAt: nat)
    requires Lawful(c)
    ensures var before := if c.parse(raw).Some? && c.parse(raw).value.Obj? then c.parse(raw).value.fields else map[];
            var after := c.parse(Finalize(c, nodeId, name, status, raw, relayed, signedAt));
            after.Some? && after.value.Obj? && Field(after.value.fields, PDATA).Obj? &&
            after.value.fields - {PDATA} == before - {PDATA}
    ensures var answer := c.parse(Finalize(c, nodeId, name, status, raw, relayed, signedAt)).value;
            var pdata := Field(answer.fields, PDATA).fields;
            Field(pdata, NAME) == Str(name) && Field(pdata, RELAYED) == Bool(relayed) &&
            Field(pdata, V) == Num(1) && Field(pdata, ALG) == Str(Ascii("ed25519"))
  {
    KeysDistinct();
    var fields := Pdata(c, nodeId, name, status, raw, relayed, signedAt).fields;
    assert Field(fields, NAME) == Str(name) && Field(fields, RELAYED) == Bool(relayed);
    assert Field(fields, V) == Num(1) && Field(fields, ALG) == Str(Ascii("ed25519"));
  }

  /** No answer is the empty string. */
  lemma FinalizeNotEmpty(c: Codec, nodeId: Bytes, name: Bytes, status: nat, raw: Bytes, relayed: bool, signedAt: nat)
    requires Lawful(c)
    ensures Finalize(c, nodeId, name, status, raw, relayed, signedAt) != []
  {
    FinalizeVerifies(c, nodeId, name, status, raw, relayed, signedAt);
  }

  /** Whoever carried the answer: a claim that verifies under a signature an honest node made says
      exactly what that node signed. */
  lemma VerifiedClaimIsWhatWasSigned(c: Codec, response: Bytes, nodeId: Bytes, status: nat, signedAt: nat, raw: Bytes)
    requires Lawful(c)
    requires ReadClaim(c, response).Some? && Verifies(c, ReadClaim(c, response).value)
    requires PIPE !in nodeId
    requires ReadClaim(c, response).value.sig == c.sign(nodeId, SignedBytes(nodeId, status, signedAt, raw))
    ensures var claim := ReadClaim(c, response).value;
            claim.nodeId == nodeId && claim.status == status && claim.signedAt == signedAt && claim.body == raw
  {
    var claim := ReadClaim(c, response).value;
    SignedBytesInjective(nodeId, status, signedAt, raw, claim.nodeId, claim.status, claim.signedAt, claim.body);
  }

  // ---------------------------------------------------------------- executing and rejecting

  /** What the local HTTP call comes to. */
  datatype HttpResult = Responded(status: nat, body: Bytes) | Unreachable(detail: Bytes)

  const ERROR: Bytes := Ascii("error")
  const DETAIL: Bytes := Ascii("detail")

  /** The Russian text "request limit for this PeerID exceeded", as UTF-8. */
  const LIMIT_TEXT: Bytes := [
    208, 191, 209, 128, 208, 181, 208, 178, 209, 139, 209, 136, 208, 181, 208, 189, 32,
    208, 187, 208, 184, 208, 188, 208, 184, 209, 130, 32,
    208, 183, 208, 176, 208, 191, 209, 128, 208, 190, 209, 129, 208, 190, 208, 178, 32,
    208, 189, 208, 176, 32, 209, 141, 209, 130, 208, 190, 209, 130, 32, 80, 101, 101, 114, 73, 68]

  function UpstreamBody(c: Codec, http: HttpResult): (nat, Bytes) {
    match http
    case Responded(status, body) => (status, body)
    case Unreachable(detail) =>
      (502, c.render(Obj(map[ERROR := Str(Ascii("upstream_unreachable")), DETAIL := Str(detail)])))
  }

  function ExecuteReply(c: Codec, e: Engine, target: Bytes, http: HttpResult, now: nat): Bytes
    requires Serves(e, target)
  {
    var (status, raw) := UpstreamBody(c, http);
    Finalize(c, e.nodeId, Resolve(e, target).value.name, status, raw, false, now)
  }

  function RefusalBody(c: Codec): Bytes {
    c.render(Obj(map[ERROR := Str(Ascii("rate_limited")), DETAIL := Str(LIMIT_TEXT)]))
  }

  function RejectReply(c: Codec, e: Engine, target: Bytes, now: nat): Bytes {
    Finalize(c, e.nodeId, target, 429, RefusalBody(c), false, now)
  }

  /** What the signed part of an answer says: who made it and when, for which name, with which status and body,
      and that it was not relayed to its maker. */
  ghost predicate Says(c: Codec, response: Bytes, nodeId: Bytes, name: Bytes, status: nat, body: Bytes, at: nat) {
    && ReadClaim(c, response).Some? && Verifies(c, ReadClaim(c, response).value)
    && ReadClaim(c, response).value.nodeId == nodeId
    && ReadClaim(c, response).value.status == status && ReadClaim(c, response).value.body == body
    && c.parse(response).Some? && c.parse(response).value.Obj? && Field(c.parse(response).value.fields, PDATA).Obj?
    && ReadClaim(c, response).value.signedAt == at
    && Field(Field(c.parse(response).value.fields, PDATA).fields, NAME) == Str(name)
    && Field(Field(c.parse(response).value.fields, PDATA).fields, RELAYED) == Bool(false)
  }

  /** A served target gets what its upstream answered, signed under the endpoint's own name even when
      the target was empty; an upstream that cannot be reached gives a signed 502 with the reason. */
  lemma ExecutionSaysWhatUpstreamDid(c: Codec, e: Engine, target: Bytes, http: HttpResult, now: nat)
    requires Lawful(c) && Serves(e, target)
    ensures var name := Resolve(e, target).value.name;
            var reply := ExecuteReply(c, e, target, http, now);
            match http
            case Responded(status, body) => Says(c, reply, e.nodeId, name, status, body, now)
            case Unreachable(detail) =>
              exists body :: Says(c, reply, e.nodeId, name, 502, body, now) &&
                c.parse(body).Some? && c.parse(body).value.Obj? &&
                Field(c.parse(body).value.fields, Ascii("error")) == Str(Ascii("upstream_unreachable")) &&
                Field(c.parse(body).value.fields, Ascii("detail")) == Str(detail)
  {
    var name := Resolve(e, target).value.name;
    var (status, body) := UpstreamBody(c, http);
    FinalizeVerifies(c, e.nodeId, name, status, body, false, now);
    FinalizeKeepsFields(c, e.nodeId, name, status, body, false, now);
    assert Says(c, ExecuteReply(c, e, target, http, now), e.nodeId, name, status, body, now);
    ErrorIsNotDetail();
  }

  /** A refusal is a signed 429 under the name that was asked for. */
  lemma RefusalSaysLimit(c: Codec, e: Engine, target: Bytes, now: nat)
    requires Lawful(c)
    ensures exists body :: Says(c, RejectReply(c, e, target, now), e.nodeId, target, 429, body, now) &&
              c.parse(body).Some? && c.parse(body).value.Obj? &&
              Field(c.parse(body).value.fields, Ascii("error")) == Str(Ascii("rate_limited"))
  {
    var body := RefusalBody(c);
    FinalizeVerifies(c, e.nodeId, target, 429, body, false, now);
    FinalizeKeepsFields(c, e.nodeId, target, 429, body, false, now);
    ErrorIsNotDetail();
    assert Says(c, RejectReply(c, e, target, now), e.nodeId, target, 429, body, now);
  }

  lemma ErrorIsNotDetail()
    ensures ERROR != DETAIL
  {
    assert |ERROR| == 5 && |DETAIL| == 6;
  }

  method Execute(c: Codec, e: Engine, target: Bytes, http: HttpResult, now: nat) returns (reply: Option<Bytes>)
    ensures reply == if Serves(e, target) then Some(ExecuteReply(c, e, target, http, now)) else None
  {
    var ep := Resolve(e, target);
    if ep.None? {
      return None;
    }
    var (status, raw) := UpstreamBody(c, http);
    var body := FinalizeBody(c, e.nodeId, ep.value.name, status, raw, false, now);
    reply := Some(body);
  }

  method RejectBody(c: Codec, e: Engine, target: Bytes, now: nat) returns (reply: Bytes)
    ensures reply == RejectReply(c, e, target, now)
  {
    var raw := RefusalBody(c);
    reply := FinalizeBody(c, e.nodeId, target, 429, raw, false, now);
  }
}
