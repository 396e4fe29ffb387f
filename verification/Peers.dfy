/** Signed manifests, the store of known peers and the gossip listener that fills it. */
module Peers {
  import opened ByteStrings
  import opened Endian
  import Stats

  datatype Manifest = Manifest(
    nodeId: Bytes,
    endpoints: seq<Bytes>,
    uptimeSecs: u64,
    latencyMs: u64,
    requestsTotal: u64,
    signedAt: u64,
    version: Bytes,
    signature: Bytes,
    seenAt: u64)

  // ---------------------------------------------------------------- joined names

  /** `join(",")`. */
  function Join(names: seq<Bytes>): Bytes {
    if names == [] then []
    else if |names| == 1 then names[0]
    else names[0] + [COMMA] + Join(names[1..])
  }

  /** The names between the commas. */
  function Split(s: Bytes): (names: seq<Bytes>)
    ensures names != [] && forall n | n in names :: COMMA !in n
    decreases |s|
  {
    var i := FirstIndex(s, COMMA);
    if i == |s| then
      assert s[..i] == s;
      [s]
    else [s[..i]] + Split(s[i + 1..])
  }

  lemma {:induction false} FirstIndexAt(head: Bytes, sep: byte, tail: Bytes)
    requires sep !in head
    ensures FirstIndex(head + [sep] + tail, sep) == |head|
  {
    if head != [] {
      FirstIndexAt(head[1..], sep, tail);
      assert (head + [sep] + tail)[1..] == head[1..] + [sep] + tail;
    }
  }

  /** A list of names can be read back from its joined form exactly when it is not empty and no name
      has a comma. */
  lemma {:induction false} NamesReadBack(names: seq<Bytes>)
    ensures Split(Join(names)) == names <==> names != [] && forall n | n in names :: COMMA !in n
  {
    if names != [] && forall n | n in names :: COMMA !in n {
      assert COMMA !in names[0];
      if |names| == 1 {
        assert FirstIndex(names[0], COMMA) == |names[0]|;
      } else {
        var rest := Join(names[1..]);
        NamesReadBack(names[1..]);
        FirstIndexAt(names[0], COMMA, rest);
        assert Join(names)[..|names[0]|] == names[0];
        assert Join(names)[|names[0]| + 1..] == rest;
      }
    }
  }

  lemma JoinCons(name: Bytes, names: seq<Bytes>)
    requires names != []
    ensures Join([name] + names) == name + [COMMA] + Join(names)
  {
    assert ([name] + names)[1..] == names;
  }

  /** Joining the pieces gives the string back, whatever it was. */
  lemma {:induction false} PiecesJoinBack(s: Bytes)
    ensures Join(Split(s)) == s
    decreases |s|
  {
    var i := FirstIndex(s, COMMA);
    if i < |s| {
      PiecesJoinBack(s[i + 1..]);
      JoinCons(s[..i], Split(s[i + 1..]));
      assert s == s[..i] + [COMMA] + s[i + 1..];
    }
  }

  // ---------------------------------------------------------------- canonical bytes

  function Be8(n: u64): (b: Bytes)
    ensures |b| == 8
  {
    BeBytes(n as nat, 8)
  }

  /** The fixed 36 bytes at the end. */
  function Tail(m: Manifest): (b: Bytes)
    ensures |b| == 36
  {
    [PIPE] + Be8(m.uptimeSecs) + [PIPE] + Be8(m.latencyMs) +
    [PIPE] + Be8(m.requestsTotal) + [PIPE] + Be8(m.signedAt)
  }

  function Canonical(m: Manifest): Bytes {
    m.nodeId + [PIPE] + Join(m.endpoints) + Tail(m)
  }

  /** What the signature covers. */
  datatype Signed = Signed(
    nodeId: Bytes,
    endpoints: seq<Bytes>,
    uptime: nat,
    latency: nat,
    requests: nat,
    signedAt: nat)

  function SignedFields(m: Manifest): Signed {
    Signed(m.nodeId, m.endpoints, m.uptimeSecs as nat, m.latencyMs as nat, m.requestsTotal as nat, m.signedAt as nat)
  }

  /** Reads canonical bytes: the fixed tail first, then up to the first bar, then between the commas. */
  function ReadCanonical(b: Bytes): Option<Signed> {
    if |b| < 36 then None
    else
      var head, tail := b[..|b| - 36], b[|b| - 36..];
      var i := FirstIndex(head, PIPE);
      if i == |head| then None
      else Some(Signed(head[..i], Split(head[i + 1..]),
                       BeValue(tail[1..9]), BeValue(tail[10..18]), BeValue(tail[19..27]), BeValue(tail[28..36])))
  }

  lemma TailReadsBack(m: Manifest)
    ensures var t := Tail(m);
            BeValue(t[1..9]) == m.uptimeSecs as nat && BeValue(t[10..18]) == m.latencyMs as nat &&
            BeValue(t[19..27]) == m.requestsTotal as nat && BeValue(t[28..36]) == m.signedAt as nat
  {
    var t := Tail(m);
    assert t[1..9] == Be8(m.uptimeSecs) && t[10..18] == Be8(m.latencyMs);
    assert t[19..27] == Be8(m.requestsTotal) && t[28..36] == Be8(m.signedAt);
    U64ReadsBack(m.uptimeSecs as nat);
    U64ReadsBack(m.latencyMs as nat);
    U64ReadsBack(m.requestsTotal as nat);
    U64ReadsBack(m.signedAt as nat);
  }

  /** All signed fields are recovered from the canonical bytes exactly when the endpoint list is one
      that its joined form determines. Names and raw integers may contain the bar. */
  lemma CanonicalReadsBack(m: Manifest)
    requires PIPE !in m.nodeId
    ensures ReadCanonical(Canonical(m)) == Some(SignedFields(m)) <==>
            m.endpoints != [] && forall n | n in m.endpoints :: COMMA !in n
  {
    var b := Canonical(m);
    var names := Join(m.endpoints);
    var head := m.nodeId + [PIPE] + names;
    assert b[..|b| - 36] == head && b[|b| - 36..] == Tail(m);
    FirstIndexAt(m.nodeId, PIPE, names);
    assert head[..|m.nodeId|] == m.nodeId && head[|m.nodeId| + 1..] == names;
    TailReadsBack(m);
    NamesReadBack(m.endpoints);
  }

  /** Equal canonical bytes mean equal signed fields. */
  lemma CanonicalInjective(m: Manifest, m': Manifest)
    requires PIPE !in m.nodeId && PIPE !in m'.nodeId
    requires m.endpoints != [] && forall n | n in m.endpoints :: COMMA !in n
    requires m'.endpoints != [] && forall n | n in m'.endpoints :: COMMA !in n
    ensures Canonical(m) == Canonical(m') <==> SignedFields(m) == SignedFields(m')
  {
    CanonicalReadsBack(m);
    CanonicalReadsBack(m');
  }

  /** Without those conditions different announcements share their signed bytes. */
  lemma CommasAndEmptyListsAreAmbiguous(m: Manifest)
    ensures Canonical(m.(endpoints := [[97, COMMA, 98]])) == Canonical(m.(endpoints := [[97], [98]]))
    ensures Canonical(m.(endpoints := [])) == Canonical(m.(endpoints := [[]]))
  {
    assert Join([[97], [98]]) == [97] + [COMMA] + Join([[98]]);
  }

  /** The order and the widths of the signed fields. */
  lemma CanonicalLayout(m: Manifest)
    ensures |Canonical(m)| == |m.nodeId| + 1 + |Join(m.endpoints)| + 36
    ensures var n := |Canonical(m)| - 36;
            var tail := Canonical(m)[n..];
            && Canonical(m)[..n] == m.nodeId + [124] + Join(m.endpoints)
            && tail[0] == 124 && BeValue(tail[1..9]) == m.uptimeSecs as nat
            && tail[9] == 124 && BeValue(tail[10..18]) == m.latencyMs as nat
            && tail[18] == 124 && BeValue(tail[19..27]) == m.requestsTotal as nat
            && tail[27] == 124 && BeValue(tail[28..36]) == m.signedAt as nat
  {
    var head := m.nodeId + [124] + Join(m.endpoints);
    assert Canonical(m)[..|head|] == head && Canonical(m)[|head|..] == Tail(m);
    TailReadsBack(m);
  }

  /** A comma between names and nothing else. */
  lemma JoinLayout()
    ensures Join([Ascii("a"), Ascii("b")]) == Ascii("a,b") && Join([Ascii("a")]) == Ascii("a") && Join([]) == []
  {
    assert Join([Ascii("a"), Ascii("b")]) == Ascii("a") + [COMMA] + Join([Ascii("b")]) == [97, 44, 98];
    assert Ascii("a,b") == [97, 44, 98];
  }

  method CanonicalBytes(m: Manifest) returns (out: Bytes)
    ensures out == Canonical(m)
  {
    out := m.nodeId;
    out := out + [PIPE];
    var names := JoinNames(m.endpoints);
    out := out + names;
    var b := ToBe(m.uptimeSecs as nat, 8);
    out := out + [PIPE] + b[..];
    b := ToBe(m.latencyMs as nat, 8);
    out := out + [PIPE] + b[..];
    b := ToBe(m.requestsTotal as nat, 8);
    out := out + [PIPE] + b[..];
    b := ToBe(m.signedAt as nat, 8);
    out := out + [PIPE] + b[..];
  }

  method JoinNames(names: seq<Bytes>) returns (out: Bytes)
    ensures out == Join(names)
  {
    if names == [] {
      return [];
    }
    out := names[|names| - 1];
    for i := |names| - 1 downto 0
      invariant out == Join(names[i..])
    {
      assert names[i..][1..] == names[i + 1..];
      out := names[i] + [COMMA] + out;
    }
    assert names[0..] == names;
  }

  // ---------------------------------------------------------------- the store

  /** The database keeps one manifest per node, in key order. */
  ghost predicate Ordered(db: seq<Manifest>) {
    forall i, j | 0 <= i < j < |db| :: LexLess(db[i].nodeId, db[j].nodeId)
  }

  function Find(db: seq<Manifest>, id: Bytes): Option<Manifest> {
    if db == [] then None
    else if db[0].nodeId == id then Some(db[0])
    else Find(db[1..], id)
  }

  lemma {:induction false} FindIsMembership(db: seq<Manifest>, id: Bytes)
    requires Ordered(db)
    ensures forall m :: Find(db, id) == Some(m) <==> m in db && m.nodeId == id
  {
    if db != [] {
      FindIsMembership(db[1..], id);
      if db[0].nodeId == id {
        forall m | m in db && m.nodeId == id
          ensures m == db[0]
        {
          var j :| 0 <= j < |db| && db[j] == m;
          LexTotal(id, id);
        }
      }
    }
  }

  class PeerStore {
    var db: seq<Manifest>

    ghost predicate Valid()
      reads this
    {
      Ordered(db)
    }

    constructor ()
      ensures Valid() && db == []
    {
      db := [];
    }

    /** Puts the manifest at its key's place; every other key keeps its entry. */
    method Upsert(m: Manifest)
      requires Valid()
      modifies this
      ensures Valid()
      ensures forall id :: Find(db, id) == if id == m.nodeId then Some(m) else Find(old(db), id)
    {
      var i := 0;
      while i < |db| && LexLess(db[i].nodeId, m.nodeId)
        invariant 0 <= i <= |db|
        invariant forall k | 0 <= k < i :: LexLess(db[k].nodeId, m.nodeId)
      {
        i := i + 1;
      }
      if i < |db| && db[i].nodeId == m.nodeId {
        ReplacedAt(db, i, m, db[i := m]);
        db := db[i := m];
      } else {
        InsertedInOrder(db, i, m);
        InsertedAt(db, i, m);
        db := db[..i] + [m] + db[i..];
      }
    }
  }

  lemma ReplacedAt(db: seq<Manifest>, i: nat, m: Manifest, after: seq<Manifest>)
    requires Ordered(db) && i < |db| && db[i].nodeId == m.nodeId
    requires after == db[i := m]
    ensures Ordered(after)
    ensures forall id :: Find(after, id) == if id == m.nodeId then Some(m) else Find(db, id)
  {
    LexTotal(m.nodeId, m.nodeId);
    assert after == db[..i] + [m] + db[i + 1..];
    forall id
      ensures Find(after, id) == if id == m.nodeId then Some(m) else Find(db, id)
    {
      FindAround(db, i, 1, m, id);
    }
  }

  lemma InsertedInOrder(db: seq<Manifest>, i: nat, m: Manifest)
    requires Ordered(db) && i <= |db|
    requires forall k | 0 <= k < i :: LexLess(db[k].nodeId, m.nodeId)
    requires i < |db| ==> db[i].nodeId != m.nodeId && !LexLess(db[i].nodeId, m.nodeId)
    ensures Ordered(db[..i] + [m] + db[i..])
  {
    forall k | i <= k < |db|
      ensures LexLess(m.nodeId, db[k].nodeId)
    {
      LexTotal(db[i].nodeId, m.nodeId);
      if i < k {
        LexTransitive(m.nodeId, db[i].nodeId, db[k].nodeId);
      }
    }
  }

  lemma InsertedAt(db: seq<Manifest>, i: nat, m: Manifest)
    requires i <= |db|
    requires forall k | 0 <= k < i :: LexLess(db[k].nodeId, m.nodeId)
    ensures forall id :: Find(db[..i] + [m] + db[i..], id) == if id == m.nodeId then Some(m) else Find(db, id)
  {
    LexTotal(m.nodeId, m.nodeId);
    forall id
      ensures Find(db[..i] + [m] + db[i..], id) == if id == m.nodeId then Some(m) else Find(db, id)
    {
      FindAround(db, i, 0, m, id);
    }
  }

  /** Putting `m` in the place of `n` entries of its own key is not seen under other keys. */
  lemma {:induction false} FindAround(db: seq<Manifest>, i: nat, n: nat, m: Manifest, id: Bytes)
    requires i + n <= |db| && n <= 1
    requires n == 1 ==> db[i].nodeId == m.nodeId
    requires forall k | 0 <= k < i :: db[k].nodeId != m.nodeId
    ensures Find(db[..i] + [m] + db[i + n..], id) == if id == m.nodeId then Some(m) else Find(db, id)
    decreases i
  {
    var after := db[..i] + [m] + db[i + n..];
    if i == 0 {
      assert after[1..] == db[n..];
    } else {
      FindAround(db[1..], i - 1, n, m, id);
      assert after[1..] == db[1..][..i - 1] + [m] + db[1..][i - 1 + n..];
    }
  }

  // ---------------------------------------------------------------- relay candidates

  function Providers(db: seq<Manifest>, target: Bytes, exclude: Bytes): seq<Bytes> {
    if db == [] then []
    else
      (if db[0].nodeId != exclude && target in db[0].endpoints then [db[0].nodeId] else []) +
      Providers(db[1..], target, exclude)
  }

  function Others(db: seq<Manifest>, exclude: Bytes): seq<Bytes> {
    if db == [] then []
    else (if db[0].nodeId != exclude then [db[0].nodeId] else []) + Others(db[1..], exclude)
  }

  /** Whom a relay asks, in this order: the announced holders of the target, or everyone. */
  function Candidates(db: seq<Manifest>, target: Bytes, self: Bytes): seq<Bytes> {
    var holders := Providers(db, target, self);
    if holders == [] then Others(db, self) else holders
  }

  ghost predicate Holds(db: seq<Manifest>, target: Bytes, self: Bytes, id: Bytes) {
    id != self && exists m | m in db :: m.nodeId == id && target in m.endpoints
  }

  ghost predicate Knows(db: seq<Manifest>, self: Bytes, id: Bytes) {
    id != self && exists m | m in db :: m.nodeId == id
  }

  lemma {:induction false} ProvidersHold(db: seq<Manifest>, target: Bytes, self: Bytes, id: Bytes)
    ensures id in Providers(db, target, self) <==> Holds(db, target, self, id)
  {
    if db != [] {
      ProvidersHold(db[1..], target, self, id);
      assert db == [db[0]] + db[1..];
    }
  }

  lemma {:induction false} OthersKnown(db: seq<Manifest>, self: Bytes, id: Bytes)
    ensures id in Others(db, self) <==> Knows(db, self, id)
  {
    if db != [] {
      OthersKnown(db[1..], self, id);
      assert db == [db[0]] + db[1..];
    }
  }

  /** The candidates are exactly the holders of the target other than the node itself when there is
      one, and otherwise exactly the other known nodes. */
  lemma CandidatesExact(db: seq<Manifest>, target: Bytes, self: Bytes, id: Bytes)
    ensures id in Candidates(db, target, self) <==>
            if exists other :: Holds(db, target, self, other) then Holds(db, target, self, id) else Knows(db, self, id)
  {
    ProvidersHold(db, target, self, id);
    OthersKnown(db, self, id);
    var holders := Providers(db, target, self);
    if holders == [] {
      forall other ensures !Holds(db, target, self, other) { ProvidersHold(db, target, self, other); }
    } else {
      ProvidersHold(db, target, self, holders[0]);
    }
  }

  lemma {:induction false} NoMoreThanKnown(db: seq<Manifest>, target: Bytes, self: Bytes)
    ensures |Providers(db, target, self)| <= |Others(db, self)| <= |db|
  {
    if db != [] {
      NoMoreThanKnown(db[1..], target, self);
    }
  }

  ghost predicate Ascending(ids: seq<Bytes>) {
    forall i, j | 0 <= i < j < |ids| :: LexLess(ids[i], ids[j])
  }

  lemma HeadIsLeast(db: seq<Manifest>, target: Bytes, self: Bytes, id: Bytes)
    requires Ordered(db) && db != []
    requires id in Providers(db[1..], target, self) || id in Others(db[1..], self)
    ensures LexLess(db[0].nodeId, id)
  {
    ProvidersHold(db[1..], target, self, id);
    OthersKnown(db[1..], self, id);
    var m :| m in db[1..] && m.nodeId == id;
    var j :| 0 <= j < |db[1..]| && db[1..][j] == m;
    assert db[j + 1] == m;
  }

  lemma AscendingCons(id: Bytes, ids: seq<Bytes>)
    requires Ascending(ids) && forall x | x in ids :: LexLess(id, x)
    ensures Ascending([id] + ids)
  {
    assert forall i | 0 <= i < |ids| :: ids[i] in ids;
  }

  lemma {:induction false} PickedInOrder(db: seq<Manifest>, target: Bytes, self: Bytes)
    requires Ordered(db)
    ensures Ascending(Providers(db, target, self)) && Ascending(Others(db, self))
  {
    if db != [] {
      var holders, others := Providers(db[1..], target, self), Others(db[1..], self);
      PickedInOrder(db[1..], target, self);
      forall id | id in holders || id in others
        ensures LexLess(db[0].nodeId, id)
      {
        HeadIsLeast(db, target, self, id);
      }
      AscendingCons(db[0].nodeId, holders);
      AscendingCons(db[0].nodeId, others);
      assert [] + holders == holders && [] + others == others;
    }
  }

  /** The candidates come in key order, so no node is asked twice. */
  lemma CandidatesInKeyOrder(db: seq<Manifest>, target: Bytes, self: Bytes)
    requires Ordered(db)
    ensures Ascending(Candidates(db, target, self))
    ensures forall i, j | 0 <= i < j < |Candidates(db, target, self)| ::
      Candidates(db, target, self)[i] != Candidates(db, target, self)[j]
  {
    PickedInOrder(db, target, self);
    var cs := Candidates(db, target, self);
    forall i, j | 0 <= i < j < |cs| ensures cs[i] != cs[j] { LexTotal(cs[i], cs[i]); }
  }

  // ---------------------------------------------------------------- gossip

  /** What the listener sees: a message that is or is not a manifest, a change of neighbours, or the
      error that ends the stream. `now` is the clock when the message is handled. */
  datatype Event = Received(content: Option<Manifest>, now: u64) | Neighbours | StreamError

  /** Signature check: node id, message, signature. */
  type Verifier = (Bytes, Bytes, Bytes) -> bool

  predicate Genuine(verify: Verifier, m: Manifest) {
    verify(m.nodeId, Canonical(m), m.signature)
  }

  /** The events before the stream breaks. */
  function Heard(events: seq<Event>): seq<Event> {
    if events == [] || events[0].StreamError? then [] else [events[0]] + Heard(events[1..])
  }

  predicate Accepts(verify: Verifier, e: Event) {
    e.Received? && e.content.Some? && Genuine(verify, e.content.value)
  }

  /** The last genuine manifest of a node, stamped with the time it was seen. */
  function LastAccepted(verify: Verifier, events: seq<Event>, id: Bytes): Option<Manifest> {
    if events == [] then None
    else
      var e := events[|events| - 1];
      if Accepts(verify, e) && e.content.value.nodeId == id then Some(e.content.value.(seenAt := e.now))
      else LastAccepted(verify, events[..|events| - 1], id)
  }

  /** A manifest of the node whose signature the node's id verifies over the canonical bytes. */
  ghost predicate AnnouncedBy(verify: Verifier, e: Event, id: Bytes) {
    e.Received? && e.content.Some? && e.content.value.nodeId == id &&
    verify(id, Canonical(e.content.value), e.content.value.signature)
  }

  /** It is the one accepted announcement of the node with no later one, with only the time stamp changed. */
  lemma {:induction false} LastAcceptedIsLast(verify: Verifier, events: seq<Event>, id: Bytes)
    ensures var last := LastAccepted(verify, events, id);
            if last.None? then forall i | 0 <= i < |events| :: !AnnouncedBy(verify, events[i], id)
            else exists i | 0 <= i < |events| ::
              AnnouncedBy(verify, events[i], id) && last.value == events[i].content.value.(seenAt := events[i].now) &&
              forall j | i < j < |events| :: !AnnouncedBy(verify, events[j], id)
    ensures var last := LastAccepted(verify, events, id);
            last.Some? ==> last.value.nodeId == id && verify(id, Canonical(last.value), last.value.signature)
  {
    if events != [] {
      var n := |events| - 1;
      LastAcceptedIsLast(verify, events[..n], id);
      var before := LastAccepted(verify, events[..n], id);
      assert AnnouncedBy(verify, events[n], id) || LastAccepted(verify, events, id) == before;
    }
  }

  /** Every manifest in the store either was there or is one that its node's id verifies. */
  ghost predicate OnlyVerified(verify: Verifier, before: seq<Manifest>, db: seq<Manifest>) {
    forall id :: Find(db, id).Some? ==>
      || Find(db, id) == Find(before, id)
      || (Find(db, id).value.nodeId == id && verify(id, Canonical(Find(db, id).value), Find(db, id).value.signature))
  }

  lemma StoredIsVerified(verify: Verifier, events: seq<Event>, before: seq<Manifest>, db: seq<Manifest>)
    requires forall id :: Find(db, id) == OrElse(LastAccepted(verify, events, id), Find(before, id))
    ensures OnlyVerified(verify, before, db)
  {
    forall id
      ensures Find(db, id).Some? ==>
                || Find(db, id) == Find(before, id)
                || (Find(db, id).value.nodeId == id &&
                    verify(id, Canonical(Find(db, id).value), Find(db, id).value.signature))
    {
      LastAcceptedIsLast(verify, events, id);
    }
  }

  function OrElse<T>(a: Option<T>, b: Option<T>): Option<T> { if a.Some? then a else b }

  /** What is heard is what comes before the first error. */
  lemma {:induction false} HeardUntilError(events: seq<Event>, i: nat)
    requires i <= |events| && forall k | 0 <= k < i :: !events[k].StreamError?
    ensures i == |events| || events[i].StreamError? ==> Heard(events) == events[..i]
  {
    if i > 0 {
      HeardUntilError(events[1..], i - 1);
      assert events[..i] == [events[0]] + events[1..][..i - 1];
    }
  }

  /** After any run of the listener the store holds, for every node, the last genuine manifest heard
      from it, or what it held before when there was none. */
  method ListenAnnounces(events: seq<Event>, store: PeerStore, stats: Stats.Stats, verify: Verifier)
    requires store.Valid()
    modifies store, stats`activePeers
    ensures store.Valid()
    ensures forall id :: Find(store.db, id) == OrElse(LastAccepted(verify, Heard(events), id), Find(old(store.db), id))
    ensures if exists e | e in Heard(events) :: Accepts(verify, e)
            then stats.activePeers == |store.db| else stats.activePeers == old(stats.activePeers)
    ensures OnlyVerified(verify, old(store.db), store.db)
  {
    var i := 0;
    while i < |events| && !events[i].StreamError?
      invariant 0 <= i <= |events| && store.Valid()
      invariant forall k | 0 <= k < i :: !events[k].StreamError?
      invariant forall id ::
        Find(store.db, id) == OrElse(LastAccepted(verify, events[..i], id), Find(old(store.db), id))
      invariant if exists e | e in events[..i] :: Accepts(verify, e)
                then stats.activePeers == |store.db| else stats.activePeers == old(stats.activePeers)
    {
      assert events[..i + 1][..i] == events[..i];
      assert events[..i + 1] == events[..i] + [events[i]];
      match events[i] {
        case Received(content, now) =>
          if content.Some? {
            var m := content.value;
            var canonical := CanonicalBytes(m);
            if verify(m.nodeId, canonical, m.signature) {
              m := m.(seenAt := now);
              store.Upsert(m);
              stats.SetActivePeers(|store.db|);
              assert events[i] in events[..i + 1];
            }
          }
        case Neighbours =>
      }
      i := i + 1;
    }
    HeardUntilError(events, i);
    StoredIsVerified(verify, Heard(events), old(store.db), store.db);
  }
}
