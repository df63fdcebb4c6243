/** Properties of whole handshake runs: what is conserved, what cannot be replayed, and that an honest
    handshake succeeds on both sides. */
module HandshakeRuns {
  import opened Bytes
  import opened Wrappers
  import opened Identity
  import opened Messages
  import opened Handshake

  // One call on a node's table of pending handshakes. The bytes are whatever the network delivers.
  datatype Action =
    | SendProbe(addr: Text, nonce: Digest, nowMs: u64)
    | OnProbe(addr: Text, b: bytes, nonce: Digest, nowMs: u64)
    | OnAck(addr: Text, b: bytes, random: Digest, nowMs: u64)
    | OnFinish(addr: Text, b: bytes, nowMs: u64)
    | OnFinishAck(addr: Text, b: bytes, nowMs: u64)
    | EvictOld(nowMs: u64)
    | Remove(addr: Text)

  function Perform(c: Primitives, p: Pending, id: NodeIdentity, a: Action): Pending {
    match a
    case SendProbe(addr, nonce, nowMs) => BuildProbe(p, addr, id, nonce, nowMs).pending
    case OnProbe(addr, b, nonce, nowMs) => AnswerProbe(c, p, addr, b, id, nonce, nowMs).pending
    case OnAck(addr, b, random, nowMs) => AnswerAck(c, p, addr, b, id, random, nowMs).pending
    case OnFinish(addr, b, nowMs) => AnswerFinish(c, p, addr, b, id, nowMs).pending
    case OnFinishAck(addr, b, nowMs) => AnswerFinishAck(c, p, addr, b, nowMs).pending
    case EvictOld(nowMs) => Evict(p, nowMs)
    case Remove(addr) => p - {addr}
  }

  // A call, under the identity the node had when it was made.
  datatype Call = Call(id: NodeIdentity, action: Action)

  function PerformAll(c: Primitives, p: Pending, calls: seq<Call>): Pending
    decreases |calls|
  {
    if |calls| == 0 then p else PerformAll(c, Perform(c, p, calls[0].id, calls[0].action), calls[1..])
  }

  // ── Conservation ──────────────────────────────────────────────────────────

  datatype Tally = Tally(
    created: nat, sessions: nat, evicted: nat, removed: nat, overwritten: nat, discarded: nat)
  {
    function Plus(t: Tally): Tally {
      Tally(created + t.created, sessions + t.sessions, evicted + t.evicted, removed + t.removed,
            overwritten + t.overwritten, discarded + t.discarded)
    }

    // Entries that left the table.
    function Gone(): nat {
      sessions + evicted + removed + overwritten + discarded
    }
  }

  const NOTHING := Tally(0, 0, 0, 0, 0, 0)

  // A new entry, which may take the place of one already there.
  function Created(p: Pending, addr: Text): Tally {
    Tally(1, 0, 0, 0, if addr in p then 1 else 0, 0)
  }

  // An entry that was looked up and so left the table, with or without a session to show for it.
  function Consumed<T>(p: Pending, addr: Text, r: Result<T, GossipError>): Tally {
    if addr !in p then NOTHING else if r.Success? then NOTHING.(sessions := 1) else NOTHING.(discarded := 1)
  }

  function Count(c: Primitives, p: Pending, id: NodeIdentity, a: Action): Tally {
    match a
    case SendProbe(addr, _, _) => Created(p, addr)
    case OnProbe(addr, b, nonce, nowMs) =>
      if AnswerProbe(c, p, addr, b, id, nonce, nowMs).result.Success? then Created(p, addr) else NOTHING
    case OnAck(_, _, _, _) => NOTHING
    case OnFinish(addr, b, nowMs) =>
      if CheckFinish(b, nowMs).Failure? then NOTHING
      else Consumed(p, addr, AnswerFinish(c, p, addr, b, id, nowMs).result)
    case OnFinishAck(addr, b, nowMs) =>
      if CheckFinishAck(b, nowMs).Failure? then NOTHING
      else Consumed(p, addr, AnswerFinishAck(c, p, addr, b, nowMs).result)
    case EvictOld(nowMs) => NOTHING.(evicted := |TimedOut(p, nowMs)|)
    case Remove(addr) => NOTHING.(removed := if addr in p then 1 else 0)
  }

  function CountAll(c: Primitives, p: Pending, calls: seq<Call>): Tally
    decreases |calls|
  {
    if |calls| == 0 then NOTHING
    else Count(c, p, calls[0].id, calls[0].action).Plus(
           CountAll(c, Perform(c, p, calls[0].id, calls[0].action), calls[1..]))
  }

  lemma PutSize(p: Pending, addr: Text, ctx: HandshakeContext)
    ensures |p[addr := ctx]| == if addr in p then |p| else |p| + 1
  {
    if addr in p {
      assert p[addr := ctx].Keys == p.Keys;
    } else {
      assert p[addr := ctx].Keys == p.Keys + {addr};
    }
  }

  lemma DropSize(p: Pending, gone: set<Text>)
    requires gone <= p.Keys
    ensures |p - gone| == |p| - |gone|
  {
    assert (p - gone).Keys == p.Keys - gone;
    assert p.Keys == (p.Keys - gone) + gone;
  }

  lemma DropOneSize(p: Pending, addr: Text)
    ensures |p - {addr}| == if addr in p then |p| - 1 else |p|
  {
    if addr in p {
      DropSize(p, {addr});
    } else {
      assert p - {addr} == p;
    }
  }

  // Building and answering put one entry at their address and touch no other.
  lemma BuildPuts(p: Pending, addr: Text, id: NodeIdentity, nonce: Digest, nowMs: u64)
    ensures |BuildProbe(p, addr, id, nonce, nowMs).pending| == if addr in p then |p| else |p| + 1
  {
    hide EncodeProbe;
    PutSize(p, addr, BuildProbe(p, addr, id, nonce, nowMs).pending[addr]);
  }

  lemma AnswerPuts(c: Primitives, p: Pending, addr: Text, b: bytes, id: NodeIdentity, d: Digest, nowMs: u64)
    ensures var s := AnswerProbe(c, p, addr, b, id, d, nowMs);
            |s.pending| == if addr in p || s.result.Failure? then |p| else |p| + 1
    ensures |AnswerAck(c, p, addr, b, id, d, nowMs).pending| == |p|
  {
    hide CheckProbe, CheckAck, EncodeAck, EncodeFinish;
    var s1, s2 := AnswerProbe(c, p, addr, b, id, d, nowMs), AnswerAck(c, p, addr, b, id, d, nowMs);
    if s1.result.Success? {
      PutSize(p, addr, s1.pending[addr]);
    }
    if s2.result.Success? {
      PutSize(p, addr, s2.pending[addr]);
    }
  }

  // Answering a Finish or a FinishAck that passes the first checks takes the entry, if any, away.
  lemma StepTakes(c: Primitives, p: Pending, addr: Text, b: bytes, id: NodeIdentity, nowMs: u64)
    ensures |AnswerFinish(c, p, addr, b, id, nowMs).pending| ==
            if CheckFinish(b, nowMs).Success? && addr in p then |p| - 1 else |p|
    ensures |AnswerFinishAck(c, p, addr, b, nowMs).pending| ==
            if CheckFinishAck(b, nowMs).Success? && addr in p then |p| - 1 else |p|
  {
    hide CheckFinish, CheckFinishAck, FinishReply, Confirm;
    DropOneSize(p, addr);
  }

  lemma SendProbeCreates(c: Primitives, p: Pending, id: NodeIdentity, a: Action)
    requires a.SendProbe?
    ensures Perform(c, p, id, a) == BuildProbe(p, a.addr, id, a.nonce, a.nowMs).pending
    ensures Count(c, p, id, a) == Created(p, a.addr)
  {
    hide Created, BuildProbe, AnswerProbe, AnswerAck, AnswerFinish, AnswerFinishAck, CheckFinish, CheckFinishAck;
  }

  lemma SendProbeBalances(c: Primitives, p: Pending, id: NodeIdentity, a: Action)
    requires a.SendProbe?
    ensures |Perform(c, p, id, a)| + Count(c, p, id, a).Gone() == |p| + Count(c, p, id, a).created
  {
    hide Perform, Count, BuildProbe;
    SendProbeCreates(c, p, id, a);
    BuildPuts(p, a.addr, id, a.nonce, a.nowMs);
  }

  lemma OnProbeBalances(c: Primitives, p: Pending, id: NodeIdentity, a: Action)
    requires a.OnProbe?
    ensures |Perform(c, p, id, a)| + Count(c, p, id, a).Gone() == |p| + Count(c, p, id, a).created
  {
    hide AnswerProbe, AnswerAck, AnswerFinish, AnswerFinishAck, CheckFinish, CheckFinishAck;
    AnswerPuts(c, p, a.addr, a.b, id, a.nonce, a.nowMs);
  }

  lemma OnAckBalances(c: Primitives, p: Pending, id: NodeIdentity, a: Action)
    requires a.OnAck?
    ensures |Perform(c, p, id, a)| + Count(c, p, id, a).Gone() == |p| + Count(c, p, id, a).created
  {
    hide AnswerProbe, AnswerAck, AnswerFinish, AnswerFinishAck, CheckFinish, CheckFinishAck;
    AnswerPuts(c, p, a.addr, a.b, id, a.random, a.nowMs);
  }

  lemma OnFinishBalances(c: Primitives, p: Pending, id: NodeIdentity, a: Action)
    requires a.OnFinish?
    ensures |Perform(c, p, id, a)| + Count(c, p, id, a).Gone() == |p| + Count(c, p, id, a).created
  {
    hide AnswerProbe, AnswerAck, AnswerFinish, AnswerFinishAck, CheckFinish, CheckFinishAck;
    StepTakes(c, p, a.addr, a.b, id, a.nowMs);
  }

  lemma OnFinishAckBalances(c: Primitives, p: Pending, id: NodeIdentity, a: Action)
    requires a.OnFinishAck?
    ensures |Perform(c, p, id, a)| + Count(c, p, id, a).Gone() == |p| + Count(c, p, id, a).created
  {
    hide AnswerProbe, AnswerAck, AnswerFinish, AnswerFinishAck, CheckFinish, CheckFinishAck;
    StepTakes(c, p, a.addr, a.b, id, a.nowMs);
  }

  lemma EvictOldBalances(c: Primitives, p: Pending, id: NodeIdentity, a: Action)
    requires a.EvictOld?
    ensures |Perform(c, p, id, a)| + Count(c, p, id, a).Gone() == |p| + Count(c, p, id, a).created
  {
    DropSize(p, TimedOut(p, a.nowMs));
  }

  lemma RemoveBalances(c: Primitives, p: Pending, id: NodeIdentity, a: Action)
    requires a.Remove?
    ensures |Perform(c, p, id, a)| + Count(c, p, id, a).Gone() == |p| + Count(c, p, id, a).created
  {
    DropOneSize(p, a.addr);
  }

  lemma CallBalances(c: Primitives, p: Pending, id: NodeIdentity, a: Action)
    ensures |Perform(c, p, id, a)| + Count(c, p, id, a).Gone() == |p| + Count(c, p, id, a).created
  {
    hide Perform, Count;
    match a
    case SendProbe(_, _, _) => SendProbeBalances(c, p, id, a);
    case OnProbe(_, _, _, _) => OnProbeBalances(c, p, id, a);
    case OnAck(_, _, _, _) => OnAckBalances(c, p, id, a);
    case OnFinish(_, _, _) => OnFinishBalances(c, p, id, a);
    case OnFinishAck(_, _, _) => OnFinishAckBalances(c, p, id, a);
    case EvictOld(_) => EvictOldBalances(c, p, id, a);
    case Remove(_) => RemoveBalances(c, p, id, a);
  }

  // What is counted: an entry is created by each probe sent or answered, a session is one returned, the evicted
  // are those over ten seconds old, and the overwritten those whose address gets a new entry.
  lemma CountedExactly(c: Primitives, p: Pending, id: NodeIdentity, a: Action)
    ensures var t := Count(c, p, id, a);
            && (t.created == 1 <==>
                a.SendProbe? || (a.OnProbe? && AnswerProbe(c, p, a.addr, a.b, id, a.nonce, a.nowMs).result.Success?))
            && (t.sessions == 1 <==>
                (a.OnFinish? && AnswerFinish(c, p, a.addr, a.b, id, a.nowMs).result.Success?) ||
                (a.OnFinishAck? && AnswerFinishAck(c, p, a.addr, a.b, a.nowMs).result.Success?))
            && t.created <= 1 && t.sessions <= 1
            && t.evicted == (if a.EvictOld? then |set addr | addr in p && Age(a.nowMs, p[addr].sentAtMs) > 10_000| else 0)
            && t.removed == (if a.Remove? && a.addr in p then 1 else 0)
            && t.overwritten == (if t.created == 1 && a.addr in p then 1 else 0)
  {
    hide AnswerProbe, AnswerAck, FinishReply, Confirm, CheckFinish, CheckFinishAck, ValidUtf8;
    if a.EvictOld? {
      assert TimedOut(p, a.nowMs) == set addr | addr in p && Age(a.nowMs, p[addr].sentAtMs) > 10_000;
    }
  }

  // Conservation: over any run, every probe built and every ack built is accounted for, as an entry
  // still pending, a session, or an entry evicted, removed, overwritten or discarded on failure.
  lemma {:induction false} PendingConserved(c: Primitives, p: Pending, calls: seq<Call>)
    ensures var t := CountAll(c, p, calls); |PerformAll(c, p, calls)| + t.Gone() == |p| + t.created
    decreases |calls|
  {
    if |calls| > 0 {
      CallBalances(c, p, calls[0].id, calls[0].action);
      hide Perform, Count;
      PendingConserved(c, Perform(c, p, calls[0].id, calls[0].action), calls[1..]);
    }
  }

  // ── No second session ─────────────────────────────────────────────────────

  // A server entry at the address, that a Finish could turn into a session.
  predicate AwaitsFinish(p: Pending, addr: Text) {
    addr in p && p[addr].AckSent?
  }

  // A client entry at the address, that an Ack and a FinishAck could turn into a session.
  predicate AwaitsServer(p: Pending, addr: Text) {
    addr in p && (p[addr].ProbeSent? || p[addr].FinishSent?)
  }

  // A session takes an entry of the right role for its address with it, and nothing else.
  lemma SessionConsumesEntry(c: Primitives, p: Pending, addr: Text, b: bytes, id: NodeIdentity, nowMs: u64)
    ensures var s := AnswerFinish(c, p, addr, b, id, nowMs);
            s.result.Success? ==> AwaitsFinish(p, addr) && s.pending == p - {addr}
    ensures var s := AnswerFinishAck(c, p, addr, b, nowMs);
            s.result.Success? ==> addr in p && p[addr].FinishSent? && s.pending == p - {addr}
  {
  }

  lemma RolesArise(c: Primitives, p: Pending, id: NodeIdentity, a: Action, addr: Text)
    ensures AwaitsFinish(Perform(c, p, id, a), addr) ==> AwaitsFinish(p, addr) || (a.OnProbe? && a.addr == addr)
    ensures AwaitsServer(Perform(c, p, id, a), addr) ==> AwaitsServer(p, addr) || (a.SendProbe? && a.addr == addr)
  {
    hide FinishReply, Confirm, CheckProbe, CheckAck, CheckFinish, CheckFinishAck, EncodeProbe, EncodeAck, EncodeFinish;
  }

  // Nothing but a probe opens a way to a session: a run in which no probe arrives from an address leaves
  // every Finish from it refused if none was awaited before, and a run in which none is sent to it
  // likewise leaves every FinishAck refused. So replaying either never gives a second session.
  lemma {:induction false} NoSecondSession(c: Primitives, p: Pending, calls: seq<Call>, addr: Text)
    ensures var p' := PerformAll(c, p, calls);
            !AwaitsFinish(p, addr) && (forall k | k in calls :: !(k.action.OnProbe? && k.action.addr == addr)) ==>
              !AwaitsFinish(p', addr) &&
              forall b: bytes, id: NodeIdentity, nowMs: u64 :: AnswerFinish(c, p', addr, b, id, nowMs).result.Failure?
    ensures var p' := PerformAll(c, p, calls);
            !AwaitsServer(p, addr) && (forall k | k in calls :: !(k.action.SendProbe? && k.action.addr == addr)) ==>
              !AwaitsServer(p', addr) &&
              forall b: bytes, nowMs: u64 :: AnswerFinishAck(c, p', addr, b, nowMs).result.Failure?
    decreases |calls|
  {
    hide FinishReply, Confirm, CheckFinish, CheckFinishAck, Perform;
    if |calls| > 0 {
      RolesArise(c, p, calls[0].id, calls[0].action, addr);
      NoSecondSession(c, Perform(c, p, calls[0].id, calls[0].action), calls[1..], addr);
    }
  }

  // ── The honest handshake ──────────────────────────────────────────────────

  // The KEM works for this server: its public key encodes, and what any client encapsulates to it
  // decapsulates to the same secret and ciphertext bytes.
  ghost predicate KemWorks(c: Primitives, server: NodeIdentity) {
    && c.kemPublicJson(server.kemSeed).Some?
    && forall random: Digest ::
         var e := c.encapsulate(c.kemPublicJson(server.kemSeed).value, random);
         e.Some? && c.decapsulate(server.kemSeed, e.value.json) ==
                    Some(Decapsulation(e.value.serialized, e.value.secret))
  }

  // Both clocks stay within the freshness window of each message.
  predicate Fresh(sentMs: u64, receivedMs: u64) {
    Age(receivedMs, sentMs) <= FRESHNESS_MS
  }

  // One handshake between two nodes: who they are, the addresses they know each other by, the random
  // values drawn and the clock readings at the five steps.
  datatype Scene = Scene(
    client: NodeIdentity, server: NodeIdentity, toServer: Text, toClient: Text,
    clientNonce: Digest, serverNonce: Digest, random: Digest, t0: u64, t1: u64, t2: u64, t3: u64, t4: u64)

  // Its five steps.
  datatype Steps = Steps(
    probe: Step<bytes>, ack: Step<bytes>, finish: Step<bytes>, reply: Step<Reply>, confirmed: Step<SessionRecord>)

  function Sent(s: Step<bytes>): bytes {
    if s.result.Success? then s.result.value else []
  }

  function Answered(s: Step<Reply>): bytes {
    if s.result.Success? then s.result.value.finishAck else []
  }

  // Each message is delivered as it was sent. The tables the steps find are given: the client's when it
  // starts and when the Ack and the FinishAck arrive, the server's when the Probe and the Finish do.
  predicate Delivered(c: Primitives, s: Scene, x: Steps, cp0: Pending, sp0: Pending, cp1: Pending, sp1: Pending,
                      cp2: Pending)
  {
    && x.probe == BuildProbe(cp0, s.toServer, s.client, s.clientNonce, s.t0)
    && x.ack == AnswerProbe(c, sp0, s.toClient, Sent(x.probe), s.server, s.serverNonce, s.t1)
    && x.finish == AnswerAck(c, cp1, s.toServer, Sent(x.ack), s.client, s.random, s.t2)
    && x.reply == AnswerFinish(c, sp1, s.toClient, Sent(x.finish), s.server, s.t3)
    && x.confirmed == AnswerFinishAck(c, cp2, s.toServer, Answered(x.reply), s.t4)
  }

  // The entry at the address is still there, unchanged.
  predicate Kept(addr: Text, before: Pending, after: Pending) {
    addr in before && addr in after && after[addr] == before[addr]
  }

  // The freshness check of every handshake message has one side: it fails exactly for messages from too long
  // ago. The documented |now - timestamp| > 30 s is met exactly when the message is not from further ahead.
  lemma FreshnessExactly(magic: bytes, expected: bytes, version: byte, timestampMs: u64, nowMs: u64)
    ensures var stale := CheckHeader(magic, expected, version, timestampMs, nowMs) == Fail(HandshakeError(OutOfWindow));
            var wellFormed := magic == expected && version == 1;
            var distance := if nowMs >= timestampMs then nowMs - timestampMs else timestampMs - nowMs;
            && (stale <==> wellFormed && nowMs - timestampMs > FRESHNESS_MS)
            && ((stale <==> wellFormed && distance > FRESHNESS_MS) <==>
                !(wellFormed && timestampMs - nowMs > FRESHNESS_MS))
            && (wellFormed && timestampMs >= nowMs ==>
                CheckHeader(magic, expected, version, timestampMs, nowMs) == Pass)
  {
  }

  lemma ProbeAccepted(addr: Text, client: NodeIdentity, nonce: Digest, sentMs: u64, receivedMs: u64)
    requires Fresh(sentMs, receivedMs)
    ensures var m := HandshakeProbe(HANDSHAKE_PROBE_MAGIC, 1, nonce, addr, client.nodeId, sentMs);
            CheckProbe(EncodeProbe(m), receivedMs) == Success(m)
  {
    var m := HandshakeProbe(HANDSHAKE_PROBE_MAGIC, 1, nonce, addr, client.nodeId, sentMs);
    ProbeRoundTrip(m, []);
    assert EncodeProbe(m) + [] == EncodeProbe(m);
  }

  lemma AckAccepted(m: HandshakeAck, receivedMs: u64)
    requires m.magic == HANDSHAKE_ACK_MAGIC && m.version == 1 && |m.sigKey| == SIG_PK_LEN
    requires Fresh(m.timestampUnixMs, receivedMs)
    ensures CheckAck(EncodeAck(m), receivedMs) == Success(m)
  {
    AckRoundTrip(m, []);
    assert EncodeAck(m) + [] == EncodeAck(m);
  }

  lemma FinishAccepted(m: HandshakeFinish, receivedMs: u64)
    requires m.magic == HANDSHAKE_FINISH_MAGIC && m.version == 1 && |m.clientSigKey| == SIG_PK_LEN
    requires Fresh(m.timestampUnixMs, receivedMs)
    ensures CheckFinish(EncodeFinish(m), receivedMs) == Success(m)
  {
    FinishRoundTrip(m, []);
    assert EncodeFinish(m) + [] == EncodeFinish(m);
  }

  lemma FinishAckAccepted(m: HandshakeFinishAck, receivedMs: u64)
    requires m.magic == HANDSHAKE_FINISH_ACK_MAGIC && m.version == 1
    requires Fresh(m.timestampUnixMs, receivedMs)
    ensures CheckFinishAck(EncodeFinishAck(m), receivedMs) == Success(m)
  {
    FinishAckRoundTrip(m, []);
    assert EncodeFinishAck(m) + [] == EncodeFinishAck(m);
  }

  // Every step of an untampered handshake succeeds, whatever else the two nodes do meanwhile, as long as
  // their two pending entries are left alone. Both sides end with the entry gone, the same session id and
  // transcript hash, and each other's node id and signing key; and the session id is the one the client's
  // own stored fields derive.
  lemma HonestHandshake(c: Primitives, s: Scene, x: Steps, cp0: Pending, sp0: Pending, cp1: Pending, sp1: Pending,
                        cp2: Pending)
    requires KemWorks(c, s.server) && SignsCorrectly(c, s.server.sigSeed)
    requires Fresh(s.t0, s.t1) && Fresh(s.t1, s.t2) && Fresh(s.t2, s.t3) && Fresh(s.t3, s.t4)
    requires Delivered(c, s, x, cp0, sp0, cp1, sp1, cp2)
    requires Kept(s.toServer, x.probe.pending, cp1) && Kept(s.toClient, x.ack.pending, sp1)
    requires Kept(s.toServer, x.finish.pending, cp2)
    ensures x.probe.result.Success? && x.ack.result.Success? && x.finish.result.Success?
    ensures x.reply.result.Success? && x.confirmed.result.Success?
    ensures s.toServer !in x.confirmed.pending && s.toClient !in x.reply.pending
    ensures var ours, theirs := x.confirmed.result.value, x.reply.result.value.session;
            && ours.sessionId == theirs.sessionId && ours.transcriptHash == theirs.transcriptHash
            && ours.peerNodeId == s.server.nodeId && ours.peerSigPublicKey == s.server.SigKey(c)
            && theirs.peerNodeId == s.client.nodeId && theirs.peerSigPublicKey == s.client.SigKey(c)
            && ours.peerAddr == s.toServer && theirs.peerAddr == s.toClient
            && var e := cp2[s.toServer];
               e.FinishSent? && ours.sessionId ==
               DeriveSessionId(c, e.secret, e.clientNonce, e.serverNonce, e.kemCiphertext, e.serverNodeId)
  {
    hide EncodeProbe, EncodeAck, EncodeFinish, EncodeFinishAck, CheckProbe, CheckAck, CheckFinish, CheckFinishAck,
         DeriveSessionId, TranscriptHash, ServerMac;
    ProbeAccepted(s.toServer, s.client, s.clientNonce, s.t0, s.t1);
    var json := c.kemPublicJson(s.server.kemSeed).value;
    AckAccepted(HandshakeAck(HANDSHAKE_ACK_MAGIC, 1, s.clientNonce, s.serverNonce, json, s.server.SigKey(c),
                             s.server.nodeId, s.t1), s.t2);
    var e := c.encapsulate(json, s.random).value;
    FinishAccepted(HandshakeFinish(HANDSHAKE_FINISH_MAGIC, 1, e.json, s.client.SigKey(c), s.client.nodeId, s.t2), s.t3);
    var hash := TranscriptHash(c, Sent(x.probe), Sent(x.ack), Sent(x.finish));
    var sessionId := DeriveSessionId(c, e.secret, s.clientNonce, s.serverNonce, e.serialized, s.server.nodeId);
    var signature := s.server.Sign(c, hash, SIG_CTX_HANDSHAKE).value;
    FinishAckAccepted(HandshakeFinishAck(HANDSHAKE_FINISH_ACK_MAGIC, 1, sessionId, hash,
                                         ServerMac(c, e.secret, hash), signature, s.t3), s.t4);
  }
}
