/** The gossip engine: sessions, mesh, publishing, maintenance and its own identity
    (witan/src/gossip.rs, witan/src/session.rs, witan/src/config.rs). */
module Engine {
  import opened Bytes
  import opened Wrappers
  import opened Identity
  import opened Rotation
  import opened Chains
  import opened Messages
  import opened Handshake
  import opened Handshakes
  import opened Dedup
  import opened Quorum
  import opened Envelopes
  import opened Lineages

  // What configuration resolves to, once its seeds are decoded and its mesh degrees checked.
  datatype Config = Config(
    kemSeed: Option<KemSeed>, sigSeed: Option<SigSeed>, keyEpoch: Text, meshN: byte, meshNLow: byte, meshNHigh: byte,
    maxMessageBytes: nat, dedupCacheSecs: u64, quorumFraction: Fraction, replayWindowMs: u64, defaultTtl: byte)

  type ResolvedConfig = x: Config | x.meshNLow <= x.meshN <= x.meshNHigh
    witness Config(None, None, [], 8, 4, 12, 1_048_576, 60, 0.67, 30_000, 8)

  datatype GossipStats = GossipStats(
    messagesPublished: u64, messagesReceived: u64, messagesDeduplicated: u64, messagesDropped: u64,
    activePeers: u32, meshPeers: u32, dedupCacheSize: u32, handshakesCompleted: u32, handshakesFailed: u32)

  predicate NoDuplicates(s: seq<Text>) {
    forall i, j | 0 <= i < j < |s| :: s[i] != s[j]
  }

  function Elements(s: seq<Text>): set<Text> {
    set x | x in s
  }

  lemma {:induction false} ElementsSize(s: seq<Text>)
    requires NoDuplicates(s)
    ensures |Elements(s)| == |s|
    decreases |s|
  {
    if |s| > 0 {
      var rest := s[..|s| - 1];
      ElementsSize(rest);
      assert s[|s| - 1] !in rest;
      assert Elements(s) == Elements(rest) + {s[|s| - 1]};
    }
  }

  // The list without an address.
  function Without(s: seq<Text>, addr: Text): (r: seq<Text>)
    ensures |r| <= |s| && forall a :: a in r <==> a in s && a != addr
    decreases |s|
  {
    if |s| == 0 then []
    else
      var init, last := Without(s[..|s| - 1], addr), s[|s| - 1];
      assert s == s[..|s| - 1] + [last];
      if last == addr then init else init + [last]
  }

  lemma {:induction false} WithoutDistinct(s: seq<Text>, addr: Text)
    requires NoDuplicates(s)
    ensures NoDuplicates(Without(s, addr))
    decreases |s|
  {
    if |s| > 0 {
      var init, last := Without(s[..|s| - 1], addr), s[|s| - 1];
      WithoutDistinct(s[..|s| - 1], addr);
      assert last !in init;
    }
  }

  // Removal goes element by element: it keeps the order and the multiplicity of everything else.
  lemma WithoutOne(a: Text, addr: Text)
    ensures Without([a], addr) == if a == addr then [] else [a]
  {
    hide ValidUtf8;
    assert [a][..0] == [];
  }

  lemma {:induction false} WithoutSplits(s: seq<Text>, t: seq<Text>, addr: Text)
    ensures Without(s + t, addr) == Without(s, addr) + Without(t, addr)
    decreases |t|
  {
    hide ValidUtf8, NoDuplicates;
    if |t| == 0 {
      assert s + t == s && Without(t, addr) == [];
    } else {
      var init := t[..|t| - 1];
      WithoutSplits(s, init, addr);
      assert (s + t)[..|s + t| - 1] == s + init && (s + t)[|s + t| - 1] == t[|t| - 1];
      assert Without(s + t, addr) ==
             Without(s + init, addr) + if t[|t| - 1] == addr then [] else [t[|t| - 1]];
    }
  }

  // Distinct mesh peers, all of them with a session, and not too many.
  predicate MeshWithin(mesh: seq<Text>, peers: map<Text, SessionRecord>, high: nat) {
    NoDuplicates(mesh) && (forall a | a in mesh :: a in peers) && |mesh| <= high
  }

  // The mesh once a peer has been offered to it.
  function Offered(mesh: seq<Text>, addr: Text, high: nat): seq<Text> {
    if addr in mesh || |mesh| >= high then mesh else mesh + [addr]
  }

  // A peer is in the mesh after the offer exactly when it already was or there was room; it comes last, and
  // nothing else changes.
  lemma OfferedExactly(mesh: seq<Text>, addr: Text, high: nat)
    ensures var after := Offered(mesh, addr, high);
            && mesh <= after
            && (addr in after <==> addr in mesh || |mesh| < high)
            && (forall other | other != addr :: other in after <==> other in mesh)
            && |after| == if addr !in mesh && |mesh| < high then |mesh| + 1 else |mesh|
  {
  }

  lemma OfferedWithin(mesh: seq<Text>, peers: map<Text, SessionRecord>, session: SessionRecord, high: nat)
    requires MeshWithin(mesh, peers, high)
    ensures var addr := session.peerAddr; MeshWithin(Offered(mesh, addr, high), peers[addr := session], high)
  {
  }

  lemma WithoutWithin(mesh: seq<Text>, peers: map<Text, SessionRecord>, addr: Text, high: nat)
    requires MeshWithin(mesh, peers, high)
    ensures MeshWithin(Without(mesh, addr), peers - {addr}, high)
    ensures Elements(Without(mesh, addr)) == Elements(mesh) - {addr}
  {
    WithoutDistinct(mesh, addr);
  }

  lemma GraftedWithin(mesh: seq<Text>, peers: map<Text, SessionRecord>, candidates: seq<Text>, n: nat, high: nat)
    requires MeshWithin(mesh, peers, high) && |mesh| <= n <= high
    requires NoDuplicates(candidates) && forall a | a in candidates :: a in peers.Keys - Elements(mesh)
    requires var room, outside := n - |mesh|, |peers.Keys - Elements(mesh)|;
             |candidates| == if room <= outside then room else outside
    ensures MeshWithin(mesh + candidates, peers, high)
    ensures |mesh + candidates| == if n <= |peers| then n else |peers|
  {
    ElementsSize(mesh);
    var outside := peers.Keys - Elements(mesh);
    assert peers.Keys == outside + Elements(mesh) && outside !! Elements(mesh);
    var all := mesh + candidates;
    forall i, j | 0 <= i < j < |all|
      ensures all[i] != all[j]
    {
      assert j >= |mesh| ==> all[j] == candidates[j - |mesh|] && all[j] !in Elements(mesh);
      assert i < |mesh| ==> all[i] in Elements(mesh);
    }
  }

  // Up to n elements of a set, in no particular order.
  method PickSome(from: set<Text>, n: nat) returns (picked: seq<Text>)
    ensures NoDuplicates(picked) && forall a | a in picked :: a in from
    ensures |picked| == if n <= |from| then n else |from|
  {
    var rest := from;
    picked := [];
    while |picked| < n && rest != {}
      invariant |picked| <= n && |picked| + |rest| == |from| && rest <= from
      invariant NoDuplicates(picked) && forall a | a in picked :: a in from && a !in rest
      decreases |rest|
    {
      var a :| a in rest;
      rest := rest - {a};
      picked := picked + [a];
    }
  }

  // ── Sessions ──────────────────────────────────────────────────────────────

  class SessionStore {
    var sessions: map<Text, SessionRecord>

    // Every record is filed under its own address, and all are active.
    ghost predicate Valid()
      reads this
    {
      forall addr | addr in sessions :: sessions[addr].peerAddr == addr && sessions[addr].isActive
    }

    constructor ()
      ensures Valid() && sessions == map[]
    {
      sessions := map[];
    }

    method Insert(record: SessionRecord)
      requires Valid() && record.isActive
      modifies this
      ensures Valid() && sessions == old(sessions)[record.peerAddr := record]
    {
      sessions := sessions[record.peerAddr := record];
    }

    method Remove(addr: Text) returns (removed: Option<SessionRecord>)
      requires Valid()
      modifies this
      ensures Valid() && sessions == if addr in old(sessions) then old(sessions) - {addr} else old(sessions)
      ensures removed == if addr in old(sessions) then Some(old(sessions)[addr]) else None
    {
      removed := if addr in sessions then Some(sessions[addr]) else None;
      sessions := sessions - {addr};
      assert removed.None? ==> sessions == old(sessions);
    }

    // Addresses of the active sessions.
    function ActivePeers(): set<Text>
      reads this
    {
      set addr | addr in sessions && sessions[addr].isActive
    }

    function Count(): nat
      reads this
    {
      |sessions|
    }
  }

  // ── Dispatch of handshake bytes ───────────────────────────────────────────

  // What is left pending, what is sent back, and the session that comes of it.
  datatype Dispatched = Dispatched(pending: Pending, reply: Result<Option<bytes>, GossipError>, joined: Option<SessionRecord>)

  function Replied(r: Result<bytes, GossipError>): Result<Option<bytes>, GossipError> {
    match r
    case Success(b) => Success(Some(b))
    case Failure(e) => Failure(e)
  }

  function Dispatch(c: Primitives, p: Pending, addr: Text, b: bytes, id: NodeIdentity, random: Digest, nowMs: u64): Dispatched {
    match ClassifyIncoming(b)
    case ProbeKind =>
      var s := AnswerProbe(c, p, addr, b, id, random, nowMs);
      Dispatched(s.pending, Replied(s.result), None)
    case AckKind =>
      var s := AnswerAck(c, p, addr, b, id, random, nowMs);
      Dispatched(s.pending, Replied(s.result), None)
    case FinishKind =>
      var s := AnswerFinish(c, p, addr, b, id, nowMs);
      (match s.result
       case Success(reply) => Dispatched(s.pending, Success(Some(reply.finishAck)), Some(reply.session))
       case Failure(e) => Dispatched(s.pending, Failure(e), None))
    case FinishAckKind =>
      var s := AnswerFinishAck(c, p, addr, b, nowMs);
      (match s.result
       case Success(session) => Dispatched(s.pending, Success(None), Some(session))
       case Failure(e) => Dispatched(s.pending, Failure(e), None))
    case EnvelopeKind => Dispatched(p, Failure(HandshakeError(NotAHandshake)), None)
  }

  // A completed session is active, was made with the address it is filed under, and used up its pending entry:
  // a finish completes an answered probe, a finish-ack completes a sent finish. The reply goes with the role.
  lemma DispatchFiles(c: Primitives, p: Pending, addr: Text, b: bytes, id: NodeIdentity, random: Digest, nowMs: u64)
    ensures var d := Dispatch(c, p, addr, b, id, random, nowMs);
            d.joined.Some? ==>
              && d.joined.value.peerAddr == addr && d.joined.value.isActive
              && addr in p && addr !in d.pending && d.reply.Success?
              && (if d.reply.value.Some? then p[addr].AckSent? else p[addr].FinishSent?)
  {
    hide ClassifyIncoming, AnswerProbe, AnswerAck, CheckFinish, CheckFinishAck, EncodeFinishAck, TranscriptHash,
         ServerMac, DeriveSessionId, ValidUtf8;
  }

  // Bytes go to the step of their kind: its table, its reply or its fault. A session comes of them exactly when
  // they are a finish that is answered or a finish ack that is accepted, and it is the one of that step. Bytes of
  // no handshake kind are refused and change nothing.
  lemma DispatchedExactly(c: Primitives, p: Pending, addr: Text, b: bytes, id: NodeIdentity, random: Digest, nowMs: u64)
    ensures var d, kind := Dispatch(c, p, addr, b, id, random, nowMs), ClassifyIncoming(b);
            var answered, accepted := AnswerFinish(c, p, addr, b, id, nowMs), AnswerFinishAck(c, p, addr, b, nowMs);
            && (kind == ProbeKind ==> Relays(d, AnswerProbe(c, p, addr, b, id, random, nowMs)))
            && (kind == AckKind ==> Relays(d, AnswerAck(c, p, addr, b, id, random, nowMs)))
            && (kind == FinishKind ==>
                  && d.pending == answered.pending
                  && (answered.result.Success? ==> d.reply == Success(Some(answered.result.value.finishAck)))
                  && (answered.result.Failure? ==> d.reply == Failure(answered.result.error)))
            && (kind == FinishAckKind ==>
                  && d.pending == accepted.pending
                  && (accepted.result.Success? ==> d.reply == Success(None))
                  && (accepted.result.Failure? ==> d.reply == Failure(accepted.result.error)))
            && (kind == EnvelopeKind ==> d.reply == Failure(HandshakeError(NotAHandshake)) && d.pending == p)
            && (d.joined.Some? <==>
                (kind == FinishKind && answered.result.Success?) || (kind == FinishAckKind && accepted.result.Success?))
            && (d.joined.Some? ==>
                  d.joined.value == if kind == FinishKind then answered.result.value.session else accepted.result.value)
  {
    hide ClassifyIncoming, AnswerProbe, AnswerAck, AnswerFinish, AnswerFinishAck, ValidUtf8;
  }

  // The step's table and reply, and no session.
  predicate Relays(d: Dispatched, s: Step<bytes>) {
    && d.pending == s.pending && d.joined.None?
    && (s.result.Success? ==> d.reply == Success(Some(s.result.value)))
    && (s.result.Failure? ==> d.reply == Failure(s.result.error))
  }

  // ── The engine ────────────────────────────────────────────────────────────

  class GossipEngine {
    const config: ResolvedConfig
    var identity: NodeIdentity
    const sessions: SessionStore
    const handshakes: HandshakeManager
    const dedup: DedupCache
    const quorum: QuorumTracker
    var stats: GossipStats
    var meshPeers: seq<Text>

    // The mesh invariant: distinct peers, all of them with a session, never more than mesh_n_high; and the
    // counters of peers and mesh peers are the real sizes.
    ghost predicate MeshOk()
      reads this, sessions
    {
      && MeshWithin(meshPeers, sessions.sessions, config.meshNHigh)
      && stats.meshPeers == Wrap32(|meshPeers|)
      && stats.activePeers == Wrap32(|sessions.sessions|)
    }

    ghost predicate Valid()
      reads this, sessions, dedup
    {
      && sessions.Valid() && MeshOk()
      && dedup.Valid() && Guarded(dedup.ttlMs, dedup.history)
    }

    constructor (config: ResolvedConfig, identity: NodeIdentity)
      ensures Valid() && fresh(this) && fresh(sessions) && fresh(handshakes) && fresh(dedup) && fresh(quorum)
      ensures this.config == config && this.identity == identity
      ensures meshPeers == [] && sessions.sessions == map[] && handshakes.pending == map[] && dedup.history == []
      ensures dedup.ttlMs == Wrap64(config.dedupCacheSecs * 1000) && quorum.acks == map[]
    {
      this.config := config;
      this.identity := identity;
      sessions := new SessionStore();
      handshakes := new HandshakeManager();
      dedup := new DedupCache(config.dedupCacheSecs);
      quorum := new QuorumTracker(config.quorumFraction);
      stats := GossipStats(0, 0, 0, 0, 0, 0, 0, 0, 0);
      meshPeers := [];
    }

    // ── Peers ───────────────────────────────────────────────────────────────

    // A peer with no session has a new probe pending.
    twostate predicate Connected(addr: Text, nonce: Digest, nowMs: u64, new r: Result<bytes, GossipError>)
      reads this, sessions, handshakes
    {
      if addr in sessions.sessions then
        r == Failure(HandshakeError(AlreadyConnected)) && handshakes.pending == old(handshakes.pending)
      else
        Step(handshakes.pending, r) == Handshake.BuildProbe(old(handshakes.pending), addr, identity, nonce, nowMs)
    }

    method ConnectPeer(addr: Text, nonce: Digest, nowMs: u64) returns (r: Result<bytes, GossipError>)
      requires Valid()
      modifies handshakes`pending
      ensures Valid() && Connected(addr, nonce, nowMs, r)
    {
      if addr in sessions.sessions {
        return Failure(HandshakeError(AlreadyConnected));
      }
      var probe := handshakes.BuildProbe(addr, identity, nonce, nowMs);
      return Success(probe);
    }

    // Dispatch; a handshake that completes becomes a session, and a mesh peer if there is room.
    method ProcessHandshakeBytes(c: Primitives, addr: Text, b: bytes, random: Digest, nowMs: u64)
      returns (r: Result<Option<bytes>, GossipError>)
      requires Valid()
      modifies this, handshakes`pending, sessions
      ensures Valid() && identity == old(identity) && Processed(c, addr, b, random, nowMs, r)
    {
      hide ClassifyIncoming, AnswerProbe, AnswerAck, AnswerFinish, AnswerFinishAck, MeshWithin, Offered, Guarded, UseAll, Wrap32, ValidUtf8;
      DispatchFiles(c, handshakes.pending, addr, b, identity, random, nowMs);
      match ClassifyIncoming(b) {
        case ProbeKind =>
          var ack := handshakes.ProcessProbeBuildAck(c, addr, b, identity, random, nowMs);
          r := Replied(ack);
        case AckKind =>
          var finish := handshakes.ProcessAckBuildFinish(c, addr, b, identity, random, nowMs);
          r := Replied(finish);
        case FinishKind =>
          var reply := handshakes.ProcessFinishBuildFinishAck(c, addr, b, identity, nowMs);
          if reply.Failure? {
            return Failure(reply.error);
          }
          CompleteHandshake(addr, reply.value.session);
          return Success(Some(reply.value.finishAck));
        case FinishAckKind =>
          var session := handshakes.ProcessFinishAck(c, addr, b, nowMs);
          if session.Failure? {
            return Failure(session.error);
          }
          CompleteHandshake(addr, session.value);
          return Success(None);
        case EnvelopeKind =>
          return Failure(HandshakeError(NotAHandshake));
      }
    }

    // The step of the bytes' kind was taken, and a handshake it completed has joined.
    twostate predicate Processed(c: Primitives, addr: Text, b: bytes, random: Digest, nowMs: u64,
                                 new r: Result<Option<bytes>, GossipError>)
      reads this, sessions, handshakes
    {
      var d := Dispatch(c, old(handshakes.pending), addr, b, old(identity), random, nowMs);
      && handshakes.pending == d.pending && r == d.reply
      && (if d.joined.Some? then Joined(addr, d.joined.value) else Unjoined())
    }

    // No session or mesh peer was gained or lost.
    twostate predicate Unjoined()
      reads this, sessions
    {
      sessions.sessions == old(sessions.sessions) && meshPeers == old(meshPeers) && stats == old(stats)
    }

    // The session is there, and its peer is in the mesh if it already was or there was room.
    twostate predicate Joined(addr: Text, session: SessionRecord)
      reads this, sessions
    {
      && sessions.sessions == old(sessions.sessions)[addr := session]
      && meshPeers == Offered(old(meshPeers), addr, config.meshNHigh)
      && stats == old(stats).(handshakesCompleted := Wrap32(old(stats.handshakesCompleted) + 1),
                              activePeers := Wrap32(|sessions.sessions|), meshPeers := Wrap32(|meshPeers|))
    }

    method CompleteHandshake(addr: Text, session: SessionRecord)
      requires Valid() && session.peerAddr == addr && session.isActive
      modifies this, sessions
      ensures Valid() && identity == old(identity) && Joined(addr, session)
    {
      hide NoDuplicates, Offered, Guarded, UseAll, Wrap32;
      OfferedWithin(meshPeers, sessions.sessions, session, config.meshNHigh);
      sessions.Insert(session);
      AddToMesh(addr);
      stats := stats.(handshakesCompleted := Wrap32(stats.handshakesCompleted + 1));
      CountPeers();
    }

    // A known peer left sessions, mesh and handshakes; for an unknown one nothing changed.
    twostate predicate Disconnected(addr: Text, new out: Outcome<GossipError>)
      reads this, sessions, handshakes
    {
      if addr in old(sessions.sessions) then
        && out == Pass
        && sessions.sessions == old(sessions.sessions) - {addr}
        && meshPeers == Without(old(meshPeers), addr)
        && handshakes.pending == old(handshakes.pending) - {addr}
        && handshakes.completed == old(handshakes.completed) - {addr}
        && stats == old(stats).(activePeers := Wrap32(|sessions.sessions|), meshPeers := Wrap32(|meshPeers|))
      else
        && out == Fail(PeerNotFound) && Unjoined()
        && handshakes.pending == old(handshakes.pending) && handshakes.completed == old(handshakes.completed)
    }

    method DisconnectPeer(addr: Text) returns (out: Outcome<GossipError>)
      requires Valid()
      modifies this, sessions, handshakes
      ensures Valid() && identity == old(identity) && Disconnected(addr, out)
    {
      hide MeshWithin, Without, Elements, NoDuplicates, Guarded, UseAll, Wrap32, ValidUtf8;
      WithoutWithin(meshPeers, sessions.sessions, addr, config.meshNHigh);
      var removed := sessions.Remove(addr);
      if removed.None? {
        return Fail(PeerNotFound);
      }
      RemoveFromMesh(addr);
      handshakes.Remove(addr);
      CountPeers();
      return Pass;
    }

    method CountPeers()
      modifies this`stats
      ensures stats == old(stats).(activePeers := Wrap32(|sessions.sessions|), meshPeers := Wrap32(|meshPeers|))
    {
      stats := stats.(activePeers := Wrap32(sessions.Count()), meshPeers := Wrap32(|meshPeers|));
    }

    // ── Mesh ────────────────────────────────────────────────────────────────

    method AddToMesh(addr: Text)
      modifies this`meshPeers
      ensures meshPeers == Offered(old(meshPeers), addr, config.meshNHigh)
    {
      if addr !in meshPeers && |meshPeers| < config.meshNHigh {
        meshPeers := meshPeers + [addr];
      }
    }

    method RemoveFromMesh(addr: Text)
      modifies this`meshPeers
      ensures meshPeers == Without(old(meshPeers), addr)
    {
      meshPeers := Without(meshPeers, addr);
    }

    // ── Publishing ──────────────────────────────────────────────────────────

    // A message is published unless it is a duplicate, and its id enters the cache before it is signed.
    twostate predicate Published(c: Primitives, payloadType: byte, payload: Buffer, nowMs: u64,
                                 new r: Result<Digest, GossipError>)
      reads this, dedup
    {
      if FromU8(payloadType).None? || |payload| > config.maxMessageBytes then
        r == Failure(InvalidInput) && dedup.history == old(dedup.history) && stats == old(stats)
      else
        var id := MessageId(c, FromU8(payloadType).value, payload);
        if Remembers(UseAll(dedup.ttlMs, old(dedup.history)), dedup.ttlMs, id, nowMs) then
          && r == Failure(EnvelopeError(Duplicate))
          && dedup.history == old(dedup.history) + [Lookup(id, nowMs)]
          && stats == old(stats).(messagesDeduplicated := Wrap64(old(stats.messagesDeduplicated) + 1))
        else
          && dedup.history == old(dedup.history) + [Lookup(id, nowMs), Insert(id, nowMs)]
          && var built := BuildEnvelope(c, FromU8(payloadType).value, payload, identity, config.defaultTtl, nowMs);
             if built.Success? then
               r == Success(id) && stats == old(stats).(messagesPublished := Wrap64(old(stats.messagesPublished) + 1))
             else
               r == Failure(built.error) && stats == old(stats)
    }

    method Publish(c: Primitives, payloadType: byte, payload: Buffer, nowMs: u64) returns (r: Result<Digest, GossipError>)
      requires Valid()
      modifies this`stats, dedup
      ensures Valid() && Published(c, payloadType, payload, nowMs, r)
    {
      hide UseAll, Remembers, Guarded, BuildEnvelope, MessageId, MeshWithin;
      var t := FromU8(payloadType);
      if t.None? {
        return Failure(InvalidInput);
      }
      if |payload| > config.maxMessageBytes {
        return Failure(InvalidInput);
      }
      var id := MessageId(c, t.value, payload);
      ghost var before := dedup.history;
      var dup := dedup.IsDuplicate(id, nowMs);
      GuardedLookup(dedup.ttlMs, before, id, nowMs);
      if dup {
        stats := stats.(messagesDeduplicated := Wrap64(stats.messagesDeduplicated + 1));
        return Failure(EnvelopeError(Duplicate));
      }
      dedup.Insert(id, nowMs);
      GuardedInsert(dedup.ttlMs, before, id, nowMs);
      assert before + [Lookup(id, nowMs)] + [Insert(id, nowMs)] == before + [Lookup(id, nowMs), Insert(id, nowMs)];
      var built := BuildEnvelope(c, t.value, payload, identity, config.defaultTtl, nowMs);
      if built.Failure? {
        return Failure(built.error);
      }
      stats := stats.(messagesPublished := Wrap64(stats.messagesPublished + 1));
      return Success(id);
    }

    method EncodeEnvelope(c: Primitives, payloadType: byte, payload: Buffer, nowMs: u64)
      returns (r: Result<bytes, GossipError>)
      ensures if FromU8(payloadType).None? then r == Failure(InvalidInput)
              else
                match BuildEnvelope(c, FromU8(payloadType).value, payload, identity, config.defaultTtl, nowMs)
                case Success(e) => r == Success(Envelopes.EncodeEnvelope(e))
                case Failure(error) => r == Failure(error)
    {
      var t := FromU8(payloadType);
      if t.None? {
        return Failure(InvalidInput);
      }
      var built := BuildEnvelope(c, t.value, payload, identity, config.defaultTtl, nowMs);
      if built.Failure? {
        return Failure(built.error);
      }
      return Success(Envelopes.EncodeEnvelope(built.value));
    }

    // Undecodable bytes are not counted; everything else is, as received or dropped.
    twostate predicate Verified(c: Primitives, b: bytes, nowMs: u64, new r: Result<bool, GossipError>)
      reads this
    {
      match DecodeEnvelope(b)
      case Failure(error) => r == Failure(error) && stats == old(stats)
      case Success(e) =>
        && r == VerifyEnvelope(c, e, config.maxMessageBytes, config.replayWindowMs, nowMs)
        && stats == if r == Success(true)
                    then old(stats).(messagesReceived := Wrap64(old(stats.messagesReceived) + 1))
                    else old(stats).(messagesDropped := Wrap64(old(stats.messagesDropped) + 1))
    }

    method VerifyEnvelopeBytes(c: Primitives, b: bytes, nowMs: u64) returns (r: Result<bool, GossipError>)
      requires Valid()
      modifies this`stats
      ensures Valid() && Verified(c, b, nowMs, r)
    {
      var e := DecodeEnvelope(b);
      if e.Failure? {
        return Failure(e.error);
      }
      r := VerifyEnvelope(c, e.value, config.maxMessageBytes, config.replayWindowMs, nowMs);
      if r == Success(true) {
        stats := stats.(messagesReceived := Wrap64(stats.messagesReceived + 1));
      } else {
        stats := stats.(messagesDropped := Wrap64(stats.messagesDropped + 1));
      }
    }

    // ── Maintenance ─────────────────────────────────────────────────────────

    // Afterwards every tracked quorum is for a message still in the cache, and a mesh that was below
    // mesh_n_low has exactly the smaller of mesh_n and the number of sessions.
    twostate predicate Beaten(nowMs: u64)
      reads this, handshakes, sessions, dedup, quorum
    {
      && dedup.history == old(dedup.history) + [EvictAt(nowMs)]
      && handshakes.pending == Evict(old(handshakes.pending), nowMs)
      && quorum.acks.Keys == old(quorum.acks.Keys) * dedup.entries.Keys
      && (forall id | id in quorum.acks :: AckersOf(quorum.acks, id) == AckersOf(old(quorum.acks), id))
      && stats == old(stats).(
           handshakesFailed := Wrap32(old(stats.handshakesFailed) + |TimedOut(old(handshakes.pending), nowMs)|),
           activePeers := Wrap32(|sessions.sessions|), meshPeers := Wrap32(|meshPeers|),
           dedupCacheSize := Wrap32(|dedup.entries|))
      && old(meshPeers) <= meshPeers
      && |meshPeers| == if |old(meshPeers)| >= config.meshNLow then |old(meshPeers)|
                        else if config.meshN <= |sessions.sessions| then config.meshN as int
                        else |sessions.sessions|
    }

    method Heartbeat(nowMs: u64)
      requires Valid()
      modifies this, handshakes`pending, dedup, quorum
      ensures Valid() && identity == old(identity) && sessions.sessions == old(sessions.sessions)
      ensures Beaten(nowMs)
    {
      hide MeshWithin, UseAll, Guarded, NoDuplicates, Wrap32, ValidUtf8, Evict, TimedOut, IsTimedOut;
      dedup.EvictExpired(nowMs);
      GuardedEvict(dedup.ttlMs, old(dedup.history), nowMs);
      var evicted := handshakes.EvictTimedOut(nowMs);
      stats := stats.(handshakesFailed := Wrap32(stats.handshakesFailed + |evicted|));
      quorum.Prune(dedup.ActiveIds());
      if |meshPeers| < config.meshNLow {
        Graft();
      }
      stats := stats.(activePeers := Wrap32(sessions.Count()), meshPeers := Wrap32(|meshPeers|),
                      dedupCacheSize := Wrap32(dedup.Len()));
    }

    // As many peers from the sessions outside the mesh as it lacks, or all of them.
    method Candidates() returns (candidates: seq<Text>)
      requires sessions.Valid() && |meshPeers| < config.meshNLow
      requires MeshWithin(meshPeers, sessions.sessions, config.meshNHigh)
      ensures MeshWithin(meshPeers + candidates, sessions.sessions, config.meshNHigh)
      ensures var n := |meshPeers + candidates|;
              n == (if config.meshN <= |sessions.sessions| then config.meshN as int else |sessions.sessions|) <= config.meshNHigh
    {
      hide NoDuplicates, ValidUtf8;
      assert sessions.ActivePeers() == sessions.sessions.Keys;
      assert |meshPeers| <= config.meshN;
      candidates := PickSome(sessions.ActivePeers() - Elements(meshPeers), config.meshN - |meshPeers|);
      GraftedWithin(meshPeers, sessions.sessions, candidates, config.meshN, config.meshNHigh);
    }

    // Adds peers from the sessions outside the mesh until it has mesh_n of them or none are left.
    method Graft()
      requires sessions.Valid() && |meshPeers| < config.meshNLow
      requires MeshWithin(meshPeers, sessions.sessions, config.meshNHigh)
      modifies this`meshPeers
      ensures MeshWithin(meshPeers, sessions.sessions, config.meshNHigh)
      ensures old(meshPeers) <= meshPeers
      ensures |meshPeers| == if config.meshN <= |sessions.sessions| then config.meshN as int else |sessions.sessions|
    {
      hide MeshWithin, NoDuplicates, ValidUtf8;
      var candidates := Candidates();
      ghost var start := meshPeers;
      var i := 0;
      while i < |candidates|
        invariant 0 <= i <= |candidates| && meshPeers == start + candidates[..i]
      {
        if |meshPeers| < config.meshNHigh {
          meshPeers := meshPeers + [candidates[i]];
        }
        i := i + 1;
      }
      assert meshPeers == start + candidates;
    }

    // ── Keys ────────────────────────────────────────────────────────────────

    // Fresh keys, and with them a new id.
    method RotateKeys(c: Primitives, kemSeed: KemSeed, sigSeed: SigSeed, keyEpoch: Text) returns (nodeId: Text)
      requires Valid()
      modifies this`identity
      ensures Valid() && identity == FromSeeds(c, kemSeed, sigSeed, keyEpoch) && nodeId == identity.nodeId
    {
      identity := FromSeeds(c, kemSeed, sigSeed, keyEpoch);
      nodeId := identity.nodeId;
    }

    // New keys under the old id: the lineage and the identity move together or not at all.
    method RotateKeysUnderId(c: Primitives, lineage: KeyLineage, next: NodeIdentity, commitment: Option<Digest>, nowMs: u64)
      returns (r: Result<KeyRotation, GossipError>)
      requires Valid() && lineage.Valid(c)
      modifies this`identity, lineage
      ensures Valid() && lineage.Valid(c)
      ensures if lineage.View().nodeId != old(identity.nodeId) then
                r == Failure(IdentityError(ForeignLineage)) && lineage.View() == old(lineage.View()) && identity == old(identity)
              else
                match Rotation.Rotate(c, old(lineage.View()), old(identity), next, commitment, nowMs)
                case Success(b) =>
                  && r == Success(b.record) && lineage.View() == b.lineage
                  && identity == next.(nodeId := b.lineage.nodeId)
                case Failure(e) => r == Failure(e) && lineage.View() == old(lineage.View()) && identity == old(identity)
    {
      hide MeshWithin, Guarded, UseAll, Rotation.Rotate, ValidLineage;
      if lineage.nodeId != identity.nodeId {
        return Failure(IdentityError(ForeignLineage));
      }
      r := lineage.Rotate(c, identity, next, commitment, nowMs);
      if r.Success? {
        RotateKeepsId(c, old(lineage.View()), old(identity), next, commitment, nowMs);
        identity := next.(nodeId := lineage.nodeId);
      }
    }
  }

  // The mesh counter is the size of the mesh, and the peer counter the number of sessions below 2^32 of them.
  lemma CountersAreSizes(e: GossipEngine)
    requires e.MeshOk()
    ensures e.stats.meshPeers == |e.meshPeers| <= e.config.meshNHigh
    ensures |e.sessions.sessions| < 0x1_0000_0000 ==> e.stats.activePeers == |e.sessions.sessions|
  {
  }

  lemma RotateKeepsId(c: Primitives, l: Lineage, holder: NodeIdentity, next: NodeIdentity, commitment: Option<Digest>,
                      nowMs: u64)
    requires Rotation.Rotate(c, l, holder, next, commitment, nowMs).Success?
    ensures Rotation.Rotate(c, l, holder, next, commitment, nowMs).value.lineage.nodeId == l.nodeId
  {
    BuildIsApply(c, l, Some(holder), next, commitment, nowMs);
  }

  // ── Using the cache only through publications keeps it guarded ────────────

  lemma GuardedLookup(ttlMs: u64, ops: seq<CacheOp>, id: Digest, nowMs: u64)
    requires Guarded(ttlMs, ops)
    ensures Guarded(ttlMs, ops + [Lookup(id, nowMs)])
  {
    GuardedPrefix(ttlMs, ops, Lookup(id, nowMs));
  }

  lemma GuardedEvict(ttlMs: u64, ops: seq<CacheOp>, nowMs: u64)
    requires Guarded(ttlMs, ops)
    ensures Guarded(ttlMs, ops + [EvictAt(nowMs)])
  {
    GuardedPrefix(ttlMs, ops, EvictAt(nowMs));
  }

  lemma GuardedPrefix(ttlMs: u64, ops: seq<CacheOp>, op: CacheOp)
    requires Guarded(ttlMs, ops)
    requires op.Insert? ==> !Remembers(UseAll(ttlMs, ops), ttlMs, op.id, op.nowMs)
    ensures Guarded(ttlMs, ops + [op])
  {
    var all := ops + [op];
    forall j | 0 <= j < |all| && all[j].Insert?
      ensures !Remembers(UseAll(ttlMs, all[..j]), ttlMs, all[j].id, all[j].nowMs)
    {
      assert all[..j] == ops[..j];
      assert j == |ops| ==> ops[..j] == ops;
    }
  }

  lemma GuardedInsert(ttlMs: u64, ops: seq<CacheOp>, id: Digest, nowMs: u64)
    requires Guarded(ttlMs, ops) && !Remembers(UseAll(ttlMs, ops), ttlMs, id, nowMs)
    ensures Guarded(ttlMs, ops + [Lookup(id, nowMs)] + [Insert(id, nowMs)])
  {
    GuardedLookup(ttlMs, ops, id, nowMs);
    var looked := ops + [Lookup(id, nowMs)];
    assert looked[..|looked| - 1] == ops;
    GuardedPrefix(ttlMs, looked, Insert(id, nowMs));
  }
}
