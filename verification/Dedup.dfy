/** The duplicate cache: a table that forgets expired entries only when it is used (witan/src/dedup.rs),
    and exactly when that is as good as remembering every insertion. */
module Dedup {
  import opened Bytes
  import opened Wrappers
  import opened Handshake

  type Entries = map<Digest, u64>

  datatype CacheOp =
    | Insert(id: Digest, nowMs: u64)
    | Lookup(id: Digest, nowMs: u64)
    | EvictAt(nowMs: u64)

  function EvictExpired(e: Entries, ttlMs: u64, nowMs: u64): Entries {
    map id | id in e && Age(nowMs, e[id]) <= ttlMs :: e[id]
  }

  predicate Remembers(e: Entries, ttlMs: u64, id: Digest, nowMs: u64) {
    id in EvictExpired(e, ttlMs, nowMs)
  }

  // The table after each kind of use.
  function Use(e: Entries, ttlMs: u64, op: CacheOp): Entries {
    match op
    case Insert(id, nowMs) => e[id := nowMs]
    case Lookup(_, nowMs) => EvictExpired(e, ttlMs, nowMs)
    case EvictAt(nowMs) => EvictExpired(e, ttlMs, nowMs)
  }

  function UseAll(ttlMs: u64, ops: seq<CacheOp>): Entries {
    if |ops| == 0 then map[] else Use(UseAll(ttlMs, ops[..|ops| - 1]), ttlMs, ops[|ops| - 1])
  }

  // The plain history: when was this id last inserted?
  function LatestInsert(ops: seq<CacheOp>, id: Digest): Option<u64> {
    if |ops| == 0 then None
    else
      var last := ops[|ops| - 1];
      if last.Insert? && last.id == id then Some(last.nowMs) else LatestInsert(ops[..|ops| - 1], id)
  }

  // The latest insertion of the id has been swept: a lookup or an eviction after it read the clock at a
  // time by which it had expired. Only such a sweep takes it out of the table.
  predicate Swept(ttlMs: u64, ops: seq<CacheOp>, id: Digest) {
    if |ops| == 0 then false
    else
      var before, last := ops[..|ops| - 1], ops[|ops| - 1];
      if last.Insert? then last.id != id && Swept(ttlMs, before, id)
      else
        || Swept(ttlMs, before, id)
        || (LatestInsert(before, id).Some? && Age(last.nowMs, LatestInsert(before, id).value) > ttlMs)
  }

  // What the plain history says: the latest insertion is at most ttl_ms old.
  predicate Recent(ttlMs: u64, ops: seq<CacheOp>, id: Digest, nowMs: u64) {
    LatestInsert(ops, id).Some? && Age(nowMs, LatestInsert(ops, id).value) <= ttlMs
  }

  // ── The table and the history, whatever the clock does ────────────────────

  // The table holds exactly the ids inserted and not swept since, each with its latest insertion.
  lemma {:induction false} TableExactly(ttlMs: u64, ops: seq<CacheOp>, id: Digest)
    ensures id in UseAll(ttlMs, ops) <==> LatestInsert(ops, id).Some? && !Swept(ttlMs, ops, id)
    ensures id in UseAll(ttlMs, ops) ==> LatestInsert(ops, id) == Some(UseAll(ttlMs, ops)[id])
    decreases |ops|
  {
    if |ops| > 0 {
      TableExactly(ttlMs, ops[..|ops| - 1], id);
    }
  }

  // A lookup answers: inserted, not expired now, and not swept since.
  lemma LookupExactly(ttlMs: u64, ops: seq<CacheOp>, id: Digest, nowMs: u64)
    ensures Remembers(UseAll(ttlMs, ops), ttlMs, id, nowMs) <==>
            Recent(ttlMs, ops, id, nowMs) && !Swept(ttlMs, ops, id)
  {
    TableExactly(ttlMs, ops, id);
  }

  // So a lookup agrees with the history exactly when the id was never inserted, or its latest insertion
  // has expired by now, or no sweep since has found it expired.
  lemma AgreesWithHistoryExactly(ttlMs: u64, ops: seq<CacheOp>, id: Digest, nowMs: u64)
    ensures (Remembers(UseAll(ttlMs, ops), ttlMs, id, nowMs) <==> Recent(ttlMs, ops, id, nowMs)) <==>
            || LatestInsert(ops, id).None?
            || Age(nowMs, LatestInsert(ops, id).value) > ttlMs
            || !Swept(ttlMs, ops, id)
  {
    LookupExactly(ttlMs, ops, id, nowMs);
  }

  // What it is to have been swept, by position: after the latest insertion k of the id comes a sweep j
  // that read the clock more than ttl_ms past it.
  ghost predicate LatestAt(ops: seq<CacheOp>, id: Digest, k: nat) {
    && k < |ops| && ops[k].Insert? && ops[k].id == id
    && forall j | k < j < |ops| :: !(ops[j].Insert? && ops[j].id == id)
  }

  ghost predicate SweepsAt(ttlMs: u64, ops: seq<CacheOp>, k: nat, j: nat) {
    k < j < |ops| && !ops[j].Insert? && Age(ops[j].nowMs, ops[k].nowMs) > ttlMs
  }

  lemma {:induction false} LatestFound(ops: seq<CacheOp>, id: Digest, k: nat)
    requires LatestAt(ops, id, k)
    ensures LatestInsert(ops, id) == Some(ops[k].nowMs)
    decreases |ops|
  {
    if k < |ops| - 1 {
      LatestFound(ops[..|ops| - 1], id, k);
    }
  }

  lemma {:induction false} SweptByPosition(ttlMs: u64, ops: seq<CacheOp>, id: Digest, k: nat)
    requires LatestAt(ops, id, k)
    ensures Swept(ttlMs, ops, id) <==> exists j: nat :: SweepsAt(ttlMs, ops, k, j)
    decreases |ops|
  {
    var before, last := ops[..|ops| - 1], |ops| - 1;
    if k < last {
      SweptByPosition(ttlMs, before, id, k);
      LatestFound(before, id, k);
      assert forall j: nat :: SweepsAt(ttlMs, before, k, j) ==> SweepsAt(ttlMs, ops, k, j);
      assert forall j: nat | j != last :: SweepsAt(ttlMs, ops, k, j) ==> SweepsAt(ttlMs, before, k, j);
      assert Swept(ttlMs, ops, id) && !Swept(ttlMs, before, id) ==> SweepsAt(ttlMs, ops, k, last);
    }
  }

  // ── A clock that never goes back ──────────────────────────────────────────

  // The clock never went back, and reads now at the end.
  predicate ClockForward(ops: seq<CacheOp>, nowMs: u64) {
    && (forall i, j | 0 <= i < j < |ops| :: ops[i].nowMs <= ops[j].nowMs)
    && (forall i | 0 <= i < |ops| :: ops[i].nowMs <= nowMs)
  }

  // Then what was swept has expired by now.
  lemma {:induction false} SweptHasExpired(ttlMs: u64, ops: seq<CacheOp>, id: Digest, nowMs: u64)
    requires ClockForward(ops, nowMs)
    ensures LatestInsert(ops, id).Some? ==> LatestInsert(ops, id).value <= nowMs
    ensures Swept(ttlMs, ops, id) ==> LatestInsert(ops, id).Some? && nowMs - LatestInsert(ops, id).value > ttlMs
    decreases |ops|
  {
    if |ops| > 0 {
      SweptHasExpired(ttlMs, ops[..|ops| - 1], id, ops[|ops| - 1].nowMs);
    }
  }

  // The lazy cache refines the history: with a clock that never goes back, an id is a duplicate exactly
  // when its latest insertion is at most ttl_ms old, whatever was looked up or evicted in between.
  lemma LazyCacheRefinesHistory(ttlMs: u64, ops: seq<CacheOp>, id: Digest, nowMs: u64)
    requires ClockForward(ops, nowMs)
    ensures Remembers(UseAll(ttlMs, ops), ttlMs, id, nowMs) <==>
            LatestInsert(ops, id).Some? && nowMs - LatestInsert(ops, id).value <= ttlMs
  {
    LookupExactly(ttlMs, ops, id, nowMs);
    SweptHasExpired(ttlMs, ops, id, nowMs);
  }

  // A clock that goes back can break it: an entry evicted at a later reading is not a duplicate at an
  // earlier one, however recent its insertion.
  lemma ClockBackForgets(id: Digest)
    ensures var ops := [Insert(id, 5), EvictAt(100_000)];
            && Swept(60_000, ops, id) && Recent(60_000, ops, id, 5)
            && !Remembers(UseAll(60_000, ops), 60_000, id, 5)
  {
    var ops := [Insert(id, 5), EvictAt(100_000)];
    assert ops[..1] == [Insert(id, 5)] && ops[..1][..0] == [];
    LookupExactly(60_000, ops, id, 5);
  }

  // ── Accepted publications ─────────────────────────────────────────────────

  // Every insertion was made only after the id had been found not to be a duplicate.
  ghost predicate Guarded(ttlMs: u64, ops: seq<CacheOp>) {
    forall j | 0 <= j < |ops| && ops[j].Insert? ::
      !Remembers(UseAll(ttlMs, ops[..j]), ttlMs, ops[j].id, ops[j].nowMs)
  }

  // Whatever the clock reads next, a message published before is only accepted again more than ttl_ms
  // after its latest publication: this holds exactly when that publication has not been swept.
  lemma AcceptedAgainOnlyLate(ttlMs: u64, ops: seq<CacheOp>, id: Digest)
    requires LatestInsert(ops, id).Some?
    ensures !Swept(ttlMs, ops, id) <==>
            forall nowMs: u64 | !Remembers(UseAll(ttlMs, ops), ttlMs, id, nowMs) ::
              Age(nowMs, LatestInsert(ops, id).value) > ttlMs
  {
    hide UseAll, Remembers, LatestInsert, Swept;
    forall nowMs: u64
      ensures Remembers(UseAll(ttlMs, ops), ttlMs, id, nowMs) <==>
              Recent(ttlMs, ops, id, nowMs) && !Swept(ttlMs, ops, id)
    {
      LookupExactly(ttlMs, ops, id, nowMs);
    }
    var latest := LatestInsert(ops, id).value;
    assert Age(latest, latest) == 0;
    assert Remembers(UseAll(ttlMs, ops), ttlMs, id, latest) <==> !Swept(ttlMs, ops, id);
  }

  // A message published at i and offered next at j is accepted exactly when j is more than ttl_ms after i,
  // or a sweep between them read the clock that far ahead.
  lemma AcceptedExactly(ttlMs: u64, ops: seq<CacheOp>, i: nat, j: nat)
    requires j < |ops| && ops[j].Insert? && LatestAt(ops[..j], ops[j].id, i)
    ensures !Remembers(UseAll(ttlMs, ops[..j]), ttlMs, ops[j].id, ops[j].nowMs) <==>
            Age(ops[j].nowMs, ops[i].nowMs) > ttlMs || exists k: nat :: SweepsAt(ttlMs, ops[..j], i, k)
  {
    LookupExactly(ttlMs, ops[..j], ops[j].id, ops[j].nowMs);
    LatestFound(ops[..j], ops[j].id, i);
    SweptByPosition(ttlMs, ops[..j], ops[j].id, i);
  }

  lemma {:induction false} LatestNotEarlier(ops: seq<CacheOp>, i: nat, nowMs: u64)
    requires i < |ops| && ops[i].Insert? && ClockForward(ops, nowMs)
    ensures LatestInsert(ops, ops[i].id).Some? && LatestInsert(ops, ops[i].id).value >= ops[i].nowMs
    decreases |ops|
  {
    var last := |ops| - 1;
    if !(ops[last].Insert? && ops[last].id == ops[i].id) {
      assert ops[..last][i] == ops[i];
      LatestNotEarlier(ops[..last], i, nowMs);
    }
  }

  // With a clock that never goes back, any two accepted publications of one message are more than ttl_ms
  // apart.
  lemma AcceptedFarApart(ttlMs: u64, ops: seq<CacheOp>, nowMs: u64, i: nat, j: nat)
    requires Guarded(ttlMs, ops) && ClockForward(ops, nowMs)
    requires i < j < |ops| && ops[i].Insert? && ops[j].Insert? && ops[i].id == ops[j].id
    ensures ops[j].nowMs - ops[i].nowMs > ttlMs
  {
    var before := ops[..j];
    assert before[i] == ops[i];
    LatestNotEarlier(before, i, ops[j].nowMs);
    LazyCacheRefinesHistory(ttlMs, before, ops[j].id, ops[j].nowMs);
  }

  // ── The object ────────────────────────────────────────────────────────────

  class DedupCache {
    var entries: map<Digest, u64>
    const ttlMs: u64
    // Every use of the cache so far.
    ghost var history: seq<CacheOp>

    ghost predicate Valid()
      reads this
    {
      entries == UseAll(ttlMs, history)
    }

    // Seconds to milliseconds in 64 bits.
    constructor (ttlSecs: u64)
      ensures Valid() && history == [] && ttlMs == Wrap64(ttlSecs * 1000)
    {
      entries := map[];
      ttlMs := Wrap64(ttlSecs * 1000);
      history := [];
    }

    method EvictExpired(nowMs: u64)
      requires Valid()
      modifies this
      ensures Valid() && history == old(history) + [EvictAt(nowMs)]
    {
      entries := map id | id in entries && Age(nowMs, entries[id]) <= ttlMs :: entries[id];
      history := history + [EvictAt(nowMs)];
      assert history[..|history| - 1] == old(history);
    }

    method IsDuplicate(id: Digest, nowMs: u64) returns (dup: bool)
      requires Valid()
      modifies this
      ensures Valid() && history == old(history) + [Lookup(id, nowMs)]
      ensures dup <==> Remembers(UseAll(ttlMs, old(history)), ttlMs, id, nowMs)
      ensures dup <==> Recent(ttlMs, old(history), id, nowMs) && !Swept(ttlMs, old(history), id)
      ensures ClockForward(old(history), nowMs) ==>
                (dup <==> LatestInsert(old(history), id).Some? &&
                          nowMs - LatestInsert(old(history), id).value <= ttlMs)
    {
      entries := map other | other in entries && Age(nowMs, entries[other]) <= ttlMs :: entries[other];
      history := history + [Lookup(id, nowMs)];
      assert history[..|history| - 1] == old(history);
      LookupExactly(ttlMs, old(history), id, nowMs);
      if ClockForward(old(history), nowMs) {
        LazyCacheRefinesHistory(ttlMs, old(history), id, nowMs);
      }
      dup := id in entries;
    }

    method Insert(id: Digest, nowMs: u64)
      requires Valid()
      modifies this
      ensures Valid() && history == old(history) + [CacheOp.Insert(id, nowMs)]
    {
      entries := entries[id := nowMs];
      history := history + [CacheOp.Insert(id, nowMs)];
      assert history[..|history| - 1] == old(history);
    }

    function Len(): nat
      reads this
    {
      |entries|
    }

    function ActiveIds(): set<Digest>
      reads this
    {
      entries.Keys
    }
  }
}
