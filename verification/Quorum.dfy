/** The quorum tracker: who acknowledged which message, and when that is enough (witan/src/quorum.rs).
    The fraction is an exact real here; the program's is a double. */
module Quorum {
  import opened Bytes

  type Acks = map<Digest, set<Text>>

  // Configuration only lets through fractions from 0 to 1.
  type Fraction = f: real | 0.0 <= f <= 1.0

  function AckersOf(a: Acks, id: Digest): set<Text> {
    if id in a then a[id] else {}
  }

  function Record(a: Acks, id: Digest, peer: Text): Acks {
    a[id := AckersOf(a, id) + {peer}]
  }

  // ceil(total * fraction)
  function Required(total: nat, f: Fraction): (n: int)
    ensures (n - 1) as real < total as real * f <= n as real
    ensures 0 <= n <= total
  {
    var x := total as real * f;
    assert 0.0 <= x <= total as real;
    -((-x).Floor)
  }

  predicate HasQuorum(a: Acks, id: Digest, total: nat, f: Fraction) {
    total != 0 && |AckersOf(a, id)| >= Required(total, f)
  }

  // Quorum is reached exactly by an ack count of at least the fraction of the peers, and never with no peers.
  lemma QuorumReachedExactly(a: Acks, id: Digest, total: nat, f: Fraction)
    ensures HasQuorum(a, id, total, f) <==> total > 0 && |AckersOf(a, id)| as real >= total as real * f
  {
    hide Required;
    var q := Required(total, f);
  }

  // ── Recording ─────────────────────────────────────────────────────────────

  datatype Ack = Ack(id: Digest, peer: Text)

  function RecordAll(log: seq<Ack>): Acks {
    if |log| == 0 then map[] else Record(RecordAll(log[..|log| - 1]), log[|log| - 1].id, log[|log| - 1].peer)
  }

  // What has been recorded for a message is exactly the peers that acknowledged it. So recording is
  // idempotent and its order does not matter.
  lemma {:induction false} RecordedAreAckers(log: seq<Ack>, id: Digest)
    ensures forall peer :: peer in AckersOf(RecordAll(log), id) <==> Ack(id, peer) in log
  {
    if |log| > 0 {
      var before, last := log[..|log| - 1], log[|log| - 1];
      RecordedAreAckers(before, id);
      assert log == before + [last];
    }
  }

  lemma OrderIrrelevant(log1: seq<Ack>, log2: seq<Ack>, id: Digest, total: nat, f: Fraction)
    requires forall x: Ack :: x in log1 <==> x in log2
    ensures AckersOf(RecordAll(log1), id) == AckersOf(RecordAll(log2), id)
    ensures HasQuorum(RecordAll(log1), id, total, f) <==> HasQuorum(RecordAll(log2), id, total, f)
  {
    RecordedAreAckers(log1, id);
    RecordedAreAckers(log2, id);
    assert AckersOf(RecordAll(log1), id) == AckersOf(RecordAll(log2), id);
  }

  // A quorum once reached is kept by every further ack.
  lemma QuorumKept(a: Acks, id: Digest, other: Digest, peer: Text, total: nat, f: Fraction)
    requires HasQuorum(a, id, total, f)
    ensures HasQuorum(Record(a, other, peer), id, total, f)
  {
    SubsetSize(AckersOf(a, id), AckersOf(Record(a, other, peer), id));
  }

  lemma SubsetSize<T>(a: set<T>, b: set<T>)
    requires a <= b
    ensures |a| <= |b|
  {
    assert b == a + (b - a);
  }

  // ── Intersection ──────────────────────────────────────────────────────────

  // Any two quorums of the known peers share a peer outside every faulty set of at most t.
  ghost predicate QuorumsMeet(known: set<Text>, f: Fraction, t: nat) {
    forall a: set<Text>, b: set<Text>, faulty: set<Text> ::
      a <= known && b <= known && |a| >= Required(|known|, f) && |b| >= Required(|known|, f) && |faulty| <= t ==>
        exists peer :: peer in a && peer in b && peer !in faulty
  }

  lemma InclusionExclusion<T>(a: set<T>, b: set<T>, known: set<T>)
    requires a <= known && b <= known
    ensures |a * b| >= |a| + |b| - |known|
  {
    assert a == (a - b) + (a * b);
    assert (a - b) !! b;
    SubsetSize((a - b) + b, known);
  }

  lemma {:induction false} SubsetOfSize<T>(s: set<T>, n: nat) returns (sub: set<T>)
    requires n <= |s|
    ensures sub <= s && |sub| == n
    decreases n
  {
    if n == 0 {
      sub := {};
    } else {
      var x :| x in s;
      sub := SubsetOfSize(s - {x}, n - 1);
      sub := sub + {x};
    }
  }

  // Two sets of q peers that overlap as little as they can.
  lemma LeastOverlap<T>(known: set<T>, q: nat) returns (a: set<T>, b: set<T>)
    requires q <= |known|
    ensures a <= known && b <= known && |a| == q && |b| == q
    ensures |a * b| == if 2 * q > |known| then 2 * q - |known| else 0
  {
    a := SubsetOfSize(known, q);
    var rest := known - a;
    assert known == a + rest && |rest| == |known| - q;
    if q <= |rest| {
      b := SubsetOfSize(rest, q);
      assert a * b == {};
    } else {
      var shared := SubsetOfSize(a, q - |rest|);
      b := rest + shared;
      assert a * b == shared;
    }
  }

  // Exactly when quorums meet outside t faulty peers: twice the threshold must exceed N by more than t.
  lemma QuorumsMeetExactly(known: set<Text>, f: Fraction, t: nat)
    ensures QuorumsMeet(known, f, t) <==> 2 * Required(|known|, f) - |known| > t
  {
    hide Required;
    var n, q := |known|, Required(|known|, f);
    if 2 * q - n > t {
      forall a: set<Text>, b: set<Text>, faulty: set<Text> |
        a <= known && b <= known && |a| >= q && |b| >= q && |faulty| <= t
        ensures exists peer :: peer in a && peer in b && peer !in faulty
      {
        SharedHonestPeer(a, b, faulty, known);
      }
    } else {
      var a, b := LeastOverlap(known, q);
      assert |a * b| <= t;
      assert !exists peer :: peer in a && peer in b && peer !in a * b;
    }
  }

  lemma SharedHonestPeer(a: set<Text>, b: set<Text>, faulty: set<Text>, known: set<Text>)
    requires a <= known && b <= known && |a| + |b| - |known| > |faulty|
    ensures exists peer :: peer in a && peer in b && peer !in faulty
  {
    InclusionExclusion(a, b, known);
    if a * b <= faulty {
      SubsetSize(a * b, faulty);
    }
    var peer :| peer in a * b && peer !in faulty;
  }

  // Two thirds is enough for the documented bound: any two messages with quorum share at least N/3 peers,
  // and so one outside any floor((N - 1) / 3) faulty ones. Above two thirds they share more than N/3.
  lemma QuorumIntersection(a: Acks, id1: Digest, id2: Digest, known: set<Text>, f: Fraction, faulty: set<Text>)
    requires f >= 2.0 / 3.0
    requires AckersOf(a, id1) <= known && AckersOf(a, id2) <= known
    requires HasQuorum(a, id1, |known|, f) && HasQuorum(a, id2, |known|, f)
    ensures 3 * |AckersOf(a, id1) * AckersOf(a, id2)| >= |known|
    ensures f > 2.0 / 3.0 ==> 3 * |AckersOf(a, id1) * AckersOf(a, id2)| > |known|
    ensures |faulty| <= (|known| - 1) / 3 ==>
              exists peer :: peer in AckersOf(a, id1) && peer in AckersOf(a, id2) && peer !in faulty
  {
    hide Required;
    InclusionExclusion(AckersOf(a, id1), AckersOf(a, id2), known);
    TwoThirds(|known|, f);
    if |faulty| <= (|known| - 1) / 3 {
      SharedHonestPeer(AckersOf(a, id1), AckersOf(a, id2), faulty, known);
    }
  }

  lemma TwoThirds(n: nat, f: Fraction)
    requires n > 0 && f >= 2.0 / 3.0
    ensures 3 * Required(n, f) >= 2 * n
    ensures f > 2.0 / 3.0 ==> 3 * Required(n, f) > 2 * n
  {
    hide Required;
    var x, q := n as real, Required(n, f);
    AtLeastTwoThirds(x, f, x * f);
    assert (3 * q) as real >= 3.0 * (x * f) && (2 * n) as real == 2.0 * x;
  }

  lemma AtLeastTwoThirds(x: real, f: real, xf: real)
    requires x > 0.0 && 3.0 * f >= 2.0 && xf == x * f
    ensures 3.0 * xf >= 2.0 * x && (3.0 * f > 2.0 ==> 3.0 * xf > 2.0 * x)
  {
    ScaleOrder(x, 0.0, 3.0 * f - 2.0);
    assert x * (3.0 * f - 2.0) == 3.0 * (x * f) - 2.0 * x;
  }

  lemma ScaleOrder(x: real, a: real, b: real)
    requires x > 0.0 && a <= b
    ensures x * a <= x * b && (a < b ==> x * a < x * b)
  {
    assert x * b - x * a == x * (b - a);
  }

  // Less than two thirds is not: for every such fraction there is a number of peers at which two quorums
  // can have nothing but faulty peers in common.
  lemma TwoThirdsNeeded(f: Fraction) returns (n: nat)
    requires f < 2.0 / 3.0
    ensures n > 0 && forall known: set<Text> :: |known| == n ==> !QuorumsMeet(known, f, (n - 1) / 3)
  {
    hide Required;
    var gap := 2.0 - 3.0 * f;
    var bound := 1.0 / gap;
    assert bound > 0.0 by { assert bound * gap == 1.0; }
    var m: nat := bound.Floor + 1;
    n := 3 * m;
    BelowTwoThirds(m, f);
    forall known: set<Text> | |known| == n
      ensures !QuorumsMeet(known, f, (n - 1) / 3)
    {
      QuorumsMeetExactly(known, f, (n - 1) / 3);
    }
  }

  lemma BelowTwoThirds(m: nat, f: Fraction)
    requires f < 2.0 / 3.0 && m as real > 1.0 / (2.0 - 3.0 * f)
    ensures m > 0 && Required(3 * m, f) <= 2 * m - 1
  {
    hide Required;
    var gap, x := 2.0 - 3.0 * f, m as real;
    ScaleOrder(gap, 1.0 / gap, x);
    assert gap * (1.0 / gap) == 1.0;
    Thrice(x, f);
    assert (3 * m) as real == 3.0 * x;
    assert (3 * m) as real * f < 2.0 * x - 1.0;
    assert (Required(3 * m, f) - 1) as real < (2 * m - 1) as real;
  }

  lemma Thrice(x: real, f: real)
    ensures 3.0 * x * f == 2.0 * x - (2.0 - 3.0 * f) * x
  {
  }

  // Liveness at the default fraction: of N peers, of which floor((N - 1) / 3) are silent, the others alone
  // reach the threshold exactly up to N = 100, 200 or 300, as N is 1, 2 or 0 modulo 3.
  lemma DefaultThresholdReachable(n: nat)
    requires n > 0
    ensures Required(n, 67.0 / 100.0) <= n - (n - 1) / 3 <==>
            n <= if n % 3 == 1 then 100 else if n % 3 == 2 then 200 else 300
  {
    var q, x := Required(n, 67.0 / 100.0), n as real * (67.0 / 100.0);
    assert 100.0 * x == (67 * n) as real;
    assert (100 * (q - 1)) as real < (67 * n) as real <= (100 * q) as real;
  }

  // ── The object ────────────────────────────────────────────────────────────

  class QuorumTracker {
    var acks: map<Digest, set<Text>>
    const fraction: Fraction

    constructor (fraction: Fraction)
      ensures acks == map[] && this.fraction == fraction
    {
      acks := map[];
      this.fraction := fraction;
    }

    method RecordAck(id: Digest, peer: Text)
      modifies this
      ensures acks == Record(old(acks), id, peer)
    {
      if id !in acks {
        acks := acks[id := {}];
      }
      acks := acks[id := acks[id] + {peer}];
    }

    method HasQuorum(id: Digest, totalPeers: nat) returns (reached: bool)
      ensures reached <==> totalPeers > 0 && |AckersOf(acks, id)| as real >= totalPeers as real * fraction
    {
      if totalPeers == 0 {
        return false;
      }
      var required := Required(totalPeers, fraction);
      var count := if id in acks then |acks[id]| else 0;
      return count >= required;
    }

    method AckCount(id: Digest) returns (n: nat)
      ensures n == |AckersOf(acks, id)|
    {
      n := if id in acks then |acks[id]| else 0;
    }

    // Forgets the messages that are not known any more, and only those.
    method Prune(known: set<Digest>)
      modifies this
      ensures acks.Keys == old(acks.Keys) * known
      ensures forall id | id in known :: AckersOf(acks, id) == AckersOf(old(acks), id)
    {
      acks := map id | id in acks && id in known :: acks[id];
    }
  }
}
