/** Checkpoints: the payload every node signs, the accumulator that collects signatures, and the quorum they prove. */
module Checkpoints {
  import opened Prelude
  import opened Crypto
  import opened Codec

  type NodeId = nat

  /** Members and their BLS keys. */
  type Roster = map<NodeId, Bytes>

  datatype Payload = Payload(
    round: U64,
    recordsRoot: Hash,
    stateHash: Hash,
    rosterHash: Hash,
    prevCheckpointHash: Hash,
    windowRoot: Hash,
    rosterHistoryRoot: Hash,
    roster: Roster)

  /** What the BLS library decides. */
  datatype Bls = Bls(
    aggregate: seq<Bytes> -> Option<Bytes>,
    parses: Bytes -> bool,
    verifies: (Bytes, Bytes, seq<Bytes>) -> bool)

  function SigningBytes(p: Payload): Bytes {
    BigEndian(p.round, 8) + (p.recordsRoot + (p.stateHash + (p.rosterHash +
    (p.prevCheckpointHash + (p.windowRoot + p.rosterHistoryRoot)))))
  }

  /** The signed bytes bind the round and all six hashes. */
  lemma SigningBytesInjective(p: Payload, q: Payload)
    requires SigningBytes(p) == SigningBytes(q)
    ensures p.round == q.round && p.recordsRoot == q.recordsRoot && p.stateHash == q.stateHash
    ensures p.rosterHash == q.rosterHash
    ensures p.prevCheckpointHash == q.prevCheckpointHash && p.windowRoot == q.windowRoot
    ensures p.rosterHistoryRoot == q.rosterHistoryRoot
    ensures |SigningBytes(p)| == 200
  {
    hide BigEndian;
    var p5, q5 := p.windowRoot + p.rosterHistoryRoot, q.windowRoot + q.rosterHistoryRoot;
    var p4, q4 := p.prevCheckpointHash + p5, q.prevCheckpointHash + q5;
    var p3, q3 := p.rosterHash + p4, q.rosterHash + q4;
    var p2, q2 := p.stateHash + p3, q.stateHash + q3;
    var p1, q1 := p.recordsRoot + p2, q.recordsRoot + q2;
    AppendInjective(BigEndian(p.round, 8), p1, BigEndian(q.round, 8), q1);
    AppendInjective(p.recordsRoot, p2, q.recordsRoot, q2);
    AppendInjective(p.stateHash, p3, q.stateHash, q3);
    AppendInjective(p.rosterHash, p4, q.rosterHash, q4);
    AppendInjective(p.prevCheckpointHash, p5, q.prevCheckpointHash, q5);
    AppendInjective(p.windowRoot, p.rosterHistoryRoot, q.windowRoot, q.rosterHistoryRoot);
    Widths();
    NumberOfBigEndian(p.round, 8);
    NumberOfBigEndian(q.round, 8);
  }

  // ---------------------------------------------------------------- ascending lists

  ghost predicate Ascending(s: seq<NodeId>) {
    forall i, j :: 0 <= i < j < |s| ==> s[i] < s[j]
  }

  predicate IsLeast(ids: set<NodeId>, k: NodeId) {
    k in ids && forall j :: j in ids ==> k <= j
  }

  lemma {:induction false} LeastMember(ids: set<NodeId>) returns (least: NodeId)
    requires ids != {}
    ensures least in ids && IsLeast(ids, least)
  {
    var i: NodeId :| i in ids;
    if ids == {i} {
      least := i;
    } else {
      var j := LeastMember(ids - {i});
      least := if i < j then i else j;
      forall k | k in ids ensures least <= k { if k != i { assert k in ids - {i}; } }
    }
  }

  lemma EmptyIff(s: seq<NodeId>)
    ensures s == [] <==> Elements(s) == {}
  {
    if s != [] { assert s[0] in Elements(s); }
  }

  lemma {:induction false} AscendingUnique(a: seq<NodeId>, b: seq<NodeId>)
    requires Ascending(a) && Ascending(b) && Elements(a) == Elements(b)
    ensures a == b
  {
    EmptyIff(a);
    EmptyIff(b);
    if a != [] {
      assert a[0] in Elements(b) && b[0] in Elements(a);
      assert a[0] == b[0];
      var ra, rb := a[1..], b[1..];
      assert a == [a[0]] + ra && b == [b[0]] + rb;
      assert Elements(ra) == Elements(a) - {a[0]} && Elements(rb) == Elements(b) - {b[0]};
      AscendingUnique(ra, rb);
    }
  }

  lemma ElementsAppend(s: seq<NodeId>, k: NodeId)
    ensures Elements(s + [k]) == Elements(s) + {k}
  {
  }

  lemma LeastIsBelow(ids: set<NodeId>, k: NodeId, j: NodeId)
    requires IsLeast(ids, k) && j in ids - {k}
    ensures k < j
  {
  }

  lemma {:induction false} OrderExists(ids: set<NodeId>) returns (s: seq<NodeId>)
    ensures Ascending(s) && Elements(s) == ids
  {
    if ids == {} {
      s := [];
    } else {
      var k := LeastMember(ids);
      var rest := OrderExists(ids - {k});
      s := [k] + rest;
      forall i | 0 <= i < |rest| ensures k < rest[i] {
        assert rest[i] in Elements(rest);
        LeastIsBelow(ids, k, rest[i]);
      }
      assert Elements(s) == {k} + Elements(rest);
    }
  }

  /** The members of a set, ascending. */
  ghost function InOrder(ids: set<NodeId>): (s: seq<NodeId>)
    ensures Ascending(s) && Elements(s) == ids
  {
    assert exists s: seq<NodeId> :: Ascending(s) && Elements(s) == ids by { var s := OrderExists(ids); }
    var s: seq<NodeId> :| Ascending(s) && Elements(s) == ids;
    s
  }

  method SortIds(ids: set<NodeId>) returns (s: seq<NodeId>)
    ensures s == InOrder(ids)
  {
    hide Elements, IsLeast;
    s := [];
    var left := ids;
    NoElements();
    while left != {}
      invariant left <= ids && Ascending(s) && Elements(s) == ids - left
      invariant forall i, j :: 0 <= i < |s| && j in left ==> s[i] < j
    {
      ghost var least := LeastMember(left);
      var k :| k in left && IsLeast(left, k);
      forall j | j in left - {k} ensures k < j { LeastIsBelow(left, k, j); }
      ElementsAppend(s, k);
      s := s + [k];
      left := left - {k};
    }
    AscendingUnique(s, InOrder(ids));
  }

  lemma NoElements()
    ensures Elements<NodeId>([]) == {}
  {
  }

  lemma AscendingCount(s: seq<NodeId>)
    requires Ascending(s)
    ensures Distinct(s) && |Elements(s)| == |s|
  {
    DistinctCount(s);
  }

  // ---------------------------------------------------------------- signed checkpoints

  datatype SignedCheckpoint = SignedCheckpoint(payload: Payload, aggregate: Bytes, signers: seq<NodeId>)

  function KeyOf(roster: Roster, id: NodeId): Bytes { if id in roster then roster[id] else [] }

  function KeysOf(roster: Roster, ids: seq<NodeId>): seq<Bytes> {
    seq(|ids|, i requires 0 <= i < |ids| => KeyOf(roster, ids[i]))
  }

  /** More than two thirds. */
  predicate Quorum(signers: nat, total: nat) { signers * 3 > total * 2 }

  /** What verification establishes: a quorum of distinct members, and their aggregate over the payload. */
  ghost predicate VerifiedBy(bls: Bls, c: SignedCheckpoint, registry: Roster) {
    && Distinct(c.signers)
    && (forall i :: i in c.signers ==> i in c.payload.roster && i in registry && bls.parses(c.payload.roster[i]))
    && Quorum(|c.signers|, |c.payload.roster|)
    && bls.verifies(c.aggregate, SigningBytes(c.payload), KeysOf(c.payload.roster, InOrder(Elements(c.signers))))
  }

  /** The distinct signers, all members of both rosters; none when one is not. */
  method DistinctMembers(c: SignedCheckpoint, registry: Roster) returns (r: Option<set<NodeId>>)
    ensures r.Some? <==> forall i :: i in c.signers ==> i in c.payload.roster && i in registry
    ensures r.Some? ==> r.value == Elements(c.signers)
  {
    var seen: set<NodeId>, i := {}, 0;
    while i < |c.signers|
      invariant 0 <= i <= |c.signers| && seen == Elements(c.signers[..i])
      invariant forall j :: j in seen ==> j in c.payload.roster && j in registry
    {
      var signer := c.signers[i];
      assert c.signers[..i + 1] == c.signers[..i] + [signer];
      if signer !in seen {
        if signer !in c.payload.roster || signer !in registry { return None; }
        seen := seen + {signer};
      }
      i := i + 1;
    }
    assert c.signers[..i] == c.signers;
    return Some(seen);
  }

  method Verify(bls: Bls, c: SignedCheckpoint, registry: Roster) returns (ok: bool)
    ensures ok <==> VerifiedBy(bls, c, registry)
  {
    hide SigningBytes;
    var total := |c.payload.roster|;
    if total == 0 {
      NoQuorumOfNone(bls, c, registry);
      return false;
    }
    var distinct := DistinctMembers(c, registry);
    if distinct.None? { return false; }
    if Distinct(c.signers) { DistinctCount(c.signers); }
    if |distinct.value| * 3 <= total * 2 { return false; }
    if |distinct.value| != |c.signers| { return false; }
    CountDistinct(c.signers);
    var sorted := SortIds(distinct.value);
    var i, keys := 0, [];
    while i < |sorted|
      invariant 0 <= i <= |sorted| && |keys| == i
      invariant forall j :: 0 <= j < i ==> keys[j] == KeyOf(c.payload.roster, sorted[j]) && bls.parses(keys[j])
    {
      assert sorted[i] in Elements(sorted);
      if !bls.parses(KeyOf(c.payload.roster, sorted[i])) { return false; }
      keys := keys + [KeyOf(c.payload.roster, sorted[i])];
      i := i + 1;
    }
    forall j | j in c.signers ensures bls.parses(c.payload.roster[j]) {
      assert j in Elements(sorted);
      var n :| 0 <= n < |sorted| && sorted[n] == j;
      assert keys[n] == c.payload.roster[j];
    }
    assert keys == KeysOf(c.payload.roster, sorted);
    return bls.verifies(c.aggregate, SigningBytes(c.payload), keys);
  }

  lemma NoQuorumOfNone(bls: Bls, c: SignedCheckpoint, registry: Roster)
    requires |c.payload.roster| == 0
    ensures !VerifiedBy(bls, c, registry)
  {
    assert c.payload.roster.Keys == {};
    if c.signers != [] { assert c.signers[0] in c.signers; }
  }

  /** A list with as many distinct elements as entries repeats none. */
  lemma {:induction false} CountDistinct(s: seq<NodeId>)
    requires |Elements(s)| == |s|
    ensures Distinct(s)
  {
    if s != [] {
      var rest := s[1..];
      assert s == [s[0]] + rest;
      assert Elements(s) == Elements(rest) + {s[0]};
      ElementsAtMost(rest);
      CountDistinct(rest);
      assert s[0] !in rest;
    }
  }

  lemma {:induction false} ElementsAtMost(s: seq<NodeId>)
    ensures |Elements(s)| <= |s|
  {
    if s != [] {
      ElementsAtMost(s[1..]);
      assert s == [s[0]] + s[1..];
      assert Elements(s) == Elements(s[1..]) + {s[0]};
    }
  }

  /** Any two verified checkpoints of one roster share more than a third of its members among their signers. */
  lemma QuorumsOverlap(bls: Bls, c: SignedCheckpoint, d: SignedCheckpoint, r: Roster, r': Roster)
    requires VerifiedBy(bls, c, r) && VerifiedBy(bls, d, r') && c.payload.roster == d.payload.roster
    ensures |Elements(c.signers) * Elements(d.signers)| * 3 > |c.payload.roster|
    ensures Elements(c.signers) * Elements(d.signers) <= c.payload.roster.Keys
  {
    hide Distinct, SigningBytes;
    var all := c.payload.roster.Keys;
    DistinctCount(c.signers);
    DistinctCount(d.signers);
    assert |all| == |c.payload.roster|;
    Overlap(Elements(c.signers), Elements(d.signers), all);
  }

  // ---------------------------------------------------------------- collecting signatures

  datatype CheckpointSig = CheckpointSig(round: U64, signer: NodeId, sig: Bytes)

  type Collected = map<NodeId, CheckpointSig>

  /** One arrival: kept when it is for the round, by a member, new, and before the quorum. */
  function Collect(round: U64, registry: Roster, sigs: Collected, sig: CheckpointSig): Collected {
    if sig.round != round || sig.signer !in registry || Quorum(|sigs|, |registry|) || sig.signer in sigs then sigs
    else sigs[sig.signer := sig]
  }

  /** Whether an arrival is the one that reaches the quorum. */
  predicate Completes(round: U64, registry: Roster, sigs: Collected, sig: CheckpointSig) {
    !Quorum(|sigs|, |registry|) && Quorum(|Collect(round, registry, sigs, sig)|, |registry|)
  }

  class CheckpointAccumulator {
    const payload: Payload
    const snapshot: Bytes
    var sigs: Collected

    constructor (payload: Payload, snapshot: Bytes)
      ensures this.payload == payload && this.snapshot == snapshot && sigs == map[]
    {
      this.payload, this.snapshot, sigs := payload, snapshot, map[];
    }

    method AddSig(bls: Bls, sig: CheckpointSig, registry: Roster) returns (r: Option<SignedCheckpoint>)
      modifies this
      ensures sigs == Collect(payload.round, registry, old(sigs), sig)
      ensures r.Some? ==> Completes(payload.round, registry, old(sigs), sig)
      ensures r.Some? ==>
        r.value.payload == payload && Ascending(r.value.signers) && Elements(r.value.signers) == sigs.Keys
      ensures Completes(payload.round, registry, old(sigs), sig) ==>
        var aggregate := bls.aggregate(SigsOf(sigs, InOrder(sigs.Keys)));
        if aggregate.None? then r.None? else r.Some? && r.value.aggregate == aggregate.value
    {
      if sig.round != payload.round { return None; }
      if sig.signer !in registry { return None; }
      if Quorum(|sigs|, |registry|) { return None; }
      if sig.signer !in sigs { sigs := sigs[sig.signer := sig]; }
      if !Quorum(|sigs|, |registry|) { return None; }
      var sorted := SortIds(sigs.Keys);
      var i, parts := 0, [];
      while i < |sorted|
        invariant 0 <= i <= |sorted| && |parts| == i
        invariant forall j :: 0 <= j < i ==> parts[j] == SigOf(sigs, sorted[j])
      {
        parts := parts + [SigOf(sigs, sorted[i])];
        i := i + 1;
      }
      assert parts == SigsOf(sigs, sorted);
      var aggregate := bls.aggregate(parts);
      if aggregate.None? { return None; }
      return Some(SignedCheckpoint(payload, aggregate.value, sorted));
    }
  }

  function SigOf(sigs: Collected, id: NodeId): Bytes { if id in sigs then sigs[id].sig else [] }

  function SigsOf(sigs: Collected, ids: seq<NodeId>): seq<Bytes> {
    seq(|ids|, i requires 0 <= i < |ids| => SigOf(sigs, ids[i]))
  }

  // ---------------------------------------------------------------- every run of arrivals

  function CollectAll(round: U64, registry: Roster, arrivals: seq<CheckpointSig>): Collected {
    if arrivals == [] then map[]
    else Collect(round, registry, CollectAll(round, registry, arrivals[..|arrivals| - 1]), arrivals[|arrivals| - 1])
  }

  /** The distinct members that have signed for the round. */
  ghost function Signers(round: U64, registry: Roster, arrivals: seq<CheckpointSig>): set<NodeId> {
    set i | 0 <= i < |arrivals| && arrivals[i].round == round && arrivals[i].signer in registry :: arrivals[i].signer
  }

  lemma SignersGrow(round: U64, registry: Roster, arrivals: seq<CheckpointSig>)
    requires arrivals != []
    ensures var front, last := arrivals[..|arrivals| - 1], arrivals[|arrivals| - 1];
      Signers(round, registry, arrivals) == Signers(round, registry, front)
        + (if last.round == round && last.signer in registry then {last.signer} else {})
  {
    var front, last := arrivals[..|arrivals| - 1], arrivals[|arrivals| - 1];
    assert arrivals == front + [last];
    forall id | id in Signers(round, registry, front) ensures id in Signers(round, registry, arrivals) {
      var i :| 0 <= i < |front| && front[i].round == round && front[i].signer in registry && front[i].signer == id;
      assert arrivals[i] == front[i];
    }
    if last.round == round && last.signer in registry { assert arrivals[|arrivals| - 1] == last; }
  }

  /** Up to the quorum the accumulator holds exactly the distinct member signers; from there on it stays past it. */
  lemma {:induction false} CollectsSigners(round: U64, registry: Roster, arrivals: seq<CheckpointSig>)
    ensures Quorum(|CollectAll(round, registry, arrivals)|, |registry|) <==>
      Quorum(|Signers(round, registry, arrivals)|, |registry|)
    ensures !Quorum(|Signers(round, registry, arrivals)|, |registry|) ==>
      CollectAll(round, registry, arrivals).Keys == Signers(round, registry, arrivals)
  {
    if arrivals == [] {
      assert Signers(round, registry, arrivals) == {};
    } else {
      var front := arrivals[..|arrivals| - 1];
      CollectsSigners(round, registry, front);
      SignersGrow(round, registry, arrivals);
      SubsetCardinality(Signers(round, registry, front), Signers(round, registry, arrivals));
      var before, after := CollectAll(round, registry, front), CollectAll(round, registry, arrivals);
      assert |before| == |before.Keys| && |after| == |after.Keys|;
    }
  }

  /** The arrival that completes the quorum is exactly the first after which more than two thirds have signed. */
  lemma CompletesAtQuorum(round: U64, registry: Roster, arrivals: seq<CheckpointSig>, i: nat)
    requires i < |arrivals|
    ensures Completes(round, registry, CollectAll(round, registry, arrivals[..i]), arrivals[i]) <==>
      !Quorum(|Signers(round, registry, arrivals[..i])|, |registry|) &&
      Quorum(|Signers(round, registry, arrivals[..i + 1])|, |registry|)
  {
    hide Signers, Collect;
    assert arrivals[..i + 1][..i] == arrivals[..i];
    CollectsSigners(round, registry, arrivals[..i]);
    CollectsSigners(round, registry, arrivals[..i + 1]);
  }

  lemma {:induction false} QuorumStays(round: U64, registry: Roster, arrivals: seq<CheckpointSig>, i: nat)
    requires i <= |arrivals| && Quorum(|Signers(round, registry, arrivals[..i])|, |registry|)
    ensures Quorum(|Signers(round, registry, arrivals)|, |registry|)
    decreases |arrivals|
  {
    hide Signers;
    if i < |arrivals| {
      var front := arrivals[..|arrivals| - 1];
      assert front[..i] == arrivals[..i];
      QuorumStays(round, registry, front, i);
      SignersGrow(round, registry, arrivals);
      SubsetCardinality(Signers(round, registry, front), Signers(round, registry, arrivals));
    } else {
      assert arrivals[..i] == arrivals;
    }
  }

  /** At most one arrival completes the quorum. */
  lemma CompletesOnce(round: U64, registry: Roster, arrivals: seq<CheckpointSig>, i: nat, j: nat)
    requires i < j < |arrivals|
    requires Completes(round, registry, CollectAll(round, registry, arrivals[..i]), arrivals[i])
    ensures !Completes(round, registry, CollectAll(round, registry, arrivals[..j]), arrivals[j])
  {
    hide Signers, Collect, CollectAll, Completes;
    CompletesAtQuorum(round, registry, arrivals, i);
    CompletesAtQuorum(round, registry, arrivals, j);
    assert arrivals[..j][..i + 1] == arrivals[..i + 1];
    QuorumStays(round, registry, arrivals[..j], i + 1);
  }

  lemma NoSigners(round: U64, registry: Roster)
    ensures Signers(round, registry, []) == {}
  {
  }

  /** If more than two thirds ever sign, some arrival completes the quorum. */
  lemma {:induction false} CompletesEventually(round: U64, registry: Roster,
                                               arrivals: seq<CheckpointSig>) returns (i: nat)
    requires Quorum(|Signers(round, registry, arrivals)|, |registry|)
    ensures i < |arrivals| && Completes(round, registry, CollectAll(round, registry, arrivals[..i]), arrivals[i])
  {
    hide Collect, CollectAll, Completes;
    NoSigners(round, registry);
    assert arrivals != [];
    var front := arrivals[..|arrivals| - 1];
    if Quorum(|Signers(round, registry, front)|, |registry|) {
      i := CompletesEventually(round, registry, front);
      assert front[..i] == arrivals[..i];
    } else {
      i := |front|;
      assert arrivals[..i + 1] == arrivals;
      CompletesAtQuorum(round, registry, arrivals, i);
    }
  }

  lemma {:induction false} CollectsMembers(round: U64, registry: Roster, arrivals: seq<CheckpointSig>)
    ensures CollectAll(round, registry, arrivals).Keys <= registry.Keys
  {
    if arrivals != [] { CollectsMembers(round, registry, arrivals[..|arrivals| - 1]); }
  }

  /** What the accumulator emits passes verification exactly when its aggregate does: the quorum part always holds. */
  lemma EmittedVerifies(bls: Bls, payload: Payload, arrivals: seq<CheckpointSig>, i: nat, aggregate: Bytes)
    requires i < |arrivals|
    requires var sigs := CollectAll(payload.round, payload.roster, arrivals[..i]);
      Completes(payload.round, payload.roster, sigs, arrivals[i])
    requires forall id :: id in payload.roster ==> bls.parses(payload.roster[id])
    ensures var signers := InOrder(CollectAll(payload.round, payload.roster, arrivals[..i + 1]).Keys);
      VerifiedBy(bls, SignedCheckpoint(payload, aggregate, signers), payload.roster) <==>
      bls.verifies(aggregate, SigningBytes(payload), KeysOf(payload.roster, signers))
  {
    hide SigningBytes, Collect, Elements;
    assert arrivals[..i + 1][..i] == arrivals[..i];
    var sigs := CollectAll(payload.round, payload.roster, arrivals[..i + 1]);
    CollectsMembers(payload.round, payload.roster, arrivals[..i + 1]);
    var signers := InOrder(sigs.Keys);
    AscendingCount(signers);
    assert |sigs| == |sigs.Keys|;
    forall id | id in signers ensures id in payload.roster { Listed(signers, id); }
  }

  lemma Listed(s: seq<NodeId>, id: NodeId)
    requires id in s
    ensures id in Elements(s)
  {
  }
}
