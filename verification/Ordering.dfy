/**
  Order finalization: rounds are finalized one after another against their fixed famous witnesses,
  events are stamped once, and the finalized log only grows.
*/
module Ordering {
  import opened Prelude
  import opened Events
  import opened Seeing
  import opened Ancestry
  import opened StronglySeeing
  import opened FirstSeen
  import opened Sorting
  import opened Median

  // ---------------------------------------------------------------- round received

  /** All of a round's famous witnesses, and at least one, see `e`. */
  ghost predicate AllSee(famous: seq<Event>, e: Event) {
    famous != [] && forall w :: w in famous ==> Sees(w, e)
  }

  /** The least finalized round whose famous witnesses all see `e`; round `r` is `history[r - 1]`. */
  ghost function RoundReceived(history: seq<seq<Event>>, e: Event): (r: Option<nat>)
    ensures r.Some? ==> 1 <= r.value <= |history|
  {
    if history == [] then None
    else
      var earlier := RoundReceived(history[..|history| - 1], e);
      if earlier.Some? then earlier
      else if AllSee(history[|history| - 1], e) then Some(|history|)
      else None
  }

  lemma {:induction false} RoundReceivedIsLeast(history: seq<seq<Event>>, e: Event, r: nat)
    requires 1 <= r <= |history|
    ensures RoundReceived(history, e) == Some(r) <==>
      AllSee(history[r - 1], e) && forall q :: 0 <= q < r - 1 ==> !AllSee(history[q], e)
  {
    hide AllSee;
    var before := history[..|history| - 1];
    if r < |history| {
      RoundReceivedIsLeast(before, e, r);
    } else {
      var earlier := RoundReceived(before, e);
      if earlier.Some? {
        RoundReceivedIsLeast(before, e, earlier.value);
        assert AllSee(history[earlier.value - 1], e);
      } else {
        NoneReceives(before, e);
      }
    }
  }

  lemma {:induction false} NoneReceives(history: seq<seq<Event>>, e: Event)
    requires RoundReceived(history, e).None?
    ensures forall q :: 0 <= q < |history| ==> !AllSee(history[q], e)
  {
    if history != [] {
      NoneReceives(history[..|history| - 1], e);
    }
  }

  /** A round received never changes as further rounds are finalized. */
  lemma RoundReceivedFinal(history: seq<seq<Event>>, famous: seq<Event>, e: Event)
    ensures RoundReceived(history + [famous], e) ==
      if RoundReceived(history, e).Some? then RoundReceived(history, e)
      else if AllSee(famous, e) then Some(|history| + 1) else None
  {
    var longer := history + [famous];
    assert longer[..|longer| - 1] == history;
  }

  lemma {:induction false} UnseenNotReceived(history: seq<seq<Event>>, e: Event)
    requires forall r, w :: 0 <= r < |history| && w in history[r] ==> !Sees(w, e)
    ensures RoundReceived(history, e).None?
  {
    if history != [] {
      var before, last := history[..|history| - 1], history[|history| - 1];
      UnseenNotReceived(before, e);
      if last != [] { assert last[0] in last; }
    }
  }

  // ---------------------------------------------------------------- consensus timestamps

  function Stamps(firsts: seq<Event>): (s: seq<nat>)
    ensures |s| == |firsts| && forall i :: 0 <= i < |s| ==> s[i] == firsts[i].timestamp
  {
    seq(|firsts|, i requires 0 <= i < |firsts| => firsts[i].timestamp)
  }

  /** `stamp` is the median of the timestamps at which the famous witnesses first received `e`. */
  ghost predicate IsConsensusStamp(ms: set<NodeId>, famous: seq<Event>, e: Event, stamp: nat) {
    exists firsts :: IsFirsts(ms, famous, e, firsts) && firsts != [] && stamp == MedianOf(Stamps(firsts))
  }

  ghost predicate IsFirsts(ms: set<NodeId>, famous: seq<Event>, e: Event, firsts: seq<Event>) {
    |firsts| == |famous| && forall i :: 0 <= i < |firsts| ==> IsFirst(ms, famous[i], e, firsts[i])
  }

  lemma FirstsGrow(ms: set<NodeId>, famous: seq<Event>, e: Event, firsts: seq<Event>, w: Event, first: Event)
    requires IsFirsts(ms, famous, e, firsts) && IsFirst(ms, w, e, first)
    ensures IsFirsts(ms, famous + [w], e, firsts + [first])
    ensures Stamps(firsts + [first]) == Stamps(firsts) + [first.timestamp]
  {
  }

  /** A witness that sees the target is itself below its own frontier, so it contributes a candidate. */
  lemma WitnessContributes(ms: set<NodeId>, w: Event, t: Event)
    requires ChainOk(w) && w.creator in ms && Sees(w, t)
    ensures exists c :: IsCandidate(ms, w, t, c)
  {
    assert FirstFound(w, w.creator, Seq(w)) == Some(w);
    assert Contributes(w, w.creator, t);
    ChainEventExists(w, w.creator, Boundary(w, w.creator, t));
    assert IsCandidate(ms, w, t, ChainEvent(w, w.creator, Boundary(w, w.creator, t)).value);
  }

  /** The two tests of finalization as function values; `Rule` opens them for chosen arguments. */
  datatype Rules = Rules(allSee: (seq<Event>, Event) -> bool, stamp: (seq<Event>, Event, nat) -> bool)

  ghost predicate RuleAt(ms: set<NodeId>, rules: Rules, famous: seq<Event>, e: Event, t: nat) {
    rules.allSee(famous, e) == AllSee(famous, e) && rules.stamp(famous, e, t) == IsConsensusStamp(ms, famous, e, t)
  }

  ghost predicate Follows(ms: set<NodeId>, rules: Rules) {
    forall famous, e, t {:trigger RuleAt(ms, rules, famous, e, t)} :: RuleAt(ms, rules, famous, e, t)
  }

  ghost function RulesOf(ms: set<NodeId>): (rules: Rules)
    ensures Follows(ms, rules)
  {
    assert Follows(ms, Rules((famous, e) => AllSee(famous, e),
                             (famous, e, t: nat) => IsConsensusStamp(ms, famous, e, t)));
    var rules :| Follows(ms, rules);
    rules
  }

  lemma Rule(ms: set<NodeId>, famous: seq<Event>, e: Event, t: nat)
    ensures RulesOf(ms).allSee(famous, e) == AllSee(famous, e)
    ensures RulesOf(ms).stamp(famous, e, t) == IsConsensusStamp(ms, famous, e, t)
  {
    assert RuleAt(ms, RulesOf(ms), famous, e, t);
  }

  // ---------------------------------------------------------------- the total order

  /** XOR of the signature's eight little-endian words. */
  function TieBreak(signature: seq<bv64>): bv64 {
    if signature == [] then 0 else signature[0] ^ TieBreak(signature[1..])
  }

  /** The three sort keys of an event: consensus timestamp, signature fold, hash. */
  datatype Keys = Keys(stamp: nat, tie: nat, digest: nat)

  function KeysOf(stamps: map<Event, nat>, e: Event): Keys {
    Keys(if e in stamps then stamps[e] else 0, TieBreak(e.signature) as nat, e.digest)
  }

  predicate KeysLe(a: Keys, b: Keys) {
    a.stamp < b.stamp || (a.stamp == b.stamp && (a.tie < b.tie || (a.tie == b.tie && a.digest <= b.digest)))
  }

  lemma KeysTotal(a: Keys, b: Keys)
    ensures KeysLe(a, b) || KeysLe(b, a)
  {
  }

  lemma KeysTransitive(a: Keys, b: Keys, c: Keys)
    requires KeysLe(a, b) && KeysLe(b, c)
    ensures KeysLe(a, c)
  {
  }

  function ConsensusLe(stamps: map<Event, nat>): (Event, Event) -> bool {
    (a, b) => KeysLe(KeysOf(stamps, a), KeysOf(stamps, b))
  }

  lemma ConsensusLePreorder(stamps: map<Event, nat>)
    ensures TotalPreorder(ConsensusLe(stamps))
  {
    var le := ConsensusLe(stamps);
    forall a, b ensures le(a, b) || le(b, a) { KeysTotal(KeysOf(stamps, a), KeysOf(stamps, b)); }
    forall a, b, c | le(a, b) && le(b, c) ensures le(a, c) {
      KeysTransitive(KeysOf(stamps, a), KeysOf(stamps, b), KeysOf(stamps, c));
    }
  }

  ghost function ReceivedIn(received: map<Event, nat>, r: nat): set<Event> {
    set e | e in received && received[e] == r
  }

  /** `order` lists the events received in round `r`, each once, sorted by the three keys. */
  ghost predicate IsRoundOrder(received: map<Event, nat>, stamps: map<Event, nat>, r: nat, order: seq<Event>) {
    Distinct(order) && Elements(order) == ReceivedIn(received, r) && SortedBy(ConsensusLe(stamps), order)
  }

  lemma DistinctMultiset(a: seq<Event>, b: seq<Event>)
    requires Distinct(a) && Distinct(b) && Elements(a) == Elements(b)
    ensures multiset(a) == multiset(b)
  {
    forall x ensures multiset(a)[x] == multiset(b)[x] {
      assert x in a <==> x in Elements(a);
      assert x in b <==> x in Elements(b);
      DistinctOnce(a, x);
      DistinctOnce(b, x);
    }
  }

  lemma {:induction false} DistinctOnce(a: seq<Event>, x: Event)
    requires Distinct(a)
    ensures multiset(a)[x] == if x in a then 1 else 0
  {
    if a != [] {
      assert a == [a[0]] + a[1..] && a[0] !in a[1..];
      DistinctOnce(a[1..], x);
    }
  }

  /** A round has one order, whatever order the store enumerates its events in. */
  lemma RoundOrderUnique(received: map<Event, nat>, stamps: map<Event, nat>, r: nat, a: seq<Event>, b: seq<Event>)
    requires IsRoundOrder(received, stamps, r, a) && IsRoundOrder(received, stamps, r, b)
    requires DigestsDiffer(received.Keys)
    ensures a == b
  {
    var le := ConsensusLe(stamps);
    forall i, j | 0 <= i < |a| && 0 <= j < |a| && le(a[i], a[j]) && le(a[j], a[i]) ensures a[i] == a[j] {
      assert a[i] in Elements(a) && a[j] in Elements(a);
      assert a[i] in received.Keys && a[j] in received.Keys;
    }
    DistinctMultiset(a, b);
    ArrangementUnique(le, a, b);
  }

  /** `log` is the finalized log of rounds 1 to `rounds`: the rounds' orders one after another. */
  ghost predicate IsLog(received: map<Event, nat>, stamps: map<Event, nat>, rounds: nat, log: seq<Event>)
    decreases rounds
  {
    if rounds == 0 then log == []
    else exists k :: 0 <= k <= |log| && IsLogSplit(received, stamps, rounds, log, k)
  }

  ghost predicate IsLogSplit(received: map<Event, nat>, stamps: map<Event, nat>, rounds: nat, log: seq<Event>, k: nat)
    requires rounds >= 1 && k <= |log|
    decreases rounds, 0
  {
    IsLog(received, stamps, rounds - 1, log[..k]) && IsRoundOrder(received, stamps, rounds, log[k..])
  }

  /** `received'` and `stamps'` agree with `received` and `stamps` on every round up to `n`. */
  ghost predicate Keeps(received: map<Event, nat>, stamps: map<Event, nat>, received': map<Event, nat>,
                        stamps': map<Event, nat>, n: nat) {
    && (forall e :: e in received ==> e in received' && received'[e] == received[e])
    && (forall e :: e in received' && received'[e] <= n ==> e in received)
    && received.Keys == stamps.Keys && received'.Keys == stamps'.Keys
    && (forall e :: e in stamps ==> e in stamps' && stamps'[e] == stamps[e])
  }

  /** The finalized log only grows: a later log starts with the earlier one. */
  lemma {:induction false} LogGrows(received: map<Event, nat>, stamps: map<Event, nat>, n: nat, log: seq<Event>,
                                    received': map<Event, nat>, stamps': map<Event, nat>, n': nat, log': seq<Event>)
    requires n <= n' && Keeps(received, stamps, received', stamps', n) && DigestsDiffer(received'.Keys)
    requires IsLog(received, stamps, n, log) && IsLog(received', stamps', n', log')
    ensures log <= log'
    decreases n'
  {
    if n < n' {
      var k :| 0 <= k <= |log'| && IsLogSplit(received', stamps', n', log', k);
      LogGrows(received, stamps, n, log, received', stamps', n' - 1, log'[..k]);
    } else {
      SameLog(received, stamps, received', stamps', n, log, log');
    }
  }

  lemma KeptRoundOrder(received: map<Event, nat>, stamps: map<Event, nat>, received': map<Event, nat>,
                       stamps': map<Event, nat>,
                       n: nat, r: nat, order: seq<Event>)
    requires r <= n && Keeps(received, stamps, received', stamps', n) && IsRoundOrder(received, stamps, r, order)
    ensures IsRoundOrder(received', stamps', r, order)
  {
    assert ReceivedIn(received, r) == ReceivedIn(received', r);
    forall i, j | 0 <= i < j < |order| ensures ConsensusLe(stamps')(order[i], order[j]) {
      assert order[i] in Elements(order) && order[j] in Elements(order);
      assert ConsensusLe(stamps)(order[i], order[j]);
    }
  }

  lemma {:induction false} SameLog(received: map<Event, nat>, stamps: map<Event, nat>, received': map<Event, nat>,
                                   stamps': map<Event, nat>,
                                   n: nat, log: seq<Event>, log': seq<Event>)
    requires Keeps(received, stamps, received', stamps', n) && DigestsDiffer(received'.Keys)
    requires IsLog(received, stamps, n, log) && IsLog(received', stamps', n, log')
    ensures log == log'
  {
    if n > 0 {
      var k :| 0 <= k <= |log| && IsLogSplit(received, stamps, n, log, k);
      var k' :| 0 <= k' <= |log'| && IsLogSplit(received', stamps', n, log', k');
      SameLog(received, stamps, received', stamps', n - 1, log[..k], log'[..k']);
      KeptRoundOrder(received, stamps, received', stamps', n, n, log[k..]);
      RoundOrderUnique(received', stamps', n, log[k..], log'[k'..]);
      assert log == log[..k] + log[k..] && log' == log'[..k'] + log'[k'..];
    }
  }

  // ---------------------------------------------------------------- one node's ordering state

  ghost predicate PlacedIn(received: map<Event, nat>, history: seq<seq<Event>>, e: Event) {
    (if e in received then Some(received[e]) else None) == RoundReceived(history, e)
  }

  ghost predicate StampedIn(ms: set<NodeId>, received: map<Event, nat>, stamps: map<Event, nat>,
                            history: seq<seq<Event>>, e: Event) {
    && e in received && e in stamps && 1 <= received[e] <= |history|
    && RulesOf(ms).stamp(history[received[e] - 1], e, stamps[e])
  }

  lemma PlacedAfter(ms: set<NodeId>, received: map<Event, nat>, received': map<Event, nat>,
                    history: seq<seq<Event>>, famous: seq<Event>, e: Event)
    requires PlacedIn(received, history, e)
    requires e in received ==> e in received' && received'[e] == received[e]
    requires e !in received ==> (e in received' <==> famous != [] && RulesOf(ms).allSee(famous, e))
    requires e in received' && e !in received ==> received'[e] == |history| + 1
    ensures PlacedIn(received', history + [famous], e)
  {
    RoundReceivedFinal(history, famous, e);
    Rule(ms, famous, e, 0);
  }

  /** What a stored stamp says, in full. */
  lemma StampedMeans(ms: set<NodeId>, received: map<Event, nat>, stamps: map<Event, nat>,
                     history: seq<seq<Event>>, e: Event)
    requires StampedIn(ms, received, stamps, history, e)
    ensures IsConsensusStamp(ms, history[received[e] - 1], e, stamps[e])
  {
    Rule(ms, history[received[e] - 1], e, stamps[e]);
  }

  class Orderer {
    const graph: Hashgraph
    var received: map<Event, nat>
    var stamps: map<Event, nat>
    /** The lowest round not finalized yet. */
    var nextRound: nat
    /** The famous witnesses every finalized round was finalized with. */
    ghost var history: seq<seq<Event>>

    ghost predicate Placed(e: Event)
      reads this
    {
      PlacedIn(received, history, e)
    }

    ghost predicate Stamped(e: Event)
      reads this
    {
      StampedIn(graph.Members(), received, stamps, history, e)
    }

    ghost predicate FamousStored()
      reads this, graph
    {
      forall r, w :: 0 <= r < |history| && w in history[r] ==> w in graph.events
    }

    /**
      Every stored event's round received is the least finalized round whose famous witnesses all see
      it, and its timestamp is the median over that round's famous witnesses.
    */
    ghost predicate Valid()
      reads this, graph
    {
      && graph.Valid()
      && nextRound == |history| + 1
      && received.Keys == stamps.Keys && received.Keys <= graph.events.Keys
      && FamousStored()
      && (forall e {:trigger Placed(e)} :: e in graph.events ==> Placed(e))
      && (forall e {:trigger Stamped(e)} :: e in received ==> Stamped(e))
    }

    constructor (memberIds: seq<NodeId>)
      requires Distinct(memberIds)
      ensures Valid() && fresh(graph) && graph.Members() == Elements(memberIds) && received == map[] && nextRound == 1
    {
      graph := new Hashgraph(memberIds);
      received, stamps, nextRound, history := map[], map[], 1, [];
    }

    /** Storing an event orders nothing: no finalized round's witness can see an event that arrives later. */
    method Insert(e: Event) returns (r: Result<Event, ConsensusError>)
      requires Valid()
      modifies graph
      ensures Valid()
      ensures r == match old(graph.Refusal(e)) case None => Ok(e) case Some(err) => Err(err)
      ensures graph.events.Keys == if r.Ok? then old(graph.events.Keys) + {e} else old(graph.events.Keys)
    {
      ghost var known := graph.events.Keys;
      graph.StoredClosed();
      r := graph.Insert(e);
      if r.Ok? {
        forall i, w | 0 <= i < |history| && w in history[i] ensures !Sees(w, e) {
          assert w in known && Anc(w) <= known;
        }
        UnseenNotReceived(history, e);
        forall x {:trigger Placed(x)} | x in graph.events ensures Placed(x) {
          if x != e { assert x in known && old(Placed(x)); }
        }
      }
    }

    /**
      Finalizes the next round against its famous witnesses: every pending event they all see is
      received in it and stamped; whatever was ordered before stays as it was.
    */
    method AssignOrder(famous: seq<Event>)
      requires Valid() && forall w :: w in famous ==> w in graph.events
      modifies this
      ensures Valid() && nextRound == old(nextRound) + 1 && history == old(history) + [famous]
      ensures Keeps(old(received), old(stamps), received, stamps, old(nextRound) - 1)
    {
      hide Hashgraph.Valid, PlacedIn;
      ghost var was, before := history, received;
      var round := nextRound;
      forall e | e in received ensures received[e] < round { assert Stamped(e); }
      nextRound := nextRound + 1;
      history := history + [famous];
      if famous != [] { FinalizePending(famous, round); }
      forall e {:trigger Placed(e)} | e in graph.events ensures Placed(e) {
        assert old(Placed(e));
        PlacedAfter(graph.Members(), before, received, was, famous, e);
      }
      forall e {:trigger Stamped(e)} | e in received ensures Stamped(e) {
        if e in before { assert old(Stamped(e)); }
      }
    }

    /** Orders every pending event that the famous witnesses all see, in any order of the pending set. */
    method FinalizePending(famous: seq<Event>, round: nat)
      requires graph.Valid() && famous != [] && round >= 1 && forall w :: w in famous ==> w in graph.events
      requires received.Keys == stamps.Keys <= graph.events.Keys
      requires forall e :: e in received ==> received[e] < round
      modifies this`received, this`stamps
      ensures received.Keys == stamps.Keys <= graph.events.Keys
      ensures Keeps(old(received), old(stamps), received, stamps, round - 1)
      ensures forall e :: e in graph.events && e !in old(received) ==>
        (e in received <==> RulesOf(graph.Members()).allSee(famous, e))
      ensures forall e :: e in received && e !in old(received) ==>
        received[e] == round && RulesOf(graph.Members()).stamp(famous, e, stamps[e])
    {
      ghost var rules := RulesOf(graph.Members());
      var rest := set e | e in graph.events && e !in received;
      while rest != {}
        invariant rest <= graph.events.Keys && rest !! received.Keys
        invariant received.Keys == stamps.Keys <= graph.events.Keys
        invariant Keeps(old(received), old(stamps), received, stamps, round - 1)
        invariant forall e :: e in graph.events && e !in old(received) && e !in rest ==>
          (e in received <==> rules.allSee(famous, e))
        invariant forall e :: e in received && e !in old(received) ==>
          received[e] == round && rules.stamp(famous, e, stamps[e])
        decreases |rest|
      {
        var e :| e in rest;
        Finalize(e, famous, round);
        rest := rest - {e};
      }
    }

    /** Orders `e` in `round` when all of the (non-empty) famous witnesses see it. */
    method Finalize(e: Event, famous: seq<Event>, round: nat)
      requires graph.Valid() && e in graph.events && famous != [] && forall w :: w in famous ==> w in graph.events
      requires received.Keys == stamps.Keys && e !in received
      modifies this`received, this`stamps
      ensures received ==
        if RulesOf(graph.Members()).allSee(famous, e) then old(received)[e := round] else old(received)
      ensures stamps.Keys == received.Keys && forall x :: x in old(stamps) ==> stamps[x] == old(stamps)[x]
      ensures e in received ==> RulesOf(graph.Members()).stamp(famous, e, stamps[e])
    {
      var stamp := StampFor(e, famous);
      if stamp.Some? {
        received, stamps := received[e := round], stamps[e := stamp.value];
      }
    }

    method StampFor(e: Event, famous: seq<Event>) returns (stamp: Option<nat>)
      requires graph.Valid() && e in graph.events && famous != [] && forall w :: w in famous ==> w in graph.events
      ensures stamp.Some? <==> RulesOf(graph.Members()).allSee(famous, e)
      ensures stamp.Some? ==> RulesOf(graph.Members()).stamp(famous, e, stamp.value)
    {
      var all := AllFamousSee(famous, e);
      Rule(graph.Members(), famous, e, 0);
      stamp := None;
      if all {
        var firsts := FirstSeenTimestamps(famous, e);
        Rule(graph.Members(), famous, e, MedianOf(firsts));
        stamp := Some(MedianOf(firsts));
      }
    }

    method AllFamousSee(famous: seq<Event>, e: Event) returns (all: bool)
      requires graph.Valid() && e in graph.events && famous != [] && forall w :: w in famous ==> w in graph.events
      ensures all == AllSee(famous, e)
    {
      var i := 0;
      while i < |famous|
        invariant 0 <= i <= |famous|
        invariant forall j :: 0 <= j < i ==> Sees(famous[j], e)
      {
        assert famous[i] in famous;
        var s := graph.See(famous[i], e);
        if !s.value { return false; }
        i := i + 1;
      }
      return true;
    }

    // ------------------------------------------------------------ first-seen timestamps

    /** The contributions to the median: one first-seen timestamp per famous witness. */
    method FirstSeenTimestamps(famous: seq<Event>, t: Event) returns (ts: seq<nat>)
      requires graph.Valid() && t in graph.events && AllSee(famous, t) && forall w :: w in famous ==> w in graph.events
      ensures ts != [] && IsConsensusStamp(graph.Members(), famous, t, MedianOf(ts))
    {
      ts := [];
      ghost var firsts: seq<Event> := [];
      var i := 0;
      while i < |famous|
        invariant 0 <= i <= |famous|
        invariant IsFirsts(graph.Members(), famous[..i], t, firsts) && ts == Stamps(firsts)
      {
        var w := famous[i];
        assert w in famous;
        var r, first := FirstSeenBySeer(w, t);
        if r.Some? {
          assert famous[..i + 1] == famous[..i] + [w];
          FirstsGrow(graph.Members(), famous[..i], t, firsts, w, first);
          ts, firsts := ts + [r.value], firsts + [first];
        }
        i := i + 1;
      }
      assert famous[..i] == famous;
    }

    /** A witness that sees the target always has a first-seen timestamp. */
    method FirstSeenBySeer(w: Event, t: Event) returns (r: Option<nat>, ghost first: Event)
      requires graph.Valid() && w in graph.events && t in graph.events && Sees(w, t)
      ensures r.Some? && IsFirst(graph.Members(), w, t, first) && r.value == first.timestamp
    {
      assert graph.RecordOk(w);
      WitnessContributes(graph.Members(), w, t);
      r, first := FirstSeenTimestamp(w, t);
    }

    /** The timestamp of the least candidate over all members, in any member order. */
    method FirstSeenTimestamp(w: Event, t: Event) returns (r: Option<nat>, ghost first: Event)
      requires graph.Valid() && w in graph.events && t in graph.events
      ensures r.Some? ==> IsFirst(graph.Members(), w, t, first) && r.value == first.timestamp
      ensures r.None? ==> forall c :: !IsCandidate(graph.Members(), w, t, c)
    {
      hide Hashgraph.Valid, LeastSoFar, Contribution, IsCandidate, IsFirst, Precedes;
      var earliest: Option<Event> := None;
      var rest := graph.memberIndex.Keys;
      ghost var done: set<NodeId> := {};
      LeastOfNone(w, t);
      while rest != {}
        invariant done + rest == graph.Members() && LeastSoFar(w, t, done, earliest)
        decreases |rest|
      {
        var m :| m in rest;
        var c := CandidateOf(w, m, t);
        LeastGrows(w, t, done, m, earliest);
        earliest := if c.Some? && (earliest.None? || Precedes(c.value, earliest.value)) then c else earliest;
        rest, done := rest - {m}, done + {m};
      }
      assert done == graph.Members();
      LeastOverall(done, w, t, earliest);
      first := if earliest.Some? then earliest.value else w;
      r := if earliest.Some? then Some(earliest.value.timestamp) else None;
    }

    /** The boundary event of member `m`, when its frontier event below `w` sees `t`. */
    method CandidateOf(w: Event, m: NodeId, t: Event) returns (c: Option<Event>)
      requires graph.Valid() && w in graph.events && t in graph.events && m in graph.memberIndex
      ensures c == Contribution(w, m, t)
    {
      assert graph.RecordOk(w);
      var upTo := graph.events[w].row[graph.memberIndex[m]];
      c := None;
      if upTo != 0 {
        var sees := SeesAtNumber(w, m, upTo, t);
        assert ReadsAt(SeesAt(w, m, t), w, m, t, upTo);
        if sees {
          var low := FindBoundary(w, m, t, upTo);
          c := CreatorChainEvent(w, m, low);
        }
      }
    }

    /** Binary search for the first number of `m` that sees `t`. */
    method FindBoundary(w: Event, m: NodeId, t: Event, upTo: nat) returns (low: nat)
      requires graph.Valid() && w in graph.events && t in graph.events && m in graph.memberIndex
      requires upTo == Slot(w, m) >= 1
      ensures low == Boundary(w, m, t) && 1 <= low <= upTo
    {
      ghost var p := SeesAt(w, m, t);
      var high := upTo;
      low := 1;
      while low < high
        invariant 1 <= low <= high <= upTo
        invariant Bisect(p, low, high) == Bisect(p, 1, upTo)
        decreases high - low
      {
        var mid := low + (high - low) / 2;
        var hit := SeesAtNumber(w, m, mid, t);
        BisectStep(p, low, mid, high, hit);
        low, high := if hit then low else mid + 1, if hit then mid else high;
      }
    }

    method SeesAtNumber(w: Event, m: NodeId, s: nat, t: Event) returns (b: bool)
      requires graph.Valid() && w in graph.events && t in graph.events && m in graph.memberIndex
      requires 1 <= s <= Slot(w, m)
      ensures b == SeesAt(w, m, t)(s)
    {
      var e := CreatorChainEvent(w, m, s);
      graph.Known(w, e.value);
      var sees := graph.See(e.value, t);
      assert ReadsAt(SeesAt(w, m, t), w, m, t, s);
      return sees.value;
    }

    /** The table lookup when `m` has no known fork, the walk below `w` otherwise. */
    method CreatorChainEvent(w: Event, m: NodeId, s: nat) returns (e: Option<Event>)
      requires graph.Valid() && w in graph.events && m in graph.memberIndex && 1 <= s <= Slot(w, m)
      ensures e == ChainEvent(w, m, s) && e.Some?
    {
      graph.FlagMeansFork(m);
      assert graph.RecordOk(w);
      ChainEventExists(w, m, s);
      if graph.knownForkers[graph.memberIndex[m]] {
        e := graph.AncestorEventForCreator(w, m, s);
      } else {
        graph.UniqueByNumber(w, m, s);
        e := graph.EventForCreatorSeq(m, s);
      }
    }

    /** The finalized order of one round, from any enumeration of the stored events. */
    method ConsensusOrder(round: nat, enumeration: seq<Event>) returns (order: seq<Event>)
      requires Valid() && Distinct(enumeration) && Elements(enumeration) == graph.events.Keys
      ensures IsRoundOrder(received, stamps, round, order)
    {
      hide Hashgraph.Valid, StampedIn, PlacedIn, ConsensusLe;
      var chosen: seq<Event> := [];
      var i := 0;
      while i < |enumeration|
        invariant 0 <= i <= |enumeration| && Distinct(chosen)
        invariant forall e :: e in chosen <==> e in enumeration[..i] && e in received && received[e] == round
      {
        var e := enumeration[i];
        assert enumeration[..i + 1] == enumeration[..i] + [e] && e !in enumeration[..i];
        if e in received && received[e] == round { chosen := chosen + [e]; }
        i := i + 1;
      }
      assert enumeration[..i] == enumeration;
      forall e ensures e in chosen <==> e in ReceivedIn(received, round) {
        assert e in enumeration <==> e in Elements(enumeration);
      }
      order := SortBy(ConsensusLe(stamps), chosen);
      ConsensusLePreorder(stamps);
      SortBySorts(ConsensusLe(stamps), chosen);
      SortKeepsDistinct(chosen, order);
    }

    method MaxOrderedRound() returns (r: nat)
      ensures forall e :: e in received ==> received[e] <= r
      ensures r == 0 || exists e :: e in received && received[e] == r
    {
      r := 0;
      var rest := received.Keys;
      while rest != {}
        invariant rest <= received.Keys
        invariant forall e :: e in received && e !in rest ==> received[e] <= r
        invariant r == 0 || exists e :: e in received && received[e] == r
        decreases |rest|
      {
        var e :| e in rest;
        r := Max(r, received[e]);
        rest := rest - {e};
      }
    }

    /** Every finalized event in consensus order, round by round up to the highest round with one. */
    method FinalizedEvents(enumeration: seq<Event>) returns (log: seq<Event>)
      requires Valid() && Distinct(enumeration) && Elements(enumeration) == graph.events.Keys
      ensures IsLog(received, stamps, nextRound - 1, log)
    {
      log := [];
      var r := 0;
      var last := MaxOrderedRound();
      while r < last
        invariant 0 <= r <= last && IsLog(received, stamps, r, log)
      {
        var order := ConsensusOrder(r + 1, enumeration);
        LogExtends(received, stamps, r, log, order);
        r, log := r + 1, log + order;
      }
      forall e | e in received ensures received[e] < nextRound { assert Stamped(e); }
      while r < nextRound - 1
        invariant last <= r <= nextRound - 1 && IsLog(received, stamps, r, log)
      {
        assert ReceivedIn(received, r + 1) == {};
        assert IsRoundOrder(received, stamps, r + 1, []);
        LogExtends(received, stamps, r, log, []);
        assert log + [] == log;
        r := r + 1;
      }
    }
  }

  predicate Precedes(a: Event, b: Event) {
    Seq(a) < Seq(b) || (Seq(a) == Seq(b) && a.digest < b.digest)
  }

  ghost predicate NoLater(w: Event, t: Event, m: NodeId, e: Event) {
    Contribution(w, m, t).Some? ==> Before(e, Contribution(w, m, t).value)
  }

  /** `least` is the least of what the members in `done` contribute, or nothing if they contribute nothing. */
  ghost predicate LeastSoFar(w: Event, t: Event, done: set<NodeId>, least: Option<Event>) {
    match least
    case None => forall m :: m in done ==> Contribution(w, m, t).None?
    case Some(e) =>
      && e.creator in done && Contribution(w, e.creator, t) == Some(e)
      && forall m {:trigger NoLater(w, t, m, e)} :: m in done ==> NoLater(w, t, m, e)
  }

  lemma LeastOfNone(w: Event, t: Event)
    ensures LeastSoFar(w, t, {}, None)
  {
  }

  lemma LeastGrows(w: Event, t: Event, done: set<NodeId>, m: NodeId, least: Option<Event>)
    requires LeastSoFar(w, t, done, least)
    ensures var c := Contribution(w, m, t);
      LeastSoFar(w, t, done + {m}, if c.Some? && (least.None? || Precedes(c.value, least.value)) then c else least)
  {
    var c := Contribution(w, m, t);
    var next := if c.Some? && (least.None? || Precedes(c.value, least.value)) then c else least;
    if next.Some? {
      forall k {:trigger NoLater(w, t, k, next.value)} | k in done + {m} ensures NoLater(w, t, k, next.value) {
        if k != m && least.Some? { assert NoLater(w, t, k, least.value); }
      }
    }
  }

  lemma LeastOverall(ms: set<NodeId>, w: Event, t: Event, least: Option<Event>)
    requires LeastSoFar(w, t, ms, least)
    ensures least.Some? ==> IsFirst(ms, w, t, least.value)
    ensures least.None? ==> forall c :: !IsCandidate(ms, w, t, c)
  {
    if least.Some? {
      forall c | IsCandidate(ms, w, t, c) ensures Before(least.value, c) {
        assert NoLater(w, t, c.creator, least.value);
      }
    }
  }

  lemma SortKeepsDistinct(a: seq<Event>, b: seq<Event>)
    requires Distinct(a) && multiset(a) == multiset(b)
    ensures Distinct(b) && Elements(a) == Elements(b)
  {
    forall x ensures x in a <==> x in b {
      assert x in a <==> x in multiset(a);
      assert x in b <==> x in multiset(b);
    }
    forall i, j | 0 <= i < j < |b| ensures b[i] != b[j] {
      DistinctOnce(a, b[i]);
      if b[i] == b[j] { TwicePresent(b, i, j); }
    }
  }

  lemma TwicePresent(b: seq<Event>, i: nat, j: nat)
    requires i < j < |b| && b[i] == b[j]
    ensures multiset(b)[b[i]] >= 2
  {
    assert b == b[..j] + b[j..];
    assert b[i] in b[..j] && b[i] in b[j..];
  }

  lemma LogExtends(received: map<Event, nat>, stamps: map<Event, nat>, rounds: nat, log: seq<Event>, order: seq<Event>)
    requires IsLog(received, stamps, rounds, log) && IsRoundOrder(received, stamps, rounds + 1, order)
    ensures IsLog(received, stamps, rounds + 1, log + order)
  {
    var longer := log + order;
    assert longer[..|log|] == log && longer[|log|..] == order;
    assert IsLogSplit(received, stamps, rounds + 1, longer, |log|);
  }

  // ---------------------------------------------------------------- whole runs

  /** A node's history: events arrive, and rounds are finalized with their famous witnesses. */
  datatype Step = Arrive(event: Event) | FinalizeRound(famous: seq<Event>)

  /**
    Order finality over any interleaving of arrivals and finalizations: what was ordered keeps its
    round and its timestamp, and any finalized log of the end starts with any of the beginning.
  */
  method Run(o: Orderer, steps: seq<Step>)
    requires o.Valid()
    modifies o, o.graph
    ensures o.Valid() && o.nextRound >= old(o.nextRound)
    ensures Keeps(old(o.received), old(o.stamps), o.received, o.stamps, old(o.nextRound) - 1)
    ensures DigestsDiffer(o.received.Keys) ==>
      LogsExtend(old(o.received), old(o.stamps), old(o.nextRound) - 1, o.received, o.stamps, o.nextRound - 1)
  {
    forall e | e in o.received ensures o.received[e] < o.nextRound { assert o.Stamped(e); }
    var i := 0;
    while i < |steps|
      invariant 0 <= i <= |steps| && o.Valid() && o.nextRound >= old(o.nextRound)
      invariant Keeps(old(o.received), old(o.stamps), o.received, o.stamps, old(o.nextRound) - 1)
    {
      match steps[i] {
        case Arrive(e) =>
          var r := o.Insert(e);
        case FinalizeRound(famous) =>
          if forall w :: w in famous ==> w in o.graph.events { o.AssignOrder(famous); }
      }
      i := i + 1;
    }
    if DigestsDiffer(o.received.Keys) {
      AllLogsExtend(old(o.received), old(o.stamps), old(o.nextRound) - 1, o.received, o.stamps, o.nextRound - 1);
    }
  }

  /** Every finalized log of the later state starts with every finalized log of the earlier one. */
  ghost predicate LogsExtend(received: map<Event, nat>, stamps: map<Event, nat>, n: nat,
                             received': map<Event, nat>, stamps': map<Event, nat>, n': nat) {
    forall log, log' :: IsLog(received, stamps, n, log) && IsLog(received', stamps', n', log') ==> log <= log'
  }

  lemma AllLogsExtend(received: map<Event, nat>, stamps: map<Event, nat>, n: nat,
                      received': map<Event, nat>, stamps': map<Event, nat>, n': nat)
    requires n <= n' && Keeps(received, stamps, received', stamps', n) && DigestsDiffer(received'.Keys)
    ensures LogsExtend(received, stamps, n, received', stamps', n')
  {
    forall log, log' | IsLog(received, stamps, n, log) && IsLog(received', stamps', n', log') ensures log <= log' {
      LogGrows(received, stamps, n, log, received', stamps', n', log');
    }
  }

  /** What an ordered event's round and stamp mean, and what it means to be pending. */
  lemma OrderMeaning(o: Orderer, e: Event)
    requires o.Valid() && e in o.graph.events
    ensures e in o.received ==>
      && 1 <= o.received[e] < o.nextRound
      && AllSee(o.history[o.received[e] - 1], e)
      && (forall q :: 0 <= q < o.received[e] - 1 ==> !AllSee(o.history[q], e))
      && IsConsensusStamp(o.graph.Members(), o.history[o.received[e] - 1], e, o.stamps[e])
    ensures e !in o.received ==> forall q :: 0 <= q < |o.history| ==> !AllSee(o.history[q], e)
  {
    hide AllSee, IsConsensusStamp, RoundReceived, Hashgraph.Valid;
    assert o.Placed(e);
    if e in o.received {
      assert o.Stamped(e);
      StampedMeans(o.graph.Members(), o.received, o.stamps, o.history, e);
      RoundReceivedIsLeast(o.history, e, o.received[e]);
    } else {
      NoneReceives(o.history, e);
    }
  }

  // ---------------------------------------------------------------- agreement between nodes

  /** The search has one answer: two candidates that precede all others are the same event. */
  lemma FirstUnique(ms: set<NodeId>, w: Event, t: Event, a: Event, b: Event)
    requires IsFirst(ms, w, t, a) && IsFirst(ms, w, t, b) && DigestsDiffer(Anc(w))
    ensures a == b
  {
    CandidateStored(ms, w, t, a);
    CandidateStored(ms, w, t, b);
    assert Before(a, b) && Before(b, a);
  }

  lemma CandidateStored(ms: set<NodeId>, w: Event, t: Event, c: Event)
    requires IsCandidate(ms, w, t, c)
    ensures c in Anc(w)
  {
  }

  /** `s` without its `j`-th entry. */
  ghost function Without<T>(s: seq<T>, j: nat): (r: seq<T>)
    requires j < |s|
    ensures |r| == |s| - 1 && multiset(s) == multiset(r) + multiset{s[j]}
    ensures forall i :: 0 <= i < |r| ==> r[i] == if i < j then s[i] else s[i + 1]
  {
    assert s == s[..j] + [s[j]] + s[j + 1..];
    s[..j] + s[j + 1..]
  }

  lemma FirstsWithout(ms: set<NodeId>, famous: seq<Event>, e: Event, firsts: seq<Event>, j: nat)
    requires IsFirsts(ms, famous, e, firsts) && j < |famous|
    ensures IsFirsts(ms, Without(famous, j), e, Without(firsts, j))
    ensures multiset(Stamps(firsts)) == multiset(Stamps(Without(firsts, j))) + multiset{firsts[j].timestamp}
    ensures forall w :: w in Without(famous, j) ==> w in famous
  {
    hide IsFirst;
    assert Stamps(Without(firsts, j)) == Without(Stamps(firsts), j);
  }

  /** Two listings of the same famous witnesses contribute the same timestamps. */
  lemma {:induction false} PermutedFirsts(
    ms: set<NodeId>, famous: seq<Event>, famous': seq<Event>, e: Event, a: seq<Event>, b: seq<Event>)
    requires multiset(famous) == multiset(famous') && IsFirsts(ms, famous, e, a) && IsFirsts(ms, famous', e, b)
    requires forall w :: w in famous ==> DigestsDiffer(Anc(w))
    ensures multiset(Stamps(a)) == multiset(Stamps(b))
    decreases |famous|
  {
    hide IsFirst, Anc, DigestsDiffer, Stamps, Without;
    assert |famous| == |multiset(famous)| == |famous'|;
    if famous == [] {
      assert a == b;
    } else {
      var j := FindIn(famous', famous[0]);
      FirstUnique(ms, famous[0], e, a[0], b[j]);
      FirstsWithout(ms, famous, e, a, 0);
      FirstsWithout(ms, famous', e, b, j);
      WithoutSame(famous, famous', 0, j);
      PermutedFirsts(ms, Without(famous, 0), Without(famous', j), e, Without(a, 0), Without(b, j));
    }
  }

  lemma WithoutSame(s: seq<Event>, t: seq<Event>, i: nat, j: nat)
    requires i < |s| && j < |t| && s[i] == t[j] && multiset(s) == multiset(t)
    ensures multiset(Without(s, i)) == multiset(Without(t, j))
  {
    var x := multiset{s[i]};
    assert multiset(Without(s, i)) == multiset(s) - x;
    assert multiset(Without(t, j)) == multiset(t) - x;
  }

  lemma FindIn(s: seq<Event>, x: Event) returns (j: nat)
    requires x in multiset(s)
    ensures j < |s| && s[j] == x
  {
    j :| 0 <= j < |s| && s[j] == x;
  }

  lemma MedianOfPermuted(s: seq<nat>, t: seq<nat>)
    requires s != [] && t != [] && multiset(s) == multiset(t)
    ensures MedianOf(s) == MedianOf(t)
  {
    SortBySorts(AtMost(), s);
    SortBySorts(AtMost(), t);
    ArrangementUnique(AtMost(), SortBy(AtMost(), s), SortBy(AtMost(), t));
  }

  /** A stamp is a function of the famous witnesses, in whatever order they are listed, and the event. */
  lemma StampUnique(ms: set<NodeId>, famous: seq<Event>, famous': seq<Event>, e: Event, s: nat, s': nat)
    requires multiset(famous) == multiset(famous')
    requires IsConsensusStamp(ms, famous, e, s) && IsConsensusStamp(ms, famous', e, s')
    requires forall w :: w in famous ==> DigestsDiffer(Anc(w))
    ensures s == s'
  {
    hide IsFirst, Anc, DigestsDiffer, MedianOf, IsFirsts;
    var a :| IsFirsts(ms, famous, e, a) && a != [] && s == MedianOf(Stamps(a));
    var b :| IsFirsts(ms, famous', e, b) && b != [] && s' == MedianOf(Stamps(b));
    PermutedFirsts(ms, famous, famous', e, a, b);
    MedianOfPermuted(Stamps(a), Stamps(b));
  }

  /** Every round of `history` was finalized in `longer` with the same famous witnesses, in some order. */
  ghost predicate SameFamous(history: seq<seq<Event>>, longer: seq<seq<Event>>) {
    |history| <= |longer| && forall r :: 0 <= r < |history| ==> multiset(history[r]) == multiset(longer[r])
  }

  lemma SameAllSee(famous: seq<Event>, famous': seq<Event>, e: Event)
    requires multiset(famous) == multiset(famous')
    ensures AllSee(famous, e) == AllSee(famous', e)
  {
    hide Sees;
    assert forall w :: w in famous <==> w in multiset(famous);
    assert forall w :: w in famous' <==> w in multiset(famous');
    assert |famous| == |multiset(famous)| == |famous'|;
  }

  /** Rounds finalized later do not change where an event was received. */
  lemma {:induction false} ReceivedOnPrefix(history: seq<seq<Event>>, longer: seq<seq<Event>>, e: Event)
    requires SameFamous(history, longer)
    ensures RoundReceived(history, e).Some? ==> RoundReceived(longer, e) == RoundReceived(history, e)
    ensures RoundReceived(longer, e).Some? && RoundReceived(longer, e).value <= |history| ==>
      RoundReceived(history, e) == RoundReceived(longer, e)
    decreases |longer|
  {
    hide AllSee;
    if |history| < |longer| {
      ReceivedOnPrefix(history, longer[..|longer| - 1], e);
    } else if history != [] {
      ReceivedOnPrefix(history[..|history| - 1], longer[..|longer| - 1], e);
      SameAllSee(history[|history| - 1], longer[|longer| - 1], e);
    }
  }

  /** What was received is known wherever the famous witnesses that received it are. */
  lemma ReceivedIsKnown(o: Orderer, history: seq<seq<Event>>, e: Event)
    requires o.Valid() && SameFamous(history, o.history) && RoundReceived(history, e).Some?
    ensures e in o.graph.events
  {
    hide Hashgraph.Valid, PlacedIn, StampedIn, RoundReceived;
    var r := RoundReceived(history, e).value;
    RoundReceivedIsLeast(history, e, r);
    var w := history[r - 1][0];
    assert w in history[r - 1] && Sees(w, e);
    assert w in multiset(history[r - 1]) && w in o.history[r - 1];
    o.graph.StoredClosed();
    assert Anc(w) <= o.graph.events.Keys;
  }

  lemma SameReceived(o: Orderer, p: Orderer, e: Event)
    requires o.Valid() && p.Valid() && SameFamous(o.history, p.history)
    ensures e in o.received ==> e in p.received && p.received[e] == o.received[e]
    ensures e in p.received && p.received[e] <= |o.history| ==> e in o.received
  {
    hide Hashgraph.Valid, RoundReceived;
    ReceivedOnPrefix(o.history, p.history, e);
    if e in o.received {
      assert o.Placed(e);
      ReceivedIsKnown(p, o.history, e);
      assert p.Placed(e);
    }
    if e in p.received && p.received[e] <= |o.history| {
      assert p.Placed(e);
      assert SameFamous(o.history, o.history);
      ReceivedIsKnown(o, o.history, e);
      assert o.Placed(e);
    }
  }

  lemma SameStamp(o: Orderer, p: Orderer, e: Event)
    requires o.Valid() && p.Valid() && o.graph.Members() == p.graph.Members() && SameFamous(o.history, p.history)
    requires DigestsDiffer(p.graph.events.Keys) && e in o.received
    ensures e in p.stamps && e in o.stamps && p.stamps[e] == o.stamps[e]
  {
    hide Hashgraph.Valid, PlacedIn, IsConsensusStamp, Anc, RulesOf;
    SameReceived(o, p, e);
    assert o.Stamped(e) && p.Stamped(e);
    var ms, famous, famous' := o.graph.Members(), o.history[o.received[e] - 1], p.history[p.received[e] - 1];
    assert multiset(famous) == multiset(famous');
    StampedMeans(ms, o.received, o.stamps, o.history, e);
    StampedMeans(ms, p.received, p.stamps, p.history, e);
    p.graph.StoredClosed();
    forall w | w in famous ensures DigestsDiffer(Anc(w)) {
      assert w in multiset(famous');
      assert w in p.history[p.received[e] - 1];
      assert Anc(w) <= p.graph.events.Keys;
    }
    StampUnique(ms, famous, famous', e, o.stamps[e], p.stamps[e]);
  }

  /**
    Two nodes that finalized the same famous witnesses, one perhaps further along, agree on every round
    and timestamp assigned so far, whatever else each has stored; so one's log starts with the other's.
  */
  lemma NodesAgreeOnOrder(o: Orderer, p: Orderer)
    requires o.Valid() && p.Valid() && o.graph.Members() == p.graph.Members() && SameFamous(o.history, p.history)
    requires DigestsDiffer(p.graph.events.Keys)
    ensures Keeps(o.received, o.stamps, p.received, p.stamps, |o.history|)
    ensures LogsExtend(o.received, o.stamps, |o.history|, p.received, p.stamps, |p.history|)
  {
    hide Hashgraph.Valid, PlacedIn, StampedIn, IsLog;
    forall e ensures e in o.received ==> e in p.received && p.received[e] == o.received[e] { SameReceived(o, p, e); }
    forall e ensures e in p.received && p.received[e] <= |o.history| ==> e in o.received { SameReceived(o, p, e); }
    forall e | e in o.stamps ensures e in p.stamps && p.stamps[e] == o.stamps[e] { SameStamp(o, p, e); }
    AllLogsExtend(o.received, o.stamps, |o.history|, p.received, p.stamps, |p.history|);
  }
}
