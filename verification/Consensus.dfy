/**
  From elections to one log: nodes whose view of a round is complete know the same witnesses of it,
  decide the same of them famous, and therefore finalize the same order.
*/
module Consensus {
  import opened Prelude
  import opened Events
  import opened Seeing
  import opened Ancestry
  import opened StronglySeeing
  import opened Rounds
  import opened Fame
  import opened Voting = Elections
  import opened FirstSeen
  import opened Ordering
  import Crypto
  import Windows

  /** Every member has contributed an event born after round `r`. */
  ghost predicate ViewComplete(ms: set<NodeId>, known: set<Event>, r: nat) {
    forall m :: m in ms ==> exists e :: e in known && e.creator == m && Round(ms, e) > r
  }

  /** A complete view of a round holds every witness of the round that its non-forking members ever make. */
  lemma ViewHoldsWitness(ms: set<NodeId>, es: set<Event>, known: set<Event>, w: Event, r: nat)
    requires World(es) && Closed(known) && known <= es && w in es && w.creator in ms && !ForkIn(es, w.creator)
    requires Round(ms, w) == r && ViewComplete(ms, known, r)
    ensures w in known
  {
    hide Round, ForkIn, ChainOk;
    var e :| e in known && e.creator == w.creator && Round(ms, e) > r;
    if Seq(w) <= Seq(e) {
      ForkFreeChain(es, w, e);
      assert Anc(e) <= known;
    } else {
      ForkFreeChain(es, e, w);
      RoundsGrow(ms, w, e);
    }
  }

  ghost function WitnessesIn(a: Elections, r: nat): set<Event>
    reads a, a.graph
  {
    RoundWitnesses(a.graph.Members(), a.graph.events.Keys, r)
  }

  /** Round `r` is decided at `a`: its view is complete and every witness in it has its fame. */
  ghost predicate RoundDecided(a: Elections, r: nat)
    reads a, a.graph
  {
    ViewComplete(a.graph.Members(), a.graph.events.Keys, r) && forall w :: w in WitnessesIn(a, r) ==> w in a.fame
  }

  ghost function Famous(a: Elections, r: nat): set<Event>
    reads a, a.graph
  {
    set w | w in WitnessesIn(a, r) && w in a.fame && a.fame[w]
  }

  /** Every decision of round `r` was taken eagerly or by a tally before its first coin round. */
  ghost predicate DecidedEarly(a: Elections, r: nat)
    reads a, a.graph
  {
    forall w :: w in WitnessesIn(a, r) && w in a.fame ==>
      EagerReady(a.graph.Members(), a.graph.events.Keys, w, a.fame[w]) ||
      EarlyTally(a.graph.Members(), a.graph.events.Keys, w, a.fame[w])
  }

  // ---------------------------------------------------------------- the famous witnesses of a round

  /** `w` is the branch of its creator that this copy met first. */
  ghost predicate Canonical(g: Hashgraph, w: Event)
    reads g
  {
    (w.creator, w.selfParent) in g.firstChild && g.firstChild[(w.creator, w.selfParent)] == w
  }

  /** The famous witnesses a round is finalized with; of a forked one, only the branch met first. */
  method FamousWitnesses(a: Elections, r: nat) returns (canonical: seq<Event>)
    requires a.Valid()
    ensures Distinct(canonical)
    ensures forall w :: w in canonical <==> w in Famous(a, r) && Canonical(a.graph, w)
    ensures ForkFree(a.graph.events.Keys) ==> Elements(canonical) == Famous(a, r)
  {
    hide Hashgraph.Valid, Elections.Valid, Elections.Sound, Elections.Settled, Round, IsWitness, ForkFree;
    var witnesses := ListedWitnesses(a, r);
    canonical := [];
    var i := 0;
    while i < |witnesses|
      invariant 0 <= i <= |witnesses| && Distinct(canonical)
      invariant forall w :: w in canonical <==> w in witnesses[..i] && w in Famous(a, r) && Canonical(a.graph, w)
    {
      var w := witnesses[i];
      assert w in Elements(witnesses);
      assert witnesses[..i + 1] == witnesses[..i] + [w] && w !in witnesses[..i];
      var key := (w.creator, w.selfParent);
      if w in a.fame && a.fame[w] && key in a.graph.firstChild && a.graph.firstChild[key] == w {
        canonical := canonical + [w];
      }
      i := i + 1;
    }
    assert witnesses[..i] == witnesses;
    forall w | w in Famous(a, r) ensures w in witnesses { assert w in Elements(witnesses); }
    if ForkFree(a.graph.events.Keys) {
      forall w | w in Famous(a, r) ensures w in canonical { OnlyChild(a, w); }
    }
  }

  method ListedWitnesses(a: Elections, r: nat) returns (witnesses: seq<Event>)
    requires a.Valid()
    ensures Distinct(witnesses) && Elements(witnesses) == WitnessesIn(a, r)
  {
    hide Hashgraph.Valid, Elections.Settled, Complete;
    witnesses := a.VotersIn(r);
    ListedIsRoundWitnesses(a.graph.Members(), a.graph.events.Keys, r);
  }

  lemma OnlyChild(a: Elections, w: Event)
    requires a.Valid() && w in a.graph.events && ForkFree(a.graph.events.Keys)
    ensures Canonical(a.graph, w)
  {
    hide Elections.Settled, Complete;
    assert a.graph.Listed(w);
    var first := a.graph.firstChild[(w.creator, w.selfParent)];
    assert !ForkIn(a.graph.events.Keys, w.creator);
    assert !Forked(first, w, w.creator);
  }

  // ---------------------------------------------------------------- agreement

  /** Without forks two nodes with complete views of a round know the same witnesses of it. */
  lemma SameWitnesses(a: Elections, b: Elections, r: nat)
    requires a.Valid() && b.Valid() && a.graph.Members() == b.graph.Members() && ForkFree(Joint(a, b))
    requires ViewComplete(a.graph.Members(), a.graph.events.Keys, r)
    requires ViewComplete(b.graph.Members(), b.graph.events.Keys, r)
    ensures WitnessesIn(a, r) == WitnessesIn(b, r)
  {
    hide Hashgraph.Valid, Elections.Valid, ViewComplete, Round, IsWitness, ForkIn, World, Closed;
    var ms, es := a.graph.Members(), Joint(a, b);
    NoForkers(ms, es);
    JointElectorate(ms, a, b);
    NodeWorld(a);
    NodeWorld(b);
    WorldIsClosed(a.graph.events.Keys);
    WorldIsClosed(b.graph.events.Keys);
    forall w | w in WitnessesIn(a, r) ensures w in WitnessesIn(b, r) {
      ViewHoldsWitness(ms, es, b.graph.events.Keys, w, r);
    }
    forall w | w in WitnessesIn(b, r) ensures w in WitnessesIn(a, r) {
      ViewHoldsWitness(ms, es, a.graph.events.Keys, w, r);
    }
  }

  lemma WorldIsClosed(es: set<Event>)
    requires World(es)
    ensures Closed(es)
  {
  }

  /** Two nodes that decided a round, one of them early, hold the same witnesses famous. */
  lemma FamousSetsAgree(a: Elections, b: Elections, r: nat)
    requires a.Valid() && b.Valid() && a.graph.Members() == b.graph.Members() && ForkFree(Joint(a, b))
    requires RoundDecided(a, r) && RoundDecided(b, r) && DecidedEarly(a, r)
    ensures Famous(a, r) == Famous(b, r)
  {
    hide Hashgraph.Valid, Elections.Valid, ViewComplete, RoundWitnesses, ForkFree, EagerReady, EarlyTally;
    SameWitnesses(a, b, r);
    forall w | w in WitnessesIn(a, r) ensures a.fame[w] == b.fame[w] { NodesAgreeOnFame(a, b, w); }
  }

  /** `o` orders what `a` stores and finalized its rounds when and with what the elections of `a` settled. */
  ghost predicate Finalizes(o: Orderer, a: Elections)
    reads o, o.graph, a, a.graph
  {
    && o.graph.Members() == a.graph.Members() && o.graph.events.Keys == a.graph.events.Keys
    && forall r :: 0 <= r < |o.history| ==>
         RoundDecided(a, r + 1) && Distinct(o.history[r]) && Elements(o.history[r]) == Famous(a, r + 1)
  }

  lemma HistoriesAgree(a: Elections, o: Orderer, b: Elections, p: Orderer)
    requires a.Valid() && b.Valid() && a.graph.Members() == b.graph.Members() && ForkFree(Joint(a, b))
    requires Finalizes(o, a) && Finalizes(p, b) && |o.history| <= |p.history|
    requires forall r :: 1 <= r <= |o.history| ==> DecidedEarly(a, r)
    ensures SameFamous(o.history, p.history)
  {
    hide Hashgraph.Valid, Elections.Valid, RoundDecided, DecidedEarly, Famous, ForkFree;
    forall r | 0 <= r < |o.history| ensures multiset(o.history[r]) == multiset(p.history[r]) {
      var mine, theirs := o.history[r], p.history[r];
      assert RoundDecided(a, r + 1) && RoundDecided(b, r + 1) && DecidedEarly(a, r + 1);
      FamousSetsAgree(a, b, r + 1);
      DistinctMultiset(mine, theirs);
    }
  }

  /**
    One log: two nodes that received the same members' events in any order, each finalizing a round
    once its own elections have settled it, assign every event the same round and timestamp and keep
    logs of which one starts with the other, provided no member forks in what they hold together and
    one node's decisions were early.
  */
  lemma NodesAgreeOnLog(a: Elections, o: Orderer, b: Elections, p: Orderer)
    requires a.Valid() && b.Valid() && o.Valid() && p.Valid()
    requires a.graph.Members() == b.graph.Members() && ForkFree(Joint(a, b))
    requires Finalizes(o, a) && Finalizes(p, b) && |o.history| <= |p.history|
    requires forall r :: 1 <= r <= |o.history| ==> DecidedEarly(a, r)
    requires DigestsDiffer(p.graph.events.Keys)
    ensures Keeps(o.received, o.stamps, p.received, p.stamps, |o.history|)
    ensures LogsExtend(o.received, o.stamps, |o.history|, p.received, p.stamps, |p.history|)
  {
    hide Hashgraph.Valid, Elections.Valid, Orderer.Valid, RoundDecided, DecidedEarly, Famous, ForkFree, SameFamous;
    HistoriesAgree(a, o, b, p);
    NodesAgreeOnOrder(o, p);
  }

  /** Hence the two nodes sign one window for every round the first has finalized. */
  lemma NodesSignOneWindow(h: Crypto.HashFn, a: Elections, o: Orderer, b: Elections, p: Orderer,
                           width: nat, round: nat, rounds: nat,
                           list: seq<Event>, records: seq<Windows.WindowRecord>, root: Option<Crypto.Hash>,
                           list': seq<Event>, records': seq<Windows.WindowRecord>, root': Option<Crypto.Hash>)
    requires a.Valid() && b.Valid() && o.Valid() && p.Valid() && o.graph.memberIndex == p.graph.memberIndex
    requires a.graph.Members() == b.graph.Members() && ForkFree(Joint(a, b))
    requires Finalizes(o, a) && Finalizes(p, b) && |o.history| <= |p.history| && round < o.nextRound
    requires forall r :: 1 <= r <= |o.history| ==> DecidedEarly(a, r)
    requires DigestsDiffer(p.graph.events.Keys)
    requires Windows.IsWindowRoot(h, o, width, round, rounds, list, records, root)
    requires Windows.IsWindowRoot(h, p, width, round, rounds, list', records', root')
    ensures records == records' && root == root'
  {
    hide Hashgraph.Valid, Elections.Valid, Orderer.Valid, RoundDecided, DecidedEarly, Famous, ForkFree, SameFamous,
         Windows.IsWindowRoot;
    HistoriesAgree(a, o, b, p);
    Windows.WindowRootsAgree(h, o, p, width, round, rounds, list, records, root, list', records', root');
  }
}
