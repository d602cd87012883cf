/** Rounds and witnesses, again as functions of the event alone. */
module Rounds {
  import opened Prelude
  import opened Events
  import opened Seeing
  import opened StronglySeeing

  /** The highest round of a parent, or 1 for an event without parents. */
  ghost function BaseRound(ms: set<NodeId>, e: Event): (r: nat)
    ensures r >= 1
    decreases Height(e), 1
  {
    Max(1, Max(match e.selfParent case None => 0 case Some(p) => Round(ms, p),
               match e.otherParent case None => 0 case Some(q) => Round(ms, q)))
  }

  /** The base round, or the next one when `e` strongly sees more than two thirds of its witnesses. */
  ghost function Round(ms: set<NodeId>, e: Event): (r: nat)
    ensures r >= 1
    decreases Height(e), 2
  {
    var base := BaseRound(ms, e);
    if |StrongWitnesses(ms, e, base)| * 3 > |ms| * 2 then base + 1 else base
  }

  /** The first event of its creator in its round, along its own chain. */
  ghost predicate IsWitness(ms: set<NodeId>, e: Event)
    decreases Height(e), 3
  {
    match e.selfParent case None => true case Some(p) => Round(ms, e) > Round(ms, p)
  }

  /** The round-`r` witnesses strictly below `e` that `e` strongly sees. */
  ghost function StrongWitnesses(ms: set<NodeId>, e: Event, r: nat): (s: set<Event>)
    ensures s <= Anc(e)
    decreases Height(e), 0
  {
    set w | w in Anc(e) && w != e && StronglySees(ms, e, w) && IsWitness(ms, w) && Round(ms, w) == r
  }

  lemma {:induction false} RoundsGrow(ms: set<NodeId>, x: Event, y: Event)
    requires y in Anc(x)
    ensures Round(ms, y) <= Round(ms, x)
    decreases x
  {
    hide StrongWitnesses;
    if y != x {
      if x.selfParent.Some? && y in Anc(x.selfParent.value) {
        RoundsGrow(ms, x.selfParent.value, y);
      } else {
        RoundsGrow(ms, x.otherParent.value, y);
      }
    }
  }

  /** A chain holds at most one witness of each round. */
  lemma {:induction false} OneWitnessPerRound(ms: set<NodeId>, a: Event, b: Event)
    requires ChainOk(b) && Seq(a) <= Seq(b) && a == ChainAt(b, Seq(a))
    requires IsWitness(ms, b) && Round(ms, a) == Round(ms, b)
    ensures a == b
  {
    if Seq(a) != Seq(b) {
      var p := b.selfParent.value;
      ChainAtAncestor(p, Seq(a));
      RoundsGrow(ms, p, a);
    }
  }

  /**
    Witnesses strongly seen from anywhere are unique per creator and round: two of them, seen by any
    two events of a world with few forkers, are the same event.
  */
  lemma StrongWitnessUnique(ms: set<NodeId>, es: set<Event>, v: Event, y: Event, w: Event, z: Event, r: nat)
    requires World(es) && FewForkers(ms, es) && v in es && w in es
    requires y in StrongWitnesses(ms, v, r) && z in StrongWitnesses(ms, w, r) && y.creator == z.creator
    ensures y == z
  {
    StronglySeenOnOneChain(ms, es, v, y, w, z);
    assert y in es && z in es;
    if Seq(y) <= Seq(z) {
      OneWitnessPerRound(ms, y, z);
    } else {
      OneWitnessPerRound(ms, z, y);
    }
  }

  // ---------------------------------------------------------------- fork-free worlds

  ghost predicate ForkFree(es: set<Event>) {
    forall m :: !ForkIn(es, m)
  }

  lemma {:induction false} ChainSeesAbove(e: Event, s: nat, y: Event)
    requires 1 <= s <= Seq(e) && ChainSees(ChainAt(e, s), y)
    ensures ChainSees(e, y)
    decreases e
  {
    if Seq(e) != s { ChainSeesAbove(e.selfParent.value, s, y); }
  }

  lemma CarryingGrows(es: set<Event>, x: Event, p: Event, m: NodeId, y: Event)
    requires World(es) && ForkFree(es) && x in es && p in Anc(x) && MemberReaches(p, m, y)
    ensures MemberReaches(x, m, y)
  {
    var low := FirstFound(p, m, Slot(p, m)).value;
    AncTransitive(x, p);
    FewerForks(Anc(x), es, m);
    SlotExact(x, m, low);
    var top := SlotNamesAncestor(x, m);
    FirstFoundComplete(x, m, Slot(x, m), top);
    var high := FirstFound(x, m, Slot(x, m)).value;
    ForkFreeChain(es, low, high);
    ChainSeesAbove(high, Seq(low), y);
  }

  /** Without forks, what an ancestor strongly sees stays strongly seen. */
  lemma StrongSeeingGrows(ms: set<NodeId>, es: set<Event>, x: Event, p: Event, y: Event)
    requires World(es) && ForkFree(es) && x in es && p in Anc(x) && StronglySees(ms, p, y)
    ensures StronglySees(ms, x, y)
  {
    AncTransitive(x, p);
    FewerForks(Anc(x), es, y.creator);
    forall m | m in Carriers(ms, p, y) ensures m in Carriers(ms, x, y) { CarryingGrows(es, x, p, m, y); }
    SubsetCardinality(Carriers(ms, p, y), Carriers(ms, x, y));
  }

  lemma StrongWitnessesGrow(ms: set<NodeId>, es: set<Event>, x: Event, p: Event, r: nat)
    requires World(es) && ForkFree(es) && x in es && p in Anc(x)
    ensures |StrongWitnesses(ms, p, r)| <= |StrongWitnesses(ms, x, r)|
  {
    AncTransitive(x, p);
    forall w | w in StrongWitnesses(ms, p, r) ensures w in StrongWitnesses(ms, x, r) {
      StrongSeeingGrows(ms, es, x, p, w);
    }
    SubsetCardinality(StrongWitnesses(ms, p, r), StrongWitnesses(ms, x, r));
  }

  /** Without forks, every event past round 1 strongly sees a supermajority of the previous round's witnesses. */
  lemma {:induction false} PreviousRoundQuorum(ms: set<NodeId>, es: set<Event>, e: Event, r: nat)
    requires World(es) && ForkFree(es) && e in es && Round(ms, e) == r + 1 && r >= 1
    ensures |StrongWitnesses(ms, e, r)| * 3 > |ms| * 2
    decreases e
  {
    if BaseRound(ms, e) != r {
      if e.selfParent.Some? && Round(ms, e.selfParent.value) == r + 1 {
        PreviousRoundQuorum(ms, es, e.selfParent.value, r);
        StrongWitnessesGrow(ms, es, e, e.selfParent.value, r);
      } else {
        PreviousRoundQuorum(ms, es, e.otherParent.value, r);
        StrongWitnessesGrow(ms, es, e, e.otherParent.value, r);
      }
    }
  }
}
