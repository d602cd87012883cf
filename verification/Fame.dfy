/**
  Virtual voting: a witness's vote on an earlier witness is a function of the voter alone, and the
  decisions it leads to agree across nodes.
*/
module Fame {
  import opened Prelude
  import opened Events
  import opened Seeing
  import opened StronglySeeing
  import opened Rounds

  const COIN_ROUND_FREQUENCY: nat := 12

  /** Whether a voter of round `voter` votes on a candidate of round `candidate` in a coin round. */
  predicate IsCoinRound(voter: nat, candidate: nat) {
    (voter - candidate) % COIN_ROUND_FREQUENCY == 0
  }

  /** Bit 0 of byte 32 of the voter's signature (the low bit of its fifth little-endian word). */
  function CoinVote(y: Event): bool {
    |y.signature| > 4 && y.signature[4] & 1 == 1
  }

  /** The side a tally falls on, a tie counting as yes. */
  predicate TallySide(yes: nat, no: nat) {
    yes >= no
  }

  /** The leading side holds more than two thirds of an `n`-member roster. */
  predicate TallySuper(yes: nat, no: nat, n: nat) {
    (if TallySide(yes, no) then yes else no) * 3 > n * 2
  }

  /** The vote a tally leads to: its side, or the voter's coin in a coin round without a supermajority. */
  predicate TallyVote(yes: nat, no: nat, n: nat, coinRound: bool, coin: bool) {
    if coinRound && !TallySuper(yes, no, n) then coin else TallySide(yes, no)
  }

  /** The previous round's witnesses that `y` strongly sees. */
  ghost function Voters(ms: set<NodeId>, y: Event): set<Event> {
    StrongWitnesses(ms, y, Round(ms, y) - 1)
  }

  /** The vote of witness `y` on candidate `w`. */
  ghost predicate Vote(ms: set<NodeId>, y: Event, w: Event)
    decreases Round(ms, y), 1
  {
    if Round(ms, y) <= Round(ms, w) + 1 then Sees(y, w)
    else TallyVote(|Side(ms, y, w, true)|, |Side(ms, y, w, false)|, |ms|, CoinRound(ms, y, w), CoinVote(y))
  }

  /** The voters on side `v` of `y`'s tally. */
  ghost function Side(ms: set<NodeId>, y: Event, w: Event, v: bool): set<Event>
    decreases Round(ms, y), 0
  {
    set s | s in Voters(ms, y) && Vote(ms, s, w) == v
  }

  ghost predicate Majority(ms: set<NodeId>, y: Event, w: Event) {
    TallySide(|Side(ms, y, w, true)|, |Side(ms, y, w, false)|)
  }

  ghost predicate Super(ms: set<NodeId>, y: Event, w: Event) {
    TallySuper(|Side(ms, y, w, true)|, |Side(ms, y, w, false)|, |ms|)
  }

  ghost predicate CoinRound(ms: set<NodeId>, y: Event, w: Event) {
    IsCoinRound(Round(ms, y), Round(ms, w))
  }

  /** `y`'s tally settles the fame of `w` as `v`; the code tests this in coin rounds too. */
  ghost predicate Decides(ms: set<NodeId>, y: Event, w: Event, v: bool) {
    Round(ms, y) > Round(ms, w) + 1 && Super(ms, y, w) && Majority(ms, y, w) == v
  }

  lemma VoteByTally(ms: set<NodeId>, y: Event, w: Event, yes: nat, no: nat, coinRound: bool)
    requires Round(ms, y) > Round(ms, w) + 1 && coinRound == IsCoinRound(Round(ms, y), Round(ms, w))
    requires yes == |Side(ms, y, w, true)| && no == |Side(ms, y, w, false)|
    ensures Vote(ms, y, w) == TallyVote(yes, no, |ms|, coinRound, CoinVote(y))
  {
  }

  lemma VoteFollowsMajority(ms: set<NodeId>, y: Event, w: Event)
    requires Round(ms, y) > Round(ms, w) + 1 && !IsCoinRound(Round(ms, y), Round(ms, w))
    ensures Vote(ms, y, w) == Majority(ms, y, w)
  {
    hide Round, Side;
  }

  lemma VoterFacts(ms: set<NodeId>, es: set<Event>, z: Event, s: Event)
    requires World(es) && z in es && s in Voters(ms, z)
    ensures s in es && Round(ms, s) == Round(ms, z) - 1
  {
    hide Round, IsWitness, StronglySees;
    assert Anc(z) <= es;
  }

  lemma NotCoin(voter: nat, candidate: nat)
    requires candidate < voter < candidate + COIN_ROUND_FREQUENCY
    ensures !IsCoinRound(voter, candidate)
  {
  }

  lemma SidesSplit(ms: set<NodeId>, y: Event, w: Event)
    ensures |Side(ms, y, w, true)| + |Side(ms, y, w, false)| == |Voters(ms, y)|
  {
    var all, yes, no := Voters(ms, y), Side(ms, y, w, true), Side(ms, y, w, false);
    assert all == yes + no && yes * no == {};
  }

  /** A side with less than a third of the roster loses a tally of more than two thirds of it. */
  lemma SmallSideLoses(ms: set<NodeId>, z: Event, w: Event, v: bool)
    requires |Voters(ms, z)| * 3 > |ms| * 2 && |Side(ms, z, w, !v)| * 3 < |ms|
    ensures Majority(ms, z, w) == v
  {
    SidesSplit(ms, z, w);
  }

  // ---------------------------------------------------------------- counting voters by creator

  /** A world of members' events only, with at most a third of the members forking. */
  ghost predicate Electorate(ms: set<NodeId>, es: set<Event>) {
    World(es) && FewForkers(ms, es) && forall e :: e in es ==> e.creator in ms
  }

  /** Every event past round 1 strongly sees a supermajority of the previous round's witnesses. */
  ghost predicate Waves(ms: set<NodeId>, es: set<Event>) {
    forall e :: e in es && Round(ms, e) >= 2 ==> |Voters(ms, e)| * 3 > |ms| * 2
  }

  ghost function Creators(s: set<Event>): set<NodeId> {
    set e | e in s :: e.creator
  }

  lemma {:induction false} CreatorCount(s: set<Event>)
    requires forall a, b :: a in s && b in s && a.creator == b.creator ==> a == b
    ensures |Creators(s)| == |s|
  {
    if s != {} {
      var e :| e in s;
      CreatorCount(s - {e});
      assert Creators(s) == Creators(s - {e}) + {e.creator};
      assert e.creator !in Creators(s - {e});
    }
  }

  /** Voters of two tallies of the same round that agree on no event come from different members. */
  lemma DisjointVoters(ms: set<NodeId>, es: set<Event>, y: Event, a: set<Event>, z: Event, b: set<Event>)
    requires Electorate(ms, es) && y in es && z in es && Round(ms, y) == Round(ms, z)
    requires a <= Voters(ms, y) && b <= Voters(ms, z) && a * b == {}
    ensures |a| + |b| <= |ms|
  {
    var r := Round(ms, y) - 1;
    forall s, t | s in a + b && t in a + b && s.creator == t.creator ensures s == t {
      var u, v := if s in a then y else z, if t in a then y else z;
      StrongWitnessUnique(ms, es, u, s, v, t, r);
    }
    CreatorCount(a + b);
    assert a + b <= es;
    assert Creators(a + b) <= ms;
    SubsetCardinality(Creators(a + b), ms);
    assert |a + b| == |a| + |b|;
  }

  // ---------------------------------------------------------------- a decision binds

  /** The tally of any event of the deciding round falls on the decided side. */
  lemma DecisionBindsMajority(ms: set<NodeId>, es: set<Event>, y: Event, z: Event, w: Event, v: bool)
    requires Electorate(ms, es) && Waves(ms, es) && y in es && z in es
    requires Decides(ms, y, w, v) && Round(ms, z) == Round(ms, y)
    ensures Majority(ms, z, w) == v
  {
    DisjointVoters(ms, es, y, Side(ms, y, w, v), z, Side(ms, z, w, !v));
    SmallSideLoses(ms, z, w, v);
  }

  /** Once all voters of one round stand on one side, every later tally is unanimous. */
  lemma Unanimous(ms: set<NodeId>, es: set<Event>, z: Event, w: Event, v: bool)
    requires Waves(ms, es) && z in es && Round(ms, z) > Round(ms, w) + 1
    requires forall s :: s in Voters(ms, z) ==> Vote(ms, s, w) == v
    ensures Majority(ms, z, w) == v && Vote(ms, z, w) == v
  {
    SidesSplit(ms, z, w);
    assert Side(ms, z, w, !v) == {};
  }

  /** `z`'s tally on `w` is left to its coin, and the coin shows `v`. */
  ghost predicate LeftToCoin(ms: set<NodeId>, z: Event, w: Event, v: bool) {
    CoinRound(ms, z, w) && !Super(ms, z, w) && CoinVote(z) == v
  }

  /** No tally of `y`'s round on `w` is left to a coin against `v`. */
  ghost predicate CoinsFollow(ms: set<NodeId>, es: set<Event>, y: Event, w: Event, v: bool) {
    forall z :: z in es && Round(ms, z) == Round(ms, y) ==> !LeftToCoin(ms, z, w, !v)
  }

  lemma NoCoinsOutsideCoinRounds(ms: set<NodeId>, es: set<Event>, y: Event, w: Event, v: bool)
    requires !CoinRound(ms, y, w)
    ensures CoinsFollow(ms, es, y, w, v)
  {
  }

  lemma VoteInTallyRound(ms: set<NodeId>, z: Event, w: Event)
    requires Round(ms, z) > Round(ms, w) + 1
    ensures Vote(ms, z, w) == if CoinRound(ms, z, w) && !Super(ms, z, w) then CoinVote(z) else Majority(ms, z, w)
  {
    hide Round, Side;
  }

  /** In the round of a decision only a contrary coin makes a vote differ from it. */
  lemma VoteInDecidingRound(ms: set<NodeId>, es: set<Event>, y: Event, z: Event, w: Event, v: bool)
    requires Electorate(ms, es) && Waves(ms, es) && y in es && z in es
    requires Decides(ms, y, w, v) && Round(ms, z) == Round(ms, y)
    ensures Vote(ms, z, w) == v <==> !LeftToCoin(ms, z, w, !v)
  {
    hide Round, Voters, Vote, Majority, Side, World, FewForkers, Waves, Super;
    DecisionBindsMajority(ms, es, y, z, w, v);
    VoteInTallyRound(ms, z, w);
  }

  /** A decision against which no coin fell fixes every vote of that and all later rounds. */
  lemma {:induction false} DecisionBindsVotes(
    ms: set<NodeId>, es: set<Event>, y: Event, z: Event, w: Event, v: bool)
    requires Electorate(ms, es) && Waves(ms, es) && y in es && z in es
    requires Decides(ms, y, w, v) && CoinsFollow(ms, es, y, w, v) && Round(ms, z) >= Round(ms, y)
    ensures Majority(ms, z, w) == v && Vote(ms, z, w) == v
    decreases Round(ms, z)
  {
    hide Round, Voters, Vote, Majority, Side, World, FewForkers, Waves, LeftToCoin;
    if Round(ms, z) == Round(ms, y) {
      DecisionBindsMajority(ms, es, y, z, w, v);
      VoteInDecidingRound(ms, es, y, z, w, v);
    } else {
      forall s | s in Voters(ms, z) ensures Vote(ms, s, w) == v {
        VoterFacts(ms, es, z, s);
        DecisionBindsVotes(ms, es, y, s, w, v);
      }
      Unanimous(ms, es, z, w, v);
    }
  }

  ghost predicate VotesFollow(ms: set<NodeId>, es: set<Event>, y: Event, w: Event, v: bool) {
    forall z :: z in es && Round(ms, z) >= Round(ms, y) ==> Vote(ms, z, w) == v
  }

  /** A decision binds all the votes from its round on exactly when no coin of its round falls against it. */
  lemma DecisionBindsIff(ms: set<NodeId>, es: set<Event>, y: Event, w: Event, v: bool)
    requires Electorate(ms, es) && Waves(ms, es) && y in es && Decides(ms, y, w, v)
    ensures VotesFollow(ms, es, y, w, v) <==> CoinsFollow(ms, es, y, w, v)
  {
    hide Round, Vote, World, FewForkers, Waves, LeftToCoin, Decides, Electorate;
    if VotesFollow(ms, es, y, w, v) {
      forall z | z in es && Round(ms, z) == Round(ms, y) ensures !LeftToCoin(ms, z, w, !v) {
        VoteInDecidingRound(ms, es, y, z, w, v);
      }
    } else if CoinsFollow(ms, es, y, w, v) {
      forall z | z in es && Round(ms, z) >= Round(ms, y) ensures Vote(ms, z, w) == v {
        DecisionBindsVotes(ms, es, y, z, w, v);
      }
    }
  }

  /** At most one voter per member. */
  lemma VoterCount(ms: set<NodeId>, es: set<Event>, z: Event)
    requires Electorate(ms, es) && z in es
    ensures |Voters(ms, z)| <= |ms|
  {
    DisjointVoters(ms, es, z, Voters(ms, z), z, {});
  }

  lemma DecidesIffSide(ms: set<NodeId>, es: set<Event>, z: Event, w: Event, u: bool)
    requires Electorate(ms, es) && z in es && Round(ms, z) > Round(ms, w) + 1
    ensures Decides(ms, z, w, u) <==> |Side(ms, z, w, u)| * 3 > |ms| * 2
  {
    hide Round, Voters, Side, Electorate;
    VoterCount(ms, es, z);
    SidesSplit(ms, z, w);
  }

  /** The voters of `z` whose coin fell against a decision of their round on `v`. */
  ghost function Turned(ms: set<NodeId>, z: Event, w: Event, v: bool): set<Event> {
    set s | s in Voters(ms, z) && LeftToCoin(ms, s, w, !v)
  }

  lemma TurnedIsOtherSide(ms: set<NodeId>, es: set<Event>, y: Event, z: Event, w: Event, v: bool)
    requires Electorate(ms, es) && Waves(ms, es) && y in es && z in es
    requires Decides(ms, y, w, v) && Round(ms, z) == Round(ms, y) + 1
    ensures Side(ms, z, w, !v) == Turned(ms, z, w, v) && Side(ms, z, w, v) == Voters(ms, z) - Turned(ms, z, w, v)
  {
    hide Round, Voters, Vote, World, FewForkers, Waves, LeftToCoin, Decides, Electorate;
    forall s | s in Voters(ms, z) ensures Vote(ms, s, w) == v <==> !LeftToCoin(ms, s, w, !v) {
      assert s in es && Round(ms, s) == Round(ms, y) by { ElectorateVoter(ms, es, z, s); }
      VoteInDecidingRound(ms, es, y, s, w, v);
    }
  }

  lemma ElectorateVoter(ms: set<NodeId>, es: set<Event>, z: Event, s: Event)
    requires Electorate(ms, es) && z in es && s in Voters(ms, z)
    ensures s in es && Round(ms, s) == Round(ms, z) - 1
  {
    hide World, Round, Voters;
    VoterFacts(ms, es, z, s);
  }

  /**
    A decision taken in a coin round can be overturned: after a tally of round `r` decided `v`, a
    tally of round `r + 1` decides the opposite exactly when more than two thirds of the roster are
    voters it strongly sees that were left to a contrary coin, and confirms `v` exactly when more
    than two thirds are voters that were not.
  */
  lemma CoinRoundReversal(ms: set<NodeId>, es: set<Event>, y: Event, z: Event, w: Event, v: bool)
    requires Electorate(ms, es) && Waves(ms, es) && y in es && z in es
    requires Decides(ms, y, w, v) && Round(ms, z) == Round(ms, y) + 1
    ensures Decides(ms, z, w, !v) <==> |Turned(ms, z, w, v)| * 3 > |ms| * 2
    ensures Decides(ms, z, w, v) <==> |Voters(ms, z) - Turned(ms, z, w, v)| * 3 > |ms| * 2
  {
    hide Round, Voters, Side, Waves, Electorate, Turned;
    TurnedIsOtherSide(ms, es, y, z, w, v);
    DecidesIffSide(ms, es, z, w, !v);
    DecidesIffSide(ms, es, z, w, v);
  }

  /**
    Fame agreement: any two deciding tallies, on any nodes, settle `w` the same way, provided no
    coin fell against the earlier one in its round (two decisions of the same round always agree).
  */
  lemma FameAgreement(ms: set<NodeId>, es: set<Event>, y: Event, z: Event, w: Event, v: bool, u: bool)
    requires Electorate(ms, es) && Waves(ms, es) && y in es && z in es
    requires Decides(ms, y, w, v) && Decides(ms, z, w, u)
    requires Round(ms, y) < Round(ms, z) ==> CoinsFollow(ms, es, y, w, v)
    requires Round(ms, z) < Round(ms, y) ==> CoinsFollow(ms, es, z, w, u)
    ensures v == u
  {
    hide Round, Voters, Vote, Majority, Side, World, FewForkers, Waves, CoinsFollow, Electorate;
    if Round(ms, y) == Round(ms, z) {
      DecisionBindsMajority(ms, es, y, z, w, v);
    } else if Round(ms, y) < Round(ms, z) {
      DecisionBindsVotes(ms, es, y, z, w, v);
    } else {
      DecisionBindsVotes(ms, es, z, y, w, u);
    }
  }

  // ---------------------------------------------------------------- forks nobody has seen whole

  /** No event has both branches of a fork below it, though different events may have one each. */
  ghost predicate ForksUnseen(es: set<Event>) {
    forall e {:trigger Anc(e)} :: e in es ==> ForkFree(Anc(e))
  }

  lemma ForkFreeUnseen(es: set<Event>)
    requires Closed(es) && ForkFree(es)
    ensures ForksUnseen(es)
  {
    forall e, m | e in es ensures !ForkIn(Anc(e), m) { FewerForks(Anc(e), es, m); }
  }

  lemma AncestryIsWorld(e: Event)
    requires ChainOk(e)
    ensures World(Anc(e)) && e in Anc(e)
  {
    AncClosed(e);
    forall a | a in Anc(e) ensures ChainOk(a) { ChainOkInherited(e, a); }
  }

  lemma WorldsJoin(x: set<Event>, y: set<Event>)
    requires World(x) && World(y)
    ensures World(x + y)
  {
    hide Anc, ChainOk;
    forall e {:trigger Anc(e)} | e in x + y ensures Anc(e) <= x + y { }
  }

  /** Until some event has a whole fork below it, every event past round 1 tallies a supermajority. */
  lemma UnseenForkWaves(ms: set<NodeId>, es: set<Event>)
    requires World(es) && ForksUnseen(es)
    ensures Waves(ms, es)
  {
    hide Round, StrongWitnesses, ForkFree, Closed, ChainOk;
    forall e | e in es && Round(ms, e) >= 2 ensures |Voters(ms, e)| * 3 > |ms| * 2 {
      AncestryIsWorld(e);
      PreviousRoundQuorum(ms, Anc(e), e, Round(ms, e) - 1);
    }
  }

  // ---------------------------------------------------------------- the eager decision

  ghost function RoundWitnesses(ms: set<NodeId>, known: set<Event>, r: nat): set<Event> {
    set e | e in known && IsWitness(ms, e) && Round(ms, e) == r
  }

  ghost function EagerSide(ms: set<NodeId>, known: set<Event>, w: Event, v: bool): set<Event> {
    set s | s in RoundWitnesses(ms, known, Round(ms, w) + 1) && Vote(ms, s, w) == v
  }

  /** More than two thirds of the next round's known witnesses vote `v`, one round before a tally could. */
  ghost predicate EagerlyDecides(ms: set<NodeId>, known: set<Event>, w: Event, v: bool) {
    |EagerSide(ms, known, w, v)| * 3 > |ms| * 2
  }

  /** The members that back `v`: those that never fork and have a known next-round witness voting `v`. */
  ghost function Backers(ms: set<NodeId>, es: set<Event>, known: set<Event>, w: Event, v: bool): set<NodeId> {
    Creators(EagerSide(ms, known, w, v)) - Forkers(ms, es)
  }

  /** More than two thirds of the members, and not just of as many witnesses, back `v`. */
  ghost predicate Backed(ms: set<NodeId>, es: set<Event>, known: set<Event>, w: Event, v: bool) {
    |Backers(ms, es, known, w, v)| * 3 > |ms| * 2
  }

  /** A member that does not fork has one witness per round. */
  lemma HonestWitness(ms: set<NodeId>, es: set<Event>, a: Event, b: Event)
    requires World(es) && a in es && b in es && a.creator == b.creator && !ForkIn(es, a.creator)
    requires IsWitness(ms, a) && IsWitness(ms, b) && Round(ms, a) == Round(ms, b)
    ensures a == b
  {
    if Seq(a) <= Seq(b) {
      ForkFreeChain(es, a, b);
      OneWitnessPerRound(ms, a, b);
    } else {
      ForkFreeChain(es, b, a);
      OneWitnessPerRound(ms, b, a);
    }
  }

  /** Any two known next-round witnesses of one backer vote alike. */
  lemma BackerVotesOnce(ms: set<NodeId>, es: set<Event>, known: set<Event>, s: Event, w: Event, v: bool)
    requires Electorate(ms, es) && known <= es && s in RoundWitnesses(ms, es, Round(ms, w) + 1)
    requires s.creator in Backers(ms, es, known, w, v)
    ensures Vote(ms, s, w) == v
  {
    hide Round, IsWitness, Vote, World, FewForkers, ForkIn;
    var t :| t in EagerSide(ms, known, w, v) && t.creator == s.creator;
    HonestWitness(ms, es, s, t);
  }

  lemma SideListed(ms: set<NodeId>, es: set<Event>, z: Event, w: Event, v: bool, r: nat)
    requires World(es) && z in es && Round(ms, z) == r + 1
    ensures Side(ms, z, w, v) <= RoundWitnesses(ms, es, r)
  {
    assert Anc(z) <= es;
    assert StrongWitnesses(ms, z, r) <= RoundWitnesses(ms, es, r);
  }

  lemma SideCreators(ms: set<NodeId>, es: set<Event>, z: Event, w: Event, v: bool)
    requires Electorate(ms, es) && z in es
    ensures |Creators(Side(ms, z, w, v))| == |Side(ms, z, w, v)| && Creators(Side(ms, z, w, v)) <= ms
  {
    hide Round, Vote, World, FewForkers;
    var a := Side(ms, z, w, v);
    forall s, t | s in a && t in a && s.creator == t.creator ensures s == t {
      StrongWitnessUnique(ms, es, z, s, z, t, Round(ms, z) - 1);
    }
    CreatorCount(a);
    forall s | s in a ensures s.creator in ms { VoterFacts(ms, es, z, s); }
  }

  /** When two thirds of the members back `v`, every tally of the next round but one falls on `v`. */
  lemma BackedBindsMajority(ms: set<NodeId>, es: set<Event>, known: set<Event>, z: Event, w: Event, v: bool)
    requires Electorate(ms, es) && Waves(ms, es) && known <= es && z in es
    requires Backed(ms, es, known, w, v) && Round(ms, z) == Round(ms, w) + 2
    ensures Majority(ms, z, w) == v
  {
    hide Round, IsWitness, Vote, Voters, FewForkers, Backers, Majority;
    var against, backers := Creators(Side(ms, z, w, !v)), Backers(ms, es, known, w, v);
    SideListed(ms, es, z, w, !v, Round(ms, w) + 1);
    SideCreators(ms, es, z, w, !v);
    forall m | m in against ensures m !in backers {
      var s :| s in Side(ms, z, w, !v) && s.creator == m;
      if m in backers { BackerVotesOnce(ms, es, known, s, w, v); }
    }
    BackersAreMembers(ms, es, known, w, v);
    Overlap(against, backers, ms);
    assert against * backers == {};
    SmallSideLoses(ms, z, w, v);
  }

  lemma BackersAreMembers(ms: set<NodeId>, es: set<Event>, known: set<Event>, w: Event, v: bool)
    requires Electorate(ms, es) && known <= es
    ensures Backers(ms, es, known, w, v) <= ms
  {
    hide Round, IsWitness, Vote, World, FewForkers;
  }

  /** An eager decision that two thirds of the members back fixes every later vote, forks or not. */
  lemma {:induction false} EagerBindsVotes(
    ms: set<NodeId>, es: set<Event>, known: set<Event>, z: Event, w: Event, v: bool)
    requires Electorate(ms, es) && Waves(ms, es) && known <= es && z in es
    requires Backed(ms, es, known, w, v) && Round(ms, z) >= Round(ms, w) + 2
    ensures Majority(ms, z, w) == v && Vote(ms, z, w) == v
    decreases Round(ms, z)
  {
    hide Round, Voters, Vote, Majority, Side, Backed, Waves, Electorate;
    if Round(ms, z) == Round(ms, w) + 2 {
      BackedBindsMajority(ms, es, known, z, w, v);
      NotCoin(Round(ms, z), Round(ms, w));
      VoteFollowsMajority(ms, z, w);
    } else {
      forall s | s in Voters(ms, z) ensures Vote(ms, s, w) == v {
        ElectorateVoter(ms, es, z, s);
        EagerBindsVotes(ms, es, known, s, w, v);
      }
      Unanimous(ms, es, z, w, v);
    }
  }

  /** A backed eager decision agrees with every tally decision, coin rounds included. */
  lemma EagerAgreement(ms: set<NodeId>, es: set<Event>, known: set<Event>, z: Event, w: Event, v: bool, u: bool)
    requires Electorate(ms, es) && Waves(ms, es) && known <= es && z in es
    requires Backed(ms, es, known, w, v) && Decides(ms, z, w, u)
    ensures v == u
  {
    hide Round, Voters, Vote, Side, Backed, Waves, Electorate;
    EagerBindsVotes(ms, es, known, z, w, v);
  }

  /** Two backed eager decisions, taken on different graphs, agree. */
  lemma EagerPairAgreement(
    ms: set<NodeId>, es: set<Event>, known: set<Event>, known': set<Event>, w: Event, v: bool, u: bool)
    requires Electorate(ms, es) && known <= es && known' <= es
    requires Backed(ms, es, known, w, v) && Backed(ms, es, known', w, u)
    ensures v == u
  {
    hide Round, IsWitness, Vote, World, FewForkers, Forkers, Electorate;
    var a, b := Backers(ms, es, known, w, v), Backers(ms, es, known', w, u);
    BackersAreMembers(ms, es, known, w, v);
    BackersAreMembers(ms, es, known', w, u);
    Overlap(a, b, ms);
    var m :| m in a * b;
    var s :| s in EagerSide(ms, known, w, v) && s.creator == m;
    BackerVotesOnce(ms, es, known', s, w, u);
  }

  /** Without forks among the voters, the code's count of witnesses is a count of backing members. */
  lemma EagerlyBacked(ms: set<NodeId>, es: set<Event>, known: set<Event>, w: Event, v: bool)
    requires Electorate(ms, es) && known <= es && EagerlyDecides(ms, known, w, v)
    requires forall s :: s in EagerSide(ms, known, w, v) ==> !ForkIn(es, s.creator)
    ensures Backed(ms, es, known, w, v)
  {
    hide Round, IsWitness, Vote, World, FewForkers, ForkIn;
    var side := EagerSide(ms, known, w, v);
    forall s, t | s in side && t in side && s.creator == t.creator ensures s == t {
      HonestWitness(ms, es, s, t);
    }
    CreatorCount(side);
    assert Backers(ms, es, known, w, v) == Creators(side);
  }

  /**
    An eager decision that any tally overturns, in whatever later round, was carried by a witness of
    a forking member: the code counts witnesses, and the members behind them were too few.
  */
  lemma OverturnedByFork(ms: set<NodeId>, es: set<Event>, known: set<Event>, z: Event, w: Event, v: bool)
    returns (s: Event)
    requires Electorate(ms, es) && Waves(ms, es) && known <= es && z in es
    requires EagerlyDecides(ms, known, w, v) && Decides(ms, z, w, !v)
    ensures !Backed(ms, es, known, w, v)
    ensures s in EagerSide(ms, known, w, v) && ForkIn(es, s.creator)
  {
    hide Round, Voters, Vote, Side, EagerSide, Waves, Electorate, Backed, Decides, EagerlyDecides, ForkIn;
    if Backed(ms, es, known, w, v) { EagerAgreement(ms, es, known, z, w, v, !v); }
    if forall s :: s in EagerSide(ms, known, w, v) ==> !ForkIn(es, s.creator) {
      EagerlyBacked(ms, es, known, w, v);
    }
    s :| s in EagerSide(ms, known, w, v) && ForkIn(es, s.creator);
  }

  /** The voters of `z` whose own tally on `w` falls on `v`. */
  ghost function TalliedFor(ms: set<NodeId>, z: Event, w: Event, v: bool): set<Event> {
    set s | s in Voters(ms, z) && Majority(ms, s, w) == v
  }

  /**
    How an eager decision on `v` is overturned: a tally two rounds after the eager one decides `u`
    exactly when more than two thirds of the roster are voters it strongly sees whose own tallies of
    the eagerly counted witnesses fall on `u`, whatever was decided eagerly.
  */
  lemma EagerReversal(ms: set<NodeId>, es: set<Event>, z: Event, w: Event, u: bool)
    requires Electorate(ms, es) && z in es && Round(ms, z) == Round(ms, w) + 3
    ensures Decides(ms, z, w, u) <==> |TalliedFor(ms, z, w, u)| * 3 > |ms| * 2
  {
    hide Round, Voters, Vote, Majority, Electorate, Decides;
    forall s | s in Voters(ms, z) ensures Vote(ms, s, w) == Majority(ms, s, w) {
      ElectorateVoter(ms, es, z, s);
      NotCoin(Round(ms, s), Round(ms, w));
      VoteFollowsMajority(ms, s, w);
    }
    assert TalliedFor(ms, z, w, u) == Side(ms, z, w, u);
    DecidesIffSide(ms, es, z, w, u);
  }
}
