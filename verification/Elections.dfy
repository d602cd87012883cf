/**
  The incremental machinery on top of one node's graph: round assignment at insertion, memoized
  on-demand votes, tally decisions and the eager decision. Everything it stores is proved to be the
  graph-independent value of `Rounds` and `Fame`, in whatever order the events arrived.
*/
module Elections {
  import opened Prelude
  import opened Events
  import opened Seeing
  import opened Ancestry
  import opened StronglySeeing
  import opened Rounds
  import opened Fame

  datatype VoteOutcome = Cast(vote: bool) | Decided(famous: bool)

  /** Whatever `before` holds, `after` holds alike. */
  ghost predicate Grows<K(!new), V>(before: map<K, V>, after: map<K, V>) {
    forall k :: k in before ==> k in after && after[k] == before[k]
  }

  // ---------------------------------------------------------------- why a witness counts as decided

  /** Some known witness has reached round `r`. */
  ghost predicate Reached(ms: set<NodeId>, known: set<Event>, r: nat) {
    exists t :: t in known && IsWitness(ms, t) && Round(ms, t) >= r
  }

  /** The eager rule fires: two thirds of the roster among the direct votes, and the graph two rounds on. */
  ghost predicate EagerReady(ms: set<NodeId>, known: set<Event>, w: Event, v: bool) {
    EagerlyDecides(ms, known, w, v) && Reached(ms, known, Round(ms, w) + 2)
  }

  /** Some known witness's tally settles `w` as `v`. */
  ghost predicate Tallied(ms: set<NodeId>, known: set<Event>, w: Event, v: bool) {
    exists y :: y in known && IsWitness(ms, y) && Decides(ms, y, w, v)
  }

  ghost predicate Justified(ms: set<NodeId>, known: set<Event>, w: Event, v: bool) {
    EagerReady(ms, known, w, v) || Tallied(ms, known, w, v)
  }

  lemma JustifiedGrows(ms: set<NodeId>, known: set<Event>, more: set<Event>, w: Event, v: bool)
    requires known <= more && Justified(ms, known, w, v)
    ensures Justified(ms, more, w, v)
  {
    hide Round, IsWitness, Vote, Decides;
    if EagerReady(ms, known, w, v) {
      assert EagerSide(ms, known, w, v) <= EagerSide(ms, more, w, v);
      SubsetCardinality(EagerSide(ms, known, w, v), EagerSide(ms, more, w, v));
    }
  }

  /** Only a later witness can settle a witness. */
  lemma JustifiedBefore(ms: set<NodeId>, known: set<Event>, e: Event, w: Event, v: bool)
    requires Justified(ms, known + {e}, w, v) && !(IsWitness(ms, e) && Round(ms, e) > Round(ms, w))
    ensures Justified(ms, known, w, v)
  {
    hide Round, IsWitness, Vote, Super, Majority;
    assert EagerSide(ms, known + {e}, w, v) == EagerSide(ms, known, w, v);
  }

  /**
    The graph-independent values as one bundle of function values. Proofs below treat it as a black
    box; `Meanings` and `Reason` open it for chosen arguments.
  */
  datatype Meaning = Meaning(
    round: Event -> nat,
    opens: Event -> bool,
    voters: Event -> set<Event>,
    vote: (Event, Event) -> bool,
    decisive: (Event, Event) -> bool,
    justified: (set<Event>, Event, bool) -> bool)

  ghost predicate Agrees(ms: set<NodeId>, m: Meaning, y: Event, w: Event) {
    m.round(y) == Round(ms, y) && m.opens(y) == IsWitness(ms, y) && m.voters(y) == Voters(ms, y) &&
    m.vote(y, w) == Vote(ms, y, w) && m.decisive(y, w) == Super(ms, y, w)
  }

  ghost predicate AgreesWhy(ms: set<NodeId>, m: Meaning, known: set<Event>, w: Event, v: bool) {
    m.justified(known, w, v) == Justified(ms, known, w, v)
  }

  ghost predicate Faithful(ms: set<NodeId>, m: Meaning) {
    && (forall y, w {:trigger Agrees(ms, m, y, w)} :: Agrees(ms, m, y, w))
    && (forall known, w, v {:trigger AgreesWhy(ms, m, known, w, v)} :: AgreesWhy(ms, m, known, w, v))
  }

  lemma FaithfulExists(ms: set<NodeId>)
    ensures exists m :: Faithful(ms, m)
  {
    hide Agrees, AgreesWhy, Round, IsWitness, Voters, Vote, Super, Justified;
    var m := Meaning(y => Round(ms, y), y => IsWitness(ms, y), y => Voters(ms, y), (y, w) => Vote(ms, y, w),
                     (y, w) => Super(ms, y, w), (known, w, v) => Justified(ms, known, w, v));
    forall y, w {:trigger Agrees(ms, m, y, w)} ensures Agrees(ms, m, y, w) { AgreesWith(ms, m, y, w); }
    forall known, w, v {:trigger AgreesWhy(ms, m, known, w, v)} ensures AgreesWhy(ms, m, known, w, v) {
      AgreesWhyWith(ms, m, known, w, v);
    }
    assert Faithful(ms, m);
  }

  lemma AgreesWith(ms: set<NodeId>, m: Meaning, y: Event, w: Event)
    requires m.round(y) == Round(ms, y) && m.opens(y) == IsWitness(ms, y) && m.voters(y) == Voters(ms, y)
    requires m.vote(y, w) == Vote(ms, y, w) && m.decisive(y, w) == Super(ms, y, w)
    ensures Agrees(ms, m, y, w)
  {
    hide Round, IsWitness, Voters, Vote, Super;
  }

  lemma AgreesWhyWith(ms: set<NodeId>, m: Meaning, known: set<Event>, w: Event, v: bool)
    requires m.justified(known, w, v) == Justified(ms, known, w, v)
    ensures AgreesWhy(ms, m, known, w, v)
  {
    hide Justified;
  }

  ghost function MeaningOf(ms: set<NodeId>): (m: Meaning) {
    FaithfulExists(ms);
    var m :| Faithful(ms, m);
    m
  }

  lemma RoundMeaning(ms: set<NodeId>, y: Event)
    ensures MeaningOf(ms).round(y) == Round(ms, y) && MeaningOf(ms).opens(y) == IsWitness(ms, y)
  {
    assert Agrees(ms, MeaningOf(ms), y, y);
  }

  lemma VotersMeaning(ms: set<NodeId>, y: Event)
    ensures MeaningOf(ms).voters(y) == Voters(ms, y)
  {
    assert Agrees(ms, MeaningOf(ms), y, y);
  }

  lemma VoteMeaning(ms: set<NodeId>, y: Event, w: Event)
    ensures MeaningOf(ms).vote(y, w) == Vote(ms, y, w) && MeaningOf(ms).decisive(y, w) == Super(ms, y, w)
  {
    assert Agrees(ms, MeaningOf(ms), y, w);
  }

  lemma Reason(ms: set<NodeId>, known: set<Event>, w: Event, v: bool)
    ensures MeaningOf(ms).justified(known, w, v) == Justified(ms, known, w, v)
  {
    assert AgreesWhy(ms, MeaningOf(ms), known, w, v);
  }

  /** The known witnesses of round `r`. */
  ghost function Listed(m: Meaning, known: set<Event>, r: nat): set<Event> {
    set e | e in known && m.opens(e) && m.round(e) == r
  }

  lemma ListedIsRoundWitnesses(ms: set<NodeId>, known: set<Event>, r: nat)
    ensures Listed(MeaningOf(ms), known, r) == RoundWitnesses(ms, known, r)
  {
    forall e ensures e in Listed(MeaningOf(ms), known, r) <==> e in RoundWitnesses(ms, known, r) {
      RoundMeaning(ms, e);
    }
  }

  /** Filtering the known witnesses by strong seeing gives the witnesses `y` strongly sees. */
  lemma StrongAmongListed(ms: set<NodeId>, known: set<Event>, y: Event, r: nat, strong: set<Event>)
    requires Anc(y) <= known + {y} && (y in known ==> Round(ms, y) > r)
    requires forall s :: s in strong <==> s in Listed(MeaningOf(ms), known, r) && StronglySees(ms, y, s)
    ensures strong == StrongWitnesses(ms, y, r)
  {
    ListedIsRoundWitnesses(ms, known, r);
  }

  ghost function SideAmong(m: Meaning, done: set<Event>, w: Event, v: bool): set<Event> {
    set s | s in done && m.vote(s, w) == v
  }

  ghost predicate Counted(m: Meaning, done: set<Event>, w: Event, yes: nat, no: nat) {
    yes == |SideAmong(m, done, w, true)| && no == |SideAmong(m, done, w, false)|
  }

  lemma SideGrows(m: Meaning, done: set<Event>, s: Event, w: Event, v: bool)
    requires s !in done
    ensures |SideAmong(m, done + {s}, w, v)| == |SideAmong(m, done, w, v)| + if m.vote(s, w) == v then 1 else 0
  {
    var was := SideAmong(m, done, w, v);
    assert SideAmong(m, done + {s}, w, v) == if m.vote(s, w) == v then was + {s} else was;
  }

  lemma TallyGrows(m: Meaning, done: set<Event>, s: Event, w: Event, yes: nat, no: nat)
    requires s !in done && Counted(m, done, w, yes, no)
    ensures m.vote(s, w) ==> Counted(m, done + {s}, w, yes + 1, no)
    ensures !m.vote(s, w) ==> Counted(m, done + {s}, w, yes, no + 1)
  {
    SideGrows(m, done, s, w, true);
    SideGrows(m, done, s, w, false);
  }

  lemma SideMeans(ms: set<NodeId>, done: set<Event>, w: Event, v: bool, side: set<Event>)
    requires forall s :: s in side <==> s in done && Vote(ms, s, w) == v
    ensures SideAmong(MeaningOf(ms), done, w, v) == side
  {
    forall s ensures s in SideAmong(MeaningOf(ms), done, w, v) <==> s in side { VoteMeaning(ms, s, w); }
  }

  lemma TallyIsSides(ms: set<NodeId>, m: Meaning, y: Event, w: Event, yes: nat, no: nat)
    requires m == MeaningOf(ms) && Counted(m, m.voters(y), w, yes, no)
    ensures yes == |Side(ms, y, w, true)| && no == |Side(ms, y, w, false)|
  {
    VotersMeaning(ms, y);
    SideMeans(ms, Voters(ms, y), w, true, Side(ms, y, w, true));
    SideMeans(ms, Voters(ms, y), w, false, Side(ms, y, w, false));
  }

  /** What a finished tally means for the voter. */
  lemma TallyVotes(ms: set<NodeId>, m: Meaning, y: Event, w: Event, yes: nat, no: nat, coinRound: bool)
    requires m == MeaningOf(ms) && m.round(y) > m.round(w) + 1 && Counted(m, m.voters(y), w, yes, no)
    requires coinRound == IsCoinRound(m.round(y), m.round(w))
    ensures m.vote(y, w) == TallyVote(yes, no, |ms|, coinRound, CoinVote(y))
    ensures m.decisive(y, w) == TallySuper(yes, no, |ms|)
  {
    assert m.vote(y, w) == Vote(ms, y, w) && m.decisive(y, w) == Super(ms, y, w) by { VoteMeaning(ms, y, w); }
    assert Super(ms, y, w) == TallySuper(yes, no, |ms|) by { TallyIsSides(ms, m, y, w, yes, no); }
    assert Vote(ms, y, w) == TallyVote(yes, no, |ms|, coinRound, CoinVote(y)) by {
      RoundMeaning(ms, y);
      RoundMeaning(ms, w);
      TallyIsSides(ms, m, y, w, yes, no);
      VoteByTally(ms, y, w, yes, no, coinRound);
    }
  }

  /** What a finished tally means for the candidate. */
  lemma TallyDecides(ms: set<NodeId>, m: Meaning, known: set<Event>, y: Event, w: Event, yes: nat, no: nat)
    requires m == MeaningOf(ms) && y in known && m.opens(y) && m.round(y) > m.round(w) + 1
    requires Counted(m, m.voters(y), w, yes, no) && TallySuper(yes, no, |ms|)
    ensures m.justified(known, w, TallySide(yes, no))
  {
    TallyIsSides(ms, m, y, w, yes, no);
    RoundMeaning(ms, y);
    RoundMeaning(ms, w);
    assert Decides(ms, y, w, TallySide(yes, no));
    Reason(ms, known, w, TallySide(yes, no));
  }

  lemma EagerTally(ms: set<NodeId>, m: Meaning, known: set<Event>, w: Event, yes: nat, no: nat)
    requires m == MeaningOf(ms) && Counted(m, Listed(m, known, m.round(w) + 1), w, yes, no)
    ensures yes == |EagerSide(ms, known, w, true)| && no == |EagerSide(ms, known, w, false)|
  {
    var r := m.round(w) + 1;
    assert r == Round(ms, w) + 1 by { RoundMeaning(ms, w); }
    var all := Listed(m, known, r);
    assert all == RoundWitnesses(ms, known, r) by { ListedIsRoundWitnesses(ms, known, r); }
    SideMeans(ms, all, w, true, EagerSide(ms, known, w, true));
    SideMeans(ms, all, w, false, EagerSide(ms, known, w, false));
  }

  /** `h` is the highest round of a known witness, or 0 when there is none. */
  ghost predicate Highest(m: Meaning, known: set<Event>, h: nat) {
    && (forall e :: e in known && m.opens(e) ==> m.round(e) <= h)
    && (h == 0 || exists t :: t in known && m.opens(t) && m.round(t) == h)
  }

  lemma HighestGrows(m: Meaning, known: set<Event>, e: Event, h: nat)
    requires Highest(m, known, h)
    ensures Highest(m, known + {e}, if m.opens(e) then Max(h, m.round(e)) else h)
  {
    assert e in known + {e};
  }

  lemma HighestReached(ms: set<NodeId>, m: Meaning, known: set<Event>, h: nat, r: nat)
    requires m == MeaningOf(ms) && Highest(m, known, h) && r >= 1
    ensures Reached(ms, known, r) <==> h >= r
  {
    hide Round, IsWitness, Faithful, MeaningOf;
    if Reached(ms, known, r) {
      var t :| t in known && IsWitness(ms, t) && Round(ms, t) >= r;
      RoundMeaning(ms, t);
    }
    if h >= r {
      var t :| t in known && m.opens(t) && m.round(t) == h;
      RoundMeaning(ms, t);
    }
  }

  /** What a complete count of the next round's known witnesses means for the candidate. */
  lemma EagerMeans(ms: set<NodeId>, m: Meaning, known: set<Event>, h: nat, w: Event, yes: nat, no: nat, v: bool)
    requires m == MeaningOf(ms) && Counted(m, Listed(m, known, m.round(w) + 1), w, yes, no) && Highest(m, known, h)
    ensures EagerReady(ms, known, w, v) <==> (h >= m.round(w) + 2 && (if v then yes else no) * 3 > |ms| * 2)
  {
    hide Round, IsWitness, Faithful, MeaningOf, Vote, Highest, Reached;
    EagerTally(ms, m, known, w, yes, no);
    RoundMeaning(ms, w);
    HighestReached(ms, m, known, h, m.round(w) + 2);
  }

  lemma ReadyIsReason(ms: set<NodeId>, m: Meaning, known: set<Event>, w: Event, v: bool)
    requires m == MeaningOf(ms) && EagerReady(ms, known, w, v)
    ensures m.justified(known, w, v)
  {
    Reason(ms, known, w, v);
  }

  // ---------------------------------------------------------------- when a witness is dealt with

  /** Every known witness of a later round has voted on `w`. */
  ghost predicate Voted(m: Meaning, known: set<Event>, votes: map<(Event, Event), bool>, w: Event) {
    forall y :: y in known && m.opens(y) && m.round(y) > m.round(w) ==> (y, w) in votes
  }

  /** All votes on `w` are in and nothing known settles it. */
  ghost predicate Open(m: Meaning, known: set<Event>, votes: map<(Event, Event), bool>, w: Event) {
    Voted(m, known, votes, w) && !m.justified(known, w, true) && !m.justified(known, w, false)
  }

  /** A recorded vote past the first voting round came from a tally that decided nothing. */
  ghost predicate Inconclusive(m: Meaning, votes: map<(Event, Event), bool>) {
    forall k :: k in votes && m.round(k.0) > m.round(k.1) + 1 ==> !m.decisive(k.0, k.1)
  }

  lemma NoTally(ms: set<NodeId>, m: Meaning, known: set<Event>, votes: map<(Event, Event), bool>, w: Event, v: bool)
    requires m == MeaningOf(ms) && Voted(m, known, votes, w) && Inconclusive(m, votes)
    ensures !Tallied(ms, known, w, v)
  {
    hide Round, IsWitness, Faithful, MeaningOf, Vote, Super, Majority;
    forall y | y in known && IsWitness(ms, y) ensures !Decides(ms, y, w, v) {
      RoundMeaning(ms, y);
      RoundMeaning(ms, w);
      VoteMeaning(ms, y, w);
    }
  }

  /** Once all have voted on `w` and the eager rule does not fire, nothing known settles it. */
  lemma OpenWhen(ms: set<NodeId>, m: Meaning, known: set<Event>, votes: map<(Event, Event), bool>, w: Event)
    requires m == MeaningOf(ms) && Voted(m, known, votes, w) && Inconclusive(m, votes)
    requires !EagerReady(ms, known, w, true) && !EagerReady(ms, known, w, false)
    ensures Open(m, known, votes, w)
  {
    hide Voted, Inconclusive, MeaningOf, EagerReady, Tallied;
    NoTally(ms, m, known, votes, w, true);
    NoTally(ms, m, known, votes, w, false);
    Reason(ms, known, w, true);
    Reason(ms, known, w, false);
  }

  /** Every one of `undecided` has been dealt with as far as `known` allows. */
  ghost predicate Complete(m: Meaning, known: set<Event>, undecided: set<Event>, votes: map<(Event, Event), bool>) {
    forall w :: w in undecided ==> Open(m, known, votes, w)
  }

  lemma StaysComplete(m: Meaning, known: set<Event>, undecided: set<Event>, votes: map<(Event, Event), bool>,
                      undecided': set<Event>, votes': map<(Event, Event), bool>)
    requires Complete(m, known, undecided, votes) && undecided' <= undecided && Grows(votes, votes')
    ensures Complete(m, known, undecided', votes')
  {
    hide Open, Grows;
    forall w | w in undecided' ensures Open(m, known, votes', w) { OpenGrows(m, known, votes, votes', w); }
  }

  lemma OpenGrows(m: Meaning, known: set<Event>, votes: map<(Event, Event), bool>,
                  votes': map<(Event, Event), bool>, w: Event)
    requires Open(m, known, votes, w) && Grows(votes, votes')
    ensures Open(m, known, votes', w)
  {
  }

  /** An event that is no later witness leaves `w` open. */
  lemma OpenKept(ms: set<NodeId>, m: Meaning, known: set<Event>, e: Event,
                 votes: map<(Event, Event), bool>, w: Event)
    requires m == MeaningOf(ms) && Open(m, known, votes, w) && !(m.opens(e) && m.round(e) > m.round(w))
    ensures Open(m, known + {e}, votes, w)
  {
    hide MeaningOf, Justified, Round, IsWitness, Voted;
    VotedKept(m, known, e, votes, w);
    RoundMeaning(ms, e);
    RoundMeaning(ms, w);
    forall v ensures !m.justified(known + {e}, w, v) {
      Reason(ms, known, w, v);
      Reason(ms, known + {e}, w, v);
      if Justified(ms, known + {e}, w, v) { JustifiedBefore(ms, known, e, w, v); }
    }
  }

  /** Every known witness of a round between `w`'s and `r` has voted on `w`. */
  ghost predicate VotedBelow(m: Meaning, known: set<Event>, votes: map<(Event, Event), bool>, w: Event, r: nat) {
    forall y :: y in known && m.opens(y) && m.round(w) < m.round(y) < r ==> (y, w) in votes
  }

  /** Every known witness of the round after `w`'s has voted on `w`. */
  ghost predicate DirectComplete(m: Meaning, known: set<Event>, votes: map<(Event, Event), bool>, w: Event) {
    forall s :: s in Listed(m, known, m.round(w) + 1) ==> (s, w) in votes
  }

  ghost function Before(m: Meaning, undecided: set<Event>, y: Event): set<Event> {
    set c | c in undecided && m.round(c) < m.round(y)
  }

  lemma OpenVoted(m: Meaning, known: set<Event>, e: Event, votes: map<(Event, Event), bool>, w: Event)
    requires Open(m, known, votes, w) && (e, w) in votes
    ensures Voted(m, known + {e}, votes, w)
  {
  }

  lemma VotedKept(m: Meaning, known: set<Event>, e: Event, votes: map<(Event, Event), bool>, w: Event)
    requires Voted(m, known, votes, w) && (m.opens(e) && m.round(e) > m.round(w) ==> (e, w) in votes)
    ensures Voted(m, known + {e}, votes, w)
  {
  }

  /** The round of a new event, from the strongly seen witnesses of its base round. */
  lemma NewRound(ms: set<NodeId>, known: set<Event>, e: Event, base: nat, strong: set<Event>)
    requires e !in known && Anc(e) <= known + {e} && base == BaseRound(ms, e)
    requires forall s :: s in strong <==> s in Listed(MeaningOf(ms), known, base) && StronglySees(ms, e, s)
    ensures Round(ms, e) == if |strong| * 3 > |ms| * 2 then base + 1 else base
  {
    StrongAmongListed(ms, known, e, base, strong);
  }

  lemma StillJustified(ms: set<NodeId>, known: set<Event>, more: set<Event>, w: Event, v: bool)
    requires known <= more && MeaningOf(ms).justified(known, w, v)
    ensures MeaningOf(ms).justified(more, w, v)
  {
    Reason(ms, known, w, v);
    Reason(ms, more, w, v);
    JustifiedGrows(ms, known, more, w, v);
  }

  ghost predicate ListOk(lists: map<nat, seq<Event>>, m: Meaning, known: set<Event>, r: nat) {
    Distinct(ListAt(lists, r)) && Elements(ListAt(lists, r)) == Listed(m, known, r)
  }

  function ListAt(lists: map<nat, seq<Event>>, r: nat): seq<Event> {
    if r in lists then lists[r] else []
  }

  lemma ListGrows(lists: map<nat, seq<Event>>, lists': map<nat, seq<Event>>, m: Meaning, known: set<Event>,
                  e: Event, r: nat)
    requires e !in known && ListOk(lists, m, known, r)
    requires ListAt(lists', r) == ListAt(lists, r) + if m.opens(e) && m.round(e) == r then [e] else []
    ensures ListOk(lists', m, known + {e}, r)
  {
    var list := ListAt(lists, r);
    if m.opens(e) && m.round(e) == r {
      assert Listed(m, known + {e}, r) == Listed(m, known, r) + {e};
      assert e !in Elements(list);
      assert Elements(list + [e]) == Elements(list) + {e};
    } else {
      assert Listed(m, known + {e}, r) == Listed(m, known, r);
      assert list + [] == list;
    }
  }

  ghost predicate ListsOk(m: Meaning, known: set<Event>, lists: map<nat, seq<Event>>) {
    forall r {:trigger ListOk(lists, m, known, r)} :: ListOk(lists, m, known, r)
  }

  lemma ListsGrow(m: Meaning, known: set<Event>, lists: map<nat, seq<Event>>, e: Event)
    requires e !in known && ListsOk(m, known, lists)
    ensures ListsOk(m, known + {e},
                    if m.opens(e) then lists[m.round(e) := ListAt(lists, m.round(e)) + [e]] else lists)
  {
    hide ListOk;
    var lists' := if m.opens(e) then lists[m.round(e) := ListAt(lists, m.round(e)) + [e]] else lists;
    forall r {:trigger ListOk(lists', m, known + {e}, r)} ensures ListOk(lists', m, known + {e}, r) {
      assert ListOk(lists, m, known, r);
      assert ListAt(lists, r) + [] == ListAt(lists, r);
      ListGrows(lists, lists', m, known, e, r);
    }
  }

  ghost predicate RoundsOk(m: Meaning, known: set<Event>, rounds: map<Event, nat>) {
    rounds.Keys == known && forall e :: e in rounds ==> rounds[e] == m.round(e)
  }

  ghost predicate VotesOk(m: Meaning, known: set<Event>, votes: map<(Event, Event), bool>) {
    Inconclusive(m, votes) &&
    forall k :: k in votes ==> k.0 in known && k.1 in known && votes[k] == m.vote(k.0, k.1)
  }

  ghost predicate FameOk(m: Meaning, known: set<Event>, fame: map<Event, bool>) {
    forall w :: w in fame ==> w in known && m.opens(w) && m.justified(known, w, fame[w])
  }

  ghost function Undecided(m: Meaning, known: set<Event>, fame: map<Event, bool>): set<Event> {
    set e | e in known && m.opens(e) && e !in fame
  }

  lemma RoundAdded(m: Meaning, known: set<Event>, rounds: map<Event, nat>, e: Event)
    requires RoundsOk(m, known, rounds)
    ensures RoundsOk(m, known + {e}, rounds[e := m.round(e)])
  {
  }

  lemma VotesStay(m: Meaning, known: set<Event>, votes: map<(Event, Event), bool>, e: Event)
    requires VotesOk(m, known, votes)
    ensures VotesOk(m, known + {e}, votes)
  {
  }

  lemma FameStays(ms: set<NodeId>, m: Meaning, known: set<Event>, fame: map<Event, bool>, e: Event)
    requires m == MeaningOf(ms) && e !in known && FameOk(m, known, fame)
    ensures FameOk(m, known + {e}, fame)
    ensures Undecided(m, known + {e}, fame) == Undecided(m, known, fame) + if m.opens(e) then {e} else {}
  {
    hide MeaningOf;
    assert e !in fame;
    forall w | w in fame ensures m.justified(known + {e}, w, fame[w]) {
      StillJustified(ms, known, known + {e}, w, fame[w]);
    }
  }

  lemma VoteAdded(m: Meaning, known: set<Event>, votes: map<(Event, Event), bool>, y: Event, w: Event)
    requires VotesOk(m, known, votes) && y in known && w in known
    requires m.round(y) > m.round(w) + 1 ==> !m.decisive(y, w)
    ensures VotesOk(m, known, votes[(y, w) := m.vote(y, w)])
  {
  }

  lemma FameAdded(m: Meaning, known: set<Event>, fame: map<Event, bool>, w: Event, v: bool)
    requires FameOk(m, known, fame) && w in known && m.opens(w) && m.justified(known, w, v)
    ensures FameOk(m, known, fame[w := v]) && Undecided(m, known, fame[w := v]) == Undecided(m, known, fame) - {w}
  {
  }

  class Elections {
    const graph: Hashgraph
    var rounds: map<Event, nat>
    var witnesses: map<nat, seq<Event>>
    var undecided: set<Event>
    var highestWitnessRound: nat
    var votes: map<(Event, Event), bool>
    /** Decided witnesses: true for famous. */
    var fame: map<Event, bool>

    function WitnessesOf(r: nat): seq<Event>
      reads this
    {
      ListAt(witnesses, r)
    }

    ghost function Means(): Meaning { MeaningOf(graph.Members()) }

    /** What is stored about `known` is what `Rounds` and `Fame` say. */
    ghost predicate Settled(m: Meaning, known: set<Event>)
      reads this
    {
      && RoundsOk(m, known, rounds)
      && ListsOk(m, known, witnesses)
      && Highest(m, known, highestWitnessRound)
      && VotesOk(m, known, votes)
      && FameOk(m, known, fame)
      && undecided == Undecided(m, known, fame)
    }

    /** Votes and decisions have only been added since they were as given. */
    ghost predicate Grew(fame0: map<Event, bool>, votes0: map<(Event, Event), bool>, undecided0: set<Event>)
      reads this
    {
      Grows(fame0, fame) && Grows(votes0, votes) && undecided <= undecided0
    }

    /** Nothing stored is wrong; voting may still be under way. */
    ghost predicate Sound()
      reads this, graph
    {
      graph.Valid() && Settled(Means(), graph.events.Keys)
    }

    /** Nothing stored is wrong and no vote or decision is missing. */
    ghost predicate Valid()
      reads this, graph
    {
      Sound() && Complete(Means(), graph.events.Keys, undecided, votes)
    }

    constructor (memberIds: seq<NodeId>)
      requires Distinct(memberIds)
      ensures Valid() && fresh(graph) && graph.Members() == Elements(memberIds) && fame == map[]
    {
      graph := new Hashgraph(memberIds);
      rounds, witnesses, undecided, highestWitnessRound, votes, fame := map[], map[], {}, 0, map[], map[];
    }

    lemma StoredRound(y: Event)
      requires Sound() && y in graph.events
      ensures y in rounds && rounds[y] == Means().round(y)
      ensures y in undecided <==> Means().opens(y) && y !in fame
    {
      hide Hashgraph.Valid, ListsOk, Highest, VotesOk;
    }

    lemma OpenNow(w: Event)
      requires Sound() && Voted(Means(), graph.events.Keys, votes, w)
      requires !EagerReady(graph.Members(), graph.events.Keys, w, true)
      requires !EagerReady(graph.Members(), graph.events.Keys, w, false)
      ensures Open(Means(), graph.events.Keys, votes, w)
    {
      hide Hashgraph.Valid, ListsOk, Highest, Inconclusive, Open, Voted, EagerReady, MeaningOf;
      OpenWhen(graph.Members(), Means(), graph.events.Keys, votes, w);
    }

    // -------------------------------------------------------------- insertion

    /** Stores an event, assigns its round and, when it opens a round for its creator, runs the voting step. */
    method Insert(e: Event) returns (r: Result<Event, ConsensusError>)
      requires Valid()
      modifies this, graph
      ensures Valid()
      ensures r == match old(graph.Refusal(e)) case None => Ok(e) case Some(err) => Err(err)
      ensures graph.events.Keys == if r.Ok? then old(graph.events.Keys) + {e} else old(graph.events.Keys)
      ensures Grows(old(fame), fame) && Grows(old(votes), votes)
    {
      hide Hashgraph.Valid, Settled, Open;
      ghost var known, m := graph.events.Keys, Means();
      r := graph.Insert(e);
      if r.Ok? {
        var round, opens := AssignRound(e, known);
        Store(e, round, opens, known);
        assert graph.events.Keys - {e} == known;
        if opens {
          VoteAsWitness(e);
        } else {
          forall w | w in undecided ensures Open(m, known + {e}, votes, w) {
            OpenKept(graph.Members(), m, known, e, votes, w);
          }
        }
      }
    }

    /** The round of the newly stored `e`, and whether it is its creator's first event of that round. */
    method AssignRound(e: Event, ghost known: set<Event>) returns (round: nat, opens: bool)
      requires graph.Valid() && Settled(Means(), known) && e !in known && graph.events.Keys == known + {e}
      ensures round == Means().round(e) && opens == Means().opens(e)
    {
      hide Hashgraph.Valid;
      ghost var ms := graph.Members();
      graph.StoredClosed();
      assert Anc(e) <= known + {e};
      RoundMeaning(ms, e);
      if e.selfParent.Some? { RoundMeaning(ms, e.selfParent.value); }
      if e.otherParent.Some? { RoundMeaning(ms, e.otherParent.value); }
      var selfRound := if e.selfParent.Some? then rounds[e.selfParent.value] else 0;
      var otherRound := if e.otherParent.Some? then rounds[e.otherParent.value] else 0;
      var base := Max(1, Max(selfRound, otherRound));
      var strong := StronglySeen(e, base, known);
      DistinctCount(strong);
      NewRound(ms, known, e, base, Elements(strong));
      assert |graph.memberIndex| == |ms|;
      round := if |strong| * 3 > |graph.memberIndex| * 2 then base + 1 else base;
      opens := e.selfParent.None? || round > selfRound;
    }

    method Store(e: Event, round: nat, opens: bool, ghost known: set<Event>)
      requires graph.Valid() && Settled(Means(), known) && e !in known && graph.events.Keys == known + {e}
      requires round == Means().round(e) && opens == Means().opens(e)
      modifies this`rounds, this`witnesses, this`undecided, this`highestWitnessRound
      ensures Sound() && undecided == old(undecided) + if opens then {e} else {}
    {
      hide Hashgraph.Valid, RoundsOk, ListsOk, Highest, VotesOk, FameOk, Undecided, MeaningOf;
      ghost var m := Means();
      RoundAdded(m, known, rounds, e);
      ListsGrow(m, known, witnesses, e);
      HighestGrows(m, known, e, highestWitnessRound);
      VotesStay(m, known, votes, e);
      FameStays(graph.Members(), m, known, fame, e);
      rounds := rounds[e := round];
      if opens {
        witnesses := witnesses[round := WitnessesOf(round) + [e]];
        undecided := undecided + {e};
        highestWitnessRound := Max(highestWitnessRound, round);
      }
    }

    /**
      The new witness votes on every undecided earlier witness, and every later witness votes on it.
      Afterwards no vote between known witnesses is missing and whatever can be decided is decided.
    */
    method VoteAsWitness(y: Event)
      requires Sound() && y in graph.events && Means().opens(y)
      requires Complete(Means(), graph.events.Keys - {y}, undecided - {y}, votes)
      modifies this`votes, this`fame, this`undecided
      ensures Valid() && Grew(old(fame), old(votes), old(undecided))
    {
      hide Hashgraph.Valid, Open, Settled, Sound, Voted, EagerReady;
      ghost var m, known := Means(), graph.events.Keys;
      VoteOnEarlier(y);
      BackfillAll(y);
      ghost var u := undecided - {y};
      if y !in fame { TryEagerDecide(y); }
      StaysComplete(m, known, u, votes, undecided - {y}, votes);
      StoredRound(y);
      if y in undecided { OpenNow(y); }
    }

    /** The new witness votes on every undecided earlier witness; the later ones it leaves as they were. */
    method VoteOnEarlier(y: Event)
      requires Sound() && y in graph.events && Means().opens(y)
      requires Complete(Means(), graph.events.Keys - {y}, undecided - {y}, votes)
      modifies this`votes, this`fame, this`undecided
      ensures Sound() && Grew(old(fame), old(votes), old(undecided))
      ensures Complete(Means(), graph.events.Keys, undecided - {y}, votes)
    {
      hide Hashgraph.Valid, Open, Settled, Sound;
      ghost var m, known := Means(), graph.events.Keys;
      var rest := EarlierUndecided(y);
      while rest != {}
        invariant Sound() && Grew(old(fame), old(votes), old(undecided))
        invariant forall c :: c in rest ==> c in known && m.opens(c) && m.round(c) < m.round(y)
        invariant Complete(m, known - {y}, undecided - {y}, votes)
        invariant Complete(m, known, Before(m, undecided, y) - rest, votes)
        decreases |rest|
      {
        var c :| c in rest;
        VoteOn(y, c, Before(m, undecided, y) - rest);
        rest := rest - {c};
      }
      forall w | w in undecided - {y} ensures Open(m, known, votes, w) {
        assert known == (known - {y}) + {y};
        if m.round(w) >= m.round(y) { OpenKept(graph.Members(), m, known - {y}, y, votes, w); }
      }
    }

    method EarlierUndecided(y: Event) returns (rest: set<Event>)
      requires Sound() && y in graph.events
      ensures rest == Before(Means(), undecided, y)
      ensures forall c :: c in rest ==> c in graph.events && Means().opens(c)
    {
      hide Hashgraph.Valid, ListsOk, Highest, VotesOk;
      rest := set c | c in undecided && rounds[c] < rounds[y];
    }

    /** `y` votes on `c` and the eager rule is tried; then `c` is decided or nothing known settles it. */
    method VoteOn(y: Event, c: Event, ghost done: set<Event>)
      requires Sound() && y in graph.events && c in graph.events && Means().opens(y) && Means().opens(c)
      requires Means().round(y) > Means().round(c)
      requires Complete(Means(), graph.events.Keys - {y}, undecided - {y}, votes)
      requires done <= undecided && Complete(Means(), graph.events.Keys, done, votes)
      modifies this`votes, this`fame, this`undecided
      ensures Sound() && Grew(old(fame), old(votes), old(undecided))
      ensures Complete(Means(), graph.events.Keys - {y}, undecided - {y}, votes)
      ensures Complete(Means(), graph.events.Keys, (done + {c}) * undecided, votes)
    {
      hide Hashgraph.Valid, Settled, Sound, Open, EagerReady;
      ghost var m, known, u, vs := Means(), graph.events.Keys, undecided, votes;
      StoredRound(c);
      assert c in u ==> Open(m, known - {y}, vs, c);
      var o := VoteOf(y, c);
      assert c !in fame ==> (y, c) in votes;
      TryEagerDecide(c);
      StaysComplete(m, known - {y}, u - {y}, vs, undecided - {y}, votes);
      StaysComplete(m, known, done, vs, done * undecided, votes);
      StoredRound(c);
      if c in undecided {
        OpenGrows(m, known - {y}, vs, votes, c);
        assert known == (known - {y}) + {y};
        OpenVoted(m, known - {y}, y, votes, c);
        OpenNow(c);
      }
    }

    /** Every known witness of a later round votes on `y`, round by round until it is decided. */
    method BackfillAll(y: Event)
      requires Sound() && y in graph.events && Means().opens(y)
      requires Complete(Means(), graph.events.Keys, undecided - {y}, votes)
      modifies this`votes, this`fame, this`undecided
      ensures Sound() && Grew(old(fame), old(votes), old(undecided))
      ensures Complete(Means(), graph.events.Keys, undecided - {y}, votes)
      ensures y in fame || Voted(Means(), graph.events.Keys, votes, y)
    {
      hide Hashgraph.Valid, Settled, Sound, Open, Complete, EagerReady;
      ghost var m, known, u, vs := Means(), graph.events.Keys, undecided, votes;
      StoredRound(y);
      var r := rounds[y] + 1;
      while r <= highestWitnessRound && y !in fame
        invariant Sound() && Grew(old(fame), old(votes), old(undecided)) && r > m.round(y)
        invariant y in fame || VotedBelow(m, known, votes, y, r)
        decreases highestWitnessRound + 1 - r
      {
        Backfill(y, r);
        if y !in fame { TryEagerDecide(y); }
        r := r + 1;
      }
      StaysComplete(m, known, u - {y}, vs, undecided - {y}, votes);
      if y !in fame { AllVoted(y, r); }
    }

    lemma AllVoted(y: Event, r: nat)
      requires Sound() && VotedBelow(Means(), graph.events.Keys, votes, y, r) && r > highestWitnessRound
      ensures Voted(Means(), graph.events.Keys, votes, y)
    {
      hide Hashgraph.Valid, ListsOk, VotesOk, FameOk;
    }

    /** Every known witness of round `r` casts its vote on `y`, unless `y` is decided first. */
    method Backfill(y: Event, r: nat)
      requires Sound() && y in graph.events && Means().opens(y) && r > Means().round(y)
      modifies this`votes, this`fame, this`undecided
      ensures Sound() && Grew(old(fame), old(votes), old(undecided))
      ensures y in fame || forall v :: v in Listed(Means(), graph.events.Keys, r) ==> (v, y) in votes
    {
      hide Hashgraph.Valid, Settled, Sound;
      var voters := VotersIn(r);
      var i := 0;
      while i < |voters|
        invariant 0 <= i <= |voters| && Sound() && Grew(old(fame), old(votes), old(undecided))
        invariant y in fame || forall k :: 0 <= k < i ==> (voters[k], y) in votes
      {
        assert voters[i] in Elements(voters);
        var o := VoteOf(voters[i], y);
        i := i + 1;
      }
    }

    method VotersIn(r: nat) returns (voters: seq<Event>)
      requires Sound()
      ensures Distinct(voters) && Elements(voters) == Listed(Means(), graph.events.Keys, r)
    {
      hide Hashgraph.Valid, Highest, VotesOk, FameOk;
      assert ListOk(witnesses, Means(), graph.events.Keys, r);
      voters := WitnessesOf(r);
    }

    /** Decides `w` from the direct votes of the next round when all its known witnesses have voted. */
    method TryEagerDecide(w: Event)
      requires Sound() && w in graph.events && Means().opens(w)
      modifies this`fame, this`undecided
      ensures Sound() && Grew(old(fame), votes, old(undecided)) && fame.Keys <= old(fame.Keys) + {w}
      ensures w in fame && w !in old(fame) ==> EagerReady(graph.Members(), graph.events.Keys, w, fame[w])
      ensures
        Voted(Means(), graph.events.Keys, votes, w) && EagerReady(graph.Members(), graph.events.Keys, w, true) ==>
        w in fame && (w !in old(fame) ==> fame[w])
      ensures w in fame || !Voted(Means(), graph.events.Keys, votes, w) ||
              (!EagerReady(graph.Members(), graph.events.Keys, w, true) &&
               !EagerReady(graph.Members(), graph.events.Keys, w, false))
    {
      hide Hashgraph.Valid, Settled, Sound, EagerReady, Voted, MeaningOf;
      StoredRound(w);
      TooEarly(w);
      if w in fame || highestWitnessRound < rounds[w] + 2 { return; }
      var fires := EagerVerdict(w);
      if fires.Some? {
        ReadyIsReason(graph.Members(), Means(), graph.events.Keys, w, fires.value);
        DecideFame(w, fires.value);
      }
    }

    /** What the direct votes on `w` say once the graph is two rounds on, if anything. */
    method EagerVerdict(w: Event) returns (fires: Option<bool>)
      requires Sound() && w in graph.events && highestWitnessRound >= Means().round(w) + 2
      ensures fires.Some? ==> EagerReady(graph.Members(), graph.events.Keys, w, fires.value)
      ensures
        Voted(Means(), graph.events.Keys, votes, w) && EagerReady(graph.Members(), graph.events.Keys, w, true) ==>
        fires == Some(true)
      ensures fires.Some? || !Voted(Means(), graph.events.Keys, votes, w) ||
              (!EagerReady(graph.Members(), graph.events.Keys, w, true) &&
               !EagerReady(graph.Members(), graph.events.Keys, w, false))
    {
      hide Hashgraph.Valid, Settled, Sound, Listed, Counted, EagerReady, Voted, MeaningOf, DirectComplete;
      var total := |graph.memberIndex|;
      var complete, yes, no := DirectVotes(w);
      CountMeans(w, complete, yes, no, true);
      CountMeans(w, complete, yes, no, false);
      if !complete || (yes + no) * 3 <= total * 2 { return None; }
      if yes * 3 > total * 2 { return Some(true); }
      if no * 3 > total * 2 { return Some(false); }
      fires := None;
    }

    lemma TooEarly(w: Event)
      requires Sound() && w in graph.events
      ensures highestWitnessRound < Means().round(w) + 2 ==>
              !EagerReady(graph.Members(), graph.events.Keys, w, true) &&
              !EagerReady(graph.Members(), graph.events.Keys, w, false)
    {
      hide Hashgraph.Valid, ListsOk, VotesOk, FameOk, Highest, MeaningOf, EagerlyDecides, Round, Reached;
      RoundMeaning(graph.Members(), w);
      HighestReached(graph.Members(), Means(), graph.events.Keys, highestWitnessRound, Means().round(w) + 2);
    }

    /** What the count of direct votes says about the eager rule. */
    lemma CountMeans(w: Event, complete: bool, yes: nat, no: nat, v: bool)
      requires Sound() && w in graph.events
      requires complete <==> DirectComplete(Means(), graph.events.Keys, votes, w)
      requires complete ==> Counted(Means(), Listed(Means(), graph.events.Keys, Means().round(w) + 1), w, yes, no)
      ensures Voted(Means(), graph.events.Keys, votes, w) ==> complete
      ensures complete && highestWitnessRound >= Means().round(w) + 2 ==>
              (EagerReady(graph.Members(), graph.events.Keys, w, v) <==>
               (if v then yes else no) * 3 > |graph.memberIndex| * 2)
    {
      hide Hashgraph.Valid, ListsOk, VotesOk, FameOk, Highest, Counted, MeaningOf, EagerReady;
      assert |graph.memberIndex| == |graph.Members()|;
      if complete {
        EagerMeans(graph.Members(), Means(), graph.events.Keys, highestWitnessRound, w, yes, no, v);
      }
    }

    /** Counts the recorded votes of the next round's known witnesses, and tells whether they are all in. */
    method DirectVotes(w: Event) returns (complete: bool, yes: nat, no: nat)
      requires Sound() && w in graph.events
      ensures complete <==> DirectComplete(Means(), graph.events.Keys, votes, w)
      ensures complete ==> Counted(Means(), Listed(Means(), graph.events.Keys, Means().round(w) + 1), w, yes, no)
    {
      hide Hashgraph.Valid, ListsOk, Highest, Inconclusive, FameOk;
      var voters := VotersIn(rounds[w] + 1);
      yes, no, complete := 0, 0, true;
      var i := 0;
      while i < |voters|
        invariant 0 <= i <= |voters|
        invariant complete <==> forall s :: s in Elements(voters[..i]) ==> (s, w) in votes
        invariant complete ==> Counted(Means(), Elements(voters[..i]), w, yes, no)
      {
        var v := voters[i];
        ElementsGrow(voters, i);
        if (v, w) in votes {
          if complete { TallyGrows(Means(), Elements(voters[..i]), v, w, yes, no); }
          if votes[(v, w)] { yes := yes + 1; } else { no := no + 1; }
        } else {
          complete := false;
        }
        i := i + 1;
      }
      assert voters[..i] == voters;
    }

    // -------------------------------------------------------------- voting

    /** The known witnesses of round `r` that `y` strongly sees, as a list. */
    method StronglySeen(y: Event, r: nat, ghost known: set<Event>) returns (strong: seq<Event>)
      requires graph.Valid() && Settled(Means(), known)
      requires y in graph.events && known <= graph.events.Keys
      ensures Distinct(strong)
      ensures forall s :: s in strong <==> s in Listed(Means(), known, r) && StronglySees(graph.Members(), y, s)
    {
      assert ListOk(witnesses, Means(), known, r);
      var list := WitnessesOf(r);
      assert forall s :: s in list <==> s in Elements(list);
      strong := [];
      var i := 0;
      while i < |list|
        invariant 0 <= i <= |list|
        invariant Distinct(strong)
        invariant forall s :: s in strong <==> s in list[..i] && StronglySees(graph.Members(), y, s)
      {
        assert list[i] in list && list[i] in Elements(list);
        var s := graph.StronglySee(y, list[i]);
        assert list[i] !in list[..i];
        assert list[..i + 1] == list[..i] + [list[i]];
        if s.value { strong := strong + [list[i]]; }
        i := i + 1;
      }
      assert list[..i] == list;
    }

    method VotersOf(y: Event) returns (strong: seq<Event>)
      requires Sound() && y in graph.events && Means().round(y) >= 1
      ensures Distinct(strong) && Elements(strong) == Means().voters(y)
      ensures forall s :: s in strong ==>
        s in graph.events && Means().opens(s) && Means().round(s) == Means().round(y) - 1
    {
      strong := StronglySeen(y, rounds[y] - 1, graph.events.Keys);
      RoundMeaning(graph.Members(), y);
      graph.StoredClosed();
      VotersMeaning(graph.Members(), y);
      StrongAmongListed(graph.Members(), graph.events.Keys, y, rounds[y] - 1, Elements(strong));
    }

    /** The vote of `y` on `w`, computed on demand and remembered, or the decision met on the way. */
    method VoteOf(y: Event, w: Event) returns (o: VoteOutcome)
      requires Sound() && y in graph.events && w in graph.events && Means().opens(y) && Means().opens(w)
      requires Means().round(y) > Means().round(w)
      modifies this`votes, this`fame, this`undecided
      ensures Sound() && Grew(old(fame), old(votes), old(undecided))
      ensures o.Cast? ==> w !in fame && (y, w) in votes && o.vote == Means().vote(y, w)
      ensures o.Decided? ==> w in fame && fame[w] == o.famous
      decreases Means().round(y), 1
    {
      if w in fame { return Decided(fame[w]); }
      if (y, w) in votes { return Cast(votes[(y, w)]); }
      if rounds[y] == rounds[w] + 1 {
        var sees := graph.See(y, w);
        SeeingVote(y, w);
        RecordVote(y, w, sees.value);
        return Cast(sees.value);
      }
      var strong := VotersOf(y);
      var met, yes, no := TallyVoters(y, w, strong);
      if met.Some? { return Decided(met.value); }
      o := Conclude(y, w, yes, no);
    }

    /** Collects the votes of `y`'s voters, stopping as soon as one of them finds the matter decided. */
    method TallyVoters(y: Event, w: Event, strong: seq<Event>) returns (met: Option<bool>, yes: nat, no: nat)
      requires Sound() && y in graph.events && w in graph.events && w !in fame && Means().opens(w)
      requires Means().round(y) > Means().round(w) + 1 && Distinct(strong) && Elements(strong) == Means().voters(y)
      requires forall s :: s in strong ==>
        s in graph.events && Means().opens(s) && Means().round(s) == Means().round(y) - 1
      modifies this`votes, this`fame, this`undecided
      ensures Sound() && Grew(old(fame), old(votes), old(undecided))
      ensures met.Some? ==> w in fame && fame[w] == met.value
      ensures met.None? ==> w !in fame && Counted(Means(), Means().voters(y), w, yes, no)
      decreases Means().round(y), 0
    {
      hide Hashgraph.Valid;
      met, yes, no := None, 0, 0;
      var i := 0;
      while i < |strong|
        invariant 0 <= i <= |strong| && met.None?
        invariant Sound() && Grew(old(fame), old(votes), old(undecided)) && w !in fame
        invariant Counted(Means(), Elements(strong[..i]), w, yes, no)
      {
        ElementsGrow(strong, i);
        assert strong[i] in strong;
        met, yes, no := CountVoter(strong[i], w, Elements(strong[..i]), yes, no);
        if met.Some? { return; }
        i := i + 1;
      }
      assert strong[..i] == strong;
    }

    method CountVoter(s: Event, w: Event, ghost done: set<Event>, yes: nat, no: nat)
      returns (met: Option<bool>, yes': nat, no': nat)
      requires Sound() && s in graph.events && w in graph.events && w !in fame && s !in done
      requires Means().opens(s) && Means().opens(w) && Means().round(s) > Means().round(w)
      requires Counted(Means(), done, w, yes, no)
      modifies this`votes, this`fame, this`undecided
      ensures Sound() && Grew(old(fame), old(votes), old(undecided))
      ensures met.Some? ==> w in fame && fame[w] == met.value
      ensures met.None? ==> w !in fame && Counted(Means(), done + {s}, w, yes', no')
      decreases Means().round(s), 2
    {
      var voted := VoteOf(s, w);
      TallyGrows(Means(), done, s, w, yes, no);
      yes', no' := yes, no;
      if voted.Decided? { return Some(voted.famous), yes, no; }
      if voted.vote { yes' := yes + 1; } else { no' := no + 1; }
      met := None;
    }

    lemma SeeingVote(y: Event, w: Event)
      requires Sound() && y in rounds && w in rounds && rounds[y] == rounds[w] + 1
      ensures Means().vote(y, w) == Sees(y, w)
    {
      RoundMeaning(graph.Members(), y);
      RoundMeaning(graph.Members(), w);
      VoteMeaning(graph.Members(), y, w);
    }

    /** Turns a finished tally into a decision or a recorded vote. */
    method Conclude(y: Event, w: Event, yes: nat, no: nat) returns (o: VoteOutcome)
      requires Sound() && y in graph.events && w in graph.events && w !in fame
      requires Means().opens(y) && Means().opens(w) && Means().round(y) > Means().round(w) + 1
      requires Counted(Means(), Means().voters(y), w, yes, no)
      modifies this`votes, this`fame, this`undecided
      ensures Sound() && Grew(old(fame), old(votes), old(undecided))
      ensures o.Cast? ==> w !in fame && (y, w) in votes && o.vote == Means().vote(y, w)
      ensures o.Decided? ==> w in fame && fame[w] == o.famous
    {
      var v := yes >= no;
      var n := |graph.memberIndex|;
      var stake := if v then yes else no;
      var isCoinRound := IsCoinRound(rounds[y], rounds[w]);
      var hasSupermajority := stake * 3 > n * 2;
      assert n == |graph.Members()|;
      if hasSupermajority {
        TallyDecides(graph.Members(), Means(), graph.events.Keys, y, w, yes, no);
        DecideFame(w, v);
        o := Decided(v);
      } else {
        TallyVotes(graph.Members(), Means(), y, w, yes, no, isCoinRound);
        var vote := if isCoinRound then CoinVote(y) else v;
        RecordVote(y, w, vote);
        o := Cast(vote);
      }
    }

    method RecordVote(y: Event, w: Event, v: bool)
      requires Sound() && y in graph.events && w in graph.events && v == Means().vote(y, w)
      requires Means().round(y) > Means().round(w) + 1 ==> !Means().decisive(y, w)
      modifies this`votes
      ensures Sound() && votes == old(votes)[(y, w) := v]
    {
      hide Hashgraph.Valid, RoundsOk, ListsOk, Highest, VotesOk, FameOk, Undecided, MeaningOf;
      VoteAdded(Means(), graph.events.Keys, votes, y, w);
      votes := votes[(y, w) := v];
    }

    method DecideFame(w: Event, v: bool)
      requires Sound() && w in graph.events && Means().opens(w) && w !in fame
      requires Means().justified(graph.events.Keys, w, v)
      modifies this`fame, this`undecided
      ensures Sound() && fame == old(fame)[w := v] && undecided == old(undecided) - {w}
    {
      hide Hashgraph.Valid, RoundsOk, ListsOk, Highest, VotesOk, FameOk, Undecided, MeaningOf;
      FameAdded(Means(), graph.events.Keys, fame, w, v);
      fame := fame[w := v];
      undecided := undecided - {w};
    }
  }

  // ---------------------------------------------------------------- what is decided

  /**
    A node has decided a witness exactly when the events it holds settle it: no arrival order can
    make it miss a decision that some known witness's tally, or the eager rule, allows.
  */
  lemma DecidedIffSettled(a: Elections, w: Event)
    requires a.Valid()
    ensures w in a.fame <==>
      (w in a.graph.events && IsWitness(a.graph.Members(), w) &&
       exists v :: Justified(a.graph.Members(), a.graph.events.Keys, w, v))
    ensures w in a.fame ==> Justified(a.graph.Members(), a.graph.events.Keys, w, a.fame[w])
  {
    hide Hashgraph.Valid, Justified, IsWitness, Round, ListOk, MeaningOf;
    var ms, known := a.graph.Members(), a.graph.events.Keys;
    RoundMeaning(ms, w);
    Reason(ms, known, w, true);
    Reason(ms, known, w, false);
    if w in a.fame {
      assert Justified(ms, known, w, a.fame[w]);
    } else if w in known && IsWitness(ms, w) {
      assert w in a.undecided;
      assert Open(a.Means(), known, a.votes, w);
      assert forall v :: !Justified(ms, known, w, v);
    }
  }

  /** A tally of a known witness that decides is never missed. */
  lemma TallyIsHeeded(a: Elections, y: Event, w: Event, v: bool)
    requires a.Valid() && y in a.graph.events && w in a.graph.events
    requires IsWitness(a.graph.Members(), y) && IsWitness(a.graph.Members(), w)
    requires Decides(a.graph.Members(), y, w, v)
    ensures w in a.fame
  {
    hide Hashgraph.Valid, Elections.Valid, IsWitness, Round, Decides, EagerReady;
    DecidedIffSettled(a, w);
    assert Justified(a.graph.Members(), a.graph.events.Keys, w, v);
  }

  /**
    What is decided does not depend on the order of arrival: a node that holds at least the events
    of another has decided at least its witnesses, and nodes with the same events the same ones.
  */
  lemma DecisionsFollowEvents(a: Elections, b: Elections)
    requires a.Valid() && b.Valid() && a.graph.Members() == b.graph.Members()
    requires a.graph.events.Keys <= b.graph.events.Keys
    ensures a.fame.Keys <= b.fame.Keys
    ensures a.graph.events.Keys == b.graph.events.Keys ==> a.fame.Keys == b.fame.Keys
  {
    hide Hashgraph.Valid, Elections.Valid, IsWitness, Justified;
    var ms := a.graph.Members();
    forall w | w in a.fame ensures w in b.fame {
      DecidedIffSettled(a, w);
      JustifiedGrows(ms, a.graph.events.Keys, b.graph.events.Keys, w, a.fame[w]);
      DecidedIffSettled(b, w);
    }
    if a.graph.events.Keys == b.graph.events.Keys {
      forall w | w in b.fame ensures w in a.fame {
        DecidedIffSettled(b, w);
        DecidedIffSettled(a, w);
      }
    }
  }

  // ---------------------------------------------------------------- how it is decided

  /** `y` is too close above `w` to vote on it in a coin round. */
  ghost predicate Early(ms: set<NodeId>, y: Event, w: Event) {
    Round(ms, y) < Round(ms, w) + COIN_ROUND_FREQUENCY
  }

  ghost predicate EarlyTally(ms: set<NodeId>, known: set<Event>, w: Event, v: bool) {
    exists y :: y in known && Early(ms, y, w) && Decides(ms, y, w, v)
  }

  /** A tally before the first coin round agrees with every other tally, however late. */
  lemma EarlyTallyAgrees(ms: set<NodeId>, es: set<Event>, y: Event, z: Event, w: Event, v: bool, u: bool)
    requires Electorate(ms, es) && Waves(ms, es) && y in es && z in es && Early(ms, y, w)
    requires Decides(ms, y, w, v) && Decides(ms, z, w, u)
    ensures v == u
  {
    hide Round, Electorate, Waves, Super, Majority, CoinsFollow;
    if Round(ms, y) < Round(ms, z) {
      NotCoin(Round(ms, y), Round(ms, w));
      NoCoinsOutsideCoinRounds(ms, es, y, w, v);
    } else if Round(ms, z) < Round(ms, y) {
      NotCoin(Round(ms, z), Round(ms, w));
      NoCoinsOutsideCoinRounds(ms, es, z, w, u);
    }
    FameAgreement(ms, es, y, z, w, v, u);
  }

  /** One decision that is backed by members or tallied early, and one that is backed or tallied at all. */
  lemma DecisionsAgree(
    ms: set<NodeId>, es: set<Event>, known: set<Event>, known': set<Event>, w: Event, v: bool, u: bool)
    requires Electorate(ms, es) && Waves(ms, es) && known <= es && known' <= es
    requires Backed(ms, es, known, w, v) || EarlyTally(ms, known, w, v)
    requires Backed(ms, es, known', w, u) || Tallied(ms, known', w, u)
    ensures v == u
  {
    hide Round, IsWitness, Electorate, Waves, Backed, Decides, Early;
    if Backed(ms, es, known, w, v) && Backed(ms, es, known', w, u) {
      EagerPairAgreement(ms, es, known, known', w, v, u);
    } else if Backed(ms, es, known, w, v) {
      var z :| z in known' && IsWitness(ms, z) && Decides(ms, z, w, u);
      EagerAgreement(ms, es, known, z, w, v, u);
    } else {
      var y :| y in known && Early(ms, y, w) && Decides(ms, y, w, v);
      if Backed(ms, es, known', w, u) {
        EagerAgreement(ms, es, known', y, w, u, v);
      } else {
        var z :| z in known' && IsWitness(ms, z) && Decides(ms, z, w, u);
        EarlyTallyAgrees(ms, es, y, z, w, v, u);
      }
    }
  }

  ghost function Joint(a: Elections, b: Elections): set<Event>
    reads a, a.graph, b, b.graph
  {
    a.graph.events.Keys + b.graph.events.Keys
  }

  /**
    Two nodes never decide a witness differently, forks or not and however far either graph has
    grown: with at most a third of the members forking in what the two hold together, and no event
    yet having a whole fork below it, a decision that members back or an early tally takes agrees
    with whatever the other node decided by tally or with members' backing.
  */
  lemma NodesAgreeDespiteForks(a: Elections, b: Elections, w: Event)
    requires a.Valid() && b.Valid() && a.graph.Members() == b.graph.Members()
    requires FewForkers(a.graph.Members(), Joint(a, b)) && ForksUnseen(Joint(a, b))
    requires w in a.fame && w in b.fame
    requires Backed(a.graph.Members(), Joint(a, b), a.graph.events.Keys, w, a.fame[w]) ||
             EarlyTally(a.graph.Members(), a.graph.events.Keys, w, a.fame[w])
    requires EagerReady(b.graph.Members(), b.graph.events.Keys, w, b.fame[w]) ==>
             Backed(b.graph.Members(), Joint(a, b), b.graph.events.Keys, w, b.fame[w])
    ensures a.fame[w] == b.fame[w]
  {
    hide Hashgraph.Valid, Elections.Valid, ForksUnseen, FewForkers, Backed, EarlyTally, Tallied, EagerReady;
    var ms, es := a.graph.Members(), Joint(a, b);
    JointElectorate(ms, a, b);
    UnseenForkWaves(ms, es);
    DecidedIffSettled(b, w);
    DecisionsAgree(ms, es, a.graph.events.Keys, b.graph.events.Keys, w, a.fame[w], b.fame[w]);
  }

  /**
    Where no member forks in what the two nodes hold together, it is enough that one of them decided
    eagerly or by a tally before the first coin round of `w`'s election.
  */
  lemma NodesAgreeOnFame(a: Elections, b: Elections, w: Event)
    requires a.Valid() && b.Valid() && a.graph.Members() == b.graph.Members()
    requires ForkFree(Joint(a, b))
    requires w in a.fame && w in b.fame
    requires EagerReady(a.graph.Members(), a.graph.events.Keys, w, a.fame[w]) ||
             EarlyTally(a.graph.Members(), a.graph.events.Keys, w, a.fame[w])
    ensures a.fame[w] == b.fame[w]
  {
    hide Hashgraph.Valid, Elections.Valid, EarlyTally, Backed, Reached, ForkIn, EagerSide;
    var ms, es := a.graph.Members(), Joint(a, b);
    NoForkers(ms, es);
    JointElectorate(ms, a, b);
    ForkFreeUnseen(es);
    if EagerReady(ms, a.graph.events.Keys, w, a.fame[w]) { EagerlyBacked(ms, es, a.graph.events.Keys, w, a.fame[w]); }
    if EagerReady(ms, b.graph.events.Keys, w, b.fame[w]) { EagerlyBacked(ms, es, b.graph.events.Keys, w, b.fame[w]); }
    NodesAgreeDespiteForks(a, b, w);
  }

  lemma NoForkers(ms: set<NodeId>, es: set<Event>)
    requires ForkFree(es)
    ensures FewForkers(ms, es)
  {
    assert Forkers(ms, es) == {};
  }

  lemma NodeWorld(a: Elections)
    requires a.Valid()
    ensures World(a.graph.events.Keys) && forall e :: e in a.graph.events ==> e.creator in a.graph.Members()
  {
    hide Hashgraph.Valid, Elections.Settled, ForkIn, ChainOk, Anc, Complete;
    a.graph.StoredClosed();
    forall e | e in a.graph.events ensures e.creator in a.graph.Members() { a.graph.CreatorKnown(e); }
  }

  lemma JointElectorate(ms: set<NodeId>, a: Elections, b: Elections)
    requires a.Valid() && b.Valid() && ms == a.graph.Members() == b.graph.Members()
    requires FewForkers(ms, Joint(a, b))
    ensures Electorate(ms, Joint(a, b))
  {
    hide Elections.Valid, World, FewForkers;
    NodeWorld(a);
    NodeWorld(b);
    WorldsJoin(a.graph.events.Keys, b.graph.events.Keys);
  }
}
