/**
  A graph on which an eager decision does not carry: of four members one forks, its two branches tip
  the count of direct votes, and a witness two rounds up tallies a majority the other way.

  The eighteen events are numbered 0 to 17 so that parents come first, and the tables below say who
  made them, from what, and what follows. Timestamps, signatures and hashes may be anything.
*/
module ForkedElection {
  import opened Prelude
  import opened Events
  import opened Seeing
  import opened StronglySeeing
  import opened Rounds
  import opened Fame

  const SIZE: nat := 18

  /** The last event of the three members that do not fork; 16 and 17 are the branches of the fourth. */
  const TOP: nat := 15

  /** Which of the four members made event `i`. */
  function Maker(i: nat): (m: nat)
    ensures m < 4
  {
    if i in {0, 4, 7, 10, 11, 14} then 0 else if i in {1, 5, 8, 12, 15} then 1 else if i in {2, 6, 9, 13} then 2 else 3
  }

  function Own(i: nat): (p: nat)
    requires 4 <= i < SIZE
    ensures p < i && Maker(p) == Maker(i)
  {
    if i == 4 then 0 else if i == 5 then 1 else if i == 6 then 2 else if i == 7 then 4 else if i == 8 then 5
    else if i == 9 then 6 else if i == 10 then 7 else if i == 11 then 10 else if i == 12 then 8
    else if i == 13 then 9 else if i == 14 then 11 else if i == 15 then 12 else 3
  }

  function Other(i: nat): (q: nat)
    requires 4 <= i < SIZE
    ensures q < i
  {
    if i == 4 then 1 else if i == 5 then 2 else if i == 6 then 4 else if i == 7 then 6 else if i == 8 then 7
    else if i == 9 then 8 else if i == 10 then 3 else if i == 11 then 8 else if i == 12 then 11
    else if i == 13 then 12 else if i == 14 then 13 else if i == 15 then 14 else 8
  }

  ghost predicate Gossip(ids: seq<NodeId>, es: seq<Event>) {
    && |ids| == 4 && Distinct(ids) && |es| == SIZE && es[16] != es[17]
    && (forall i :: 0 <= i < SIZE ==> es[i].creator == ids[Maker(i)])
    && (forall i :: 0 <= i < 4 ==> es[i].selfParent == None && es[i].otherParent == None)
    && (forall i :: 4 <= i < SIZE ==> es[i].selfParent == Some(es[Own(i)]) && es[i].otherParent == Some(es[Other(i)]))
  }

  lemma Length(ids: seq<NodeId>, es: seq<Event>)
    requires Gossip(ids, es)
    ensures |ids| == 4 && |es| == SIZE
  {
  }

  /** Event `j` is event `i` or below it. */
  predicate Reach(i: nat, j: nat) {
    || j == i || (i == 4 && j in {0, 1}) || (i == 5 && j in {1, 2})
    || (i == 6 && j in {0, 1, 2, 4}) || (i == 7 && j in {0, 1, 2, 4, 6})
    || (8 <= i <= 9 && j < i && j != 3) || (i == 10 && j < 8 && j != 5)
    || (11 <= i <= 12 && j < i && j != 9) || (13 <= i <= 15 && j < i) || (i >= 16 && j < 9)
  }

  lemma ReachSteps(i: nat, j: nat)
    requires 4 <= i < SIZE
    ensures Reach(i, j) <==> i == j || Reach(Own(i), j) || Reach(Other(i), j)
  {
  }

  function Number(i: nat): nat {
    if i < 4 then 1 else if i in {4, 5, 6, 16, 17} then 2 else if i in {7, 8, 9} then 3
    else if i in {10, 12, 13} then 4 else if i in {11, 15} then 5 else 6
  }

  /** The round of event `i`, and whether it is a witness. */
  function RoundAt(i: nat): nat { if i < 8 || i == 10 then 1 else if i == TOP then 3 else 2 }

  predicate WitnessAt(i: nat) { i in {0, 1, 2, 3, 8, 9, 11, 15, 16, 17} }

  // ---------------------------------------------------------------- the table and the graph

  lemma FirstReach(i: nat, j: nat)
    requires i < 4
    ensures Reach(i, j) <==> i == j
  {
  }

  lemma ReachSelf(i: nat)
    ensures Reach(i, i)
  {
  }

  lemma {:induction false} AncHolds(ids: seq<NodeId>, es: seq<Event>, i: nat, j: nat)
    requires Gossip(ids, es) && i < SIZE && j < SIZE && Reach(i, j)
    ensures es[j] in Anc(es[i])
  {
    hide Reach;
    if i != j {
      if i >= 4 { ReachSteps(i, j); } else { FirstReach(i, j); }
      if Reach(Own(i), j) { AncHolds(ids, es, Own(i), j); } else { AncHolds(ids, es, Other(i), j); }
    }
  }

  lemma {:induction false} AncIndex(ids: seq<NodeId>, es: seq<Event>, i: nat, y: Event) returns (j: nat)
    requires Gossip(ids, es) && i < SIZE && y in Anc(es[i])
    ensures j <= i && Reach(i, j) && y == es[j]
  {
    hide Reach, Maker;
    ReachSelf(i);
    if y == es[i] {
      j := i;
    } else if i >= 4 && y in Anc(es[Own(i)]) {
      j := AncIndex(ids, es, Own(i), y);
      ReachSteps(i, j);
    } else {
      j := AncIndex(ids, es, Other(i), y);
      ReachSteps(i, j);
    }
  }

  lemma {:induction false} NumberAt(ids: seq<NodeId>, es: seq<Event>, i: nat)
    requires Gossip(ids, es) && i < SIZE
    ensures Seq(es[i]) == Number(i) && ChainOk(es[i])
  {
    hide Reach;
    if i >= 4 {
      NumberOfOwn(i);
      NumberAt(ids, es, Own(i));
      NumberAt(ids, es, Other(i));
    }
  }

  /** The event of the trunk with a given maker and number. */
  function Placed(m: nat, s: nat): nat {
    if m == 0 then (if s == 1 then 0 else if s == 2 then 4 else if s == 3 then 7 else if s == 4 then 10 else
                    if s == 5 then 11 else 14)
    else if m == 1 then (if s == 1 then 1 else if s == 2 then 5 else if s == 3 then 8 else if s == 4 then 12 else 15)
    else if m == 2 then (if s == 1 then 2 else if s == 2 then 6 else if s == 3 then 9 else 13)
    else if s == 1 then 3 else 16
  }

  lemma NumberOfOwn(i: nat)
    requires 4 <= i < SIZE
    ensures Number(i) == Number(Own(i)) + 1
  {
  }

  lemma PlacedAt(i: nat)
    requires i < 17
    ensures Placed(Maker(i), Number(i)) == i
  {
  }

  /** Without one of the branches no two events share maker and number. */
  lemma SameTag(ids: seq<NodeId>, es: seq<Event>, i: nat, j: nat)
    requires Gossip(ids, es) && i < 17 && j < 17
    requires es[i].creator == es[j].creator && Seq(es[i]) == Seq(es[j])
    ensures i == j
  {
    hide Placed, Number, Own, Other, Seq, Maker;
    NumberAt(ids, es, i);
    NumberAt(ids, es, j);
    PlacedAt(i);
    PlacedAt(j);
    assert Maker(i) < 4 && Maker(j) < 4 && ids[Maker(i)] == ids[Maker(j)];
  }

  ghost function Trunk(es: seq<Event>): set<Event>
    requires |es| == SIZE
  {
    Anc(es[TOP])
  }

  ghost function All(es: seq<Event>): set<Event>
    requires |es| == SIZE
  {
    Trunk(es) + Anc(es[16]) + Anc(es[17])
  }

  lemma InTrunk(ids: seq<NodeId>, es: seq<Event>, i: nat)
    requires Gossip(ids, es) && i <= TOP
    ensures es[i] in Trunk(es)
  {
    AncHolds(ids, es, TOP, i);
  }

  /** Below any one event nobody forks. */
  lemma NoForkBelow(ids: seq<NodeId>, es: seq<Event>, i: nat)
    requires Gossip(ids, es) && i < SIZE
    ensures World(Anc(es[i])) && ForkFree(Anc(es[i]))
  {
    hide Reach, Number, Placed, Maker, Seq;
    NumberAt(ids, es, i);
    AncestryIsWorld(es[i]);
    forall m, x, y | x in Anc(es[i]) && y in Anc(es[i]) ensures !Forked(x, y, m) {
      var k := AncIndex(ids, es, i, x);
      var l := AncIndex(ids, es, i, y);
      if x.creator == y.creator && Seq(x) == Seq(y) { OneBranch(ids, es, i, k, l); }
    }
  }

  lemma OneBranch(ids: seq<NodeId>, es: seq<Event>, i: nat, k: nat, l: nat)
    requires Gossip(ids, es) && k <= i < SIZE && l <= i && Reach(i, k) && Reach(i, l)
    requires es[k].creator == es[l].creator && Seq(es[k]) == Seq(es[l])
    ensures k == l
  {
    hide Number, Placed, Maker, Seq, Gossip;
    Length(ids, es);
    if k < 17 && l < 17 {
      SameTag(ids, es, k, l);
    } else {
      ReachesBranch(i, k, l);
      BranchTag(ids, es, k, l);
    }
  }

  lemma ReachesBranch(i: nat, k: nat, l: nat)
    requires k <= i < SIZE && l <= i && Reach(i, k) && Reach(i, l) && (k == 17 || l == 17)
    ensures k != 16 && l != 16
  {
  }

  lemma BranchTag(ids: seq<NodeId>, es: seq<Event>, k: nat, l: nat)
    requires Gossip(ids, es) && k < SIZE && l < SIZE && k != 16 && l != 16 && (k == 17 || l == 17)
    requires es[k].creator == es[l].creator && Seq(es[k]) == Seq(es[l])
    ensures k == l
  {
    hide Seq, Own, Other, Number, Maker;
    NumberAt(ids, es, k);
    NumberAt(ids, es, l);
    assert ids[Maker(k)] == ids[Maker(l)];
    BranchPlace(k, l);
  }

  lemma BranchPlace(k: nat, l: nat)
    requires k < SIZE && l < SIZE && k != 16 && l != 16 && (k == 17 || l == 17)
    requires Maker(k) == Maker(l) && Number(k) == Number(l)
    ensures k == l
  {
  }

  // ---------------------------------------------------------------- strong seeing on the table

  /** An event below `x` that has `y` below it makes its creator carry `y` to `x`. */
  lemma CarriedBy(es: set<Event>, x: Event, f: Event, y: Event)
    requires World(es) && ForkFree(es) && x in es && f in Anc(x) && y in Anc(f)
    ensures MemberReaches(x, f.creator, y)
  {
    var m := f.creator;
    assert f in es;
    AncTransitive(x, f);
    FewerForks(Anc(f), es, y.creator);
    FirstFoundComplete(f, m, Seq(f), f);
    var top := FirstFound(f, m, Seq(f)).value;
    assert top in es && !Forked(top, f, m);
    CarryingGrows(es, x, f, m, y);
  }

  ghost function Roster(ids: seq<NodeId>): set<NodeId> { Elements(ids) }

  lemma RosterSize(ids: seq<NodeId>)
    requires |ids| == 4 && Distinct(ids)
    ensures |Roster(ids)| == 4
  {
    DistinctCount(ids);
  }

  lemma StrongAt(ids: seq<NodeId>, es: seq<Event>, i: nat, j: nat, p: nat, q: nat, r: nat)
    requires Gossip(ids, es) && i < SIZE && p <= i && q <= i && r <= i && j < SIZE
    requires Reach(i, p) && Reach(i, q) && Reach(i, r) && Reach(p, j) && Reach(q, j) && Reach(r, j)
    requires Maker(p) != Maker(q) && Maker(p) != Maker(r) && Maker(q) != Maker(r)
    ensures StronglySees(Roster(ids), es[i], es[j])
  {
    hide Reach, Maker, MemberReaches, World, ForkFree;
    var x, y := es[i], es[j];
    NoForkBelow(ids, es, i);
    forall k | k in {p, q, r} ensures es[k].creator in Carriers(Roster(ids), x, y) && y in Anc(x) {
      AncHolds(ids, es, i, k);
      AncHolds(ids, es, k, j);
      AncTransitive(x, es[k]);
      CarriedBy(Anc(x), x, es[k], y);
      assert ids[Maker(k)] in Roster(ids);
    }
    ThreeOf(ids, Maker(p), Maker(q), Maker(r), Carriers(Roster(ids), x, y));
    RosterSize(ids);
    SeenInFree(x, y);
  }

  lemma SeenInFree(x: Event, y: Event)
    requires ForkFree(Anc(x)) && y in Anc(x)
    ensures Sees(x, y)
  {
  }

  lemma ThreeOf(ids: seq<NodeId>, p: nat, q: nat, r: nat, s: set<NodeId>)
    requires |ids| == 4 && Distinct(ids) && p < 4 && q < 4 && r < 4 && p != q && p != r && q != r
    requires ids[p] in s && ids[q] in s && ids[r] in s
    ensures |s| >= 3
  {
    var t := {ids[p], ids[q], ids[r]};
    assert |t| == 3;
    SubsetCardinality(t, s);
  }

  /** Only two members have an event between `j` and `i`. */
  lemma WeakAt(ids: seq<NodeId>, es: seq<Event>, i: nat, j: nat, p: nat, q: nat)
    requires Gossip(ids, es) && i < SIZE && j < SIZE && p < 4 && q < 4
    requires forall k :: 0 <= k <= i && Reach(i, k) && Reach(k, j) ==> Maker(k) == p || Maker(k) == q
    ensures !StronglySees(Roster(ids), es[i], es[j])
  {
    hide Reach, Maker, MemberReaches, Anc;
    var carriers := Carriers(Roster(ids), es[i], es[j]);
    NumberAt(ids, es, i);
    forall m | m in carriers ensures m in {ids[p], ids[q]} {
      var f := CarrierEvent(es[i], m, es[j]);
      var k := AncIndex(ids, es, i, f);
      var l := AncIndex(ids, es, k, es[j]);
      assert l == j by { SameEvent(ids, es, l, j); }
    }
    SubsetCardinality(carriers, {ids[p], ids[q]});
    RosterSize(ids);
  }

  lemma SameEvent(ids: seq<NodeId>, es: seq<Event>, i: nat, j: nat)
    requires Gossip(ids, es) && i < SIZE && j < SIZE && es[i] == es[j]
    ensures i == j
  {
    hide Reach, Seq;
    if i < 17 && j < 17 {
      SameTag(ids, es, i, j);
    } else if i != 16 && j != 16 {
      BranchTag(ids, es, i, j);
    }
  }

  // ---------------------------------------------------------------- rounds on the table

  ghost predicate RoundOk(ids: seq<NodeId>, es: seq<Event>, i: nat)
    requires |es| == SIZE && i < SIZE
  {
    Round(Roster(ids), es[i]) == RoundAt(i) && IsWitness(Roster(ids), es[i]) == WitnessAt(i)
  }

  ghost predicate RoundsBelow(ids: seq<NodeId>, es: seq<Event>, n: nat)
    requires |es| == SIZE && n <= SIZE
  {
    forall k :: 0 <= k < n ==> RoundOk(ids, es, k)
  }

  /** An event of base round `r` that strongly sees at most two witnesses of it stays in it. */
  lemma Stays(ids: seq<NodeId>, es: seq<Event>, i: nat, r: nat, c: nat, d: nat)
    requires Gossip(ids, es) && i < SIZE && c < SIZE && d < SIZE && RoundsBelow(ids, es, i)
    requires BaseRound(Roster(ids), es[i]) == r
    requires forall k :: 0 <= k < i && Reach(i, k) && RoundAt(k) == r && WitnessAt(k) && k != c && k != d ==>
      !StronglySees(Roster(ids), es[i], es[k])
    ensures Round(Roster(ids), es[i]) == r
  {
    hide Reach, Maker, StronglySees, WitnessAt, RoundAt, Gossip, BaseRound, IsWitness;
    Length(ids, es);
    var ms, strong := Roster(ids), StrongWitnesses(Roster(ids), es[i], r);
    forall w | w in strong ensures w in {es[c], es[d]} {
      var k := AncIndex(ids, es, i, w);
      assert k < i && RoundOk(ids, es, k);
    }
    SubsetCardinality(strong, {es[c], es[d]});
    GossipRoster(ids, es);
  }

  lemma GossipRoster(ids: seq<NodeId>, es: seq<Event>)
    requires Gossip(ids, es)
    ensures |Roster(ids)| == 4
  {
    RosterSize(ids);
  }

  /** An event of base round `r` that strongly sees three witnesses of it enters the next. */
  lemma Rises(ids: seq<NodeId>, es: seq<Event>, i: nat, r: nat, p: nat, q: nat, s: nat)
    requires Gossip(ids, es) && i < SIZE && p < q < s < i && RoundsBelow(ids, es, i)
    requires BaseRound(Roster(ids), es[i]) == r
    requires forall k :: k in {p, q, s} ==>
      Reach(i, k) && RoundAt(k) == r && WitnessAt(k) && StronglySees(Roster(ids), es[i], es[k])
    ensures Round(Roster(ids), es[i]) == r + 1
  {
    hide Reach, Maker, StronglySees, WitnessAt, RoundAt, Gossip, BaseRound, IsWitness;
    Length(ids, es);
    var ms, strong := Roster(ids), StrongWitnesses(Roster(ids), es[i], r);
    forall k | k in {p, q, s} ensures es[k] in strong {
      AncHolds(ids, es, i, k);
      assert RoundOk(ids, es, k);
      if es[k] == es[i] { SameEvent(ids, es, k, i); }
    }
    ThreeEvents(ids, es, p, q, s, strong);
    GossipRoster(ids, es);
  }

  lemma ThreeEvents(ids: seq<NodeId>, es: seq<Event>, p: nat, q: nat, s: nat, all: set<Event>)
    requires Gossip(ids, es) && p < q < s < SIZE && es[p] in all && es[q] in all && es[s] in all
    ensures |all| >= 3 && |{es[p], es[q], es[s]}| == 3
  {
    hide Gossip;
    Length(ids, es);
    if es[p] == es[q] { SameEvent(ids, es, p, q); }
    if es[p] == es[s] { SameEvent(ids, es, p, s); }
    if es[q] == es[s] { SameEvent(ids, es, q, s); }
    SubsetCardinality({es[p], es[q], es[s]}, all);
  }

  lemma BaseAt(ids: seq<NodeId>, es: seq<Event>, i: nat)
    requires Gossip(ids, es) && i < SIZE && RoundsBelow(ids, es, i)
    ensures BaseRound(Roster(ids), es[i]) == if i < 4 then 1 else Max(RoundAt(Own(i)), RoundAt(Other(i)))
  {
    hide Reach, Maker, Round, IsWitness, WitnessAt, Own, Other;
    if i >= 4 { assert RoundOk(ids, es, Own(i)) && RoundOk(ids, es, Other(i)); }
  }

  lemma WitnessFollows(ids: seq<NodeId>, es: seq<Event>, i: nat)
    requires Gossip(ids, es) && i < SIZE && RoundsBelow(ids, es, i) && Round(Roster(ids), es[i]) == RoundAt(i)
    ensures RoundOk(ids, es, i)
  {
    hide Reach, Maker, Round, Own, Other, RoundAt, WitnessAt;
    WitnessTable(i);
    if i >= 4 { assert RoundOk(ids, es, Own(i)); }
  }

  lemma WitnessTable(i: nat)
    requires i < SIZE
    ensures WitnessAt(i) <==> i < 4 || RoundAt(i) > RoundAt(Own(i))
  {
  }

  lemma FirstRound(ids: seq<NodeId>, es: seq<Event>, i: nat)
    requires Gossip(ids, es) && i < SIZE && RoundsBelow(ids, es, i) && (i < 8 || i == 10)
    ensures Round(Roster(ids), es[i]) == 1
  {
    hide Gossip, StronglySees, Round, IsWitness, BaseRound;
    Length(ids, es);
    BaseAt(ids, es, i);
    if i == 5 {
      Stays(ids, es, i, 1, 1, 2);
    } else if i < 5 {
      Stays(ids, es, i, 1, 0, 1);
    } else {
      WeakAt(ids, es, i, 0, 0, 2);
      if i == 10 { WeakAt(ids, es, i, 3, 0, 3); }
      Stays(ids, es, i, 1, 1, 2);
    }
  }

  lemma SecondRound(ids: seq<NodeId>, es: seq<Event>, i: nat)
    requires Gossip(ids, es) && i < SIZE && RoundsBelow(ids, es, i) && i in {9, 11, 12, 13, 14, 16, 17}
    ensures Round(Roster(ids), es[i]) == 2
  {
    hide Gossip, StronglySees, Round, IsWitness, BaseRound;
    Length(ids, es);
    BaseAt(ids, es, i);
    if i in {13, 14} { WeakAt(ids, es, i, 9, 0, 2); }
    Stays(ids, es, i, 2, 8, 11);
  }

  lemma FirstRise(ids: seq<NodeId>, es: seq<Event>)
    requires Gossip(ids, es) && RoundsBelow(ids, es, 8)
    ensures Round(Roster(ids), es[8]) == 2
  {
    hide Gossip, StronglySees, Round, IsWitness, BaseRound;
    Length(ids, es);
    BaseAt(ids, es, 8);
    StrongAt(ids, es, 8, 0, 0, 8, 6);
    StrongAt(ids, es, 8, 1, 4, 1, 6);
    StrongAt(ids, es, 8, 2, 7, 5, 2);
    Rises(ids, es, 8, 1, 0, 1, 2);
  }

  lemma TopStrong(ids: seq<NodeId>, es: seq<Event>)
    requires Gossip(ids, es)
    ensures forall k :: k in {8, 9, 11} ==> StronglySees(Roster(ids), es[TOP], es[k])
  {
    hide Gossip, StronglySees;
    Length(ids, es);
    StrongAt(ids, es, 15, 8, 11, 8, 9);
    StrongAt(ids, es, 15, 9, 14, 15, 9);
    StrongAt(ids, es, 15, 11, 11, 12, 13);
  }

  lemma SecondRise(ids: seq<NodeId>, es: seq<Event>)
    requires Gossip(ids, es) && RoundsBelow(ids, es, TOP)
    ensures Round(Roster(ids), es[TOP]) == 3
  {
    hide Gossip, StronglySees, Round, IsWitness, BaseRound;
    Length(ids, es);
    BaseAt(ids, es, TOP);
    TopStrong(ids, es);
    Rises(ids, es, TOP, 2, 8, 9, 11);
  }

  lemma {:induction false} AllRounds(ids: seq<NodeId>, es: seq<Event>, n: nat)
    requires Gossip(ids, es) && n <= SIZE
    ensures RoundsBelow(ids, es, n)
  {
    hide Gossip, Round, IsWitness, RoundOk;
    Length(ids, es);
    if n > 0 {
      var i := n - 1;
      AllRounds(ids, es, i);
      if i < 8 || i == 10 {
        FirstRound(ids, es, i);
      } else if i == 8 {
        FirstRise(ids, es);
      } else if i == TOP {
        SecondRise(ids, es);
      } else {
        SecondRound(ids, es, i);
      }
      WitnessFollows(ids, es, i);
    }
  }

  // ---------------------------------------------------------------- the election of the forker's first event

  lemma OneWorld(ids: seq<NodeId>, es: seq<Event>)
    requires Gossip(ids, es)
    ensures World(All(es))
  {
    hide Gossip, World, ForkFree, Anc;
    Length(ids, es);
    NoForkBelow(ids, es, TOP);
    NoForkBelow(ids, es, 16);
    NoForkBelow(ids, es, 17);
    WorldsJoin(Anc(es[TOP]), Anc(es[16]));
    WorldsJoin(Anc(es[TOP]) + Anc(es[16]), Anc(es[17]));
  }

  lemma OnlyForker(ids: seq<NodeId>, es: seq<Event>, k: nat, l: nat, m: NodeId)
    requires Gossip(ids, es) && k < SIZE && l < SIZE && Forked(es[k], es[l], m)
    ensures m == ids[3]
  {
    hide Gossip, Seq;
    Length(ids, es);
    if k < 17 && l < 17 { SameTag(ids, es, k, l); }
    if k != 16 && l != 16 && (k == 17 || l == 17) { BranchTag(ids, es, k, l); }
    MakerOf(ids, es, k);
  }

  lemma MakerOf(ids: seq<NodeId>, es: seq<Event>, k: nat)
    requires Gossip(ids, es) && k < SIZE
    ensures es[k].creator == ids[Maker(k)] && es[k].creator in Roster(ids)
  {
    hide Own, Other;
  }

  lemma FewFork(ids: seq<NodeId>, es: seq<Event>)
    requires Gossip(ids, es)
    ensures Electorate(Roster(ids), All(es))
  {
    hide Gossip, World, All, Forked, Roster, Maker;
    Length(ids, es);
    var ms, all := Roster(ids), All(es);
    OneWorld(ids, es);
    forall e | e in all ensures e.creator in ms {
      var k := IndexOf(ids, es, e);
      MakerOf(ids, es, k);
    }
    forall m | m in Forkers(ms, all) ensures m == ids[3] {
      var x, y :| x in all && y in all && Forked(x, y, m);
      var k := IndexOf(ids, es, x);
      var l := IndexOf(ids, es, y);
      OnlyForker(ids, es, k, l, m);
    }
    SubsetCardinality(Forkers(ms, all), {ids[3]});
    GossipRoster(ids, es);
  }

  lemma IndexOf(ids: seq<NodeId>, es: seq<Event>, e: Event) returns (k: nat)
    requires Gossip(ids, es) && e in All(es)
    ensures k < SIZE && e == es[k]
  {
    hide Reach, Anc, Gossip;
    Length(ids, es);
    if e in Anc(es[TOP]) {
      k := AncIndex(ids, es, TOP, e);
    } else if e in Anc(es[16]) {
      k := AncIndex(ids, es, 16, e);
    } else {
      k := AncIndex(ids, es, 17, e);
    }
  }

  lemma SeesAt(ids: seq<NodeId>, es: seq<Event>, i: nat, j: nat)
    requires Gossip(ids, es) && i < SIZE && j < SIZE
    ensures Sees(es[i], es[j]) <==> Reach(i, j)
  {
    hide Reach, Gossip, ForkIn;
    Length(ids, es);
    if Reach(i, j) {
      NoForkBelow(ids, es, i);
      AncHolds(ids, es, i, j);
      SeenInFree(es[i], es[j]);
    } else if es[j] in Anc(es[i]) {
      var k := AncIndex(ids, es, i, es[j]);
      SameEvent(ids, es, k, j);
    }
  }

  /** A round 2 witness votes for the forker's first event exactly when that is below it. */
  lemma DirectVote(ids: seq<NodeId>, es: seq<Event>, i: nat)
    requires Gossip(ids, es) && i in {8, 9, 11, 16, 17}
    ensures Vote(Roster(ids), es[i], es[3]) == Reach(i, 3)
    ensures IsWitness(Roster(ids), es[i]) && Round(Roster(ids), es[i]) == 2 == Round(Roster(ids), es[3]) + 1
  {
    hide Gossip, Round, IsWitness, Reach, Vote, Sees;
    Length(ids, es);
    AllRounds(ids, es, SIZE);
    assert RoundOk(ids, es, i) && RoundOk(ids, es, 3);
    SeesAt(ids, es, i, 3);
    VoteBySight(Roster(ids), es[i], es[3]);
  }

  lemma VoteBySight(ms: set<NodeId>, y: Event, w: Event)
    requires Round(ms, y) <= Round(ms, w) + 1
    ensures Vote(ms, y, w) == Sees(y, w)
  {
    hide Round, Side, Sees;
  }

  lemma BranchesDecide(ids: seq<NodeId>, es: seq<Event>)
    requires Gossip(ids, es)
    ensures EagerlyDecides(Roster(ids), All(es), es[3], true)
  {
    hide Gossip, Round, IsWitness, Vote, Anc;
    Length(ids, es);
    var side := EagerSide(Roster(ids), All(es), es[3], true);
    InTrunk(ids, es, 11);
    AncHolds(ids, es, 16, 16);
    AncHolds(ids, es, 17, 17);
    forall i | i in {11, 16, 17} ensures es[i] in side { DirectVote(ids, es, i); }
    ThreeEvents(ids, es, 11, 16, 17, side);
    GossipRoster(ids, es);
  }

  lemma TopVoters(ids: seq<NodeId>, es: seq<Event>)
    requires Gossip(ids, es)
    ensures Voters(Roster(ids), es[TOP]) == {es[8], es[9], es[11]}
  {
    hide Gossip, Round, IsWitness, StronglySees;
    Length(ids, es);
    AllRounds(ids, es, SIZE);
    assert RoundOk(ids, es, TOP);
    var ms := Roster(ids);
    forall w | w in Voters(ms, es[TOP]) ensures w in {es[8], es[9], es[11]} {
      var k := AncIndex(ids, es, TOP, w);
      assert RoundOk(ids, es, k);
    }
    TopStrong(ids, es);
    forall k | k in {8, 9, 11} ensures es[k] in Voters(ms, es[TOP]) {
      assert RoundOk(ids, es, k);
      AncHolds(ids, es, TOP, k);
      if es[k] == es[TOP] { SameEvent(ids, es, k, TOP); }
    }
  }

  lemma TopTally(ms: set<NodeId>, z: Event, w: Event, x: Event, y: Event, y': Event)
    requires Voters(ms, z) == {x, y, y'} && |{x, y, y'}| == 3
    requires Vote(ms, x, w) && !Vote(ms, y, w) && !Vote(ms, y', w)
    ensures !Majority(ms, z, w)
  {
    hide Vote, Voters;
    assert Side(ms, z, w, true) == {x};
    assert Side(ms, z, w, false) == {y, y'};
    assert y != y';
  }

  /**
    The failing family: in every such graph, with one forker among four members, the eager rule
    decides that the forker's first event is famous, and the witness two rounds up that the rule is
    said to bind tallies a majority against it.
  */
  lemma TippedByFork(ids: seq<NodeId>, es: seq<Event>)
    requires Gossip(ids, es)
    ensures Electorate(Roster(ids), All(es)) && es[3] in All(es) && es[TOP] in All(es)
    ensures EagerlyDecides(Roster(ids), All(es), es[3], true)
    ensures IsWitness(Roster(ids), es[TOP]) && Round(Roster(ids), es[TOP]) == Round(Roster(ids), es[3]) + 2
    ensures !Majority(Roster(ids), es[TOP], es[3]) && !Vote(Roster(ids), es[TOP], es[3])
  {
    hide Gossip, Round, IsWitness, StronglySees, Voters, Vote, Electorate;
    Length(ids, es);
    var ms, z, w := Roster(ids), es[TOP], es[3];
    FewFork(ids, es);
    InTrunk(ids, es, 3);
    InTrunk(ids, es, TOP);
    BranchesDecide(ids, es);
    AllRounds(ids, es, SIZE);
    assert RoundOk(ids, es, TOP) && RoundOk(ids, es, 3);
    TopVoters(ids, es);
    DirectVote(ids, es, 8);
    DirectVote(ids, es, 9);
    DirectVote(ids, es, 11);
    ThreeEvents(ids, es, 8, 9, 11, Voters(ms, z));
    TopTally(ms, z, w, es[11], es[8], es[9]);
    NotCoin(Round(ms, z), Round(ms, w));
    VoteFollowsMajority(ms, z, w);
  }

  /** Event `i` of one such graph, with `i` as its timestamp and hash. */
  function Sample(i: nat): Event
    requires i < SIZE
  {
    if i < 4 then Event(Maker(i), None, None, i, [], i)
    else Event(Maker(i), Some(Sample(Own(i))), Some(Sample(Other(i))), i, [], i)
  }

  /** Such graphs exist. */
  lemma GossipExists() returns (ids: seq<NodeId>, es: seq<Event>)
    ensures Gossip(ids, es)
  {
    hide Own, Other;
    ids := [0, 1, 2, 3];
    es := seq(SIZE, i requires 0 <= i < SIZE => Sample(i));
    assert es[16].digest != es[17].digest;
  }
}
