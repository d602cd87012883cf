/** What the ancestry queries guarantee: exactness, independence of the view, and the strongly-seeing lemma. */
module StronglySeeing {
  import opened Prelude
  import opened Events
  import opened Seeing
  import opened Ancestry

  // ---------------------------------------------------------------- the ancestor query and reachability

  /** The first events of `c` met on the walks down from `x`. */
  ghost function FirstMet(x: Event, c: NodeId): (s: set<Event>)
    ensures forall f :: f in s ==> f.creator == c
    decreases x
  {
    if x.creator == c then {x}
    else (match x.selfParent case None => {} case Some(p) => FirstMet(p, c)) +
         (match x.otherParent case None => {} case Some(q) => FirstMet(q, c))
  }

  lemma {:induction false} SlotIsFirstMet(x: Event, c: NodeId, s: nat)
    requires s >= 1
    ensures s <= Slot(x, c) <==> exists f :: f in FirstMet(x, c) && s <= Seq(f)
    decreases x
  {
    if x.creator != c {
      assert x.selfParent.Some? ==> SlotOpt(x.selfParent, c) == Slot(x.selfParent.value, c);
      assert x.otherParent.Some? ==> SlotOpt(x.otherParent, c) == Slot(x.otherParent.value, c);
      if x.selfParent.Some? { SlotIsFirstMet(x.selfParent.value, c, s); }
      if x.otherParent.Some? { SlotIsFirstMet(x.otherParent.value, c, s); }
    } else {
      assert x in FirstMet(x, c);
    }
  }

  /**
    The ancestor query is reachability cut off at forks: it finds a reachable `y` exactly when some
    walk down from `x` first meets `y`'s creator at a number no lower than `y`'s.
  */
  lemma AncestorAnswerIff(x: Event, y: Event)
    requires x != y
    ensures AncestorAnswer(x, y) <==>
      (y in Anc(x) && exists f :: f in FirstMet(x, y.creator) && Seq(y) <= Seq(f))
  {
    SlotIsFirstMet(x, y.creator, Seq(y));
  }

  /** Below an `x` whose ancestry holds no fork of `y`'s creator, the query is plain reachability. */
  lemma AncestorAnswerForkFree(x: Event, y: Event)
    requires ChainOk(x) && !ForkIn(Anc(x), y.creator)
    ensures AncestorAnswer(x, y) <==> y in Anc(x)
  {
    if y in Anc(x) { SlotExact(x, y.creator, y); }
  }

  /** A forker's later branch hides its longer one: `top` reaches `b2` and the query denies it. */
  lemma AncestorAnswerMissesForkedBranch()
    returns (top: Event, b2: Event)
    ensures ChainOk(top) && b2 in Anc(top) && !AncestorAnswer(top, b2)
  {
    var b1 := Event(0, None, None, 1, [], 1);
    b2 := Event(0, Some(b1), None, 2, [], 2);
    top := Event(0, None, Some(b2), 3, [], 3);
    assert Anc(b2) == {b2} + AncOpt(b2.selfParent) + AncOpt(b2.otherParent);
    assert b2 in AncOpt(top.otherParent);
    assert Seq(b2) == 2 && Slot(top, 0) == Seq(top) == 1;
  }

  // ---------------------------------------------------------------- view independence

  /**
    Two nodes that both hold `x` and `y` answer all three queries alike, whatever else they hold and
    whichever of them has raised a fork flag.
  */
  method ViewsAgree(g: Hashgraph, h: Hashgraph, x: Event, y: Event)
    returns (anc: bool, sees: bool, strongly: bool, anc': bool, sees': bool, strongly': bool)
    requires g.Valid() && h.Valid() && g.Members() == h.Members()
    requires x in g.events && y in g.events && x in h.events && y in h.events
    ensures anc == anc' == AncestorAnswer(x, y)
    ensures sees == sees' == Sees(x, y)
    ensures strongly == strongly' == StronglySees(g.Members(), x, y)
  {
    var a := g.IsAncestor(x, y); var a' := h.IsAncestor(x, y);
    var s := g.See(x, y);        var s' := h.See(x, y);
    var t := g.StronglySee(x, y); var t' := h.StronglySee(x, y);
    anc, sees, strongly, anc', sees', strongly' := a.value, s.value, t.value, a'.value, s'.value, t'.value;
  }

  /** Inserting any event, even one that exposes a fork, changes no earlier answer. */
  method InsertKeepsAnswers(g: Hashgraph, e: Event, x: Event, y: Event)
    returns (before: (bool, bool, bool), after: (bool, bool, bool))
    requires g.Valid() && x in g.events && y in g.events
    modifies g
    ensures before == after
  {
    var a := g.IsAncestor(x, y); var s := g.See(x, y); var t := g.StronglySee(x, y);
    var r := g.Insert(e);
    var a' := g.IsAncestor(x, y); var s' := g.See(x, y); var t' := g.StronglySee(x, y);
    before, after := (a.value, s.value, t.value), (a'.value, s'.value, t'.value);
  }

  // ---------------------------------------------------------------- strongly seeing

  /** A set of events that honest bookkeeping can hold: closed under parents, chains intact. */
  ghost predicate World(es: set<Event>) {
    Closed(es) && forall e {:trigger ChainOk(e)} :: e in es ==> ChainOk(e)
  }

  ghost function Forkers(members: set<NodeId>, es: set<Event>): set<NodeId> {
    set m | m in members && ForkIn(es, m)
  }

  ghost predicate FewForkers(members: set<NodeId>, es: set<Event>) {
    |Forkers(members, es)| * 3 <= |members|
  }

  /** `a` and `b` lie on one self-parent chain. */
  ghost predicate OnOneChain(a: Event, b: Event) {
    if Seq(a) <= Seq(b) then a == ChainAt(b, Seq(a)) else b == ChainAt(a, Seq(b))
  }

  /** Two strong views share an honest member that carries both targets. */
  lemma SharedCarrier(members: set<NodeId>, es: set<Event>, v: Event, y: Event, w: Event, z: Event) returns (m: NodeId)
    requires FewForkers(members, es)
    requires StronglySees(members, v, y) && StronglySees(members, w, z)
    ensures m in members && !ForkIn(es, m) && MemberReaches(v, m, y) && MemberReaches(w, m, z)
  {
    var a, b, f := Carriers(members, v, y), Carriers(members, w, z), Forkers(members, es);
    Overlap(a, b, members);
    if a * b <= f { SubsetCardinality(a * b, f); }
    m :| m in a * b && m !in f;
  }

  /** An event that sees two events of one creator sees them on one chain. */
  lemma SeenTogether(f: Event, g: Event, y: Event, z: Event)
    requires ChainOk(g) && f in Anc(g) && Sees(f, y) && Sees(g, z) && y.creator == z.creator
    ensures OnOneChain(y, z)
  {
    AncTransitive(g, f);
    AncClosed(g);
    ChainOkInherited(g, y);
    ChainOkInherited(g, z);
    if Seq(y) <= Seq(z) {
      ForkFreeChain(Anc(g), y, z);
    } else {
      ForkFreeChain(Anc(g), z, y);
    }
  }

  /**
    The strongly-seeing lemma. With at most a third of the members forking anywhere in `es`, two
    events of one creator that are strongly seen, by any two events and hence by any two nodes, lie
    on one chain: no two branches of a fork are both strongly seen.
  */
  lemma StronglySeenOnOneChain(members: set<NodeId>, es: set<Event>, v: Event, y: Event, w: Event, z: Event)
    requires World(es) && FewForkers(members, es)
    requires v in es && w in es && y.creator == z.creator
    requires StronglySees(members, v, y) && StronglySees(members, w, z)
    ensures OnOneChain(y, z)
    ensures Seq(y) == Seq(z) ==> y == z
  {
    var m := SharedCarrier(members, es, v, y, w, z);
    var f := CarrierEvent(v, m, y);
    var g := CarrierEvent(w, m, z);
    assert f in es && g in es;
    if Seq(f) <= Seq(g) {
      ForkFreeChain(es, f, g);
      SeenTogether(f, g, y, z);
    } else {
      ForkFreeChain(es, g, f);
      SeenTogether(g, f, z, y);
    }
  }
}
