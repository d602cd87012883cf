/** When a witness first received an event: the per-creator binary search and what it finds. */
module FirstSeen {
  import opened Prelude
  import opened Events
  import opened Seeing
  import opened Ancestry
  import opened StronglySeeing
  import opened Rounds

  /** The event of member `m` numbered `s`, as seen through the witness's ancestry. */
  ghost function ChainEvent(w: Event, m: NodeId, s: nat): Option<Event> {
    FirstFound(w, m, s)
  }

  ghost predicate NumberSees(w: Event, m: NodeId, s: nat, t: Event) {
    ChainEvent(w, m, s).Some? && Sees(ChainEvent(w, m, s).value, t)
  }

  ghost predicate ReadsAt(p: nat -> bool, w: Event, m: NodeId, t: Event, s: nat) {
    p(s) == NumberSees(w, m, s, t)
  }

  ghost predicate Reads(p: nat -> bool, w: Event, m: NodeId, t: Event) {
    forall s {:trigger ReadsAt(p, w, m, t, s)} :: ReadsAt(p, w, m, t, s)
  }

  /** `NumberSees` as a property of the number alone; `ReadsAt` opens it at a chosen number. */
  ghost function SeesAt(w: Event, m: NodeId, t: Event): (p: nat -> bool)
    ensures Reads(p, w, m, t)
  {
    assert Reads((s: nat) => NumberSees(w, m, s, t), w, m, t);
    var p: nat -> bool :| Reads(p, w, m, t);
    p
  }

  /** The number the binary search for `p` over `low..high` settles on. */
  ghost function Bisect(p: nat -> bool, low: nat, high: nat): (s: nat)
    requires low <= high
    ensures low <= s <= high
    decreases high - low
  {
    if low == high then low
    else
      var mid := low + (high - low) / 2;
      if p(mid) then Bisect(p, low, mid) else Bisect(p, mid + 1, high)
  }

  lemma BisectStep(p: nat -> bool, low: nat, mid: nat, high: nat, hit: bool)
    requires low < high && mid == low + (high - low) / 2 && hit == p(mid)
    ensures low <= mid < high
    ensures Bisect(p, low, high) == Bisect(p, if hit then low else mid + 1, if hit then mid else high)
  {
  }

  /** Over a property that stays true once true, the binary search finds its first number. */
  lemma {:induction false} BisectLeast(p: nat -> bool, low: nat, high: nat)
    requires low <= high && p(high)
    requires forall i, j :: low <= i <= j <= high && p(i) ==> p(j)
    ensures p(Bisect(p, low, high))
    ensures forall i :: low <= i <= high && p(i) ==> Bisect(p, low, high) <= i
    decreases high - low
  {
    if low < high {
      var mid := low + (high - low) / 2;
      if p(mid) { BisectLeast(p, low, mid); } else { BisectLeast(p, mid + 1, high); }
    }
  }

  /** `m` contributes a candidate: its frontier event below the witness sees the target. */
  ghost predicate Contributes(w: Event, m: NodeId, t: Event) {
    Slot(w, m) >= 1 && NumberSees(w, m, Slot(w, m), t)
  }

  ghost function Boundary(w: Event, m: NodeId, t: Event): nat
    requires Slot(w, m) >= 1
  {
    Bisect(SeesAt(w, m, t), 1, Slot(w, m))
  }

  /** The boundary event of `m`, when `m` contributes one. */
  ghost function Contribution(w: Event, m: NodeId, t: Event): (c: Option<Event>)
    ensures c.Some? ==> c.value.creator == m
  {
    if Contributes(w, m, t) then ChainEvent(w, m, Boundary(w, m, t)) else None
  }

  ghost predicate IsCandidate(ms: set<NodeId>, w: Event, t: Event, e: Event) {
    e.creator in ms && Contribution(w, e.creator, t) == Some(e)
  }

  /** The order candidates are compared in: sequence number, then hash. */
  predicate Before(a: Event, b: Event) {
    Seq(a) < Seq(b) || (Seq(a) == Seq(b) && a.digest <= b.digest)
  }

  /** `e` is the candidate the search reports. */
  ghost predicate IsFirst(ms: set<NodeId>, w: Event, t: Event, e: Event) {
    IsCandidate(ms, w, t, e) && forall c :: IsCandidate(ms, w, t, c) ==> Before(e, c)
  }

  /** `e` is the earliest event of the whole ancestry of `w` that sees `t`. */
  ghost predicate IsEarliest(w: Event, t: Event, e: Event) {
    e in Anc(w) && Sees(e, t) && forall c :: c in Anc(w) && Sees(c, t) ==> Before(e, c)
  }

  /** No two events of `es` have the same hash value. */
  ghost predicate DigestsDiffer(es: set<Event>) {
    forall a, b :: a in es && b in es && a.digest == b.digest ==> a == b
  }

  // ---------------------------------------------------------------- every number below the frontier is found

  lemma {:induction false} ChainEventExists(w: Event, m: NodeId, s: nat)
    requires ChainOk(w) && 1 <= s <= Slot(w, m)
    ensures ChainEvent(w, m, s).Some?
  {
    var top := SlotNamesAncestor(w, m);
    ChainOkInherited(w, top);
    ChainAtAncestor(top, s);
    AncTransitive(w, top);
    FirstFoundComplete(w, m, s, ChainAt(top, s));
  }

  // ---------------------------------------------------------------- monotonicity of seeing, fork-free

  /** Without forks below `w`, seeing is monotone along a creator's chain. */
  lemma SeeingRises(w: Event, t: Event, a: Event, b: Event)
    requires ChainOk(w) && ForkFree(Anc(w)) && a in Anc(w) && b in Anc(w)
    requires a.creator == b.creator && Seq(a) <= Seq(b) && Sees(a, t)
    ensures Sees(b, t)
  {
    AncClosed(w);
    ChainOkInherited(w, b);
    ForkFreeChain(Anc(w), a, b);
    AncTransitive(b, a);
    AncTransitive(w, b);
    FewerForks(Anc(b), Anc(w), t.creator);
  }

  lemma UniqueNumber(w: Event, m: NodeId, e: Event)
    requires ForkFree(Anc(w)) && e in Anc(w) && e.creator == m
    ensures ChainEvent(w, m, Seq(e)) == Some(e)
  {
    FirstFoundComplete(w, m, Seq(e), e);
    var f := ChainEvent(w, m, Seq(e)).value;
    assert !ForkIn(Anc(w), m);
    assert !Forked(e, f, m);
  }

  lemma NumbersRise(w: Event, m: NodeId, t: Event, s: nat, s': nat)
    requires ChainOk(w) && ForkFree(Anc(w)) && s <= s' <= Slot(w, m) && 1 <= s && NumberSees(w, m, s, t)
    ensures NumberSees(w, m, s', t)
  {
    ChainEventExists(w, m, s');
    SeeingRises(w, t, ChainEvent(w, m, s).value, ChainEvent(w, m, s').value);
  }

  /** The boundary is the least number of `m` that sees the target. */
  lemma BoundaryLeast(w: Event, m: NodeId, t: Event, s: nat)
    requires ChainOk(w) && ForkFree(Anc(w)) && Contributes(w, m, t)
    ensures NumberSees(w, m, Boundary(w, m, t), t)
    ensures 1 <= s <= Slot(w, m) && NumberSees(w, m, s, t) ==> Boundary(w, m, t) <= s
  {
    var p := SeesAt(w, m, t);
    forall i, j | 1 <= i <= j <= Slot(w, m) && p(i) ensures p(j) {
      assert ReadsAt(p, w, m, t, i) && ReadsAt(p, w, m, t, j);
      NumbersRise(w, m, t, i, j);
    }
    assert ReadsAt(p, w, m, t, Slot(w, m));
    BisectLeast(p, 1, Slot(w, m));
    assert ReadsAt(p, w, m, t, s) && ReadsAt(p, w, m, t, Boundary(w, m, t));
  }

  lemma FrontierSees(w: Event, t: Event, c: Event)
    requires ChainOk(w) && ForkFree(Anc(w)) && c in Anc(w) && Sees(c, t)
    ensures Seq(c) <= Slot(w, c.creator) && Contributes(w, c.creator, t) && NumberSees(w, c.creator, Seq(c), t)
  {
    FewerForks(Anc(w), Anc(w), c.creator);
    SlotExact(w, c.creator, c);
    UniqueNumber(w, c.creator, c);
    NumbersRise(w, c.creator, t, Seq(c), Slot(w, c.creator));
  }

  /** Without forks, each member's candidate is the member's first event below `w` that sees `t`. */
  lemma CandidateIsFirstOfCreator(ms: set<NodeId>, w: Event, t: Event, c: Event)
    requires ChainOk(w) && ForkFree(Anc(w)) && c in Anc(w) && Sees(c, t) && c.creator in ms
    ensures Contributes(w, c.creator, t)
    ensures var e := ChainEvent(w, c.creator, Boundary(w, c.creator, t));
      e.Some? && IsCandidate(ms, w, t, e.value) && e.value in Anc(w) && Sees(e.value, t) && Seq(e.value) <= Seq(c)
  {
    FrontierSees(w, t, c);
    BoundaryLeast(w, c.creator, t, Seq(c));
  }

  /**
    The searched answer is the exhaustive one: for a witness with no fork in its ancestry, the
    reported candidate is exactly the earliest event of that ancestry that sees the target.
  */
  lemma SearchIsExhaustive(ms: set<NodeId>, w: Event, t: Event, e: Event)
    requires ChainOk(w) && ForkFree(Anc(w)) && DigestsDiffer(Anc(w))
    requires forall c :: c in Anc(w) ==> c.creator in ms
    ensures IsFirst(ms, w, t, e) <==> IsEarliest(w, t, e)
  {
    if IsFirst(ms, w, t, e) {
      CandidateSees(ms, w, t, e);
      forall c | c in Anc(w) && Sees(c, t) ensures Before(e, c) {
        CandidateIsFirstOfCreator(ms, w, t, c);
        var f := ChainEvent(w, c.creator, Boundary(w, c.creator, t)).value;
        assert Before(e, f);
        if Seq(f) == Seq(c) { UniqueNumber(w, c.creator, c); }
      }
    }
    if IsEarliest(w, t, e) {
      CandidateIsFirstOfCreator(ms, w, t, e);
      var f := ChainEvent(w, e.creator, Boundary(w, e.creator, t)).value;
      assert Before(e, f);
      UniqueNumber(w, e.creator, e);
      assert f == e;
      forall c | IsCandidate(ms, w, t, c) ensures Before(e, c) { CandidateSees(ms, w, t, c); }
    }
  }

  lemma CandidateSees(ms: set<NodeId>, w: Event, t: Event, c: Event)
    requires ChainOk(w) && ForkFree(Anc(w)) && IsCandidate(ms, w, t, c)
    ensures c in Anc(w) && Sees(c, t)
  {
    BoundaryLeast(w, c.creator, t, 1);
  }
}
