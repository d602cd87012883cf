/**
  Events of the hashgraph and the facts about them that depend on nothing but the event itself.

  An event's hash commits to its creator, its parents' hashes, its timestamp and its signature, so
  hashes are modelled symbolically: an event term carries its parents, and two events have the same
  hash exactly when they are the same term. `digest` is the numeric value of the 32-byte hash, read
  only where the source compares hashes for order.
*/
module Events {
  import opened Prelude

  type NodeId = nat

  datatype Event = Event(
    creator: NodeId,
    selfParent: Option<Event>,
    otherParent: Option<Event>,
    timestamp: nat,
    signature: seq<bv64>,
    digest: nat)

  /** The per-creator sequence number: 1 at genesis, one more than the self-parent's otherwise. */
  function Seq(e: Event): (s: nat)
    ensures s >= 1
  {
    match e.selfParent
    case None => 1
    case Some(p) => Seq(p) + 1
  }

  ghost function Height(e: Event): (h: nat)
    decreases e
  {
    1 + Max(match e.selfParent case None => 0 case Some(p) => Height(p),
            match e.otherParent case None => 0 case Some(q) => Height(q))
  }

  /** All events reachable from `e` along parent edges, `e` included. */
  ghost function Anc(e: Event): (a: set<Event>)
    ensures e in a
    ensures forall y :: y in a ==> y == e || Height(y) < Height(e)
    decreases e
  {
    {e} + AncOpt(e.selfParent) + AncOpt(e.otherParent)
  }

  ghost function AncOpt(p: Option<Event>): (a: set<Event>)
    ensures p.Some? ==> p.value in a && forall y :: y in a ==> Height(y) <= Height(p.value)
    ensures p.None? ==> a == {}
    decreases p
  {
    match p case None => {} case Some(q) => Anc(q)
  }

  /** The parents named by `e`, in the order the walks enqueue them. */
  function Parents(e: Event): (ps: seq<Event>)
    ensures forall p :: p in ps ==> p in Anc(e)
  {
    (match e.selfParent case None => [] case Some(p) => [p]) +
    (match e.otherParent case None => [] case Some(q) => [q])
  }

  /**
    The ancestor row entry of `e` for member `c`, as insertion computes it: the maximum over the
    parents' entries, then the creator's own entry overwritten by `Seq(e)`.
  */
  function Slot(e: Event, c: NodeId): nat
    decreases e
  {
    if e.creator == c then Seq(e)
    else Max(SlotOpt(e.selfParent, c), SlotOpt(e.otherParent, c))
  }

  function SlotOpt(p: Option<Event>, c: NodeId): nat
    decreases p
  {
    match p case None => 0 case Some(q) => Slot(q, c)
  }

  /** The creator chains are honest about authorship: a self-parent has the same creator. */
  ghost predicate ChainOk(e: Event)
    decreases e
  {
    && (e.selfParent.Some? ==> e.selfParent.value.creator == e.creator && ChainOk(e.selfParent.value))
    && (e.otherParent.Some? ==> ChainOk(e.otherParent.value))
  }

  /** The event of sequence number `s` on the self-parent chain ending at `e`. */
  function ChainAt(e: Event, s: nat): (r: Event)
    requires 1 <= s <= Seq(e)
    ensures Seq(r) == s
    decreases e
  {
    if Seq(e) == s then e else ChainAt(e.selfParent.value, s)
  }

  ghost predicate Closed(es: set<Event>) {
    forall e {:trigger Anc(e)} :: e in es ==> Anc(e) <= es
  }

  /** Two distinct events of `c` in `es` share a sequence number. */
  ghost predicate ForkIn(es: set<Event>, c: NodeId) {
    exists a, b :: a in es && b in es && Forked(a, b, c)
  }

  predicate Forked(a: Event, b: Event, c: NodeId) {
    a != b && a.creator == c && b.creator == c && Seq(a) == Seq(b)
  }

  /** `x` sees `y`: `y` is an ancestor of `x` and no fork of `y`'s creator is. */
  ghost predicate Sees(x: Event, y: Event) {
    y in Anc(x) && !ForkIn(Anc(x), y.creator)
  }

  // ---------------------------------------------------------------- ancestry

  lemma {:induction false} AncTransitive(x: Event, y: Event)
    requires y in Anc(x)
    ensures Anc(y) <= Anc(x)
    decreases x
  {
    if y != x {
      if x.selfParent.Some? && y in Anc(x.selfParent.value) {
        AncTransitive(x.selfParent.value, y);
      } else {
        AncTransitive(x.otherParent.value, y);
      }
    }
  }

  lemma AncClosed(x: Event)
    ensures Closed(Anc(x))
  {
    forall y | y in Anc(x) ensures Anc(y) <= Anc(x) { AncTransitive(x, y); }
  }

  /** A set that holds `x` and every parent of its members holds all of `x`'s ancestry. */
  lemma {:induction false} ParentClosedCovers(x: Event, es: set<Event>)
    requires x in es
    requires forall e, p :: e in es && p in Parents(e) ==> p in es
    ensures Anc(x) <= es
    decreases x
  {
    if x.selfParent.Some? {
      assert x.selfParent.value in Parents(x);
      ParentClosedCovers(x.selfParent.value, es);
    }
    if x.otherParent.Some? {
      assert x.otherParent.value in Parents(x);
      ParentClosedCovers(x.otherParent.value, es);
    }
  }

  lemma {:induction false} ChainOkInherited(x: Event, y: Event)
    requires ChainOk(x) && y in Anc(x)
    ensures ChainOk(y)
    decreases x
  {
    if y != x {
      if x.selfParent.Some? && y in Anc(x.selfParent.value) {
        ChainOkInherited(x.selfParent.value, y);
      } else {
        ChainOkInherited(x.otherParent.value, y);
      }
    }
  }

  lemma {:induction false} ChainAtAncestor(e: Event, s: nat)
    requires ChainOk(e) && 1 <= s <= Seq(e)
    ensures ChainAt(e, s) in Anc(e) && ChainAt(e, s).creator == e.creator
    decreases e
  {
    if Seq(e) != s {
      ChainAtAncestor(e.selfParent.value, s);
    }
  }

  /** In a fork-free set the lower of two same-creator events lies on the other's chain. */
  lemma ForkFreeChain(es: set<Event>, a: Event, b: Event)
    requires Closed(es) && a in es && b in es && ChainOk(b)
    requires a.creator == b.creator && Seq(a) <= Seq(b)
    requires !ForkIn(es, a.creator)
    ensures a == ChainAt(b, Seq(a)) && a in Anc(b)
  {
    var r := ChainAt(b, Seq(a));
    ChainAtAncestor(b, Seq(a));
    assert r in es;
    assert !Forked(a, r, a.creator);
  }

  /** Two distinct events with the same creator and number come from two children of one event. */
  lemma {:induction false} ForkHasSiblings(es: set<Event>, a: Event, b: Event) returns (a': Event, b': Event)
    requires Closed(es) && a in es && b in es && ChainOk(a) && ChainOk(b)
    requires Forked(a, b, a.creator)
    ensures a' in es && b' in es && Forked(a', b', a.creator) && a'.selfParent == b'.selfParent
    decreases a
  {
    if a.selfParent == b.selfParent {
      a', b' := a, b;
    } else {
      var p, q := a.selfParent.value, b.selfParent.value;
      assert p in Anc(a) && q in Anc(b);
      a', b' := ForkHasSiblings(es, p, q);
    }
  }

  /** Two stored events of `c` share a self-parent (or are both genesis events). */
  ghost predicate SiblingsIn(es: set<Event>, c: NodeId) {
    exists a, b :: a in es && b in es && Siblings(a, b, c)
  }

  predicate Siblings(a: Event, b: Event, c: NodeId) {
    a != b && a.creator == c && b.creator == c && a.selfParent == b.selfParent
  }

  lemma SiblingsIffFork(es: set<Event>, c: NodeId)
    requires Closed(es) && forall e :: e in es ==> ChainOk(e)
    ensures SiblingsIn(es, c) <==> ForkIn(es, c)
  {
    if ForkIn(es, c) {
      var a, b :| a in es && b in es && Forked(a, b, c);
      var a', b' := ForkHasSiblings(es, a, b);
      assert Siblings(a', b', c);
    }
    if SiblingsIn(es, c) {
      var a, b :| a in es && b in es && Siblings(a, b, c);
      assert Forked(a, b, c);
    }
  }

  lemma FewerForks(small: set<Event>, big: set<Event>, c: NodeId)
    requires small <= big && !ForkIn(big, c)
    ensures !ForkIn(small, c)
  {
    forall a, b | a in small && b in small ensures !Forked(a, b, c) {
      assert a in big && b in big;
    }
  }

  // ---------------------------------------------------------------- ancestor rows

  /** A non-zero row entry names an ancestor, and it is zero only when there is none. */
  lemma {:induction false} SlotNamesAncestor(x: Event, c: NodeId) returns (a: Event)
    ensures Slot(x, c) > 0 ==> a in Anc(x) && a.creator == c && Seq(a) == Slot(x, c)
    ensures Slot(x, c) == 0 ==> forall y :: y in Anc(x) ==> y.creator != c
    decreases x
  {
    a := x;
    if x.creator != c {
      assert x.selfParent.Some? ==> SlotOpt(x.selfParent, c) == Slot(x.selfParent.value, c);
      assert x.otherParent.Some? ==> SlotOpt(x.otherParent, c) == Slot(x.otherParent.value, c);
      if x.selfParent.Some? {
        a := SlotNamesAncestor(x.selfParent.value, c);
      }
      if x.otherParent.Some? {
        var b := SlotNamesAncestor(x.otherParent.value, c);
        if x.selfParent.None? || Slot(x.selfParent.value, c) < Slot(x.otherParent.value, c) {
          a := b;
        }
      }
    }
  }

  /** Without a fork of `c` below `x` the row entry is the true maximum. */
  lemma {:induction false} SlotExact(x: Event, c: NodeId, y: Event)
    requires ChainOk(x) && !ForkIn(Anc(x), c)
    requires y in Anc(x) && y.creator == c
    ensures Seq(y) <= Slot(x, c)
    decreases x
  {
    if x.creator == c {
      if Seq(y) > Seq(x) {
        ChainOkInherited(x, y);
        AncClosed(x);
        ForkFreeChain(Anc(x), x, y);
        assert false;
      }
    } else {
      if x.selfParent.Some? && y in Anc(x.selfParent.value) {
        assert Anc(x.selfParent.value) <= Anc(x);
        SlotExact(x.selfParent.value, c, y);
      } else {
        assert Anc(x.otherParent.value) <= Anc(x);
        SlotExact(x.otherParent.value, c, y);
      }
    }
  }
}
