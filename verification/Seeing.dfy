/**
  What the ancestry queries mean, as functions of the queried events alone: no member of this
  module mentions a node's graph, its fork flags or its lookup tables.
*/
module Seeing {
  import opened Prelude
  import opened Events

  /** The answer of the ancestor query: reachable, and not above the row entry. */
  ghost predicate AncestorAnswer(x: Event, y: Event) {
    x == y || (y in Anc(x) && Seq(y) <= Slot(x, y.creator))
  }

  /**
    The breadth-first search for an ancestor of `x` with creator `c` and number `s`, self-parents
    enqueued before other-parents.
  */
  ghost function Search(x: Event, queue: seq<Event>, visited: set<Event>, c: NodeId, s: nat): (r: Option<Event>)
    requires forall q :: q in queue ==> q in Anc(x)
    ensures r.Some? ==> r.value in Anc(x) && r.value.creator == c && Seq(r.value) == s
    decreases |Anc(x) - visited|, |queue|
  {
    if queue == [] then None
    else
      var e := queue[0];
      if e in visited then Search(x, queue[1..], visited, c, s)
      else if e.creator == c && Seq(e) == s then Some(e)
      else
        assert Anc(x) - (visited + {e}) < Anc(x) - visited;
        SmallerSet(Anc(x) - (visited + {e}), Anc(x) - visited);
        AncTransitive(x, e);
        Search(x, queue[1..] + Parents(e), visited + {e}, c, s)
  }

  lemma SmallerSet<T>(a: set<T>, b: set<T>)
    requires a < b
    ensures |a| < |b|
  {
    assert b == a + (b - a);
    assert b - a != {};
  }

  /** The first ancestor of `x` with creator `c` and number `s` in breadth-first order. */
  ghost function FirstFound(x: Event, c: NodeId, s: nat): (r: Option<Event>)
    ensures r.Some? ==> r.value in Anc(x) && r.value.creator == c && Seq(r.value) == s
  {
    Search(x, [x], {}, c, s)
  }

  /** The search misses nothing: an ancestor with that creator and number is found when one exists. */
  lemma FirstFoundComplete(x: Event, c: NodeId, s: nat, y: Event)
    requires y in Anc(x) && y.creator == c && Seq(y) == s
    ensures FirstFound(x, c, s).Some?
  {
    SearchComplete(x, [x], {}, c, s, y);
  }

  /** The state of a walk from `x`: everything still to visit is below a queued event. */
  ghost predicate Walking(x: Event, queue: seq<Event>, visited: set<Event>) {
    && (forall q :: q in queue ==> q in Anc(x))
    && visited <= Anc(x)
    && (x in visited || x in queue)
    && (forall v :: v in visited ==> Expanded(v, queue, visited))
  }

  ghost predicate Expanded(v: Event, queue: seq<Event>, visited: set<Event>) {
    forall p :: p in Parents(v) ==> p in visited || p in queue
  }

  lemma WalkSkips(x: Event, queue: seq<Event>, visited: set<Event>)
    requires Walking(x, queue, visited) && queue != [] && queue[0] in visited
    ensures Walking(x, queue[1..], visited)
  {
    assert queue == [queue[0]] + queue[1..];
    forall v | v in visited ensures Expanded(v, queue[1..], visited) {
      assert Expanded(v, queue, visited);
    }
  }

  lemma WalkVisits(x: Event, queue: seq<Event>, visited: set<Event>)
    requires Walking(x, queue, visited) && queue != [] && queue[0] !in visited
    ensures Walking(x, queue[1..] + Parents(queue[0]), visited + {queue[0]})
    ensures |Anc(x) - (visited + {queue[0]})| < |Anc(x) - visited|
  {
    var e := queue[0];
    assert queue == [e] + queue[1..];
    var queue', visited' := queue[1..] + Parents(e), visited + {e};
    AncTransitive(x, e);
    SmallerSet(Anc(x) - visited', Anc(x) - visited);
    forall v | v in visited' ensures Expanded(v, queue', visited') {
      if v != e { assert Expanded(v, queue, visited); }
    }
  }

  lemma WalkEnds(x: Event, visited: set<Event>)
    requires Walking(x, [], visited)
    ensures visited == Anc(x)
  {
    forall v, p | v in visited && p in Parents(v) ensures p in visited {
      assert Expanded(v, [], visited);
    }
    ParentClosedCovers(x, visited);
  }

  lemma {:induction false} SearchComplete(x: Event, queue: seq<Event>, visited: set<Event>, c: NodeId, s: nat, y: Event)
    requires Walking(x, queue, visited)
    requires y in Anc(x) && y !in visited && y.creator == c && Seq(y) == s
    ensures Search(x, queue, visited, c, s).Some?
    decreases |Anc(x) - visited|, |queue|
  {
    if queue == [] {
      WalkEnds(x, visited);
    } else if queue[0] in visited {
      WalkSkips(x, queue, visited);
      SearchComplete(x, queue[1..], visited, c, s, y);
    } else if queue[0] != y {
      WalkVisits(x, queue, visited);
      SearchComplete(x, queue[1..] + Parents(queue[0]), visited + {queue[0]}, c, s, y);
    }
  }

  /** Some event on the self-parent chain ending at `e` sees `y`. */
  ghost predicate ChainSees(e: Event, y: Event)
    decreases e
  {
    Sees(e, y) || (e.selfParent.Some? && ChainSees(e.selfParent.value, y))
  }

  /** Member `m` carries `y` to `x`: the chain below `x`'s frontier event of `m` sees `y`. */
  ghost predicate MemberReaches(x: Event, m: NodeId, y: Event) {
    && Slot(x, m) != 0
    && var top := FirstFound(x, m, Slot(x, m));
       top.Some? && ChainSees(top.value, y)
  }

  ghost function Carriers(members: set<NodeId>, x: Event, y: Event): set<NodeId> {
    set m | m in members && MemberReaches(x, m, y)
  }

  lemma CarriersGrow(done: set<NodeId>, m: NodeId, x: Event, y: Event)
    requires m !in done
    ensures |Carriers(done + {m}, x, y)| == |Carriers(done, x, y)| + if MemberReaches(x, m, y) then 1 else 0
  {
    if MemberReaches(x, m, y) {
      assert Carriers(done + {m}, x, y) == Carriers(done, x, y) + {m};
    } else {
      assert Carriers(done + {m}, x, y) == Carriers(done, x, y);
    }
  }

  /** `x` strongly sees `y`: it sees `y`, and more than two thirds of the members carry it. */
  ghost predicate StronglySees(members: set<NodeId>, x: Event, y: Event) {
    Sees(x, y) && |Carriers(members, x, y)| * 3 > |members| * 2
  }

  /** A carrier has an event of its own below `x` that sees `y`. */
  lemma {:induction false} ChainSeesEvent(e: Event, y: Event) returns (f: Event)
    requires ChainOk(e) && ChainSees(e, y)
    ensures f in Anc(e) && f.creator == e.creator && Sees(f, y)
    decreases e
  {
    if Sees(e, y) {
      f := e;
    } else {
      f := ChainSeesEvent(e.selfParent.value, y);
    }
  }

  lemma CarrierEvent(x: Event, m: NodeId, y: Event) returns (f: Event)
    requires ChainOk(x) && MemberReaches(x, m, y)
    ensures f in Anc(x) && f.creator == m && Sees(f, y)
  {
    var top := FirstFound(x, m, Slot(x, m)).value;
    ChainOkInherited(x, top);
    f := ChainSeesEvent(top, y);
    AncTransitive(x, top);
  }
}
