/**
  One node's copy of the hashgraph: insertion with its incremental ancestor rows, first-seen tables
  and fork flags, and the ancestry queries with their fast paths and breadth-first fallbacks.
*/
module Ancestry {
  import opened Prelude
  import opened Events
  import opened Seeing

  datatype ConsensusError =
    | AlreadyPresent(event: Event)
    | MissingParent(event: Event)
    | UnknownCreator
    | UnknownEvent(event: Event)
    | InvalidSelfParent

  /** The bookkeeping stored with an event: its sequence number and its ancestor row. */
  datatype Record = Record(seqNo: nat, row: seq<nat>)

  /** First-seen child of a (creator, self-parent) pair. */
  type Children = map<(NodeId, Option<Event>), Event>

  /** First-seen event of a (creator, sequence number) pair. */
  type Numbered = map<(NodeId, nat), Event>

  ghost predicate ListedIn(children: Children, numbered: Numbered, e: Event) {
    (e.creator, e.selfParent) in children && (e.creator, Seq(e)) in numbered
  }

  ghost predicate ChildrenOk(stored: set<Event>, children: Children) {
    forall k :: k in children ==> children[k] in stored && children[k].creator == k.0 && children[k].selfParent == k.1
  }

  ghost predicate NumberedOk(stored: set<Event>, numbered: Numbered) {
    forall k :: k in numbered ==> numbered[k] in stored && numbered[k].creator == k.0 && Seq(numbered[k]) == k.1
  }

  ghost predicate TablesOk(stored: set<Event>, children: Children, numbered: Numbered) {
    && ChildrenOk(stored, children) && NumberedOk(stored, numbered)
    && forall e {:trigger ListedIn(children, numbered, e)} :: e in stored ==> ListedIn(children, numbered, e)
  }

  function ChildrenWith(children: Children, e: Event): Children {
    if (e.creator, e.selfParent) in children then children else children[(e.creator, e.selfParent) := e]
  }

  function NumberedWith(numbered: Numbered, e: Event): Numbered {
    if (e.creator, Seq(e)) in numbered then numbered else numbered[(e.creator, Seq(e)) := e]
  }

  lemma ChildrenAfter(stored: set<Event>, children: Children, e: Event)
    requires ChildrenOk(stored, children)
    ensures ChildrenOk(stored + {e}, ChildrenWith(children, e))
  {
    var more := ChildrenWith(children, e);
    forall k | k in more
      ensures more[k] in stored + {e} && more[k].creator == k.0 && more[k].selfParent == k.1
    {
      if k in children { assert more[k] == children[k]; }
    }
  }

  lemma NumberedAfter(stored: set<Event>, numbered: Numbered, e: Event)
    requires NumberedOk(stored, numbered)
    ensures NumberedOk(stored + {e}, NumberedWith(numbered, e))
  {
    hide Seq;
    var more := NumberedWith(numbered, e);
    forall k | k in more ensures more[k] in stored + {e} && more[k].creator == k.0 && Seq(more[k]) == k.1 {
      if k in numbered { assert more[k] == numbered[k]; }
    }
  }

  lemma ListedAfter(children: Children, numbered: Numbered, e: Event, x: Event)
    requires x == e || ListedIn(children, numbered, x)
    ensures ListedIn(ChildrenWith(children, e), NumberedWith(numbered, e), x)
  {
    hide Seq;
  }

  /** The tables keep what they hold and list a new event where they hold nothing yet. */
  lemma TablesAfter(stored: set<Event>, children: Children, numbered: Numbered, e: Event)
    requires TablesOk(stored, children, numbered)
    ensures TablesOk(stored + {e}, ChildrenWith(children, e), NumberedWith(numbered, e))
  {
    hide Seq, ChildrenOk, NumberedOk, ListedIn, ChildrenWith, NumberedWith;
    ChildrenAfter(stored, children, e);
    NumberedAfter(stored, numbered, e);
    var more, more' := ChildrenWith(children, e), NumberedWith(numbered, e);
    forall x {:trigger ListedIn(more, more', x)} | x in stored + {e} ensures ListedIn(more, more', x) {
      if x != e { assert ListedIn(children, numbered, x); }
      ListedAfter(children, numbered, e, x);
    }
  }

  class Hashgraph {
    /** Row slot of every member of the (fixed) roster. */
    const memberIndex: map<NodeId, nat>
    var events: map<Event, Record>
    var firstChild: Children
    var byCreatorSeq: Numbered
    /** Whether this copy has ever met a second child of one self-parent, per member slot. */
    var knownForkers: seq<bool>

    ghost function Members(): set<NodeId> { memberIndex.Keys }

    ghost predicate IndexOk() {
      && (forall m :: m in memberIndex ==> memberIndex[m] < |memberIndex|)
      && (forall m, k :: m in memberIndex && k in memberIndex && memberIndex[m] == memberIndex[k] ==> m == k)
    }

    ghost predicate RecordOk(e: Event)
      reads this
      requires e in events
    {
      StoredOk(e, events.Keys, events[e])
    }

    ghost predicate StoredOk(e: Event, stored: set<Event>, rec: Record) {
      && e.creator in memberIndex
      && ChainOk(e)
      && Anc(e) <= stored + {e}
      && rec.seqNo == Seq(e)
      && |rec.row| == |memberIndex|
      && (forall m :: m in memberIndex && memberIndex[m] < |memberIndex| ==> rec.row[memberIndex[m]] == Slot(e, m))
    }

    ghost predicate RecordsOk(stored: map<Event, Record>) {
      forall e {:trigger StoredOk(e, stored.Keys, stored[e])} :: e in stored ==> StoredOk(e, stored.Keys, stored[e])
    }

    ghost predicate Listed(e: Event)
      reads this
    {
      ListedIn(firstChild, byCreatorSeq, e)
    }

    /** The flag of `m` is up exactly when two stored events of `m` have the same self-parent. */
    ghost predicate FlagOk(m: NodeId)
      reads this
      requires m in memberIndex && memberIndex[m] < |knownForkers|
    {
      FlagIn(events.Keys, knownForkers, m)
    }

    ghost predicate FlagIn(stored: set<Event>, flags: seq<bool>, m: NodeId)
      requires m in memberIndex && memberIndex[m] < |flags|
    {
      flags[memberIndex[m]] <==> SiblingsIn(stored, m)
    }

    ghost predicate FlagsOk(stored: set<Event>, flags: seq<bool>)
      requires IndexOk() && |flags| == |memberIndex|
    {
      forall m {:trigger FlagIn(stored, flags, m)} :: m in memberIndex ==> FlagIn(stored, flags, m)
    }

    ghost predicate Valid()
      reads this
    {
      && IndexOk()
      && |knownForkers| == |memberIndex|
      && RecordsOk(events)
      && TablesOk(events.Keys, firstChild, byCreatorSeq)
      && FlagsOk(events.Keys, knownForkers)
    }

    constructor (memberIds: seq<NodeId>)
      requires Distinct(memberIds)
      ensures Valid() && events == map[]
      ensures Members() == Elements(memberIds)
    {
      memberIndex := IndexMap(memberIds);
      IndexMapSize(memberIds);
      events, firstChild, byCreatorSeq := map[], map[], map[];
      knownForkers := seq(|memberIds|, _ => false);
    }

    /** Why `e` cannot be stored, if it cannot; the first failing test in the source's order. */
    function Refusal(e: Event): Option<ConsensusError>
      reads this
    {
      if e in events then Some(AlreadyPresent(e))
      else if e.creator !in memberIndex then Some(UnknownCreator)
      else if e.selfParent.Some? && e.selfParent.value !in events then Some(MissingParent(e.selfParent.value))
      else if e.otherParent.Some? && e.otherParent.value !in events then Some(MissingParent(e.otherParent.value))
      else if e.selfParent.Some? && e.selfParent.value.creator != e.creator then Some(InvalidSelfParent)
      else None
    }

    /** Stores a verified event, or reports why it cannot be stored and changes nothing. */
    method Insert(e: Event) returns (r: Result<Event, ConsensusError>)
      requires Valid()
      modifies this
      ensures Valid()
      ensures r == match old(Refusal(e)) case None => Ok(e) case Some(err) => Err(err)
      ensures r.Ok? ==> events.Keys == old(events.Keys) + {e}
      ensures r.Ok? ==> forall x :: x in old(events) ==> events[x] == old(events)[x]
      ensures r.Err? ==> unchanged(this)
    {
      var refused := Refusal(e);
      if refused.Some? { return Err(refused.value); }
      var rec := NewRecord(e);
      Register(e, rec);
      return Ok(e);
    }

    /** Enters a new event and its record into the tables, raising the fork flag on a second child. */
    method Register(e: Event, rec: Record)
      requires Valid() && Refusal(e) == None && StoredOk(e, events.Keys, rec)
      modifies this
      ensures Valid() && events == old(events)[e := rec]
    {
      hide StoredOk, RecordsOk, TablesOk, FlagsOk, IndexOk;
      StoredParts(e, events.Keys, rec);
      RecordsAfter(e, rec, events);
      TablesAfter(events.Keys, firstChild, byCreatorSeq, e);
      FlagsAfter(events.Keys, firstChild, byCreatorSeq, knownForkers, e);
      assert events[e := rec].Keys == events.Keys + {e};
      var key, idx := (e.creator, e.selfParent), memberIndex[e.creator];
      if key in firstChild {
        if firstChild[key] != e { knownForkers := knownForkers[idx := true]; }
      } else {
        firstChild := firstChild[key := e];
      }
      if (e.creator, rec.seqNo) !in byCreatorSeq {
        byCreatorSeq := byCreatorSeq[(e.creator, rec.seqNo) := e];
      }
      events := events[e := rec];
    }

    lemma StoredParts(e: Event, stored: set<Event>, rec: Record)
      requires IndexOk() && StoredOk(e, stored, rec)
      ensures e.creator in memberIndex && memberIndex[e.creator] < |memberIndex| && rec.seqNo == Seq(e)
    {
    }

    lemma RecordsAfter(e: Event, rec: Record, stored: map<Event, Record>)
      requires RecordsOk(stored) && StoredOk(e, stored.Keys, rec)
      ensures RecordsOk(stored[e := rec])
    {
      hide ChainOk, Anc, Slot, Seq;
      var more := stored[e := rec];
      forall x {:trigger StoredOk(x, more.Keys, more[x])} | x in more ensures StoredOk(x, more.Keys, more[x]) {
        if x != e { assert StoredOk(x, stored.Keys, stored[x]); }
      }
    }

    /** The fork flags after `e` joined `stored`: raised when its creator and self-parent have a child already. */
    lemma FlagsAfter(stored: set<Event>, children: Children, numbered: Numbered, flags: seq<bool>, e: Event)
      requires IndexOk() && |flags| == |memberIndex| && FlagsOk(stored, flags) && TablesOk(stored, children, numbered)
      requires e !in stored && e.creator in memberIndex
      ensures var up := memberIndex[e.creator];
        FlagsOk(stored + {e}, if (e.creator, e.selfParent) in children then flags[up := true] else flags)
      ensures (e.creator, e.selfParent) in children ==> children[(e.creator, e.selfParent)] != e
    {
      var key := (e.creator, e.selfParent);
      var flags' := if key in children then flags[memberIndex[e.creator] := true] else flags;
      forall m {:trigger FlagIn(stored + {e}, flags', m)} | m in memberIndex ensures FlagIn(stored + {e}, flags', m) {
        assert FlagIn(stored, flags, m);
        FlagAfter(stored, children, numbered, flags, e, m);
      }
    }

    lemma FlagAfter(stored: set<Event>, children: Children, numbered: Numbered, flags: seq<bool>, e: Event, m: NodeId)
      requires IndexOk() && |flags| == |memberIndex| && TablesOk(stored, children, numbered)
      requires e !in stored && e.creator in memberIndex && m in memberIndex && FlagIn(stored, flags, m)
      ensures var up := memberIndex[e.creator];
        FlagIn(stored + {e}, if (e.creator, e.selfParent) in children then flags[up := true] else flags, m)
    {
      var key := (e.creator, e.selfParent);
      if m == e.creator && key in children {
        assert Siblings(e, children[key], m);
      } else {
        assert SiblingsIn(stored, m) ==> SiblingsIn(stored + {e}, m);
        forall a, b | a in stored + {e} && b in stored + {e} && Siblings(a, b, m) ensures a in stored && b in stored {
          assert (a.creator, a.selfParent) == (b.creator, b.selfParent);
          if a in stored { assert ListedIn(children, numbered, a); }
          if b in stored { assert ListedIn(children, numbered, b); }
        }
      }
    }

    /** The number and the row of an event about to be stored, from its parents' records alone. */
    method NewRecord(e: Event) returns (rec: Record)
      requires Valid() && Refusal(e) == None
      ensures StoredOk(e, events.Keys, rec)
    {
      var idx := memberIndex[e.creator];
      if e.selfParent.Some? { assert RecordOk(e.selfParent.value); }
      if e.otherParent.Some? { assert RecordOk(e.otherParent.value); }
      var seqNo := if e.selfParent.Some? then events[e.selfParent.value].seqNo + 1 else 1;
      var row := MergeRows(e);
      rec := Record(seqNo, row[idx := seqNo]);
      forall m | m in memberIndex ensures rec.row[memberIndex[m]] == Slot(e, m) {
        assert m != e.creator ==> memberIndex[m] != idx;
      }
    }

    /** Elementwise maximum of the stored parents' rows. */
    method MergeRows(e: Event) returns (row: seq<nat>)
      requires Valid()
      requires forall p :: p in Parents(e) ==> p in events
      ensures |row| == |memberIndex|
      ensures forall m :: m in memberIndex ==>
        row[memberIndex[m]] == Max(SlotOpt(e.selfParent, m), SlotOpt(e.otherParent, m))
    {
      row := seq(|memberIndex|, _ => 0);
      if e.selfParent.Some? {
        assert e.selfParent.value in Parents(e);
        assert RecordOk(e.selfParent.value);
        row := events[e.selfParent.value].row;
      }
      if e.otherParent.Some? {
        assert e.otherParent.value in Parents(e);
        assert RecordOk(e.otherParent.value);
        var other := events[e.otherParent.value].row;
        row := seq(|memberIndex|, i requires 0 <= i < |row| && i < |other| => Max(row[i], other[i]));
      }
    }

    // -------------------------------------------------------------- what the tables say

    lemma StoredClosed()
      requires Valid()
      ensures Closed(events.Keys)
      ensures forall e :: e in events ==> ChainOk(e)
    {
      forall e | e in events ensures Anc(e) <= events.Keys && ChainOk(e) { assert RecordOk(e); }
    }

    lemma CreatorKnown(e: Event)
      requires Valid() && e in events
      ensures e.creator in Members()
    {
      assert RecordOk(e);
    }

    /** Everything below a stored event is stored, under its own number. */
    lemma Known(x: Event, y: Event)
      requires Valid() && x in events && y in Anc(x)
      ensures y in events && events[y].seqNo == Seq(y)
    {
      assert RecordOk(x);
      assert RecordOk(y);
    }

    /** The flag is a statement about forks: it is up exactly when the stored events hold one. */
    lemma FlagMeansFork(m: NodeId)
      requires Valid() && m in memberIndex
      ensures knownForkers[memberIndex[m]] <==> ForkIn(events.Keys, m)
    {
      StoredClosed();
      assert FlagOk(m);
      SiblingsIffFork(events.Keys, m);
    }

    lemma FewerForksBelow(x: Event, c: NodeId)
      requires Valid() && x in events && !ForkIn(events.Keys, c)
      ensures !ForkIn(Anc(x), c)
    {
      assert RecordOk(x);
      FewerForks(Anc(x), events.Keys, c);
    }

    // -------------------------------------------------------------- queries

    /** Decides the ancestor query by the row entry, or by a walk when the creator is a known forker. */
    method IsAncestor(x: Event, y: Event) returns (r: Result<bool, ConsensusError>)
      requires Valid()
      ensures x in events && y in events ==> r == Ok(AncestorAnswer(x, y))
      ensures x == y ==> r == Ok(true)
      ensures x != y && x !in events ==> r == Err(UnknownEvent(x))
      ensures x != y && x in events && y !in events ==> r == Err(UnknownEvent(y))
    {
      if x == y { return Ok(true); }
      if x !in events { return Err(UnknownEvent(x)); }
      if y !in events { return Err(UnknownEvent(y)); }
      assert RecordOk(x) && RecordOk(y);
      var idx := memberIndex[y.creator];
      if events[y].seqNo > events[x].row[idx] { return Ok(false); }
      FlagMeansFork(y.creator);
      if !knownForkers[idx] {
        FewerForksBelow(x, y.creator);
        StoredClosed();
        var a := SlotNamesAncestor(x, y.creator);
        ForkFreeChain(events.Keys, y, a);
        AncTransitive(x, a);
        return Ok(true);
      }
      var found := AncestryContainsEvent(x, y);
      return Ok(found);
    }

    /** Decides seeing: the ancestor query, then a walk for a fork when the creator is a known forker. */
    method See(x: Event, y: Event) returns (r: Result<bool, ConsensusError>)
      requires Valid()
      ensures x in events && y in events ==> r == Ok(Sees(x, y))
      ensures x in events && y !in events ==> r == Err(UnknownEvent(y))
      ensures x !in events ==> r == Err(UnknownEvent(x))
    {
      var anc := IsAncestor(x, y);
      if anc.Err? { return anc; }
      if !anc.value {
        SeesNeedsAnswer(x, y);
        return Ok(false);
      }
      if y !in events { return Err(UnknownEvent(y)); }
      assert RecordOk(x) && RecordOk(y);
      FlagMeansFork(y.creator);
      if !knownForkers[memberIndex[y.creator]] {
        FewerForksBelow(x, y.creator);
        return Ok(true);
      }
      var forked := AncestryContainsForkOf(x, y.creator);
      return Ok(!forked);
    }

    lemma SeesNeedsAnswer(x: Event, y: Event)
      requires Valid() && x in events
      ensures Sees(x, y) ==> AncestorAnswer(x, y)
    {
      assert RecordOk(x);
      if Sees(x, y) { SlotExact(x, y.creator, y); }
    }

    /** Decides strong seeing by counting the members whose chain carries `y`, in any member order. */
    method StronglySee(x: Event, y: Event) returns (r: Result<bool, ConsensusError>)
      requires Valid()
      ensures x in events && y in events ==> r == Ok(StronglySees(Members(), x, y))
      ensures x in events && y !in events ==> r == Err(UnknownEvent(y))
      ensures x !in events ==> r == Err(UnknownEvent(x))
    {
      var sees := See(x, y);
      if sees.Err? || !sees.value { return sees; }
      var count := CountCarriers(x, y);
      return Ok(count * 3 > |memberIndex| * 2);
    }

    method CountCarriers(x: Event, y: Event) returns (count: nat)
      requires Valid() && x in events && y in events
      ensures count == |Carriers(Members(), x, y)|
    {
      count := 0;
      var rest := memberIndex.Keys;
      ghost var done: set<NodeId> := {};
      while rest != {}
        invariant rest <= Members() && done == Members() - rest
        invariant count == |Carriers(done, x, y)|
        decreases |rest|
      {
        var m :| m in rest;
        var carried := Carried(x, m, y);
        CarriersGrow(done, m, x, y);
        if carried { count := count + 1; }
        rest, done := rest - {m}, done + {m};
      }
      assert done == Members();
    }

    method Carried(x: Event, m: NodeId, y: Event) returns (b: bool)
      requires Valid() && x in events && y in events && m in memberIndex
      ensures b == MemberReaches(x, m, y)
    {
      assert RecordOk(x);
      var latest := events[x].row[memberIndex[m]];
      if latest == 0 { return false; }
      b := MemberChainReaches(x, m, latest, y);
    }

    /** Walks the self-parent chain down from `x`'s frontier event of `m`, looking for one that sees `y`. */
    method MemberChainReaches(x: Event, m: NodeId, upTo: nat, y: Event) returns (b: bool)
      requires Valid() && x in events && y in events && m in memberIndex
      requires upTo == Slot(x, m) > 0
      ensures b == MemberReaches(x, m, y)
    {
      FlagMeansFork(m);
      ghost var top := SlotNamesAncestor(x, m);
      FirstFoundComplete(x, m, upTo, top);
      var current: Option<Event>;
      if knownForkers[memberIndex[m]] {
        current := AncestorEventForCreator(x, m, upTo);
      } else {
        UniqueByNumber(x, m, upTo);
        current := EventForCreatorSeq(m, upTo);
      }
      ghost var start := current.value;
      assert RecordOk(x);
      while current.Some?
        invariant current.Some? ==> current.value in events && ChainSees(start, y) == ChainSees(current.value, y)
        invariant current.None? ==> !ChainSees(start, y)
        decreases current
      {
        var e := current.value;
        assert RecordOk(e);
        var sees := See(e, y);
        if sees.value { return true; }
        if e.selfParent.Some? { assert e.selfParent.value in Anc(e); }
        current := e.selfParent;
      }
      return false;
    }

    function EventForCreatorSeq(m: NodeId, s: nat): Option<Event>
      reads this
    {
      if (m, s) in byCreatorSeq then Some(byCreatorSeq[(m, s)]) else None
    }

    /** With no fork of `m` stored, the first-seen table and the search below `x` give the same event. */
    lemma UniqueByNumber(x: Event, m: NodeId, s: nat)
      requires Valid() && x in events && m in memberIndex && !ForkIn(events.Keys, m)
      requires FirstFound(x, m, s).Some?
      ensures EventForCreatorSeq(m, s) == FirstFound(x, m, s)
    {
      assert RecordOk(x);
      var f := FirstFound(x, m, s).value;
      assert f in events && Listed(f);
      var e := byCreatorSeq[(m, s)];
      assert e in events.Keys && f in events.Keys;
      assert !Forked(e, f, m);
    }

    // -------------------------------------------------------------- breadth-first walks

    method AncestorEventForCreator(x: Event, c: NodeId, s: nat) returns (r: Option<Event>)
      requires Valid() && x in events
      ensures r == FirstFound(x, c, s)
    {
      var visited, queue := {}, [x];
      while queue != []
        invariant Walking(x, queue, visited)
        invariant Search(x, queue, visited, c, s) == FirstFound(x, c, s)
        decreases |Anc(x) - visited|, |queue|
      {
        var current := queue[0];
        if current in visited {
          WalkSkips(x, queue, visited);
          queue := queue[1..];
        } else {
          Known(x, current);
          if current.creator == c && events[current].seqNo == s { return Some(current); }
          WalkVisits(x, queue, visited);
          queue, visited := queue[1..] + Parents(current), visited + {current};
        }
      }
      return None;
    }

    method AncestryContainsEvent(x: Event, target: Event) returns (b: bool)
      requires Valid() && x in events
      ensures b == (target in Anc(x))
    {
      var visited, queue := {}, [x];
      while queue != []
        invariant Walking(x, queue, visited) && target !in visited
        decreases |Anc(x) - visited|, |queue|
      {
        var current := queue[0];
        if current == target { return true; }
        if current in visited {
          WalkSkips(x, queue, visited);
          queue := queue[1..];
        } else {
          WalkVisits(x, queue, visited);
          queue, visited := queue[1..] + Parents(current), visited + {current};
        }
      }
      WalkEnds(x, visited);
      return false;
    }

    method AncestryContainsForkOf(x: Event, c: NodeId) returns (b: bool)
      requires Valid() && x in events
      ensures b == ForkIn(Anc(x), c)
    {
      hide Hashgraph.Valid, Anc, NumbersTaken;
      var seenSeqs: map<nat, Event> := map[];
      var visited, queue := {}, [x];
      NoNumbers(c);
      while queue != []
        invariant Walking(x, queue, visited)
        invariant NumbersTaken(seenSeqs, visited, c)
        decreases |Anc(x) - visited|, |queue|
      {
        var current := queue[0];
        if current in visited {
          WalkSkips(x, queue, visited);
          queue := queue[1..];
        } else {
          Known(x, current);
          if current.creator == c {
            var s := events[current].seqNo;
            NumbersGrow(seenSeqs, visited, c, current);
            if s in seenSeqs && seenSeqs[s] != current {
              assert Forked(seenSeqs[s], current, c);
              return true;
            }
            seenSeqs := seenSeqs[s := current];
          } else {
            NumbersSkip(seenSeqs, visited, c, current);
          }
          WalkVisits(x, queue, visited);
          queue, visited := queue[1..] + Parents(current), visited + {current};
        }
      }
      WalkEnds(x, visited);
      TakenOnce(seenSeqs, visited, c);
      return false;
    }
  }

  /** `seen` maps each number used by `c` among the visited events to the one event that uses it. */
  ghost predicate NumbersTaken(seen: map<nat, Event>, visited: set<Event>, c: NodeId) {
    && (forall s :: s in seen ==> seen[s] in visited && seen[s].creator == c && Seq(seen[s]) == s)
    && (forall v :: v in visited && v.creator == c ==> Seq(v) in seen && seen[Seq(v)] == v)
  }

  lemma NoNumbers(c: NodeId)
    ensures NumbersTaken(map[], {}, c)
  {
  }

  lemma NumbersGrow(seen: map<nat, Event>, visited: set<Event>, c: NodeId, e: Event)
    requires NumbersTaken(seen, visited, c) && e !in visited && e.creator == c
    ensures Seq(e) in seen ==> seen[Seq(e)] in visited && seen[Seq(e)].creator == c && Seq(seen[Seq(e)]) == Seq(e)
    ensures Seq(e) !in seen || seen[Seq(e)] == e ==> NumbersTaken(seen[Seq(e) := e], visited + {e}, c)
  {
    hide Seq;
  }

  lemma NumbersSkip(seen: map<nat, Event>, visited: set<Event>, c: NodeId, e: Event)
    requires NumbersTaken(seen, visited, c) && e.creator != c
    ensures NumbersTaken(seen, visited + {e}, c)
  {
    hide Seq;
  }

  lemma TakenOnce(seen: map<nat, Event>, visited: set<Event>, c: NodeId)
    requires NumbersTaken(seen, visited, c)
    ensures !ForkIn(visited, c)
  {
    forall a, b | a in visited && b in visited ensures !Forked(a, b, c) {
    }
  }

  function IndexMap(ids: seq<NodeId>): map<NodeId, nat> {
    map m | m in ids :: FirstIndex(ids, m)
  }

  function FirstIndex(ids: seq<NodeId>, m: NodeId): (i: nat)
    requires m in ids
    ensures i < |ids| && ids[i] == m
  {
    if ids[0] == m then 0 else 1 + FirstIndex(ids[1..], m)
  }

  lemma IndexMapSize(ids: seq<NodeId>)
    requires Distinct(ids)
    ensures |IndexMap(ids)| == |ids|
  {
    assert IndexMap(ids).Keys == Elements(ids);
    DistinctCount(ids);
  }
}
