/**
  The signed window: a Merkle root over the ordered records of the last rounds, with ancestry rows of
  canonical width, and why two nodes that finalized the same rounds sign the same one.
*/
module Windows {
  import opened Prelude
  import opened Crypto
  import opened Codec
  import opened RecordsTree
  import opened Events
  import opened Ancestry
  import opened FirstSeen
  import opened Ordering
  import Rounds

  /** A decided event as the window commits to it. */
  datatype WindowRecord = WindowRecord(
    hash: Hash,
    seqNo: U64,
    round: U64,
    received: Option<U64>,
    stamp: Option<U64>,
    row: seq<U64>)

  const WINDOW_DST: Bytes :=
    [0x4A, 0x4B, 0x41, 0x49, 0x4E, 0x2D, 0x57, 0x49, 0x4E, 0x44, 0x4F, 0x57, 0x2D, 0x52, 0x4F, 0x4F, 0x54, 0x2D,
     0x56, 0x31]

  function Tagged(v: Option<U64>): Bytes {
    if v.Some? then [0x01] + BigEndian(v.value, 8) else [0x00]
  }

  /** A row cut or zero-filled to `width` slots. */
  function Normalized(row: seq<U64>, width: nat): seq<U64> {
    seq(width, i requires 0 <= i < width => if i < |row| then row[i] else 0)
  }

  function PutRow(row: seq<U64>): Bytes {
    if row == [] then [] else BigEndian(row[0], 8) + PutRow(row[1..])
  }

  function WindowPreimage(r: WindowRecord, width: nat): Bytes {
    WINDOW_DST + (r.hash + (BigEndian(r.seqNo, 8) + (BigEndian(r.round, 8) + (Tagged(r.received) + (Tagged(r.stamp) +
    (BigEndian(width, 4) + PutRow(Normalized(r.row, width))))))))
  }

  function WindowLeaf(h: HashFn, r: WindowRecord, width: nat): Hash { h(WindowPreimage(r, width)) }

  ghost function WindowLeaves(h: HashFn, records: seq<WindowRecord>, width: nat): seq<Hash> {
    seq(|records|, i requires 0 <= i < |records| => WindowLeaf(h, records[i], width))
  }

  /** The root over `records`; none when there are some and the roster is too wide for its length field. */
  ghost function RootOver(h: HashFn, records: seq<WindowRecord>, width: nat): Option<Hash> {
    if records != [] && width >= 0x1_0000_0000 then None else Some(RootOf(h, WindowLeaves(h, records, width)))
  }

  method RootOfRecords(h: HashFn, records: seq<WindowRecord>, width: nat) returns (root: Option<Hash>)
    ensures root == RootOver(h, records, width)
  {
    hide WindowLeaf, Tree, TreeHash;
    if records == [] {
      EmptyWindow(h, width);
      return Some(EmptyTree(h));
    }
    if width >= 0x1_0000_0000 { return None; }
    var leaves: seq<Hash>, i := [], 0;
    while i < |records|
      invariant 0 <= i <= |records| && |leaves| == i
      invariant forall j :: 0 <= j < i ==> leaves[j] == WindowLeaf(h, records[j], width)
    {
      leaves := leaves + [WindowLeaf(h, records[i], width)];
      i := i + 1;
    }
    assert leaves == WindowLeaves(h, records, width);
    var k := Levels(|leaves|);
    var folded := FoldLevels(h, Pad(h, leaves, k), k);
    OpenTree(h, leaves, k);
    return Some(folded);
  }

  function EmptyTree(h: HashFn): Hash { h([0x00]) }

  lemma EmptyWindow(h: HashFn, width: nat)
    ensures RootOf(h, WindowLeaves(h, [], width)) == EmptyTree(h)
  {
    assert WindowLeaves(h, [], width) == [];
    TreeOfNone(h, Levels(0));
  }

  lemma OpenTree(h: HashFn, leaves: seq<Hash>, k: nat)
    requires k == Levels(|leaves|)
    ensures TreeHash(h, Pad(h, leaves, k), k) == RootOf(h, leaves)
  {
    hide TreeHash;
  }

  // ---------------------------------------------------------------- width

  /** `b` is `a` with zero columns appended to its row, as happens to stored rows when a member joins. */
  ghost predicate Widened(a: WindowRecord, b: WindowRecord) {
    && b == a.(row := b.row) && a.row <= b.row
    && forall j :: |a.row| <= j < |b.row| ==> b.row[j] == 0
  }

  lemma ZeroColumns(a: WindowRecord, b: WindowRecord, width: nat)
    requires Widened(a, b)
    ensures WindowPreimage(a, width) == WindowPreimage(b, width)
  {
    hide PutRow, BigEndian, Tagged;
    assert Normalized(a.row, width) == Normalized(b.row, width);
  }

  /** Columns appended later, for members that join later, leave the root of a window as it was. */
  lemma ZeroColumnsRoot(h: HashFn, a: seq<WindowRecord>, b: seq<WindowRecord>, width: nat)
    requires |a| == |b| && forall i :: 0 <= i < |a| ==> Widened(a[i], b[i])
    ensures RootOf(h, WindowLeaves(h, a, width)) == RootOf(h, WindowLeaves(h, b, width))
  {
    hide WindowPreimage, Tree, TreeHash, Levels;
    forall i | 0 <= i < |a| ensures WindowLeaf(h, a[i], width) == WindowLeaf(h, b[i], width) {
      ZeroColumns(a[i], b[i], width);
    }
    assert WindowLeaves(h, a, width) == WindowLeaves(h, b, width);
  }

  // ---------------------------------------------------------------- binding

  lemma TaggedPrefixFree(a: Option<U64>, b: Option<U64>, restA: Bytes, restB: Bytes)
    requires Tagged(a) + restA == Tagged(b) + restB
    ensures a == b && restA == restB
  {
    hide BigEndian;
    assert (Tagged(a) + restA)[0] == (Tagged(b) + restB)[0];
    if a.Some? {
      var na, nb := BigEndian(a.value, 8), BigEndian(b.value, 8);
      AppendInjective(Tagged(a), restA, Tagged(b), restB);
      AppendInjective([0x01], na, [0x01], nb);
      NumberBinds(a.value, b.value);
    } else {
      AppendInjective([0x00], restA, [0x00], restB);
    }
  }

  lemma NumberBinds(a: U64, b: U64)
    requires BigEndian(a, 8) == BigEndian(b, 8)
    ensures a == b
  {
    hide BigEndian;
    Widths();
    NumberOfBigEndian(a, 8);
    NumberOfBigEndian(b, 8);
  }

  lemma {:induction false} RowBinds(a: seq<U64>, b: seq<U64>)
    requires |a| == |b| && PutRow(a) == PutRow(b)
    ensures a == b
  {
    hide BigEndian;
    if a != [] {
      AppendInjective(BigEndian(a[0], 8), PutRow(a[1..]), BigEndian(b[0], 8), PutRow(b[1..]));
      NumberBinds(a[0], b[0]);
      RowBinds(a[1..], b[1..]);
      assert a == [a[0]] + a[1..] && b == [b[0]] + b[1..];
    }
  }

  /** A leaf binds everything it commits to, the row up to the canonical width. */
  lemma WindowPreimageBinds(a: WindowRecord, b: WindowRecord, width: nat)
    requires WindowPreimage(a, width) == WindowPreimage(b, width)
    ensures a.(row := Normalized(a.row, width)) == b.(row := Normalized(b.row, width))
  {
    hide BigEndian, Tagged, PutRow, Normalized;
    var w := BigEndian(width, 4);
    var a5, b5 := w + PutRow(Normalized(a.row, width)), w + PutRow(Normalized(b.row, width));
    var a4, b4 := Tagged(a.stamp) + a5, Tagged(b.stamp) + b5;
    var a3, b3 := Tagged(a.received) + a4, Tagged(b.received) + b4;
    var a2, b2 := BigEndian(a.round, 8) + a3, BigEndian(b.round, 8) + b3;
    var a1, b1 := BigEndian(a.seqNo, 8) + a2, BigEndian(b.seqNo, 8) + b2;
    AppendInjective(WINDOW_DST, a.hash + a1, WINDOW_DST, b.hash + b1);
    AppendInjective(a.hash, a1, b.hash, b1);
    AppendInjective(BigEndian(a.seqNo, 8), a2, BigEndian(b.seqNo, 8), b2);
    AppendInjective(BigEndian(a.round, 8), a3, BigEndian(b.round, 8), b3);
    TaggedPrefixFree(a.received, b.received, a4, b4);
    TaggedPrefixFree(a.stamp, b.stamp, a5, b5);
    AppendInjective(w, PutRow(Normalized(a.row, width)), w, PutRow(Normalized(b.row, width)));
    NumberBinds(a.seqNo, b.seqNo);
    NumberBinds(a.round, b.round);
    RowWidths(a.row, b.row, width);
    RowBinds(Normalized(a.row, width), Normalized(b.row, width));
  }

  lemma RowWidths(a: seq<U64>, b: seq<U64>, width: nat)
    ensures |Normalized(a, width)| == width == |Normalized(b, width)|
  {
  }

  lemma WindowPreimageShape(r: WindowRecord, width: nat)
    ensures LeafShaped(WindowPreimage(r, width))
  {
  }

  /** The window root binds the ordered records of the window: which events, their order and their ordering metadata. */
  lemma WindowRootBinds(h: HashFn, s: set<Bytes>, a: seq<WindowRecord>, b: seq<WindowRecord>, width: nat)
    requires CollisionFree(h, s) && [0x00] in s
    requires forall r :: r in a || r in b ==> WindowPreimage(r, width) in s
    requires var la := WindowLeaves(h, a, width); TreeHashed(h, la, Levels(|la|), s)
    requires var lb := WindowLeaves(h, b, width); TreeHashed(h, lb, Levels(|lb|), s)
    requires RootOf(h, WindowLeaves(h, a, width)) == RootOf(h, WindowLeaves(h, b, width))
    ensures |a| == |b|
    ensures forall i :: 0 <= i < |a| ==>
      a[i].(row := Normalized(a[i].row, width)) == b[i].(row := Normalized(b[i].row, width))
  {
    hide WindowPreimage, TreeHashed, RootOf, Levels;
    var la, lb := WindowLeaves(h, a, width), WindowLeaves(h, b, width);
    forall i | 0 <= i < |la| ensures IsLeafHash(h, la[i], s) {
      WindowPreimageShape(a[i], width);
      assert a[i] in a;
    }
    forall i | 0 <= i < |lb| ensures IsLeafHash(h, lb[i], s) {
      WindowPreimageShape(b[i], width);
      assert b[i] in b;
    }
    RootBindsLeaves(h, s, la, lb);
    forall i | 0 <= i < |a|
      ensures a[i].(row := Normalized(a[i].row, width)) == b[i].(row := Normalized(b[i].row, width))
    {
      assert la[i] == lb[i] && a[i] in a && b[i] in b;
      WindowPreimageBinds(a[i], b[i], width);
    }
  }

  // ---------------------------------------------------------------- the window of a node

  /** A counter as the 64-bit word it is stored in. */
  function Word(n: nat): U64 { n % 0x1_0000_0000_0000_0000 }

  function Words(row: seq<nat>): seq<U64> {
    seq(|row|, i requires 0 <= i < |row| => Word(row[i]))
  }

  ghost predicate Ordered(o: Orderer, e: Event)
    reads o, o.graph
  {
    e in o.graph.events && e in o.received && e in o.stamps
  }

  ghost predicate AllOrdered(o: Orderer, list: seq<Event>)
    reads o, o.graph
  {
    forall i :: 0 <= i < |list| ==> Ordered(o, list[i])
  }

  /** What `o`'s window commits to for an ordered event. */
  ghost function RecordOf(o: Orderer, e: Event): WindowRecord
    requires Ordered(o, e)
    reads o, o.graph
  {
    WindowRecord(BigEndian(e.digest, 32), Word(o.graph.events[e].seqNo), Word(Rounds.Round(o.graph.Members(), e)),
                 Some(Word(o.received[e])), Some(Word(o.stamps[e])), Words(o.graph.events[e].row))
  }

  ghost predicate AreRecords(o: Orderer, list: seq<Event>, records: seq<WindowRecord>)
    requires AllOrdered(o, list)
    reads o, o.graph
  {
    |records| == |list| && forall i :: 0 <= i < |list| ==> records[i] == RecordOf(o, list[i])
  }

  /** `list` holds the events received in the rounds `from` up to but not including `upTo`, in consensus order. */
  ghost predicate IsWindow(received: map<Event, nat>, stamps: map<Event, nat>, from: nat, upTo: nat, list: seq<Event>)
    decreases upTo
  {
    if upTo <= from then list == []
    else exists k :: 0 <= k <= |list| && IsWindowSplit(received, stamps, from, upTo, list, k)
  }

  ghost predicate IsWindowSplit(
    received: map<Event, nat>, stamps: map<Event, nat>, from: nat, upTo: nat, list: seq<Event>, k: nat)
    requires upTo >= 1 && k <= |list|
    decreases upTo, 0
  {
    IsWindow(received, stamps, from, upTo - 1, list[..k]) && IsRoundOrder(received, stamps, upTo - 1, list[k..])
  }

  lemma WindowExtends(received: map<Event, nat>, stamps: map<Event, nat>, from: nat, upTo: nat,
                      list: seq<Event>, order: seq<Event>)
    requires from <= upTo && IsWindow(received, stamps, from, upTo, list) && IsRoundOrder(received, stamps, upTo, order)
    ensures IsWindow(received, stamps, from, upTo + 1, list + order)
  {
    hide IsRoundOrder;
    assert (list + order)[..|list|] == list && (list + order)[|list|..] == order;
    assert IsWindowSplit(received, stamps, from, upTo + 1, list + order, |list|);
  }

  /** The window covers the round itself and as many rounds before it as there are, up to `rounds`. */
  ghost function WindowStart(round: nat, rounds: nat): nat { if round < rounds then 0 else round - rounds }

  /** `root` is the root over `list`, which is the window of `o` that ends with `round`. */
  ghost predicate IsWindowRoot(h: HashFn, o: Orderer, width: nat, round: nat, rounds: nat,
                               list: seq<Event>, records: seq<WindowRecord>, root: Option<Hash>)
    reads o, o.graph
  {
    && IsWindow(o.received, o.stamps, WindowStart(round, rounds), round + 1, list)
    && AllOrdered(o, list) && AreRecords(o, list, records)
    && root == RootOver(h, records, width)
  }

  /**
    The window root of a node, from any enumeration of its store. `births` holds the rounds assigned
    to the events at insertion and `width` the canonical roster width.
  */
  method WindowRoot(h: HashFn, o: Orderer, births: map<Event, nat>, enumeration: seq<Event>,
                    width: nat, round: nat, rounds: nat)
    returns (root: Option<Hash>, list: seq<Event>, records: seq<WindowRecord>)
    requires o.Valid() && Distinct(enumeration) && Elements(enumeration) == o.graph.events.Keys
    requires forall e :: e in o.received ==> e in births && births[e] == Rounds.Round(o.graph.Members(), e)
    ensures IsWindowRoot(h, o, width, round, rounds, list, records, root)
  {
    hide Orderer.Valid, IsRoundOrder, IsWindow, RootOver, Rounds.Round;
    var start := if round < rounds then 0 else round - rounds;
    list := [];
    var r := start;
    OrderedNone(o, start);
    while r <= round
      invariant start <= r <= round + 1 && AllOrdered(o, list)
      invariant IsWindow(o.received, o.stamps, start, r, list)
    {
      var order := o.ConsensusOrder(r, enumeration);
      OrderedRound(o, r, order);
      WindowExtends(o.received, o.stamps, start, r, list, order);
      r, list := r + 1, list + order;
    }
    records := [];
    var i := 0;
    while i < |list|
      invariant 0 <= i <= |list| && |records| == i
      invariant forall j :: 0 <= j < i ==> records[j] == RecordOf(o, list[j])
    {
      var e := list[i];
      assert Ordered(o, e);
      var rec := o.graph.events[e];
      records := records + [WindowRecord(BigEndian(e.digest, 32), Word(rec.seqNo), Word(births[e]),
                                         Some(Word(o.received[e])), Some(Word(o.stamps[e])), Words(rec.row))];
      i := i + 1;
    }
    root := RootOfRecords(h, records, width);
  }

  lemma OrderedNone(o: Orderer, from: nat)
    ensures AllOrdered(o, []) && IsWindow(o.received, o.stamps, from, from, [])
  {
  }

  lemma OrderedRound(o: Orderer, r: nat, order: seq<Event>)
    requires o.Valid() && IsRoundOrder(o.received, o.stamps, r, order)
    ensures AllOrdered(o, order)
  {
    hide Hashgraph.Valid;
    forall i | 0 <= i < |order| ensures Ordered(o, order[i]) { assert order[i] in Elements(order); }
  }

  /** Two nodes that agree on the finalized rounds have one window, whatever else each has stored. */
  lemma {:induction false} SameWindow(
    received: map<Event, nat>, stamps: map<Event, nat>, received': map<Event, nat>, stamps': map<Event, nat>,
    n: nat, from: nat, upTo: nat, list: seq<Event>, list': seq<Event>)
    requires upTo <= n + 1 && Keeps(received, stamps, received', stamps', n) && DigestsDiffer(received'.Keys)
    requires IsWindow(received, stamps, from, upTo, list) && IsWindow(received', stamps', from, upTo, list')
    ensures list == list'
    decreases upTo
  {
    hide IsRoundOrder, Keeps, DigestsDiffer;
    if from < upTo {
      var k :| 0 <= k <= |list| && IsWindowSplit(received, stamps, from, upTo, list, k);
      var k' :| 0 <= k' <= |list'| && IsWindowSplit(received', stamps', from, upTo, list', k');
      SameWindow(received, stamps, received', stamps', n, from, upTo - 1, list[..k], list'[..k']);
      KeptRoundOrder(received, stamps, received', stamps', n, upTo - 1, list[k..]);
      RoundOrderUnique(received', stamps', upTo - 1, list[k..], list'[k'..]);
      assert list == list[..k] + list[k..] && list' == list'[..k'] + list'[k'..];
    }
  }

  /** A stored event's sequence number and row are the same on every node with the same roster. */
  lemma SameStored(g: Hashgraph, g': Hashgraph, e: Event)
    requires g.Valid() && g'.Valid() && g.memberIndex == g'.memberIndex && e in g.events && e in g'.events
    ensures g.events[e] == g'.events[e]
  {
    assert g.RecordOk(e) && g'.RecordOk(e);
    var index, a, b := g.memberIndex, g.events[e].row, g'.events[e].row;
    forall i | 0 <= i < |a| ensures a[i] == b[i] {
      var m := SlotOwner(index, i);
    }
    assert a == b;
  }

  /** Every row slot belongs to a member. */
  lemma SlotOwner(index: map<NodeId, nat>, i: nat) returns (m: NodeId)
    requires forall m :: m in index ==> index[m] < |index|
    requires forall m, k :: m in index && k in index && index[m] == index[k] ==> m == k
    requires i < |index|
    ensures m in index && index[m] == i
  {
    var slots := set m | m in index :: index[m];
    SlotCount(index, index.Keys, slots);
    if i !in slots { SubsetCardinality(slots, Below(|index|) - {i}); }
    m :| m in index && index[m] == i;
  }

  lemma {:induction false} SlotCount(index: map<NodeId, nat>, ms: set<NodeId>, slots: set<nat>)
    requires ms <= index.Keys && slots == set m | m in ms :: index[m]
    requires forall m, k :: m in index && k in index && index[m] == index[k] ==> m == k
    ensures |slots| == |ms|
  {
    if ms != {} {
      var m :| m in ms;
      SlotCount(index, ms - {m}, set k | k in ms - {m} :: index[k]);
      assert slots == (set k | k in ms - {m} :: index[k]) + {index[m]};
    }
  }

  ghost function Below(n: nat): (s: set<nat>)
    ensures |s| == n && forall j :: j in s <==> 0 <= j < n
  {
    if n == 0 then {} else {n - 1} + Below(n - 1)
  }

  lemma SameRecord(o: Orderer, p: Orderer, e: Event, n: nat)
    requires o.Valid() && p.Valid() && o.graph.memberIndex == p.graph.memberIndex
    requires Keeps(o.received, o.stamps, p.received, p.stamps, n) && Ordered(o, e) && Ordered(p, e)
    ensures RecordOf(o, e) == RecordOf(p, e)
  {
    hide Hashgraph.Valid, PlacedIn, StampedIn, Rounds.Round, BigEndian;
    SameStored(o.graph, p.graph, e);
  }

  /**
    The signed window is a function of decided history: two nodes with the same roster that finalized
    the same famous witnesses up to `round`, one perhaps further along, compute the same window and the
    same root over it, whatever pending events each has stored and however each store enumerates.
  */
  lemma WindowRootsAgree(h: HashFn, o: Orderer, p: Orderer, width: nat, round: nat, rounds: nat,
                         list: seq<Event>, records: seq<WindowRecord>, root: Option<Hash>,
                         list': seq<Event>, records': seq<WindowRecord>, root': Option<Hash>)
    requires o.Valid() && p.Valid() && o.graph.memberIndex == p.graph.memberIndex
    requires SameFamous(o.history, p.history)
    requires DigestsDiffer(p.graph.events.Keys) && round < o.nextRound
    requires IsWindowRoot(h, o, width, round, rounds, list, records, root)
    requires IsWindowRoot(h, p, width, round, rounds, list', records', root')
    ensures list == list' && records == records' && root == root'
  {
    hide Hashgraph.Valid, PlacedIn, StampedIn, Keeps, IsWindow, RootOver, RecordOf, LogsExtend;
    NodesAgreeOnOrder(o, p);
    assert DigestsDiffer(p.received.Keys) by { FewerDigests(p.received.Keys, p.graph.events.Keys); }
    SameWindow(o.received, o.stamps, p.received, p.stamps, |o.history|, WindowStart(round, rounds), round + 1,
               list, list');
    forall i | 0 <= i < |list| ensures records[i] == records'[i] {
      assert Ordered(o, list[i]) && Ordered(p, list'[i]);
      SameRecord(o, p, list[i], |o.history|);
    }
  }

  lemma FewerDigests(few: set<Event>, many: set<Event>)
    requires few <= many && DigestsDiffer(many)
    ensures DigestsDiffer(few)
  {
  }
}
