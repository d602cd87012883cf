/** The executor's state: the partition and the sparse Merkle tree that commits to it, always changed together. */
module StateStore {
  import opened Prelude
  import opened Crypto
  import opened Codec
  import opened Paths
  import opened SparseTree
  import opened Serialization

  /** Distinct keys have distinct paths unless two of them collide. */
  lemma PathsDiffer(h: HashFn, keys: set<Bytes>, a: Bytes, b: Bytes)
    requires CollisionFree(h, keys) && a in keys && b in keys && PathOf(h, a) == PathOf(h, b)
    ensures a == b
  {
    hide Bits;
    BitsInjective(h(a), h(b));
  }

  lemma LeavesAfterWrite(h: HashFn, kv: Kv, leaves: map<Path, Hash>, w: Write, keys: set<Bytes>)
    requires CollisionFree(h, keys) && kv.Keys <= keys && w.key in keys && LeavesFor(h, kv, leaves)
    ensures LeavesFor(h, ApplyWrite(kv, w),
      if w.value.Some? then leaves[PathOf(h, w.key) := Leaf(h, w.key, w.value.value)] else leaves - {PathOf(h, w.key)})
  {
    hide PathOf, Leaf, CollisionFree;
    var kv' := ApplyWrite(kv, w);
    var path := PathOf(h, w.key);
    var leaves' := if w.value.Some? then leaves[path := Leaf(h, w.key, w.value.value)] else leaves - {path};
    forall k | k in kv' ensures PathOf(h, k) in leaves' && leaves'[PathOf(h, k)] == Leaf(h, k, kv'[k]) {
      if PathOf(h, k) == path { PathsDiffer(h, keys, k, w.key); }
    }
    forall p: Path | p in leaves' ensures exists k :: k in kv' && PathOf(h, k) == p {
      if p == path && w.value.Some? {
        assert w.key in kv';
      } else {
        var k :| k in kv && PathOf(h, k) == p;
        assert k in kv';
      }
    }
  }

  /** The pairs determine the leaves. */
  lemma LeavesUnique(h: HashFn, kv: Kv, leaves: map<Path, Hash>, leaves': map<Path, Hash>)
    requires LeavesFor(h, kv, leaves) && LeavesFor(h, kv, leaves')
    ensures leaves == leaves'
  {
    hide PathOf, Leaf;
    forall p: Path | p in leaves ensures p in leaves' && leaves[p] == leaves'[p] {
      var k :| k in kv && PathOf(h, k) == p;
    }
    forall p: Path | p in leaves' ensures p in leaves {
      var k :| k in kv && PathOf(h, k) == p;
    }
  }

  class State {
    const h: HashFn
    var kv: Kv
    const tree: SparseMerkleTree
    /** Every key written or removed so far. */
    ghost var touched: set<Bytes>

    ghost predicate Valid()
      reads this, tree
    {
      && tree.Valid() && tree.h == h && kv.Keys <= touched
      && (CollisionFree(h, touched) ==> LeavesFor(h, kv, tree.leaves))
    }

    constructor (h: HashFn)
      ensures Valid() && this.h == h && kv == map[] && touched == {} && fresh(tree)
    {
      this.h, kv, touched := h, map[], {};
      tree := new SparseMerkleTree(h);
    }

    method Apply(w: Write)
      requires Valid()
      modifies this, tree
      ensures Valid() && kv == ApplyWrite(old(kv), w) && touched == old(touched) + {w.key}
    {
      hide PathOf, Leaf, CollisionFree, LeavesFor;
      ghost var leaves := tree.leaves;
      touched := touched + {w.key};
      if w.value.Some? {
        kv := kv[w.key := w.value.value];
        tree.Insert(w.key, w.value.value);
      } else {
        kv := kv - {w.key};
        var _ := tree.Delete(w.key);
      }
      if CollisionFree(h, touched) {
        FewerKeys(h, old(touched), touched);
        LeavesAfterWrite(h, old(kv), leaves, w, touched);
      }
    }

    /** A membership proof for a present key; it verifies against the live root. */
    method Proof(key: Bytes) returns (r: Option<MerkleProof>)
      requires Valid()
      ensures key !in kv ==> r.None?
      ensures CollisionFree(h, touched) && key in kv ==>
        r.Some? && r.value.key == key && r.value.value == kv[key] && Verifies(h, r.value, tree.root)
    {
      hide PathOf, Leaf, CollisionFree, Siblings, Verifies, Subtree;
      if key !in kv { return None; }
      var siblings := tree.ProofSiblings(key);
      if siblings.None? { return None; }
      if CollisionFree(h, touched) { ProofComplete(h, tree.leaves, key, kv[key]); }
      return Some(MerkleProof(key, kv[key], siblings.value));
    }

    /** The entries in partition order, serialized. */
    method ToBytes() returns (b: Bytes)
      ensures b == Serialize(Entries(kv))
    {
      hide PutEntry, Below, IsLeast, Serialized, Serialize, Entries;
      b := [];
      var left := kv.Keys;
      ghost var done: seq<Entry> := [];
      NothingSerialized(kv);
      while left != {}
        invariant left <= kv.Keys && Serialized(kv, left, done) && b == Serialize(done)
      {
        ghost var least := LeastExists(left);
        var k :| k in left && IsLeast(left, k);
        OneMoreSerialized(kv, left, done, k);
        b := b + PutEntry(Entry(k, kv[k]));
        done := done + [Entry(k, kv[k])];
        left := left - {k};
      }
      AllSerialized(kv, done);
    }
  }

  /** The entries `done` are those of `kv` outside `left`, ascending and below everything left. */
  ghost predicate Serialized(kv: Kv, left: set<Bytes>, done: seq<Entry>) {
    && Ascending(done)
    && Contents(done) == (map k | k in kv && k !in left :: kv[k])
    && forall i, k :: 0 <= i < |done| && k in left ==> Below(done[i].key, k)
  }

  lemma NothingSerialized(kv: Kv)
    ensures Serialized(kv, kv.Keys, []) && Serialize([]) == []
  {
  }

  lemma OneMoreSerialized(kv: Kv, left: set<Bytes>, done: seq<Entry>, k: Bytes)
    requires left <= kv.Keys && Serialized(kv, left, done) && k in left && IsLeast(left, k)
    ensures Serialized(kv, left - {k}, done + [Entry(k, kv[k])])
    ensures Serialize(done + [Entry(k, kv[k])]) == Serialize(done) + PutEntry(Entry(k, kv[k]))
  {
    hide Below, PutEntry;
    var longer := done + [Entry(k, kv[k])];
    assert longer[..|longer| - 1] == done;
    forall i, j | 0 <= i < |longer| && j in left - {k} ensures Below(longer[i].key, j) {
      if i == |done| { LeastIsBelow(left, k, j); }
    }
  }

  lemma AllSerialized(kv: Kv, done: seq<Entry>)
    requires Serialized(kv, {}, done)
    ensures done == Entries(kv)
  {
    hide Ascending, Below;
    assert Contents(done) == kv;
    EntriesUnique(done, Entries(kv));
  }

  lemma FewerKeys(h: HashFn, fewer: set<Bytes>, more: set<Bytes>)
    requires fewer <= more && CollisionFree(h, more)
    ensures CollisionFree(h, fewer)
  {
  }

  predicate IsLeast(keys: set<Bytes>, k: Bytes) {
    k in keys && forall j :: j in keys ==> j == k || Below(k, j)
  }

  lemma LeastIsBelow(keys: set<Bytes>, k: Bytes, j: Bytes)
    requires IsLeast(keys, k) && j in keys && j != k
    ensures Below(k, j)
  {
  }

  lemma {:induction false} LeastExists(keys: set<Bytes>) returns (least: Bytes)
    requires keys != {}
    ensures least in keys && IsLeast(keys, least)
  {
    hide Below;
    var k :| k in keys;
    if keys == {k} {
      least := k;
    } else {
      var t := LeastExists(keys - {k});
      BelowTotal(k, t);
      least := if Below(k, t) then k else t;
      forall j | j in keys ensures j == least || Below(least, j) {
        if j != k && j != t && least == k { BelowTransitive(k, t, j); }
      }
    }
  }

  // ---------------------------------------------------------------- reading a state back

  /** Restores a state from bytes; null when they are not canonical. */
  method FromBytes(h: HashFn, bytes: Bytes) returns (s: State?)
    ensures s == null <==> Parse(None, bytes).None?
    ensures s != null ==> fresh(s) && fresh(s.tree) && s.Valid() && s.h == h
    ensures s != null ==> s.kv == Contents(Parse(None, bytes).value) && s.touched == s.kv.Keys
  {
    hide TakeField, Below;
    var state := new State(h);
    var cursor, previous := bytes, None;
    ghost var read: seq<Entry> := [];
    PrependNothing(Parse(None, bytes), []);
    while cursor != []
      invariant fresh(state) && fresh(state.tree) && state.Valid() && state.h == h
      invariant state.kv == Contents(read) && state.touched == state.kv.Keys
      invariant Parse(None, bytes) == Prepend(read, Parse(previous, cursor))
      decreases |cursor|
    {
      var key := TakeField(cursor);
      if key.Err? { return null; }
      var value := TakeField(key.value.rest);
      if value.Err? { return null; }
      TakeShrinks(cursor);
      TakeShrinks(key.value.rest);
      if previous.Some? && !Below(previous.value, key.value.value) { return null; }
      ghost var e, rest := Entry(key.value.value, value.value.value), Parse(Some(key.value.value), value.value.rest);
      PrependMoves(read, e, rest);
      previous, cursor := Some(key.value.value), value.value.rest;
      state.Apply(Write(key.value.value, Some(value.value.value)));
      read := read + [e];
      assert read[..|read| - 1] + [e] == read;
    }
    PrependNothing(None, read);
    return state;
  }

  ghost function Prepend(read: seq<Entry>, rest: Option<seq<Entry>>): Option<seq<Entry>> {
    if rest.None? then None else Some(read + rest.value)
  }

  lemma PrependNothing(rest: Option<seq<Entry>>, read: seq<Entry>)
    ensures Prepend([], rest) == rest && Prepend(read, Some([])) == Some(read)
  {
    assert read + [] == read;
    if rest.Some? { assert [] + rest.value == rest.value; }
  }

  lemma PrependMoves(read: seq<Entry>, e: Entry, rest: Option<seq<Entry>>)
    ensures Prepend(read, Prepend([e], rest)) == Prepend(read + [e], rest)
  {
    if rest.Some? { assert read + ([e] + rest.value) == (read + [e]) + rest.value; }
  }

  /** The root a state restored from `bytes` would have, without building one. */
  method RootOfBytes(h: HashFn, bytes: Bytes) returns (root: Option<Hash>)
    ensures root.None? <==> Parse(None, bytes).None?
    ensures root.Some? ==> root.value == Subtree(h, LeavesAlong(h, Parse(None, bytes).value), [])
  {
    hide TakeField, Below, Subtree, PathOf, Leaf;
    var tree := new SparseMerkleTree(h);
    var cursor, previous := bytes, None;
    ghost var read: seq<Entry> := [];
    PrependNothing(Parse(None, bytes), []);
    while cursor != []
      invariant fresh(tree) && tree.Valid() && tree.h == h && tree.leaves == LeavesAlong(h, read)
      invariant Parse(None, bytes) == Prepend(read, Parse(previous, cursor))
      decreases |cursor|
    {
      var key := TakeField(cursor);
      if key.Err? { return None; }
      var value := TakeField(key.value.rest);
      if value.Err? { return None; }
      TakeShrinks(cursor);
      TakeShrinks(key.value.rest);
      if previous.Some? && !Below(previous.value, key.value.value) { return None; }
      ghost var e, rest := Entry(key.value.value, value.value.value), Parse(Some(key.value.value), value.value.rest);
      PrependMoves(read, e, rest);
      previous, cursor := Some(key.value.value), value.value.rest;
      tree.Insert(key.value.value, value.value.value);
      read := read + [e];
      assert read[..|read| - 1] + [e] == read;
    }
    PrependNothing(None, read);
    return Some(tree.root);
  }

  /** The leaves after inserting the entries one by one. */
  ghost function LeavesAlong(h: HashFn, es: seq<Entry>): map<Path, Hash> {
    if es == [] then map[]
    else
      var e := es[|es| - 1];
      LeavesAlong(h, es[..|es| - 1])[PathOf(h, e.key) := Leaf(h, e.key, e.value)]
  }

  lemma {:induction false} LeavesAlongFor(h: HashFn, es: seq<Entry>, keys: set<Bytes>)
    requires CollisionFree(h, keys) && Contents(es).Keys <= keys
    ensures LeavesFor(h, Contents(es), LeavesAlong(h, es))
  {
    hide PathOf, Leaf, CollisionFree;
    if es != [] {
      var front, e := es[..|es| - 1], es[|es| - 1];
      assert Contents(front).Keys <= Contents(es).Keys;
      LeavesAlongFor(h, front, keys);
      LeavesAfterWrite(h, Contents(front), LeavesAlong(h, front), Write(e.key, Some(e.value)), keys);
    }
  }

  ghost predicate KvFits(kv: Kv) {
    forall k :: k in kv ==> |k| < 0x1_0000_0000 && |kv[k]| < 0x1_0000_0000
  }

  lemma EntriesFit(kv: Kv)
    requires KvFits(kv)
    ensures forall e :: e in Entries(kv) ==> EntryFits(e)
  {
    hide Ascending, Contents;
    var es := Entries(kv);
    forall e | e in es ensures EntryFits(e) {
      var i :| 0 <= i < |es| && es[i] == e;
      EntryInContents(es, i);
    }
  }

  lemma {:induction false} EntryInContents(es: seq<Entry>, i: nat)
    requires Ascending(es) && i < |es|
    ensures es[i].key in Contents(es) && Contents(es)[es[i].key] == es[i].value
  {
    if i < |es| - 1 {
      FrontAscending(es);
      EntryInContents(es[..|es| - 1], i);
      BelowTotal(es[i].key, es[i].key);
    }
  }

  /** Serializing and reading back gives the same pairs. */
  lemma RoundTrip(kv: Kv)
    requires KvFits(kv)
    ensures Parse(None, Serialize(Entries(kv))) == Some(Entries(kv)) && Contents(Entries(kv)) == kv
  {
    EntriesFit(kv);
    ParseSerialized(None, Entries(kv));
  }

  /** Every accepted byte string is the serialization of the state it restores. */
  lemma OnlyCanonical(bytes: Bytes)
    requires Parse(None, bytes).Some?
    ensures Serialize(Entries(Contents(Parse(None, bytes).value))) == bytes
  {
    ParseCanonical(None, bytes);
    EntriesUnique(Parse(None, bytes).value, Entries(Contents(Parse(None, bytes).value)));
  }

  /** Whatever its history, a live state has the root its serialization commits to. */
  lemma LiveRoot(s: State)
    requires s.Valid() && CollisionFree(s.h, s.touched)
    ensures s.tree.root == Subtree(s.h, LeavesAlong(s.h, Entries(s.kv)), [])
  {
    hide CollisionFree, LeavesFor, Subtree;
    LeavesAlongFor(s.h, Entries(s.kv), s.touched);
    LeavesUnique(s.h, s.kv, s.tree.leaves, LeavesAlong(s.h, Entries(s.kv)));
  }

  /** Two histories that end in the same pairs end in equal trees, branch by branch. */
  lemma SamePairsSameTree(s: State, t: State)
    requires s.Valid() && t.Valid() && s.h == t.h && s.kv == t.kv && CollisionFree(s.h, s.touched + t.touched)
    ensures s.tree.leaves == t.tree.leaves && s.tree.nodes == t.tree.nodes && s.tree.root == t.tree.root
  {
    hide LeavesFor, Subtree, NodeOk;
    FewerKeys(s.h, s.touched, s.touched + t.touched);
    FewerKeys(s.h, t.touched, s.touched + t.touched);
    LeavesUnique(s.h, s.kv, s.tree.leaves, t.tree.leaves);
    TreeUnique(s.h, s.tree.leaves, s.tree.nodes, s.tree.root, t.tree.nodes, t.tree.root);
  }

  /**
    Saving a live state and reading it back: the root computed from the bytes alone is the live root,
    and the restored state has the same pairs and, branch by branch, the same tree.
  */
  method SaveAndRestore(s: State) returns (bytes: Bytes, root: Option<Hash>, t: State?)
    requires s.Valid() && KvFits(s.kv) && CollisionFree(s.h, s.touched)
    ensures bytes == Serialize(Entries(s.kv)) && root == Some(s.tree.root)
    ensures t != null && fresh(t) && t.Valid() && t.kv == s.kv
    ensures t.tree.leaves == s.tree.leaves && t.tree.nodes == s.tree.nodes && t.tree.root == s.tree.root
  {
    hide LeavesFor, Subtree, NodeOk, Parse, Serialize, Entries, CollisionFree, SparseMerkleTree.Valid;
    RoundTrip(s.kv);
    LiveRoot(s);
    bytes := s.ToBytes();
    root := RootOfBytes(s.h, bytes);
    t := FromBytes(s.h, bytes);
    assert s.touched + t.touched == s.touched;
    SamePairsSameTree(s, t);
  }
}
