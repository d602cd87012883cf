/**
  The sparse Merkle tree over the key-value state. Paths are the 256 bits of a key's hash; the module
  Paths relates them to the byte operations.
*/
module SparseTree {
  import opened Prelude
  import opened Crypto
  import opened Codec
  import opened Paths

  function Empty(h: HashFn): Hash { h([0x00]) }

  function LeafPreimage(key: Bytes, value: Bytes): Bytes { [0x00] + (PutField(key) + PutField(value)) }

  function Leaf(h: HashFn, key: Bytes, value: Bytes): Hash { h(LeafPreimage(key, value)) }

  function InternalPreimage(left: Hash, right: Hash): Bytes { [0x02] + (left + right) }

  function SingletonPreimage(child: Hash): Bytes { [0x01] + child }

  /** Combines two children; with exactly one of them empty, the side of the other is not recorded. */
  function Combine(h: HashFn, left: Hash, right: Hash): Hash {
    if left == Empty(h) && right == Empty(h) then Empty(h)
    else if left == Empty(h) then h(SingletonPreimage(right))
    else if right == Empty(h) then h(SingletonPreimage(left))
    else h(InternalPreimage(left, right))
  }

  /** Orders a node and its sibling by the path bit of the node. */
  function Fold(h: HashFn, onRight: bool, current: Hash, sibling: Hash): Hash {
    if onRight then Combine(h, sibling, current) else Combine(h, current, sibling)
  }

  // ---------------------------------------------------------------- reference definition

  /** The hash of the subtree below `prefix`, from the leaves alone. */
  ghost function Subtree(h: HashFn, leaves: map<Path, Hash>, prefix: seq<bool>): Hash
    requires |prefix| <= DEPTH
    decreases DEPTH - |prefix|
  {
    if |prefix| == DEPTH then (if prefix in leaves then leaves[prefix] else Empty(h))
    else Combine(h, Subtree(h, leaves, prefix + [false]), Subtree(h, leaves, prefix + [true]))
  }

  /** Leaves that differ at `path` alone give equal subtrees everywhere off that path. */
  lemma {:induction false} SubtreeFrame(h: HashFn, leaves: map<Path, Hash>, leaves': map<Path, Hash>, path: Path,
                                        prefix: seq<bool>)
    requires |prefix| <= DEPTH && !(prefix <= path)
    requires forall p: Path :: p != path ==>
      (p in leaves <==> p in leaves') && (p in leaves ==> leaves[p] == leaves'[p])
    ensures Subtree(h, leaves, prefix) == Subtree(h, leaves', prefix)
    decreases DEPTH - |prefix|
  {
    hide Combine, Empty;
    if |prefix| < DEPTH {
      assert !(prefix + [false] <= path) by { OffPath(prefix, false, path); }
      assert !(prefix + [true] <= path) by { OffPath(prefix, true, path); }
      SubtreeFrame(h, leaves, leaves', path, prefix + [false]);
      SubtreeFrame(h, leaves, leaves', path, prefix + [true]);
    }
  }

  lemma OffPath(prefix: seq<bool>, b: bool, path: Path)
    ensures prefix + [b] <= path ==> prefix <= path
  {
    if prefix + [b] <= path {
      assert (prefix + [b])[..|prefix|] == prefix;
      assert path[..|prefix|] == prefix;
    }
  }

  /** One step up the path: a subtree is the fold of the child on the path with its sibling. */
  lemma SubtreeStep(h: HashFn, leaves: map<Path, Hash>, path: Path, depth: nat)
    requires depth < DEPTH
    ensures Subtree(h, leaves, path[..depth]) ==
      Fold(h, path[depth], Subtree(h, leaves, path[..depth + 1]), Subtree(h, leaves, Flip(path, depth)[..depth + 1]))
  {
    hide Combine;
    assert path[..depth + 1] == path[..depth] + [path[depth]];
    assert Flip(path, depth)[..depth + 1] == path[..depth] + [!path[depth]];
  }

  // ---------------------------------------------------------------- the stored nodes

  type Nodes = map<(nat, Path), Hash>

  /** The branch at `(depth, x)` is stored exactly when it is a canonical, non-empty one, with its true hash. */
  ghost predicate NodeOk(h: HashFn, leaves: map<Path, Hash>, nodes: Nodes, depth: nat, x: Path) {
    if depth < DEPTH && Mask(x, depth) == x && Subtree(h, leaves, x[..depth]) != Empty(h)
    then (depth, x) in nodes && nodes[(depth, x)] == Subtree(h, leaves, x[..depth])
    else (depth, x) !in nodes
  }

  /** All branches are right, except possibly those of `path` above `depth`. */
  ghost predicate NodesOk(h: HashFn, leaves: map<Path, Hash>, nodes: Nodes, path: Path, depth: nat) {
    forall d: nat, x: Path {:trigger NodeOk(h, leaves, nodes, d, x)} ::
      !(d < depth && x == Mask(path, d)) ==> NodeOk(h, leaves, nodes, d, x)
  }

  /** What every tree reached from the empty one satisfies. */
  ghost predicate TreeOk(h: HashFn, leaves: map<Path, Hash>, nodes: Nodes, root: Hash) {
    && (forall d: nat, x: Path {:trigger NodeOk(h, leaves, nodes, d, x)} :: NodeOk(h, leaves, nodes, d, x))
    && root == Subtree(h, leaves, [])
  }

  /** The leaves determine the stored nodes and the root: two histories ending in the same leaves end in equal trees. */
  lemma TreeUnique(h: HashFn, leaves: map<Path, Hash>, nodes: Nodes, root: Hash, nodes': Nodes, root': Hash)
    requires TreeOk(h, leaves, nodes, root) && TreeOk(h, leaves, nodes', root')
    ensures nodes == nodes' && root == root'
  {
    hide Subtree;
    forall d: nat, x: Path ensures (d, x) in nodes <==> (d, x) in nodes' {
      assert NodeOk(h, leaves, nodes, d, x) && NodeOk(h, leaves, nodes', d, x);
    }
    forall d: nat, x: Path | (d, x) in nodes ensures (d, x) in nodes' && nodes[(d, x)] == nodes'[(d, x)] {
      assert NodeOk(h, leaves, nodes, d, x) && NodeOk(h, leaves, nodes', d, x);
    }
    assert nodes.Keys == nodes'.Keys by {
      forall k | k in nodes.Keys ensures k in nodes'.Keys { assert (k.0, k.1) in nodes; }
      forall k | k in nodes'.Keys ensures k in nodes.Keys { assert (k.0, k.1) in nodes'; }
    }
    forall k | k in nodes ensures nodes[k] == nodes'[k] { assert (k.0, k.1) in nodes; }
  }

  /** Deleting a freshly inserted leaf restores every stored branch and the root. */
  lemma DeleteUndoesInsert(h: HashFn, leaves: map<Path, Hash>, nodes: Nodes, root: Hash, path: Path, leaf: Hash,
                           nodes': Nodes, root': Hash)
    requires TreeOk(h, leaves, nodes, root) && path !in leaves
    requires TreeOk(h, leaves[path := leaf] - {path}, nodes', root')
    ensures nodes' == nodes && root' == root
  {
    hide TreeOk;
    assert leaves[path := leaf] - {path} == leaves;
    TreeUnique(h, leaves, nodes, root, nodes', root');
  }

  lemma MaskFacts(path: Path, depth: nat)
    requires depth < DEPTH
    ensures Mask(Mask(path, depth), depth) == Mask(path, depth) && Mask(path, depth)[..depth] == path[..depth]
  {
  }

  /** Recomputing only the branches above a changed leaf is enough to start with. */
  lemma OffPathNodesOk(h: HashFn, leaves: map<Path, Hash>, leaves': map<Path, Hash>, nodes: Nodes, root: Hash,
                       path: Path)
    requires TreeOk(h, leaves, nodes, root)
    requires forall p: Path :: p != path ==>
      (p in leaves <==> p in leaves') && (p in leaves ==> leaves[p] == leaves'[p])
    ensures NodesOk(h, leaves', nodes, path, DEPTH)
  {
    hide Subtree;
    forall d: nat, x: Path | !(d < DEPTH && x == Mask(path, d)) ensures NodeOk(h, leaves', nodes, d, x) {
      assert NodeOk(h, leaves, nodes, d, x);
      if d < DEPTH && Mask(x, d) == x {
        assert x[..d] <= path <==> x[..d] == path[..d];
        assert x[..d] == path[..d] ==> Mask(x, d) == Mask(path, d);
        SubtreeFrame(h, leaves, leaves', path, x[..d]);
      }
    }
  }

  lemma BranchSet(h: HashFn, leaves: map<Path, Hash>, nodes: Nodes, nodes': Nodes, path: Path, depth: nat, hash: Hash)
    requires depth < DEPTH && NodesOk(h, leaves, nodes, path, depth + 1) && hash == Subtree(h, leaves, path[..depth])
    requires nodes' ==
      if hash == Empty(h) then nodes - {(depth, Mask(path, depth))} else nodes[(depth, Mask(path, depth)) := hash]
    ensures NodesOk(h, leaves, nodes', path, depth)
  {
    hide Subtree, Empty, Mask;
    MaskFacts(path, depth);
    forall d: nat, x: Path | !(d < depth && x == Mask(path, d)) ensures NodeOk(h, leaves, nodes', d, x) {
      if (d, x) != (depth, Mask(path, depth)) { assert NodeOk(h, leaves, nodes, d, x); }
    }
  }

  function PathOf(h: HashFn, key: Bytes): Path { Bits(h(key)) }

  class SparseMerkleTree {
    const h: HashFn
    var leaves: map<Path, Hash>
    var nodes: Nodes
    var root: Hash

    ghost predicate Valid()
      reads this
    {
      TreeOk(h, leaves, nodes, root)
    }

    constructor (h: HashFn)
      ensures Valid() && this.h == h && leaves == map[]
    {
      this.h, leaves, nodes, root := h, map[], map[], Empty(h);
      new;
      forall d: nat, x: Path ensures NodeOk(h, leaves, nodes, d, x) {
        if d < DEPTH { EmptySubtree(h, x[..d]); }
      }
      EmptySubtree(h, []);
    }

    function SubtreeHash(depth: nat, path: Path): Hash
      reads this
    {
      if depth == DEPTH then (if path in leaves then leaves[path] else Empty(h))
      else if (depth, Mask(path, depth)) in nodes then nodes[(depth, Mask(path, depth))]
      else Empty(h)
    }

    lemma SubtreeHashOk(depth: nat, path: Path, q: Path, above: nat)
      requires above <= depth <= DEPTH && NodesOk(h, leaves, nodes, path, above)
      ensures SubtreeHash(depth, q) == Subtree(h, leaves, q[..depth])
    {
      hide Mask;
      if depth == DEPTH {
        assert q[..depth] == q;
      } else {
        MaskFacts(q, depth);
        assert NodeOk(h, leaves, nodes, depth, Mask(q, depth));
      }
    }

    method SetBranch(depth: nat, path: Path, hash: Hash)
      modifies `nodes
      ensures nodes == if hash == Empty(h) then old(nodes) - {(depth, path)} else old(nodes)[(depth, path) := hash]
    {
      if hash == Empty(h) { nodes := nodes - {(depth, path)}; } else { nodes := nodes[(depth, path) := hash]; }
    }

    /** The loop shared by insertion and deletion: rehashes the branches of `path`, deepest first. */
    method Rehash(path: Path, leaf: Hash)
      requires NodesOk(h, leaves, nodes, path, DEPTH) && leaf == Subtree(h, leaves, path)
      modifies `nodes, `root
      ensures Valid()
    {
      hide Subtree, Empty, Mask, Flip, Fold;
      var current := leaf;
      var depth := DEPTH;
      assert path[..DEPTH] == path;
      while depth > 0
        invariant 0 <= depth <= DEPTH
        invariant current == Subtree(h, leaves, path[..depth])
        invariant NodesOk(h, leaves, nodes, path, depth)
      {
        depth := depth - 1;
        var sibling := SubtreeHash(depth + 1, Flip(path, depth));
        SubtreeHashOk(depth + 1, path, Flip(path, depth), depth + 1);
        SubtreeStep(h, leaves, path, depth);
        current := Fold(h, path[depth], current, sibling);
        ghost var before := nodes;
        SetBranch(depth, Mask(path, depth), current);
        BranchSet(h, leaves, before, nodes, path, depth, current);
      }
      root := current;
      assert path[..0] == [];
    }

    method Insert(key: Bytes, value: Bytes)
      requires Valid()
      modifies this
      ensures Valid() && leaves == old(leaves)[PathOf(h, key) := Leaf(h, key, value)]
    {
      var path, leaf := PathOf(h, key), Leaf(h, key, value);
      OffPathNodesOk(h, leaves, leaves[path := leaf], nodes, root, path);
      leaves := leaves[path := leaf];
      Rehash(path, leaf);
    }

    method Delete(key: Bytes) returns (removed: bool)
      requires Valid()
      modifies this
      ensures Valid() && removed == (PathOf(h, key) in old(leaves))
      ensures leaves == old(leaves) - {PathOf(h, key)}
      ensures !removed ==> nodes == old(nodes) && root == old(root)
    {
      var path := PathOf(h, key);
      if path !in leaves { return false; }
      OffPathNodesOk(h, leaves, leaves - {path}, nodes, root, path);
      leaves := leaves - {path};
      Rehash(path, Empty(h));
      return true;
    }

    /** The siblings of the key's path, deepest first. */
    method ProofSiblings(key: Bytes) returns (r: Option<seq<Hash>>)
      requires Valid()
      ensures r.Some? <==> PathOf(h, key) in leaves
      ensures r.Some? ==> r.value == Siblings(h, leaves, PathOf(h, key), DEPTH)
    {
      hide Subtree, Flip, Bits;
      var path := PathOf(h, key);
      if path !in leaves { return None; }
      var out: seq<Hash> := [];
      var depth := DEPTH;
      while depth > 0
        invariant 0 <= depth <= DEPTH
        invariant Siblings(h, leaves, path, DEPTH) == out + Siblings(h, leaves, path, depth)
      {
        depth := depth - 1;
        var sibling := SubtreeHash(depth + 1, Flip(path, depth));
        assert NodesOk(h, leaves, nodes, path, 0);
        SubtreeHashOk(depth + 1, path, Flip(path, depth), 0);
        out := out + [sibling];
      }
      return Some(out);
    }
  }

  /** The true sibling hashes along `path` from `depth` up to the root. */
  ghost function Siblings(h: HashFn, leaves: map<Path, Hash>, path: Path, depth: nat): seq<Hash>
    requires depth <= DEPTH
  {
    if depth == 0 then []
    else [Subtree(h, leaves, Flip(path, depth - 1)[..depth])] + Siblings(h, leaves, path, depth - 1)
  }

  lemma {:induction false} EmptySubtree(h: HashFn, prefix: seq<bool>)
    requires |prefix| <= DEPTH
    ensures Subtree(h, map[], prefix) == Empty(h)
    decreases DEPTH - |prefix|
  {
    if |prefix| < DEPTH {
      EmptySubtree(h, prefix + [false]);
      EmptySubtree(h, prefix + [true]);
    }
  }

  // ---------------------------------------------------------------- proofs

  datatype MerkleProof = MerkleProof(key: Bytes, value: Bytes, siblings: seq<Hash>)

  /** Folds a node at `depth` with its siblings, deepest first, up to the root. */
  function FoldUp(h: HashFn, path: Path, depth: nat, current: Hash, siblings: seq<Hash>): Hash
    requires |siblings| == depth <= DEPTH
  {
    if depth == 0 then current
    else FoldUp(h, path, depth - 1, Fold(h, path[depth - 1], current, siblings[0]), siblings[1..])
  }

  ghost predicate Verifies(h: HashFn, p: MerkleProof, root: Hash) {
    |p.siblings| == DEPTH && FoldUp(h, PathOf(h, p.key), DEPTH, Leaf(h, p.key, p.value), p.siblings) == root
  }

  method Verify(h: HashFn, p: MerkleProof, root: Hash) returns (ok: bool)
    ensures ok == Verifies(h, p, root)
  {
    hide Fold, Bits;
    if |p.siblings| != DEPTH { return false; }
    var path := PathOf(h, p.key);
    var current := Leaf(h, p.key, p.value);
    var depth := DEPTH;
    assert p.siblings[0..] == p.siblings;
    while depth > 0
      invariant 0 <= depth <= DEPTH
      invariant FoldUp(h, path, DEPTH, Leaf(h, p.key, p.value), p.siblings)
             == FoldUp(h, path, depth, current, p.siblings[DEPTH - depth..])
    {
      depth := depth - 1;
      var sibling := p.siblings[DEPTH - 1 - depth];
      assert p.siblings[DEPTH - 1 - depth..][1..] == p.siblings[DEPTH - depth..];
      current := Fold(h, path[depth], current, sibling);
    }
    return current == root;
  }

  lemma {:induction false} SiblingsFold(h: HashFn, leaves: map<Path, Hash>, path: Path, depth: nat)
    requires depth <= DEPTH
    ensures |Siblings(h, leaves, path, depth)| == depth
    ensures FoldUp(h, path, depth, Subtree(h, leaves, path[..depth]), Siblings(h, leaves, path, depth)) ==
      Subtree(h, leaves, [])
  {
    hide Subtree, Fold, Flip;
    if depth == 0 {
      assert path[..0] == [];
    } else {
      SiblingsFold(h, leaves, path, depth - 1);
      SubtreeStep(h, leaves, path, depth - 1);
      var siblings := Siblings(h, leaves, path, depth);
      assert siblings[1..] == Siblings(h, leaves, path, depth - 1);
    }
  }

  /** Completeness: the generated proof of a stored leaf verifies against the root. */
  lemma ProofComplete(h: HashFn, leaves: map<Path, Hash>, key: Bytes, value: Bytes)
    requires PathOf(h, key) in leaves && leaves[PathOf(h, key)] == Leaf(h, key, value)
    ensures Verifies(h, MerkleProof(key, value, Siblings(h, leaves, PathOf(h, key), DEPTH)), Subtree(h, leaves, []))
  {
    hide FoldUp, Siblings, Bits;
    var path := PathOf(h, key);
    SiblingsFold(h, leaves, path, DEPTH);
    assert path[..DEPTH] == path;
  }

  // ---------------------------------------------------------------- soundness

  ghost function CombinePreimages(h: HashFn, left: Hash, right: Hash): set<Bytes> {
    if left == Empty(h) && right == Empty(h) then {}
    else if left == Empty(h) then {SingletonPreimage(right)}
    else if right == Empty(h) then {SingletonPreimage(left)}
    else {InternalPreimage(left, right)}
  }

  /** Every branch preimage of the tree lies in `s`. */
  ghost predicate TreeHashed(h: HashFn, leaves: map<Path, Hash>, s: set<Bytes>) {
    forall p: seq<bool> {:trigger Subtree(h, leaves, p)} :: |p| < DEPTH ==>
      CombinePreimages(h, Subtree(h, leaves, p + [false]), Subtree(h, leaves, p + [true])) <= s
  }

  ghost function FoldPreimages(h: HashFn, onRight: bool, current: Hash, sibling: Hash): set<Bytes> {
    if onRight then CombinePreimages(h, sibling, current) else CombinePreimages(h, current, sibling)
  }

  /** Every preimage hashed when folding a proof. */
  ghost function ProofPreimages(h: HashFn, path: Path, depth: nat, current: Hash, siblings: seq<Hash>): set<Bytes>
    requires |siblings| == depth <= DEPTH
  {
    if depth == 0 then {}
    else
      FoldPreimages(h, path[depth - 1], current, siblings[0]) +
      ProofPreimages(h, path, depth - 1, Fold(h, path[depth - 1], current, siblings[0]), siblings[1..])
  }

  /** Equal parents have the same non-empty children, though a singleton's may sit on the other side. */
  lemma CombineBinds(h: HashFn, s: set<Bytes>, a: Hash, b: Hash, l: Hash, r: Hash)
    requires CollisionFree(h, s) && [0x00] in s && CombinePreimages(h, a, b) <= s && CombinePreimages(h, l, r) <= s
    requires Combine(h, a, b) == Combine(h, l, r)
    ensures a == Empty(h) || a == l || a == r
    ensures b == Empty(h) || b == l || b == r
  {
    PreimagesDiffer(a, b, l, r);
    if a != Empty(h) && b != Empty(h) && l != Empty(h) && r != Empty(h) {
      InternalInjective(a, b, l, r);
    } else {
      var x, y := if a == Empty(h) then b else a, if l == Empty(h) then r else l;
      if SingletonPreimage(x) == SingletonPreimage(y) { AppendInjective([0x01], x, [0x01], y); }
    }
  }

  lemma InternalInjective(a: Hash, b: Hash, l: Hash, r: Hash)
    ensures InternalPreimage(a, b) == InternalPreimage(l, r) ==> a == l && b == r
  {
    if InternalPreimage(a, b) == InternalPreimage(l, r) {
      AppendInjective([0x02], a + b, [0x02], l + r);
      AppendInjective(a, b, l, r);
    }
  }

  lemma PreimagesDiffer(a: Hash, b: Hash, l: Hash, r: Hash)
    ensures InternalPreimage(a, b)[0] == 0x02 && InternalPreimage(l, r)[0] == 0x02
    ensures forall x: Hash ::
      SingletonPreimage(x) != InternalPreimage(a, b) && SingletonPreimage(x) != InternalPreimage(l, r)
      && SingletonPreimage(x) != [0x00]
    ensures InternalPreimage(a, b) != [0x00] && InternalPreimage(l, r) != [0x00]
  {
    forall x: Hash ensures SingletonPreimage(x)[0] == 0x01 {}
  }

  lemma FoldNotEmpty(h: HashFn, s: set<Bytes>, onRight: bool, current: Hash, sibling: Hash)
    requires CollisionFree(h, s) && [0x00] in s && FoldPreimages(h, onRight, current, sibling) <= s
    requires current != Empty(h)
    ensures Fold(h, onRight, current, sibling) != Empty(h)
  {
    PreimagesDiffer(current, sibling, sibling, current);
  }

  /** A node that folds to the root is the hash of some true subtree at its depth, on whatever path. */
  lemma {:induction false} FoldSound(h: HashFn, s: set<Bytes>, leaves: map<Path, Hash>, path: Path, depth: nat,
                                     current: Hash, siblings: seq<Hash>)
    returns (p: seq<bool>)
    requires CollisionFree(h, s) && [0x00] in s && TreeHashed(h, leaves, s)
    requires |siblings| == depth <= DEPTH && ProofPreimages(h, path, depth, current, siblings) <= s
    requires current != Empty(h) && FoldUp(h, path, depth, current, siblings) == Subtree(h, leaves, [])
    ensures |p| == depth && Subtree(h, leaves, p) == current
  {
    hide CollisionFree, TreeHashed, CombinePreimages, Combine;
    if depth == 0 {
      p := [];
    } else {
      var onRight, next := path[depth - 1], Fold(h, path[depth - 1], current, siblings[0]);
      FoldNotEmpty(h, s, onRight, current, siblings[0]);
      var q := FoldSound(h, s, leaves, path, depth - 1, next, siblings[1..]);
      var l, r := Subtree(h, leaves, q + [false]), Subtree(h, leaves, q + [true]);
      BranchHashed(h, leaves, s, q);
      if onRight {
        CombineBinds(h, s, siblings[0], current, l, r);
      } else {
        CombineBinds(h, s, current, siblings[0], l, r);
      }
      p := if current == l then q + [false] else q + [true];
    }
  }

  lemma BranchHashed(h: HashFn, leaves: map<Path, Hash>, s: set<Bytes>, p: seq<bool>)
    requires TreeHashed(h, leaves, s) && |p| < DEPTH
    ensures CombinePreimages(h, Subtree(h, leaves, p + [false]), Subtree(h, leaves, p + [true])) <= s
  {
    var _ := Subtree(h, leaves, p);
  }

  /** The leaves of a tree are those of the pairs in `kv`. */
  ghost predicate LeavesFor(h: HashFn, kv: map<Bytes, Bytes>, leaves: map<Path, Hash>) {
    && (forall k :: k in kv ==> PathOf(h, k) in leaves && leaves[PathOf(h, k)] == Leaf(h, k, kv[k]))
    && (forall p: Path :: p in leaves ==> exists k :: k in kv && PathOf(h, k) == p)
  }

  ghost predicate Fits(b: Bytes) { |b| < 0x1_0000_0000 }

  lemma LeafPreimageInjective(k: Bytes, v: Bytes, k': Bytes, v': Bytes)
    requires Fits(k) && Fits(v) && Fits(k') && Fits(v') && LeafPreimage(k, v) == LeafPreimage(k', v')
    ensures k == k' && v == v'
  {
    hide PutField, TakeField;
    AppendInjective([0x00], PutField(k) + PutField(v), [0x00], PutField(k') + PutField(v'));
    TakeFieldAppended(k, PutField(v));
    TakeFieldAppended(k', PutField(v'));
    assert PutField(v) == PutField(v) + [] && PutField(v') == PutField(v') + [];
    TakeFieldAppended(v, []);
    TakeFieldAppended(v', []);
  }

  /** Soundness: a proof that verifies against the root of a tree names a pair that is in it. */
  lemma ProofSound(h: HashFn, s: set<Bytes>, kv: map<Bytes, Bytes>, leaves: map<Path, Hash>, p: MerkleProof)
    requires LeavesFor(h, kv, leaves) && Verifies(h, p, Subtree(h, leaves, []))
    requires forall k :: k in kv ==> Fits(k) && Fits(kv[k]) && LeafPreimage(k, kv[k]) in s
    requires Fits(p.key) && Fits(p.value) && LeafPreimage(p.key, p.value) in s
    requires CollisionFree(h, s) && [0x00] in s && TreeHashed(h, leaves, s)
    requires ProofPreimages(h, PathOf(h, p.key), DEPTH, Leaf(h, p.key, p.value), p.siblings) <= s
    ensures p.key in kv && kv[p.key] == p.value
  {
    hide TreeHashed, ProofPreimages, FoldUp, Bits, LeafPreimage;
    var leaf := Leaf(h, p.key, p.value);
    assert leaf != Empty(h) by { LeafNotEmpty(p.key, p.value); }
    var q := FoldSound(h, s, leaves, PathOf(h, p.key), DEPTH, leaf, p.siblings);
    assert q in leaves;
    var k :| k in kv && PathOf(h, k) == q;
    assert Leaf(h, k, kv[k]) == leaf;
    LeafPreimageInjective(k, kv[k], p.key, p.value);
  }

  lemma LeafNotEmpty(key: Bytes, value: Bytes)
    ensures LeafPreimage(key, value) != [0x00]
  {
    assert |LeafPreimage(key, value)| >= 9;
  }
}
