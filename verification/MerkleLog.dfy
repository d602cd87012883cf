/** The append-only Merkle log of RFC 6962, sections 2.1, 2.1.1 and 2.1.2. */
module MerkleLog {
  import opened Prelude
  import opened Crypto

  function LeafHash(h: HashFn, data: Bytes): Hash { h([0x00] + data) }

  function NodePreimage(left: Hash, right: Hash): Bytes { [0x01] + left + right }

  function NodeHash(h: HashFn, left: Hash, right: Hash): Hash { h(NodePreimage(left, right)) }

  function EmptyRoot(h: HashFn): Hash { h([]) }

  // ---------------------------------------------------------------- the split

  ghost predicate IsPow2(k: nat) { exists e :: k == Pow2(e) }

  /** Doubles `k` for as long as it stays below `n`. */
  function DoubleBelow(k: nat, n: nat): (top: nat)
    requires 1 <= k < n
    ensures k <= top < n <= 2 * top
    decreases n - k
  {
    if 2 * k >= n then k else DoubleBelow(2 * k, n)
  }

  function SplitPoint(n: nat): (k: nat)
    requires n > 1
    ensures 1 <= k < n <= 2 * k
  {
    DoubleBelow(1, n)
  }

  lemma {:induction false} DoublesPow2(e: nat, n: nat)
    requires Pow2(e) < n
    ensures IsPow2(DoubleBelow(Pow2(e), n))
    decreases n - Pow2(e)
  {
    if 2 * Pow2(e) < n {
      assert Pow2(e + 1) == 2 * Pow2(e);
      DoublesPow2(e + 1, n);
    }
  }

  lemma {:induction false} Pow2Unique(d: nat, e: nat)
    requires Pow2(d) < 2 * Pow2(e) && Pow2(e) < 2 * Pow2(d)
    ensures d == e
  {
    if d != 0 && e != 0 { Pow2Unique(d - 1, e - 1); }
  }

  /** The split is the largest power of two strictly below `n`, and the only one at or above half of `n`. */
  lemma SplitIsLargestPow2(n: nat, k: nat)
    requires n > 1
    ensures IsPow2(k) && k < n <= 2 * k <==> k == SplitPoint(n)
  {
    assert Pow2(0) == 1;
    DoublesPow2(0, n);
    assert IsPow2(SplitPoint(n));
    if IsPow2(k) && k < n <= 2 * k {
      var d :| k == Pow2(d);
      var e :| SplitPoint(n) == Pow2(e);
      assert Pow2(d) < 2 * Pow2(e) && Pow2(e) < 2 * Pow2(d);
      Pow2Unique(d, e);
    }
  }

  /** Sizes between `k` and `2k` split where `n` splits. */
  lemma SameSplit(m: nat, n: nat)
    requires 1 < n && SplitPoint(n) < m <= n
    ensures m > 1 && SplitPoint(m) == SplitPoint(n)
  {
    SplitIsLargestPow2(n, SplitPoint(n));
    SplitIsLargestPow2(m, SplitPoint(n));
  }

  // ---------------------------------------------------------------- tree hash

  /** The tree hash over already hashed leaves. */
  function Mth(h: HashFn, leaves: seq<Hash>): Hash
    decreases |leaves|
  {
    if |leaves| == 0 then EmptyRoot(h)
    else if |leaves| == 1 then leaves[0]
    else
      var k := SplitPoint(|leaves|);
      NodeHash(h, Mth(h, leaves[..k]), Mth(h, leaves[k..]))
  }

  lemma MthSplits(h: HashFn, left: seq<Hash>, right: seq<Hash>)
    requires |left| + |right| > 1 && SplitPoint(|left| + |right|) == |left|
    ensures Mth(h, left + right) == NodeHash(h, Mth(h, left), Mth(h, right))
  {
    assert (left + right)[..|left|] == left && (left + right)[|left|..] == right;
  }

  /** The node preimages hashed to compute `Mth(h, leaves)`. */
  ghost function MthPreimages(h: HashFn, leaves: seq<Hash>): set<Bytes>
    decreases |leaves|
  {
    if |leaves| <= 1 then {}
    else
      var k := SplitPoint(|leaves|);
      {NodePreimage(Mth(h, leaves[..k]), Mth(h, leaves[k..]))} +
      MthPreimages(h, leaves[..k]) + MthPreimages(h, leaves[k..])
  }

  lemma MthStep(h: HashFn, leaves: seq<Hash>, k: nat)
    requires |leaves| > 1 && k == SplitPoint(|leaves|)
    ensures Mth(h, leaves) == NodeHash(h, Mth(h, leaves[..k]), Mth(h, leaves[k..]))
    ensures NodePreimage(Mth(h, leaves[..k]), Mth(h, leaves[k..])) in MthPreimages(h, leaves)
    ensures MthPreimages(h, leaves[..k]) <= MthPreimages(h, leaves)
    ensures MthPreimages(h, leaves[k..]) <= MthPreimages(h, leaves)
  {
  }

  lemma NodeInjective(h: HashFn, s: set<Bytes>, a: Hash, b: Hash, c: Hash, d: Hash)
    requires CollisionFree(h, s) && NodePreimage(a, b) in s && NodePreimage(c, d) in s
    requires NodeHash(h, a, b) == NodeHash(h, c, d)
    ensures a == c && b == d
  {
    assert [0x01] + a + b == [0x01] + c + d;
    AppendInjective([0x01] + a, b, [0x01] + c, d);
    AppendInjective([0x01], a, [0x01], c);
  }

  /** Lists of one size with one tree hash are equal. */
  lemma {:induction false} MthBinds(h: HashFn, s: set<Bytes>, a: seq<Hash>, b: seq<Hash>)
    requires CollisionFree(h, s) && MthPreimages(h, a) <= s && MthPreimages(h, b) <= s
    requires |a| == |b| && Mth(h, a) == Mth(h, b)
    ensures a == b
    decreases |a|
  {
    hide SplitPoint, NodeHash, NodePreimage, CollisionFree;
    if |a| > 1 {
      var k := SplitPoint(|a|);
      NodeInjective(h, s, Mth(h, a[..k]), Mth(h, a[k..]), Mth(h, b[..k]), Mth(h, b[k..]));
      MthBinds(h, s, a[..k], b[..k]);
      MthBinds(h, s, a[k..], b[k..]);
      assert a == a[..k] + a[k..] && b == b[..k] + b[k..];
    }
  }

  // ---------------------------------------------------------------- inclusion

  datatype InclusionProof = InclusionProof(leafIndex: nat, leafCount: nat, nodes: seq<Hash>)

  /** The audit path of leaf `m`, deepest sibling first. */
  function AuditPath(h: HashFn, m: nat, leaves: seq<Hash>): seq<Hash>
    decreases |leaves|
  {
    if |leaves| <= 1 then []
    else
      var k := SplitPoint(|leaves|);
      if m < k then AuditPath(h, m, leaves[..k]) + [Mth(h, leaves[k..])]
      else AuditPath(h, m - k, leaves[k..]) + [Mth(h, leaves[..k])]
  }

  /** Appends the audit path to `out`. */
  method InclusionPath(h: HashFn, m: nat, leaves: seq<Hash>, out: seq<Hash>) returns (out': seq<Hash>)
    ensures out' == out + AuditPath(h, m, leaves)
    decreases |leaves|
  {
    hide SplitPoint, Mth;
    if |leaves| <= 1 { return out; }
    var k := SplitPoint(|leaves|);
    if m < k {
      out' := InclusionPath(h, m, leaves[..k], out);
      out' := out' + [Mth(h, leaves[k..])];
    } else {
      out' := InclusionPath(h, m - k, leaves[k..], out);
      out' := out' + [Mth(h, leaves[..k])];
    }
  }

  method ProveInclusion(h: HashFn, leaves: seq<Hash>, index: nat) returns (p: Option<InclusionProof>)
    ensures p.Some? <==> index < |leaves|
    ensures p.Some? ==> p.value == InclusionProof(index, |leaves|, AuditPath(h, index, leaves))
  {
    if index >= |leaves| { return None; }
    var nodes := InclusionPath(h, index, leaves, []);
    return Some(InclusionProof(index, |leaves|, nodes));
  }

  /** A folded subtree and the proof nodes left over, unless the fold got stuck. */
  datatype Fold = Stuck | Folded(hash: Hash, rest: seq<Hash>)

  /** Combines a folded subtree with the next proof node, on the given side. */
  function WithSibling(h: HashFn, sub: Fold, onRight: bool): Fold {
    if sub.Stuck? || sub.rest == [] then Stuck
    else if onRight then Folded(NodeHash(h, sub.hash, sub.rest[0]), sub.rest[1..])
    else Folded(NodeHash(h, sub.rest[0], sub.hash), sub.rest[1..])
  }

  lemma SiblingTaken(h: HashFn, hash: Hash, next: Hash, rest: seq<Hash>)
    ensures WithSibling(h, Folded(hash, [next] + rest), true) == Folded(NodeHash(h, hash, next), rest)
    ensures WithSibling(h, Folded(hash, [next] + rest), false) == Folded(NodeHash(h, next, hash), rest)
  {
    assert ([next] + rest)[1..] == rest;
  }

  /** Folds `leaf` with proof nodes consumed front to back; yields the fold and the unconsumed tail. */
  function InclusionRec(h: HashFn, m: nat, n: nat, leaf: Hash, proof: seq<Hash>): Fold
    requires n >= 1
    decreases n
  {
    if n == 1 then (if m != 0 then Stuck else Folded(leaf, proof))
    else if m >= n then Stuck
    else
      var k := SplitPoint(n);
      if m < k then WithSibling(h, InclusionRec(h, m, k, leaf, proof), true)
      else WithSibling(h, InclusionRec(h, m - k, n - k, leaf, proof), false)
  }

  predicate VerifyInclusion(h: HashFn, leaf: Hash, p: InclusionProof, root: Hash) {
    && p.leafCount != 0 && p.leafIndex < p.leafCount
    && InclusionRec(h, p.leafIndex, p.leafCount, leaf, p.nodes) == Folded(root, [])
  }

  ghost function SiblingPreimage(sub: Fold, onRight: bool): set<Bytes> {
    if sub.Stuck? || sub.rest == [] then {}
    else if onRight then {NodePreimage(sub.hash, sub.rest[0])}
    else {NodePreimage(sub.rest[0], sub.hash)}
  }

  /** The node preimages hashed by `InclusionRec`. */
  ghost function InclusionPreimages(h: HashFn, m: nat, n: nat, leaf: Hash, proof: seq<Hash>): set<Bytes>
    requires n >= 1
    decreases n
  {
    if n == 1 || m >= n then {}
    else
      var k := SplitPoint(n);
      if m < k then InclusionPreimages(h, m, k, leaf, proof) + SiblingPreimage(InclusionRec(h, m, k, leaf, proof), true)
      else
        InclusionPreimages(h, m - k, n - k, leaf, proof) +
        SiblingPreimage(InclusionRec(h, m - k, n - k, leaf, proof), false)
  }

  /** One level of the recursions that walk down to leaf `m`. */
  lemma PathUnfolds(h: HashFn, m: nat, n: nat, k: nat, leaves: seq<Hash>, leaf: Hash, proof: seq<Hash>)
    requires m < n == |leaves| && n > 1 && k == SplitPoint(n)
    ensures m < k ==>
      && InclusionRec(h, m, n, leaf, proof) == WithSibling(h, InclusionRec(h, m, k, leaf, proof), true)
      && AuditPath(h, m, leaves) == AuditPath(h, m, leaves[..k]) + [Mth(h, leaves[k..])]
    ensures m >= k ==>
      && InclusionRec(h, m, n, leaf, proof) == WithSibling(h, InclusionRec(h, m - k, n - k, leaf, proof), false)
      && AuditPath(h, m, leaves) == AuditPath(h, m - k, leaves[k..]) + [Mth(h, leaves[..k])]
  {
    hide SplitPoint, Mth, WithSibling;
  }

  /** Completeness: the generated path folds back to the tree hash and is consumed exactly. */
  lemma {:induction false} AuditPathFolds(h: HashFn, m: nat, n: nat, leaves: seq<Hash>, path: seq<Hash>,
                                          rest: seq<Hash>)
    requires m < n == |leaves| && path == AuditPath(h, m, leaves) + rest
    ensures InclusionRec(h, m, n, leaves[m], path) == Folded(Mth(h, leaves), rest)
    decreases n
  {
    hide SplitPoint, NodeHash, WithSibling, InclusionRec, AuditPath, Mth;
    if n == 1 {
      LoneLeaf(h, leaves, path);
    } else {
      var k := SplitPoint(n);
      var l, r := Mth(h, leaves[..k]), Mth(h, leaves[k..]);
      MthStep(h, leaves, k);
      PathUnfolds(h, m, n, k, leaves, leaves[m], path);
      if m < k {
        AuditPathFolds(h, m, k, leaves[..k], path, [r] + rest);
        SiblingTaken(h, l, r, rest);
      } else {
        AuditPathFolds(h, m - k, n - k, leaves[k..], path, [l] + rest);
        SiblingTaken(h, r, l, rest);
      }
    }
  }

  lemma LoneLeaf(h: HashFn, leaves: seq<Hash>, proof: seq<Hash>)
    requires |leaves| == 1
    ensures InclusionRec(h, 0, 1, leaves[0], proof) == Folded(leaves[0], proof)
    ensures Mth(h, leaves) == leaves[0] && AuditPath(h, 0, leaves) == []
  {
  }

  lemma InclusionComplete(h: HashFn, leaves: seq<Hash>, index: nat)
    requires index < |leaves|
    ensures var proof := InclusionProof(index, |leaves|, AuditPath(h, index, leaves));
      VerifyInclusion(h, leaves[index], proof, Mth(h, leaves))
  {
    AuditPathFolds(h, index, |leaves|, leaves, AuditPath(h, index, leaves), []);
  }

  lemma InclusionStep(h: HashFn, m: nat, n: nat, k: nat, leaf: Hash, proof: seq<Hash>)
    requires n > 1 && k == SplitPoint(n) && InclusionRec(h, m, n, leaf, proof).Folded?
    ensures m < n
    ensures m < k ==>
      var sub := InclusionRec(h, m, k, leaf, proof);
      && sub.Folded? && sub.rest != []
      && InclusionRec(h, m, n, leaf, proof) == Folded(NodeHash(h, sub.hash, sub.rest[0]), sub.rest[1..])
      && NodePreimage(sub.hash, sub.rest[0]) in InclusionPreimages(h, m, n, leaf, proof)
      && InclusionPreimages(h, m, k, leaf, proof) <= InclusionPreimages(h, m, n, leaf, proof)
    ensures m >= k ==>
      var sub := InclusionRec(h, m - k, n - k, leaf, proof);
      && sub.Folded? && sub.rest != []
      && InclusionRec(h, m, n, leaf, proof) == Folded(NodeHash(h, sub.rest[0], sub.hash), sub.rest[1..])
      && NodePreimage(sub.rest[0], sub.hash) in InclusionPreimages(h, m, n, leaf, proof)
      && InclusionPreimages(h, m - k, n - k, leaf, proof) <= InclusionPreimages(h, m, n, leaf, proof)
  {
    hide SplitPoint, NodeHash, NodePreimage;
  }

  /** Soundness: an accepted path proves that the leaf stands at the claimed index. */
  lemma {:induction false} InclusionSound(h: HashFn, s: set<Bytes>, m: nat, n: nat, leaves: seq<Hash>, leaf: Hash,
                                          proof: seq<Hash>, rest: seq<Hash>)
    requires CollisionFree(h, s) && n == |leaves| >= 1 && MthPreimages(h, leaves) <= s
    requires InclusionPreimages(h, m, n, leaf, proof) <= s
    requires InclusionRec(h, m, n, leaf, proof) == Folded(Mth(h, leaves), rest)
    ensures m < n && leaves[m] == leaf
    decreases n
  {
    hide SplitPoint, NodeHash, NodePreimage, CollisionFree, MthPreimages, InclusionPreimages;
    if n > 1 {
      var k := SplitPoint(n);
      var l, r := Mth(h, leaves[..k]), Mth(h, leaves[k..]);
      MthStep(h, leaves, k);
      InclusionStep(h, m, n, k, leaf, proof);
      if m < k {
        var sub := InclusionRec(h, m, k, leaf, proof);
        NodeInjective(h, s, sub.hash, sub.rest[0], l, r);
        InclusionSound(h, s, m, k, leaves[..k], leaf, proof, sub.rest);
      } else {
        var sub := InclusionRec(h, m - k, n - k, leaf, proof);
        NodeInjective(h, s, sub.rest[0], sub.hash, l, r);
        InclusionSound(h, s, m - k, n - k, leaves[k..], leaf, proof, sub.rest);
      }
    }
  }

  // ---------------------------------------------------------------- consistency

  datatype ConsistencyProof = ConsistencyProof(oldLeafCount: nat, newLeafCount: nat, nodes: seq<Hash>)

  /** The subproof that the first `m` leaves are a prefix; `b` when the old root is known to the verifier. */
  function SubProof(h: HashFn, m: nat, leaves: seq<Hash>, b: bool): seq<Hash>
    requires 1 <= m <= |leaves|
    decreases |leaves|
  {
    if m == |leaves| then (if b then [] else [Mth(h, leaves)])
    else
      var k := SplitPoint(|leaves|);
      if m <= k then SubProof(h, m, leaves[..k], b) + [Mth(h, leaves[k..])]
      else SubProof(h, m - k, leaves[k..], false) + [Mth(h, leaves[..k])]
  }

  /** Appends the subproof to `out`. */
  method ConsistencySubproof(h: HashFn, m: nat, leaves: seq<Hash>, b: bool, out: seq<Hash>) returns (out': seq<Hash>)
    requires 1 <= m <= |leaves|
    ensures out' == out + SubProof(h, m, leaves, b)
    decreases |leaves|
  {
    if m == |leaves| {
      if b { return out; }
      return out + [Mth(h, leaves)];
    }
    var k := SplitPoint(|leaves|);
    if m <= k {
      out' := ConsistencySubproof(h, m, leaves[..k], b, out);
      out' := out' + [Mth(h, leaves[k..])];
    } else {
      out' := ConsistencySubproof(h, m - k, leaves[k..], false, out);
      out' := out' + [Mth(h, leaves[..k])];
    }
  }

  function ConsistencyNodes(h: HashFn, leaves: seq<Hash>, oldCount: nat): seq<Hash>
    requires oldCount <= |leaves|
  {
    if 0 < oldCount < |leaves| then SubProof(h, oldCount, leaves, true) else []
  }

  method ProveConsistency(h: HashFn, leaves: seq<Hash>, oldCount: nat) returns (p: Option<ConsistencyProof>)
    ensures p.Some? <==> oldCount <= |leaves|
    ensures p.Some? ==> p.value == ConsistencyProof(oldCount, |leaves|, ConsistencyNodes(h, leaves, oldCount))
  {
    if oldCount > |leaves| { return None; }
    var nodes := [];
    if oldCount > 0 && oldCount < |leaves| { nodes := ConsistencySubproof(h, oldCount, leaves, true, nodes); }
    return Some(ConsistencyProof(oldCount, |leaves|, nodes));
  }

  /** The old-side and new-side hashes of a subtree, and the proof nodes left over. */
  datatype Rebuilt = Rebuilt(oldSide: Hash, newSide: Hash, rest: seq<Hash>)

  /** Combines a subtree with the next proof node: on the right it extends only the new side, on the left both. */
  function WithSubtree(h: HashFn, sub: Option<Rebuilt>, onRight: bool): Option<Rebuilt> {
    if sub.None? || sub.value.rest == [] then None
    else
      var Rebuilt(o, n, rest) := sub.value;
      if onRight then Some(Rebuilt(o, NodeHash(h, n, rest[0]), rest[1..]))
      else Some(Rebuilt(NodeHash(h, rest[0], o), NodeHash(h, rest[0], n), rest[1..]))
  }

  lemma SubtreeTaken(h: HashFn, o: Hash, n: Hash, next: Hash, rest: seq<Hash>)
    ensures WithSubtree(h, Some(Rebuilt(o, n, [next] + rest)), true) == Some(Rebuilt(o, NodeHash(h, n, next), rest))
    ensures WithSubtree(h, Some(Rebuilt(o, n, [next] + rest)), false)
         == Some(Rebuilt(NodeHash(h, next, o), NodeHash(h, next, n), rest))
  {
    assert ([next] + rest)[1..] == rest;
  }

  /** Rebuilds the old-side and new-side subtree hashes from proof nodes consumed front to back. */
  function ConsistencyRec(h: HashFn, m: nat, n: nat, b: bool, proof: seq<Hash>, knownOld: Hash): Option<Rebuilt>
    requires m >= 1
    decreases n
  {
    if m == n then
      if b then Some(Rebuilt(knownOld, knownOld, proof))
      else if proof == [] then None
      else Some(Rebuilt(proof[0], proof[0], proof[1..]))
    else if m > n then None
    else
      var k := SplitPoint(n);
      if m <= k then WithSubtree(h, ConsistencyRec(h, m, k, b, proof, knownOld), true)
      else WithSubtree(h, ConsistencyRec(h, m - k, n - k, false, proof, knownOld), false)
  }

  predicate VerifyConsistency(h: HashFn, oldRoot: Hash, p: ConsistencyProof, newRoot: Hash) {
    var m, n := p.oldLeafCount, p.newLeafCount;
    if m > n then false
    else if m == 0 then p.nodes == [] && oldRoot == EmptyRoot(h)
    else if m == n then p.nodes == [] && oldRoot == newRoot
    else
      match ConsistencyRec(h, m, n, true, p.nodes, oldRoot)
      case None => false
      case Some(r) => r.rest == [] && r.oldSide == oldRoot && r.newSide == newRoot
  }

  ghost function SubtreePreimages(sub: Option<Rebuilt>, onRight: bool): set<Bytes> {
    if sub.None? || sub.value.rest == [] then {}
    else
      var Rebuilt(o, n, rest) := sub.value;
      if onRight then {NodePreimage(n, rest[0])} else {NodePreimage(rest[0], o), NodePreimage(rest[0], n)}
  }

  /** The node preimages hashed by `ConsistencyRec`. */
  ghost function ConsistencyPreimages(h: HashFn, m: nat, n: nat, b: bool, proof: seq<Hash>, knownOld: Hash): set<Bytes>
    requires m >= 1
    decreases n
  {
    if m >= n then {}
    else
      var k := SplitPoint(n);
      if m <= k then
        ConsistencyPreimages(h, m, k, b, proof, knownOld) +
        SubtreePreimages(ConsistencyRec(h, m, k, b, proof, knownOld), true)
      else
        ConsistencyPreimages(h, m - k, n - k, false, proof, knownOld) +
        SubtreePreimages(ConsistencyRec(h, m - k, n - k, false, proof, knownOld), false)
  }

  /** One level of the recursions that walk down to the end of the old tree. */
  lemma SubProofUnfolds(h: HashFn, m: nat, n: nat, k: nat, leaves: seq<Hash>, b: bool, proof: seq<Hash>, known: Hash)
    requires 1 <= m < n == |leaves| && k == SplitPoint(n)
    ensures m <= k ==>
      && ConsistencyRec(h, m, n, b, proof, known) ==
           WithSubtree(h, ConsistencyRec(h, m, k, b, proof, known), true)
      && SubProof(h, m, leaves, b) == SubProof(h, m, leaves[..k], b) + [Mth(h, leaves[k..])]
    ensures m > k ==>
      && ConsistencyRec(h, m, n, b, proof, known) ==
           WithSubtree(h, ConsistencyRec(h, m - k, n - k, false, proof, known), false)
      && SubProof(h, m, leaves, b) == SubProof(h, m - k, leaves[k..], false) + [Mth(h, leaves[..k])]
  {
    hide SplitPoint, Mth, WithSubtree;
  }

  lemma SubProofWhole(h: HashFn, m: nat, leaves: seq<Hash>, b: bool, proof: seq<Hash>, rest: seq<Hash>, known: Hash)
    requires 1 <= m == |leaves| && (b ==> known == Mth(h, leaves)) && proof == SubProof(h, m, leaves, b) + rest
    ensures ConsistencyRec(h, m, m, b, proof, known) == Some(Rebuilt(Mth(h, leaves), Mth(h, leaves), rest))
  {
    assert proof == if b then rest else [Mth(h, leaves)] + rest;
  }

  /** Completeness: the generated subproof rebuilds both tree hashes and is consumed exactly. */
  lemma {:induction false} SubProofRebuilds(h: HashFn, m: nat, n: nat, leaves: seq<Hash>, b: bool,
                                            proof: seq<Hash>, rest: seq<Hash>, known: Hash)
    requires 1 <= m <= n == |leaves| && (b ==> known == Mth(h, leaves[..m]))
    requires proof == SubProof(h, m, leaves, b) + rest
    ensures ConsistencyRec(h, m, n, b, proof, known) == Some(Rebuilt(Mth(h, leaves[..m]), Mth(h, leaves), rest))
    decreases n
  {
    hide SplitPoint, NodeHash, WithSubtree, Mth, ConsistencyRec, SubProof;
    if m == n {
      assert leaves[..m] == leaves;
      SubProofWhole(h, m, leaves, b, proof, rest, known);
    } else {
      var k := SplitPoint(n);
      var l, r := Mth(h, leaves[..k]), Mth(h, leaves[k..]);
      MthStep(h, leaves, k);
      SubProofUnfolds(h, m, n, k, leaves, b, proof, known);
      if m <= k {
        assert leaves[..k][..m] == leaves[..m];
        SubProofRebuilds(h, m, k, leaves[..k], b, proof, [r] + rest, known);
        SubtreeTaken(h, Mth(h, leaves[..m]), l, r, rest);
      } else {
        SubProofRebuilds(h, m - k, n - k, leaves[k..], false, proof, [l] + rest, known);
        SubtreeTaken(h, Mth(h, leaves[k..][..m - k]), r, l, rest);
        PrefixMth(h, leaves, m);
      }
    }
  }

  /** The tree of a prefix that reaches past the split shares the left subtree. */
  lemma PrefixMth(h: HashFn, leaves: seq<Hash>, m: nat)
    requires |leaves| > 1 && SplitPoint(|leaves|) < m <= |leaves|
    ensures var k := SplitPoint(|leaves|);
      Mth(h, leaves[..m]) == NodeHash(h, Mth(h, leaves[..k]), Mth(h, leaves[k..][..m - k]))
  {
    SameSplit(m, |leaves|);
    var k := SplitPoint(|leaves|);
    assert leaves[..m][..k] == leaves[..k] && leaves[..m][k..] == leaves[k..][..m - k];
  }

  /** Completeness for every prefix size, 0 and the whole list included. */
  lemma ConsistencyComplete(h: HashFn, leaves: seq<Hash>, m: nat)
    requires m <= |leaves|
    ensures var proof := ConsistencyProof(m, |leaves|, ConsistencyNodes(h, leaves, m));
      VerifyConsistency(h, Mth(h, leaves[..m]), proof, Mth(h, leaves))
  {
    if 0 < m < |leaves| {
      SubProofRebuilds(h, m, |leaves|, leaves, true, SubProof(h, m, leaves, true), [], Mth(h, leaves[..m]));
    } else if m == |leaves| {
      assert leaves[..m] == leaves;
    }
  }

  lemma ConsistencyStep(h: HashFn, m: nat, n: nat, k: nat, b: bool, proof: seq<Hash>, known: Hash)
    requires m >= 1 && m != n && n > 1 && k == SplitPoint(n) && ConsistencyRec(h, m, n, b, proof, known).Some?
    ensures m < n
    ensures m <= k ==>
      var sub := ConsistencyRec(h, m, k, b, proof, known);
      && sub.Some? && sub.value.rest != []
      && ConsistencyRec(h, m, n, b, proof, known).value.oldSide == sub.value.oldSide
      && ConsistencyRec(h, m, n, b, proof, known).value.newSide == NodeHash(h, sub.value.newSide, sub.value.rest[0])
      && NodePreimage(sub.value.newSide, sub.value.rest[0]) in ConsistencyPreimages(h, m, n, b, proof, known)
      && ConsistencyPreimages(h, m, k, b, proof, known) <= ConsistencyPreimages(h, m, n, b, proof, known)
    ensures m > k ==>
      var sub := ConsistencyRec(h, m - k, n - k, false, proof, known);
      && sub.Some? && sub.value.rest != []
      && ConsistencyRec(h, m, n, b, proof, known).value.oldSide == NodeHash(h, sub.value.rest[0], sub.value.oldSide)
      && ConsistencyRec(h, m, n, b, proof, known).value.newSide == NodeHash(h, sub.value.rest[0], sub.value.newSide)
      && NodePreimage(sub.value.rest[0], sub.value.oldSide) in ConsistencyPreimages(h, m, n, b, proof, known)
      && NodePreimage(sub.value.rest[0], sub.value.newSide) in ConsistencyPreimages(h, m, n, b, proof, known)
      && ConsistencyPreimages(h, m - k, n - k, false, proof, known) <= ConsistencyPreimages(h, m, n, b, proof, known)
  {
    hide SplitPoint, NodeHash, NodePreimage;
  }

  lemma ConsistencyBase(h: HashFn, n: nat, b: bool, proof: seq<Hash>, known: Hash)
    requires n >= 1 && ConsistencyRec(h, n, n, b, proof, known).Some?
    ensures ConsistencyRec(h, n, n, b, proof, known).value.oldSide ==
      ConsistencyRec(h, n, n, b, proof, known).value.newSide
  {
  }

  /** Soundness: the rebuilt old and new hashes being those of two lists makes the old one a prefix. */
  lemma {:induction false} ConsistencyRecSound(h: HashFn, s: set<Bytes>, m: nat, n: nat, a: seq<Hash>,
                                               c: seq<Hash>, b: bool,
                                               proof: seq<Hash>, known: Hash, rest: seq<Hash>)
    requires CollisionFree(h, s) && MthPreimages(h, a) <= s && MthPreimages(h, c) <= s && 1 <= m == |a| && n == |c|
    requires ConsistencyPreimages(h, m, n, b, proof, known) <= s
    requires ConsistencyRec(h, m, n, b, proof, known) == Some(Rebuilt(Mth(h, a), Mth(h, c), rest))
    ensures a <= c
    decreases n
  {
    hide SplitPoint, NodeHash, NodePreimage, CollisionFree, MthPreimages, ConsistencyRec, ConsistencyPreimages, Mth;
    if m == n {
      ConsistencyBase(h, n, b, proof, known);
      MthBinds(h, s, a, c);
    } else {
      TooShort(h, m, n, b, proof, known);
      var k := SplitPoint(n);
      var l, r := Mth(h, c[..k]), Mth(h, c[k..]);
      MthStep(h, c, k);
      ConsistencyStep(h, m, n, k, b, proof, known);
      if m <= k {
        var sub := ConsistencyRec(h, m, k, b, proof, known).value;
        NodeInjective(h, s, sub.newSide, sub.rest[0], l, r);
        ConsistencyRecSound(h, s, m, k, a, c[..k], b, proof, known, sub.rest);
      } else {
        var sub := ConsistencyRec(h, m - k, n - k, false, proof, known).value;
        SameSplit(m, n);
        MthStep(h, a, k);
        NodeInjective(h, s, sub.rest[0], sub.newSide, l, r);
        NodeInjective(h, s, sub.rest[0], sub.oldSide, Mth(h, a[..k]), Mth(h, a[k..]));
        MthBinds(h, s, a[..k], c[..k]);
        ConsistencyRecSound(h, s, m - k, n - k, a[k..], c[k..], false, proof, known, sub.rest);
        assert a == a[..k] + a[k..] && c == c[..k] + c[k..];
      }
    }
  }

  lemma TooShort(h: HashFn, m: nat, n: nat, b: bool, proof: seq<Hash>, known: Hash)
    requires m >= 1 && ConsistencyRec(h, m, n, b, proof, known).Some?
    ensures m <= n
  {
  }

  /** Every node preimage hashed when verifying `p`. */
  ghost function ConsistencyHashed(h: HashFn, oldRoot: Hash, p: ConsistencyProof): set<Bytes> {
    if p.oldLeafCount == 0 then {}
    else ConsistencyPreimages(h, p.oldLeafCount, p.newLeafCount, true, p.nodes, oldRoot)
  }

  ghost function InclusionHashed(h: HashFn, leaf: Hash, p: InclusionProof): set<Bytes> {
    if p.leafCount == 0 then {} else InclusionPreimages(h, p.leafIndex, p.leafCount, leaf, p.nodes)
  }

  /** An accepted consistency proof with the true sizes proves a non-empty old list to be a prefix. */
  lemma ConsistencySound(h: HashFn, s: set<Bytes>, a: seq<Hash>, c: seq<Hash>, p: ConsistencyProof)
    requires CollisionFree(h, s) && MthPreimages(h, a) <= s && MthPreimages(h, c) <= s
    requires ConsistencyHashed(h, Mth(h, a), p) <= s
    requires a != [] && p.oldLeafCount == |a| && p.newLeafCount == |c|
    requires VerifyConsistency(h, Mth(h, a), p, Mth(h, c))
    ensures a <= c
  {
    if |a| == |c| {
      MthBinds(h, s, a, c);
    } else {
      ConsistencyRecSound(h, s, |a|, |c|, a, c, true, p.nodes, Mth(h, a), []);
    }
  }

  // ---------------------------------------------------------------- appending one leaf

  /**
    The two rebuilds meet: a consistency rebuild from `m` leaves with hash `Mth(leaves)` to `m + 1` and
    an inclusion fold of `leaf` at index `m` that give one new hash give that of `leaves + [leaf]`.
  */
  lemma {:induction false} AppendRec(h: HashFn, s: set<Bytes>, m: nat, n: nat, leaves: seq<Hash>, leaf: Hash,
                                     b: bool, known: Hash, root: Hash,
                                     cp: seq<Hash>, crest: seq<Hash>, ip: seq<Hash>, irest: seq<Hash>)
    requires CollisionFree(h, s) && MthPreimages(h, leaves) <= s && 1 <= m == |leaves| && n == m + 1
    requires ConsistencyPreimages(h, m, n, b, cp, known) <= s && InclusionPreimages(h, m, n, leaf, ip) <= s
    requires ConsistencyRec(h, m, n, b, cp, known) == Some(Rebuilt(Mth(h, leaves), root, crest))
    requires InclusionRec(h, m, n, leaf, ip) == Folded(root, irest)
    ensures root == Mth(h, leaves + [leaf])
    decreases n
  {
    hide SplitPoint, NodeHash, NodePreimage, CollisionFree, MthPreimages, ConsistencyRec, ConsistencyPreimages,
         InclusionRec, InclusionPreimages, Mth;
    var k := SplitPoint(n);
    InclusionStep(h, m, n, k, leaf, ip);
    ConsistencyStep(h, m, n, k, b, cp, known);
    var inc := InclusionRec(h, m - k, n - k, leaf, ip);
    AppendMth(h, leaves, leaf, k);
    if m == k {
      var sub := ConsistencyRec(h, m, k, b, cp, known).value;
      NodeInjective(h, s, sub.newSide, sub.rest[0], inc.rest[0], inc.hash);
      ConsistencyBase(h, m, b, cp, known);
      LoneLeaf(h, [leaf], ip);
      assert leaves[..k] == leaves && leaves[k..] + [leaf] == [leaf];
    } else {
      var sub := ConsistencyRec(h, m - k, n - k, false, cp, known).value;
      SameSplit(m, n);
      MthStep(h, leaves, k);
      NodeInjective(h, s, sub.rest[0], sub.oldSide, Mth(h, leaves[..k]), Mth(h, leaves[k..]));
      NodeInjective(h, s, sub.rest[0], sub.newSide, inc.rest[0], inc.hash);
      AppendRec(h, s, m - k, n - k, leaves[k..], leaf, false, known, sub.newSide, cp, sub.rest, ip, inc.rest);
    }
  }

  lemma AppendMth(h: HashFn, leaves: seq<Hash>, leaf: Hash, k: nat)
    requires leaves != [] && k == SplitPoint(|leaves| + 1)
    ensures Mth(h, leaves + [leaf]) == NodeHash(h, Mth(h, leaves[..k]), Mth(h, leaves[k..] + [leaf]))
  {
    assert leaves + [leaf] == leaves[..k] + (leaves[k..] + [leaf]);
    MthSplits(h, leaves[..k], leaves[k..] + [leaf]);
  }

  /**
    Appending blind: whoever checks both proofs against the old root alone, never holding the leaves,
    is forced to the tree hash of the old leaves with the new one appended.
  */
  lemma AppendForced(h: HashFn, s: set<Bytes>, leaves: seq<Hash>, leaf: Hash, cp: ConsistencyProof,
                     ip: InclusionProof, root: Hash)
    requires CollisionFree(h, s) && MthPreimages(h, leaves) <= s
    requires ConsistencyHashed(h, Mth(h, leaves), cp) <= s && InclusionHashed(h, leaf, ip) <= s
    requires cp.oldLeafCount == |leaves| && cp.newLeafCount == |leaves| + 1
    requires ip.leafIndex == |leaves| && ip.leafCount == |leaves| + 1
    requires VerifyConsistency(h, Mth(h, leaves), cp, root) && VerifyInclusion(h, leaf, ip, root)
    ensures root == Mth(h, leaves + [leaf])
  {
    hide SplitPoint, NodeHash, NodePreimage, CollisionFree, Mth, MthPreimages, ConsistencyRec,
         ConsistencyPreimages, InclusionRec, InclusionPreimages;
    if leaves == [] {
      assert leaves + [leaf] == [leaf];
      LoneLeaf(h, [leaf], ip.nodes);
    } else {
      AppendRec(h, s, |leaves|, |leaves| + 1, leaves, leaf, true, Mth(h, leaves), root, cp.nodes, [], ip.nodes, []);
    }
  }
}
