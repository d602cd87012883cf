/** The padded Merkle tree over a round's records: its root, its proofs, and what they bind. */
module RecordsTree {
  import opened Prelude
  import opened Crypto
  import opened Codec
  import opened SparseTree

  datatype Item = Item(eventHash: Hash, txIndex: U32, payload: Bytes)

  function ItemPreimage(item: Item): Bytes {
    [0x00] + (item.eventHash + (BigEndian(item.txIndex, 4) + PutField(item.payload)))
  }

  /** The leaf of an item; none when the payload is too long for its length prefix. */
  function ItemLeaf(h: HashFn, item: Item): Option<Hash> {
    if |item.payload| < 0x1_0000_0000 then Some(h(ItemPreimage(item))) else None
  }

  // ---------------------------------------------------------------- reference definition

  function Pad(h: HashFn, leaves: seq<Hash>, k: nat): seq<Hash>
    requires |leaves| <= Pow2(k)
  {
    leaves + seq(Pow2(k) - |leaves|, _ => Empty(h))
  }

  /** The tree hash of a full level, top down. */
  ghost function TreeHash(h: HashFn, level: seq<Hash>, k: nat): Hash
    requires |level| == Pow2(k)
  {
    if k == 0 then level[0]
    else
      var half := Pow2(k - 1);
      Combine(h, TreeHash(h, level[..half], k - 1), TreeHash(h, level[half..], k - 1))
  }

  /** The tree hash of leaves padded with empty ones to `2^k`. */
  ghost function Tree(h: HashFn, leaves: seq<Hash>, k: nat): Hash
    requires |leaves| <= Pow2(k)
  {
    TreeHash(h, Pad(h, leaves, k), k)
  }

  function LeftPart(leaves: seq<Hash>, k: nat): seq<Hash> {
    if |leaves| <= Pow2(k) then leaves else leaves[..Pow2(k)]
  }

  function RightPart(leaves: seq<Hash>, k: nat): seq<Hash> {
    if |leaves| <= Pow2(k) then [] else leaves[Pow2(k)..]
  }

  /** Padding respects halves: the left one fills first. */
  lemma TreeSplits(h: HashFn, leaves: seq<Hash>, k: nat)
    requires k > 0 && |leaves| <= Pow2(k)
    ensures |LeftPart(leaves, k - 1)| <= Pow2(k - 1) && |RightPart(leaves, k - 1)| <= Pow2(k - 1)
    ensures LeftPart(leaves, k - 1) + RightPart(leaves, k - 1) == leaves
    ensures Tree(h, leaves, k) ==
      Combine(h, Tree(h, LeftPart(leaves, k - 1), k - 1), Tree(h, RightPart(leaves, k - 1), k - 1))
  {
    hide Combine, Empty;
    var padded, half := Pad(h, leaves, k), Pow2(k - 1);
    assert padded[..half] == Pad(h, LeftPart(leaves, k - 1), k - 1);
    assert padded[half..] == Pad(h, RightPart(leaves, k - 1), k - 1);
  }

  lemma {:induction false} TreeOfNone(h: HashFn, k: nat)
    ensures Tree(h, [], k) == Empty(h)
  {
    if k > 0 {
      TreeSplits(h, [], k);
      TreeOfNone(h, k - 1);
    }
  }

  // ---------------------------------------------------------------- the computation, level by level

  function Pairs(h: HashFn, level: seq<Hash>, n: nat): (next: seq<Hash>)
    requires |level| == 2 * n
    ensures |next| == n
  {
    seq(n, i requires 0 <= i < n => Combine(h, level[2 * i], level[2 * i + 1]))
  }

  lemma PairsOfHalves(h: HashFn, level: seq<Hash>, quarter: nat)
    requires |level| == 4 * quarter
    ensures Pairs(h, level, 2 * quarter)[..quarter] == Pairs(h, level[..2 * quarter], quarter)
    ensures Pairs(h, level, 2 * quarter)[quarter..] == Pairs(h, level[2 * quarter..], quarter)
  {
    hide Combine;
  }

  /** Hashing neighbours bottom up and halves top down give one root. */
  lemma {:induction false} PairsKeepHash(h: HashFn, level: seq<Hash>, k: nat)
    requires k > 0 && |level| == Pow2(k)
    ensures TreeHash(h, Pairs(h, level, Pow2(k - 1)), k - 1) == TreeHash(h, level, k)
  {
    hide Combine, Pairs;
    if k == 1 {
      OnePair(h, level);
    } else {
      var half, quarter := Pow2(k - 1), Pow2(k - 2);
      PairsKeepHash(h, level[..half], k - 1);
      PairsKeepHash(h, level[half..], k - 1);
      PairsOfHalves(h, level, quarter);
    }
  }

  lemma OnePair(h: HashFn, level: seq<Hash>)
    requires |level| == 2
    ensures TreeHash(h, Pairs(h, level, 1), 0) == TreeHash(h, level, 1)
  {
    hide Combine;
    assert TreeHash(h, level[..1], 0) == level[0] && TreeHash(h, level[1..], 0) == level[1];
  }

  /** The number of levels above the leaves: the least `k` with `n <= 2^k`. */
  function Levels(n: nat): (k: nat)
    ensures n <= Pow2(k) && (k > 0 ==> Pow2(k - 1) < n)
  {
    LevelsFrom(n, 0)
  }

  function LevelsFrom(n: nat, from: nat): (k: nat)
    requires from > 0 ==> Pow2(from - 1) < n
    ensures n <= Pow2(k) && (k > 0 ==> Pow2(k - 1) < n)
    decreases n - Pow2(from)
  {
    if n <= Pow2(from) then from else LevelsFrom(n, from + 1)
  }

  /** One pass over a level, two neighbours at a time. */
  method NextLevel(h: HashFn, level: seq<Hash>, ghost n: nat) returns (next: seq<Hash>)
    requires |level| == 2 * n
    ensures next == Pairs(h, level, n)
  {
    hide Combine;
    next := [];
    var i := 0;
    while i < |level|
      invariant 0 <= i <= |level| && i == 2 * |next|
      invariant forall j :: 0 <= j < |next| ==> next[j] == Combine(h, level[2 * j], level[2 * j + 1])
    {
      next := next + [Combine(h, level[i], level[i + 1])];
      i := i + 2;
    }
  }

  method FoldLevels(h: HashFn, padded: seq<Hash>, ghost k: nat) returns (root: Hash)
    requires |padded| == Pow2(k)
    ensures root == TreeHash(h, padded, k)
  {
    hide Combine;
    var level := padded;
    ghost var j: nat := k;
    while |level| > 1
      invariant j <= k && |level| == Pow2(j) && TreeHash(h, level, j) == TreeHash(h, padded, k)
      decreases |level|
    {
      PairsKeepHash(h, level, j);
      level := NextLevel(h, level, Pow2(j - 1));
      j := j - 1;
    }
    return level[0];
  }

  function Leaves(h: HashFn, items: seq<Item>): Option<seq<Hash>> {
    if items == [] then Some([])
    else
      match (Leaves(h, items[..|items| - 1]), ItemLeaf(h, items[|items| - 1]))
      case (Some(front), Some(last)) => Some(front + [last])
      case _ => None
  }

  method LeafHashes(h: HashFn, items: seq<Item>) returns (r: Option<seq<Hash>>)
    ensures r == Leaves(h, items)
  {
    hide ItemLeaf;
    var out: seq<Hash>, i := [], 0;
    assert items[..0] == [];
    while i < |items|
      invariant 0 <= i <= |items| && Leaves(h, items[..i]) == Some(out)
    {
      assert items[..i + 1][..i] == items[..i];
      var leaf := ItemLeaf(h, items[i]);
      if leaf.None? {
        LeavesFail(h, items, i);
        return None;
      }
      out := out + [leaf.value];
      i := i + 1;
    }
    assert items[..i] == items;
    return Some(out);
  }

  lemma {:induction false} LeavesFail(h: HashFn, items: seq<Item>, i: nat)
    requires i < |items| && ItemLeaf(h, items[i]).None?
    ensures Leaves(h, items).None?
  {
    hide ItemLeaf;
    if i < |items| - 1 { LeavesFail(h, items[..|items| - 1], i); }
  }

  /** The records root; none when a payload is too long. */
  method RecordsRoot(h: HashFn, items: seq<Item>) returns (r: Option<Hash>)
    ensures r.Some? <==> Leaves(h, items).Some?
    ensures r.Some? ==> r.value == RootOf(h, Leaves(h, items).value)
  {
    hide Combine, ItemLeaf;
    if items == [] {
      TreeOfNone(h, 0);
      return Some(Empty(h));
    }
    var leaves := LeafHashes(h, items);
    if leaves.None? { return None; }
    var k := Levels(|leaves.value|);
    var root := FoldLevels(h, Pad(h, leaves.value, k), k);
    return Some(root);
  }

  ghost function RootOf(h: HashFn, leaves: seq<Hash>): Hash { Tree(h, leaves, Levels(|leaves|)) }

  // ---------------------------------------------------------------- binding

  /** Every branch preimage of the tree over `leaves` lies in `s`. */
  ghost predicate TreeHashed(h: HashFn, leaves: seq<Hash>, k: nat, s: set<Bytes>)
    requires |leaves| <= Pow2(k)
    decreases k
  {
    if k == 0 then true
    else
      TreeSplits(h, leaves, k);
      var l, r := LeftPart(leaves, k - 1), RightPart(leaves, k - 1);
      && CombinePreimages(h, Tree(h, l, k - 1), Tree(h, r, k - 1)) <= s
      && TreeHashed(h, l, k - 1, s) && TreeHashed(h, r, k - 1, s)
  }

  /** Each leaf is the hash of a leaf preimage. */
  ghost predicate OnlyLeafHashes(h: HashFn, leaves: seq<Hash>, s: set<Bytes>) {
    forall i :: 0 <= i < |leaves| ==> IsLeafHash(h, leaves[i], s)
  }

  /** Preimages of leaves never start like those of branches, and are longer than that of the empty hash. */
  predicate LeafShaped(p: Bytes) { |p| > 1 && p[0] != 0x01 && p[0] != 0x02 }

  ghost predicate IsLeafHash(h: HashFn, leaf: Hash, s: set<Bytes>) {
    exists p :: p in s && LeafShaped(p) && leaf == h(p)
  }

  lemma ItemPreimageKind(item: Item)
    ensures LeafShaped(ItemPreimage(item))
  {
  }

  /** A combined hash is neither a leaf nor, unless both children are empty, the empty hash. */
  lemma CombineKind(h: HashFn, s: set<Bytes>, l: Hash, r: Hash)
    requires CollisionFree(h, s) && [0x00] in s && CombinePreimages(h, l, r) <= s
    ensures !(l == Empty(h) && r == Empty(h)) ==> Combine(h, l, r) != Empty(h) && !IsLeafHash(h, Combine(h, l, r), s)
    ensures l == Empty(h) && r == Empty(h) ==> Combine(h, l, r) == Empty(h)
  {
    PreimagesDiffer(l, r, r, l);
    assert SingletonPreimage(l)[0] == 0x01 && SingletonPreimage(r)[0] == 0x01;
  }

  lemma LeafNotEmpty(h: HashFn, s: set<Bytes>, leaf: Hash)
    requires CollisionFree(h, s) && [0x00] in s && IsLeafHash(h, leaf, s)
    ensures leaf != Empty(h)
  {
    var p :| p in s && LeafShaped(p) && leaf == h(p);
  }

  lemma {:induction false} TreeNotEmpty(h: HashFn, s: set<Bytes>, leaves: seq<Hash>, k: nat)
    requires CollisionFree(h, s) && [0x00] in s && OnlyLeafHashes(h, leaves, s)
    requires 0 < |leaves| <= Pow2(k) && TreeHashed(h, leaves, k, s)
    ensures Tree(h, leaves, k) != Empty(h)
    ensures k > 0 ==> !IsLeafHash(h, Tree(h, leaves, k), s)
    ensures k == 0 ==> Tree(h, leaves, k) == leaves[0]
  {
    hide CollisionFree, IsLeafHash, CombinePreimages, Combine;
    if k == 0 {
      LeafNotEmpty(h, s, leaves[0]);
    } else {
      TreeSplits(h, leaves, k);
      var l, r := LeftPart(leaves, k - 1), RightPart(leaves, k - 1);
      assert l != [];
      TreeNotEmpty(h, s, l, k - 1);
      CombineKind(h, s, Tree(h, l, k - 1), Tree(h, r, k - 1));
    }
  }

  /** What the halves of a non-empty tree inherit. */
  lemma Halves(h: HashFn, s: set<Bytes>, leaves: seq<Hash>, k: nat)
    requires k > 0 && 0 < |leaves| <= Pow2(k) && OnlyLeafHashes(h, leaves, s) && TreeHashed(h, leaves, k, s)
    ensures var l, r := LeftPart(leaves, k - 1), RightPart(leaves, k - 1);
      && 0 < |l| <= Pow2(k - 1) && |r| <= Pow2(k - 1) && leaves == l + r
      && (Pow2(k - 1) <= |leaves| ==> |l| == Pow2(k - 1))
      && OnlyLeafHashes(h, l, s) && OnlyLeafHashes(h, r, s) && TreeHashed(h, l, k - 1, s) && TreeHashed(h, r, k - 1, s)
      && CombinePreimages(h, Tree(h, l, k - 1), Tree(h, r, k - 1)) <= s
      && Tree(h, leaves, k) == Combine(h, Tree(h, l, k - 1), Tree(h, r, k - 1))
  {
    hide IsLeafHash, CombinePreimages, Combine, Tree;
    TreeSplits(h, leaves, k);
  }

  /** Leaf lists padded to one size with one root are equal, length included. */
  lemma {:induction false} TreeBinds(h: HashFn, s: set<Bytes>, a: seq<Hash>, b: seq<Hash>, k: nat)
    requires CollisionFree(h, s) && [0x00] in s && OnlyLeafHashes(h, a, s) && OnlyLeafHashes(h, b, s)
    requires |a| <= Pow2(k) && |b| <= Pow2(k) && TreeHashed(h, a, k, s) && TreeHashed(h, b, k, s)
    requires Tree(h, a, k) == Tree(h, b, k)
    ensures a == b
    decreases k
  {
    hide CollisionFree, IsLeafHash, CombinePreimages, Combine, Tree, TreeHashed, LeftPart, RightPart;
    TreeOfNone(h, k);
    if a != [] { TreeNotEmpty(h, s, a, k); }
    if b != [] { TreeNotEmpty(h, s, b, k); }
    if k > 0 && a != [] && b != [] {
      Halves(h, s, a, k);
      Halves(h, s, b, k);
      var la, ra, lb, rb := LeftPart(a, k - 1), RightPart(a, k - 1), LeftPart(b, k - 1), RightPart(b, k - 1);
      HalvesBind(h, s, la, ra, lb, rb, k - 1);
      TreeBinds(h, s, la, lb, k - 1);
      TreeBinds(h, s, ra, rb, k - 1);
    }
  }

  lemma HalvesBind(h: HashFn, s: set<Bytes>, la: seq<Hash>, ra: seq<Hash>, lb: seq<Hash>, rb: seq<Hash>, k: nat)
    requires CollisionFree(h, s) && [0x00] in s
    requires OnlyLeafHashes(h, la, s) && OnlyLeafHashes(h, ra, s) && OnlyLeafHashes(h, lb, s)
    requires OnlyLeafHashes(h, rb, s)
    requires 0 < |la| <= Pow2(k) && 0 < |lb| <= Pow2(k) && |ra| <= Pow2(k) && |rb| <= Pow2(k)
    requires TreeHashed(h, la, k, s) && TreeHashed(h, ra, k, s) && TreeHashed(h, lb, k, s) && TreeHashed(h, rb, k, s)
    requires CombinePreimages(h, Tree(h, la, k), Tree(h, ra, k)) <= s
    requires CombinePreimages(h, Tree(h, lb, k), Tree(h, rb, k)) <= s
    requires Combine(h, Tree(h, la, k), Tree(h, ra, k)) == Combine(h, Tree(h, lb, k), Tree(h, rb, k))
    ensures Tree(h, la, k) == Tree(h, lb, k) && Tree(h, ra, k) == Tree(h, rb, k)
  {
    hide IsLeafHash, TreeHash, TreeHashed, OnlyLeafHashes, Tree;
    TreeNotEmpty(h, s, la, k);
    TreeNotEmpty(h, s, lb, k);
    LeftFirst(h, s, Tree(h, la, k), Tree(h, ra, k), Tree(h, lb, k), Tree(h, rb, k));
  }

  /** Parents whose left children are not empty record which side is which. */
  lemma LeftFirst(h: HashFn, s: set<Bytes>, a: Hash, b: Hash, c: Hash, d: Hash)
    requires CollisionFree(h, s) && CombinePreimages(h, a, b) <= s && CombinePreimages(h, c, d) <= s
    requires a != Empty(h) && c != Empty(h) && Combine(h, a, b) == Combine(h, c, d)
    ensures a == c && b == d
  {
    PreimagesDiffer(a, b, c, d);
    if b != Empty(h) && d != Empty(h) {
      InternalInjective(a, b, c, d);
    } else {
      AppendInjective([0x01], a, [0x01], c);
    }
  }

  /** Full trees of different heights never hash alike: at the leaves of one, the other still branches. */
  lemma {:induction false} FullTreesDiffer(h: HashFn, s: set<Bytes>, a: seq<Hash>, b: seq<Hash>, j: nat, k: nat)
    requires CollisionFree(h, s) && [0x00] in s && OnlyLeafHashes(h, a, s) && OnlyLeafHashes(h, b, s)
    requires j < k && |a| == Pow2(j) && |b| == Pow2(k) && TreeHashed(h, a, j, s) && TreeHashed(h, b, k, s)
    ensures Tree(h, a, j) != Tree(h, b, k)
    decreases j
  {
    hide CollisionFree, IsLeafHash, CombinePreimages, Combine, Tree, TreeHashed, LeftPart, RightPart;
    TreeNotEmpty(h, s, a, j);
    TreeNotEmpty(h, s, b, k);
    if j == 0 {
      assert IsLeafHash(h, a[0], s);
    } else if Tree(h, a, j) == Tree(h, b, k) {
      Halves(h, s, a, j);
      Halves(h, s, b, k);
      var la, lb := LeftPart(a, j - 1), LeftPart(b, k - 1);
      LeftHalves(h, s, la, RightPart(a, j - 1), j - 1, lb, RightPart(b, k - 1), k - 1);
      FullTreesDiffer(h, s, la, lb, j - 1, k - 1);
    }
  }

  lemma LeftHalves(h: HashFn, s: set<Bytes>, la: seq<Hash>, ra: seq<Hash>, j: nat, lb: seq<Hash>, rb: seq<Hash>, k: nat)
    requires CollisionFree(h, s) && [0x00] in s && OnlyLeafHashes(h, la, s) && OnlyLeafHashes(h, lb, s)
    requires 0 < |la| <= Pow2(j) && |ra| <= Pow2(j) && 0 < |lb| <= Pow2(k) && |rb| <= Pow2(k)
    requires TreeHashed(h, la, j, s) && TreeHashed(h, lb, k, s)
    requires CombinePreimages(h, Tree(h, la, j), Tree(h, ra, j)) <= s
    requires CombinePreimages(h, Tree(h, lb, k), Tree(h, rb, k)) <= s
    requires Combine(h, Tree(h, la, j), Tree(h, ra, j)) == Combine(h, Tree(h, lb, k), Tree(h, rb, k))
    ensures Tree(h, la, j) == Tree(h, lb, k)
  {
    hide IsLeafHash, TreeHash, TreeHashed, OnlyLeafHashes, Tree;
    TreeNotEmpty(h, s, la, j);
    TreeNotEmpty(h, s, lb, k);
    LeftFirst(h, s, Tree(h, la, j), Tree(h, ra, j), Tree(h, lb, k), Tree(h, rb, k));
  }

  /** Leaf lists of any two lengths with one root are equal. */
  lemma RootBindsLeaves(h: HashFn, s: set<Bytes>, a: seq<Hash>, b: seq<Hash>)
    requires CollisionFree(h, s) && [0x00] in s && OnlyLeafHashes(h, a, s) && OnlyLeafHashes(h, b, s)
    requires TreeHashed(h, a, Levels(|a|), s) && TreeHashed(h, b, Levels(|b|), s)
    requires RootOf(h, a) == RootOf(h, b)
    ensures a == b
  {
    hide CollisionFree, IsLeafHash, Tree, TreeHashed, Levels;
    if Levels(|a|) < Levels(|b|) {
      TallerDiffers(h, s, a, b, Levels(|a|), Levels(|b|));
    } else if Levels(|b|) < Levels(|a|) {
      TallerDiffers(h, s, b, a, Levels(|b|), Levels(|a|));
    } else {
      TreeBinds(h, s, a, b, Levels(|a|));
    }
  }

  lemma TallerDiffers(h: HashFn, s: set<Bytes>, a: seq<Hash>, b: seq<Hash>, j: nat, k: nat)
    requires CollisionFree(h, s) && [0x00] in s && OnlyLeafHashes(h, a, s) && OnlyLeafHashes(h, b, s) && j < k
    requires |a| <= Pow2(j) && (j > 0 ==> Pow2(j - 1) < |a|) && Pow2(k - 1) < |b| <= Pow2(k)
    requires TreeHashed(h, a, j, s) && TreeHashed(h, b, k, s)
    ensures Tree(h, a, j) != Tree(h, b, k)
  {
    hide CollisionFree, IsLeafHash, CombinePreimages, Combine, Tree, TreeHashed, LeftPart, RightPart;
    TreeNotEmpty(h, s, b, k);
    if a == [] {
      TreeOfNone(h, j);
    } else {
      TreeNotEmpty(h, s, a, j);
      if j == 0 {
        assert IsLeafHash(h, a[0], s);
      } else if Tree(h, a, j) == Tree(h, b, k) {
        Halves(h, s, a, j);
        Halves(h, s, b, k);
        var la, lb := LeftPart(a, j - 1), LeftPart(b, k - 1);
        LeftHalves(h, s, la, RightPart(a, j - 1), j - 1, lb, RightPart(b, k - 1), k - 1);
        FullTreesDiffer(h, s, la, lb, j - 1, k - 1);
      }
    }
  }

  // ---------------------------------------------------------------- proofs

  datatype ProofStep = ProofStep(sibling: Hash, onRight: bool)

  function FoldStep(h: HashFn, current: Hash, step: ProofStep): Hash {
    if step.onRight then Combine(h, current, step.sibling) else Combine(h, step.sibling, current)
  }

  function FoldSteps(h: HashFn, current: Hash, steps: seq<ProofStep>): Hash {
    if steps == [] then current
    else FoldStep(h, FoldSteps(h, current, steps[..|steps| - 1]), steps[|steps| - 1])
  }

  /** Verifies a proof, of however many steps, for an item. */
  method VerifyProof(h: HashFn, root: Hash, item: Item, steps: seq<ProofStep>) returns (ok: bool)
    ensures ok <==> ItemLeaf(h, item).Some? && FoldSteps(h, ItemLeaf(h, item).value, steps) == root
  {
    hide FoldStep, ItemLeaf;
    var leaf := ItemLeaf(h, item);
    if leaf.None? { return false; }
    var current, i := leaf.value, 0;
    assert steps[..0] == [];
    while i < |steps|
      invariant 0 <= i <= |steps| && current == FoldSteps(h, leaf.value, steps[..i])
    {
      assert steps[..i + 1][..i] == steps[..i];
      current := FoldStep(h, current, steps[i]);
      i := i + 1;
    }
    assert steps[..i] == steps;
    return current == root;
  }

  function SiblingIndex(i: nat): nat { if i % 2 == 0 then i + 1 else i - 1 }

  /** The steps from position `i` of a full level to the root. */
  ghost function StepsFrom(h: HashFn, level: seq<Hash>, k: nat, i: nat): seq<ProofStep>
    requires |level| == Pow2(k) && i < Pow2(k)
    decreases k
  {
    if k == 0 then []
    else [ProofStep(level[SiblingIndex(i)], i % 2 == 0)] + StepsFrom(h, Pairs(h, level, Pow2(k - 1)), k - 1, i / 2)
  }

  lemma {:induction false} FoldFront(h: HashFn, current: Hash, step: ProofStep, steps: seq<ProofStep>)
    ensures FoldSteps(h, current, [step] + steps) == FoldSteps(h, FoldStep(h, current, step), steps)
  {
    hide FoldStep;
    var all := [step] + steps;
    if steps == [] {
      assert all[..0] == [];
      assert FoldSteps(h, current, all) == FoldStep(h, FoldSteps(h, current, []), step);
    } else {
      assert all[..|all| - 1] == [step] + steps[..|steps| - 1];
      FoldFront(h, current, step, steps[..|steps| - 1]);
    }
  }

  /** Completeness: the steps from any position of a level fold to its root. */
  lemma {:induction false} StepsFold(h: HashFn, level: seq<Hash>, k: nat, i: nat)
    requires |level| == Pow2(k) && i < Pow2(k)
    ensures FoldSteps(h, level[i], StepsFrom(h, level, k, i)) == TreeHash(h, level, k)
    decreases k
  {
    hide Combine, TreeHash, Pairs, FoldStep, FoldSteps;
    if k == 0 {
      LoneNode(h, level);
    } else {
      var next, step := Pairs(h, level, Pow2(k - 1)), ProofStep(level[SiblingIndex(i)], i % 2 == 0);
      PairOf(h, level, Pow2(k - 1), i);
      FoldFront(h, level[i], step, StepsFrom(h, next, k - 1, i / 2));
      StepsFold(h, next, k - 1, i / 2);
      PairsKeepHash(h, level, k);
    }
  }

  lemma LoneNode(h: HashFn, level: seq<Hash>)
    requires |level| == 1
    ensures TreeHash(h, level, 0) == level[0] && FoldSteps(h, level[0], []) == level[0]
  {
  }

  lemma PairOf(h: HashFn, level: seq<Hash>, n: nat, i: nat)
    requires |level| == 2 * n && i < 2 * n
    ensures Pairs(h, level, n)[i / 2] == FoldStep(h, level[i], ProofStep(level[SiblingIndex(i)], i % 2 == 0))
  {
    hide Combine;
    var j := i / 2;
    assert i == 2 * j || i == 2 * j + 1;
  }

  /** All levels bottom up, the leaves first and the root last. */
  ghost function AllLevels(h: HashFn, level: seq<Hash>, k: nat): seq<seq<Hash>>
    requires |level| == Pow2(k)
    decreases k
  {
    if k == 0 then [level] else [level] + AllLevels(h, Pairs(h, level, Pow2(k - 1)), k - 1)
  }

  /** The steps of one item, read off the stored levels. */
  method StepsOf(h: HashFn, levels: seq<seq<Hash>>, index: nat, ghost leaves: seq<Hash>,
                 ghost k: nat) returns (steps: seq<ProofStep>)
    requires |leaves| == Pow2(k) && index < Pow2(k) && levels == AllLevels(h, leaves, k)
    ensures steps == StepsFrom(h, leaves, k, index)
  {
    hide Combine, Pairs;
    LevelCount(h, leaves, k);
    steps := [];
    var at: nat, d: nat := index, 0;
    ghost var level := leaves;
    assert levels[0..] == levels;
    while d < |levels| - 1
      invariant 0 <= d <= k && |level| == Pow2(k - d) && at < Pow2(k - d)
      invariant levels[d..] == AllLevels(h, level, k - d)
      invariant StepsFrom(h, leaves, k, index) == steps + StepsFrom(h, level, k - d, at)
    {
      assert levels[d] == levels[d..][0] == level;
      var sibling := SiblingIndex(at);
      if sibling < |levels[d]| { steps := steps + [ProofStep(levels[d][sibling], at % 2 == 0)]; }
      assert levels[d..][1..] == levels[d + 1..];
      level := Pairs(h, level, Pow2(k - d - 1));
      at, d := at / 2, d + 1;
    }
  }

  lemma {:induction false} LevelCount(h: HashFn, level: seq<Hash>, k: nat)
    requires |level| == Pow2(k)
    ensures |AllLevels(h, level, k)| == k + 1
    decreases k
  {
    hide Pairs;
    if k > 0 { LevelCount(h, Pairs(h, level, Pow2(k - 1)), k - 1); }
  }

  method BuildLevels(h: HashFn, padded: seq<Hash>, ghost k: nat) returns (levels: seq<seq<Hash>>)
    requires |padded| == Pow2(k)
    ensures levels == AllLevels(h, padded, k)
  {
    hide Combine, Pairs;
    levels := [padded];
    ghost var j: nat := k;
    while |levels[|levels| - 1]| > 1
      invariant j <= k && levels != [] && |levels[|levels| - 1]| == Pow2(j)
      invariant AllLevels(h, padded, k) == levels[..|levels| - 1] + AllLevels(h, levels[|levels| - 1], j)
      decreases j
    {
      var last := levels[|levels| - 1];
      ghost var before := levels;
      var next := NextLevel(h, last, Pow2(j - 1));
      levels := levels + [next];
      j := j - 1;
      assert levels[..|levels| - 1] == before[..|before| - 1] + [last];
    }
  }

  /** The proofs of all items, in order; none when a payload is too long. */
  method BuildProofs(h: HashFn, items: seq<Item>) returns (r: Option<seq<seq<ProofStep>>>)
    ensures r.Some? <==> Leaves(h, items).Some?
    ensures r.Some? ==> |r.value| == |items| && forall i :: 0 <= i < |items| ==>
      |Leaves(h, items).value| == |items|
      && FoldSteps(h, Leaves(h, items).value[i], r.value[i]) == RootOf(h, Leaves(h, items).value)
  {
    hide Combine, ItemLeaf, TreeHash, StepsFrom, AllLevels, FoldSteps;
    if items == [] { return Some([]); }
    var found := LeafHashes(h, items);
    if found.None? { return None; }
    var leaves := found.value;
    LeafCount(h, items);
    var k := Levels(|leaves|);
    var padded := Pad(h, leaves, k);
    var levels := BuildLevels(h, padded, k);
    var out: seq<seq<ProofStep>>, i := [], 0;
    while i < |items|
      invariant 0 <= i <= |items| && |out| == i
      invariant forall j :: 0 <= j < i ==> FoldSteps(h, leaves[j], out[j]) == RootOf(h, leaves)
    {
      var steps := StepsOf(h, levels, i, padded, k);
      StepsFold(h, padded, k, i);
      out := out + [steps];
      i := i + 1;
    }
    return Some(out);
  }

  lemma {:induction false} LeafCount(h: HashFn, items: seq<Item>)
    requires Leaves(h, items).Some?
    ensures |Leaves(h, items).value| == |items|
    ensures forall i :: 0 <= i < |items| ==> ItemLeaf(h, items[i]) == Some(Leaves(h, items).value[i])
  {
    hide ItemLeaf;
    if items != [] { LeafCount(h, items[..|items| - 1]); }
  }

  // ---------------------------------------------------------------- soundness

  /** Every preimage hashed when folding the steps lies in `s`. */
  ghost predicate StepsHashed(h: HashFn, current: Hash, steps: seq<ProofStep>, s: set<Bytes>) {
    steps != [] ==>
      var front, last := steps[..|steps| - 1], steps[|steps| - 1];
      var below := FoldSteps(h, current, front);
      && StepsHashed(h, current, front, s)
      && (if last.onRight then CombinePreimages(h, below, last.sibling)
          else CombinePreimages(h, last.sibling, below)) <= s
  }

  lemma {:induction false} FoldNotEmpty(h: HashFn, s: set<Bytes>, leaf: Hash, steps: seq<ProofStep>)
    requires CollisionFree(h, s) && [0x00] in s && IsLeafHash(h, leaf, s) && StepsHashed(h, leaf, steps, s)
    ensures FoldSteps(h, leaf, steps) != Empty(h)
    ensures steps != [] ==> !IsLeafHash(h, FoldSteps(h, leaf, steps), s)
  {
    hide CollisionFree, IsLeafHash, Combine, CombinePreimages;
    if steps == [] {
      LeafNotEmpty(h, s, leaf);
    } else {
      var front, last := steps[..|steps| - 1], steps[|steps| - 1];
      FoldNotEmpty(h, s, leaf, front);
      var below := FoldSteps(h, leaf, front);
      if last.onRight { CombineKind(h, s, below, last.sibling); } else { CombineKind(h, s, last.sibling, below); }
    }
  }

  /** A leaf that folds to a tree's root, in any number of steps, is one of the tree's leaves. */
  lemma {:induction false} StepsSound(h: HashFn, s: set<Bytes>, leaves: seq<Hash>, k: nat, leaf: Hash,
                                      steps: seq<ProofStep>)
    requires CollisionFree(h, s) && [0x00] in s && OnlyLeafHashes(h, leaves, s) && IsLeafHash(h, leaf, s)
    requires |leaves| <= Pow2(k) && TreeHashed(h, leaves, k, s) && StepsHashed(h, leaf, steps, s)
    requires FoldSteps(h, leaf, steps) == Tree(h, leaves, k)
    ensures leaf in leaves
    decreases k
  {
    hide CollisionFree, IsLeafHash, Combine, CombinePreimages, Tree, TreeHashed, LeftPart, RightPart;
    FoldNotEmpty(h, s, leaf, steps);
    TreeOfNone(h, k);
    TreeNotEmpty(h, s, leaves, k);
    if k == 0 {
      assert IsLeafHash(h, leaves[0], s);
    } else {
      assert steps != [];
      Halves(h, s, leaves, k);
      var front, last := steps[..|steps| - 1], steps[|steps| - 1];
      var below := FoldSteps(h, leaf, front);
      var l, r := LeftPart(leaves, k - 1), RightPart(leaves, k - 1);
      FoldNotEmpty(h, s, leaf, front);
      if last.onRight {
        CombineBinds(h, s, below, last.sibling, Tree(h, l, k - 1), Tree(h, r, k - 1));
      } else {
        CombineBinds(h, s, last.sibling, below, Tree(h, l, k - 1), Tree(h, r, k - 1));
      }
      if below == Tree(h, l, k - 1) {
        StepsSound(h, s, l, k - 1, leaf, front);
      } else {
        StepsSound(h, s, r, k - 1, leaf, front);
      }
    }
  }

  lemma ItemPreimageInjective(a: Item, b: Item)
    requires |a.payload| < 0x1_0000_0000 && |b.payload| < 0x1_0000_0000 && ItemPreimage(a) == ItemPreimage(b)
    ensures a == b
  {
    hide BigEndian, PutField, TakeField;
    var na, nb := BigEndian(a.txIndex, 4), BigEndian(b.txIndex, 4);
    AppendInjective([0x00], a.eventHash + (na + PutField(a.payload)), [0x00], b.eventHash + (nb + PutField(b.payload)));
    AppendInjective(a.eventHash, na + PutField(a.payload), b.eventHash, nb + PutField(b.payload));
    AppendInjective(na, PutField(a.payload), nb, PutField(b.payload));
    Widths();
    NumberOfBigEndian(a.txIndex, 4);
    NumberOfBigEndian(b.txIndex, 4);
    assert PutField(a.payload) == PutField(a.payload) + [] && PutField(b.payload) == PutField(b.payload) + [];
    TakeFieldAppended(a.payload, []);
    TakeFieldAppended(b.payload, []);
  }

  /** Every preimage behind the root of `items` lies in `s`. */
  ghost predicate ItemsHashed(h: HashFn, items: seq<Item>, s: set<Bytes>) {
    && Leaves(h, items).Some? && [0x00] in s
    && (forall i :: 0 <= i < |items| ==> ItemPreimage(items[i]) in s)
    && TreeHashed(h, Leaves(h, items).value, Levels(|Leaves(h, items).value|), s)
  }

  lemma ItemsHaveLeaves(h: HashFn, items: seq<Item>, s: set<Bytes>)
    requires ItemsHashed(h, items, s)
    ensures OnlyLeafHashes(h, Leaves(h, items).value, s)
  {
    hide ItemPreimage, TreeHashed;
    LeafCount(h, items);
    forall i | 0 <= i < |items| ensures IsLeafHash(h, Leaves(h, items).value[i], s) {
      ItemPreimageKind(items[i]);
      assert ItemPreimage(items[i]) in s;
    }
  }

  /** The records root binds the list of records: contents, order and length. */
  lemma RecordsRootBinds(h: HashFn, s: set<Bytes>, a: seq<Item>, b: seq<Item>)
    requires CollisionFree(h, s) && ItemsHashed(h, a, s) && ItemsHashed(h, b, s)
    requires RootOf(h, Leaves(h, a).value) == RootOf(h, Leaves(h, b).value)
    ensures a == b
  {
    hide ItemPreimage, TreeHashed, RootOf, Leaves, Levels, IsLeafHash;
    ItemsHaveLeaves(h, a, s);
    ItemsHaveLeaves(h, b, s);
    RootBindsLeaves(h, s, Leaves(h, a).value, Leaves(h, b).value);
    LeafCount(h, a);
    LeafCount(h, b);
    forall i | 0 <= i < |a| ensures a[i] == b[i] {
      ItemPreimageInjective(a[i], b[i]);
    }
  }

  /** An accepted proof, whatever its length, shows that the item is among the records. */
  lemma ProofShowsMembership(h: HashFn, s: set<Bytes>, items: seq<Item>, item: Item, steps: seq<ProofStep>)
    requires CollisionFree(h, s) && ItemsHashed(h, items, s) && ItemPreimage(item) in s
    requires |item.payload| < 0x1_0000_0000
    requires StepsHashed(h, h(ItemPreimage(item)), steps, s)
    requires FoldSteps(h, h(ItemPreimage(item)), steps) == RootOf(h, Leaves(h, items).value)
    ensures item in items
  {
    hide ItemPreimage, TreeHashed, Leaves, Levels, StepsHashed, FoldSteps, Tree;
    var leaf := h(ItemPreimage(item));
    ItemPreimageKind(item);
    ItemsHaveLeaves(h, items, s);
    StepsSound(h, s, Leaves(h, items).value, Levels(|Leaves(h, items).value|), leaf, steps);
    LeafCount(h, items);
    var i :| 0 <= i < |items| && Leaves(h, items).value[i] == leaf;
    ItemPreimageInjective(items[i], item);
  }
}
