/** Record stream files as the mirror reads them: the running hash, the checkpoint commitment and the file checks. */
module Streams {
  import opened Prelude
  import opened Crypto
  import opened Codec
  import opened Serialization
  import RecordsTree
  import SparseTree

  function Zero(): Hash { seq(32, _ => 0) }

  // ---------------------------------------------------------------- running hash

  const DOMAIN: Bytes := [0x6A, 0x6B, 0x2D, 0x6B]

  function ItemPreimage(item: Bytes): Bytes { DOMAIN + ([0x69, 0x74, 0x65, 0x6D] + item) }

  function ItemHash(h: HashFn, item: Bytes): Hash { h(ItemPreimage(item)) }

  function ChainPreimage(running: Hash, item: Hash): Bytes {
    DOMAIN + ([0x63, 0x68, 0x61, 0x69, 0x6E] + (running + item))
  }

  function ChainHash(h: HashFn, running: Hash, item: Hash): Hash { h(ChainPreimage(running, item)) }

  /** The chain across `items` from `seed`. */
  function Running(h: HashFn, seed: Hash, items: seq<Bytes>): Hash {
    if items == [] then seed
    else ChainHash(h, Running(h, seed, items[..|items| - 1]), ItemHash(h, items[|items| - 1]))
  }

  method RunningHash(h: HashFn, seed: Hash, items: seq<Bytes>) returns (cur: Hash)
    ensures cur == Running(h, seed, items)
  {
    hide ChainHash, ItemHash;
    cur := seed;
    var i := 0;
    assert items[..0] == [];
    while i < |items|
      invariant 0 <= i <= |items| && cur == Running(h, seed, items[..i])
    {
      assert items[..i + 1][..i] == items[..i];
      cur := ChainHash(h, cur, ItemHash(h, items[i]));
      i := i + 1;
    }
    assert items[..i] == items;
  }

  lemma {:induction false} RunningAppend(h: HashFn, seed: Hash, a: seq<Bytes>, b: seq<Bytes>)
    ensures Running(h, seed, a + b) == Running(h, Running(h, seed, a), b)
  {
    hide ChainHash, ItemHash;
    if b == [] {
      assert a + b == a;
    } else {
      assert (a + b)[..|a + b| - 1] == a + b[..|b| - 1];
      RunningAppend(h, seed, a, b[..|b| - 1]);
    }
  }

  /** The preimages hashed along the chain. */
  ghost function RunningPreimages(h: HashFn, seed: Hash, items: seq<Bytes>): set<Bytes> {
    if items == [] then {}
    else
      var front, last := items[..|items| - 1], items[|items| - 1];
      RunningPreimages(h, seed, front) + {ItemPreimage(last), ChainPreimage(Running(h, seed, front), ItemHash(h, last))}
  }

  lemma ChainPreimageInjective(a: Hash, b: Hash, c: Hash, d: Hash)
    requires ChainPreimage(a, b) == ChainPreimage(c, d)
    ensures a == c && b == d
  {
    var tag: Bytes := [0x63, 0x68, 0x61, 0x69, 0x6E];
    AppendInjective(DOMAIN, tag + (a + b), DOMAIN, tag + (c + d));
    AppendInjective(tag, a + b, tag, c + d);
    AppendInjective(a, b, c, d);
  }

  lemma ItemPreimageInjective(a: Bytes, b: Bytes)
    requires ItemPreimage(a) == ItemPreimage(b)
    ensures a == b
  {
    var tag: Bytes := [0x69, 0x74, 0x65, 0x6D];
    AppendInjective(DOMAIN, tag + a, DOMAIN, tag + b);
    AppendInjective(tag, a, tag, b);
  }

  /** No preimage of `s` hashes to the seed. */
  ghost predicate MissesZero(h: HashFn, s: set<Bytes>) {
    forall p :: p in s ==> h(p) != Zero()
  }

  /** The running hash binds the whole list of items, length included. */
  lemma {:induction false} RunningBinds(h: HashFn, s: set<Bytes>, a: seq<Bytes>, b: seq<Bytes>)
    requires CollisionFree(h, s) && MissesZero(h, s)
    requires RunningPreimages(h, Zero(), a) <= s && RunningPreimages(h, Zero(), b) <= s
    requires Running(h, Zero(), a) == Running(h, Zero(), b)
    ensures a == b
  {
    hide ChainPreimage, ItemPreimage;
    if a != [] && b != [] {
      var fa, la, fb, lb := a[..|a| - 1], a[|a| - 1], b[..|b| - 1], b[|b| - 1];
      ChainPreimageInjective(Running(h, Zero(), fa), ItemHash(h, la), Running(h, Zero(), fb), ItemHash(h, lb));
      ItemPreimageInjective(la, lb);
      RunningBinds(h, s, fa, fb);
      assert a == fa + [la] && b == fb + [lb];
    }
  }

  // ---------------------------------------------------------------- checkpoints on the wire

  /** The checkpoint of a record file; its byte fields have whatever length the file gives them. */
  datatype CheckpointFile = CheckpointFile(
    round: U64,
    recordsRoot: Bytes,
    stateHash: Bytes,
    rosterHash: Bytes,
    prevHash: Bytes,
    windowRoot: Bytes,
    rosterHistoryRoot: Bytes)

  /** Copies into a 32-byte slot: longer input is cut, shorter input is zero-filled. */
  function Slot(b: Bytes): Hash {
    if |b| >= 32 then b[..32] else b + seq(32 - |b|, _ => 0)
  }

  function SigningBytes(c: CheckpointFile): Bytes {
    BigEndian(c.round, 8) + (Slot(c.recordsRoot) + (Slot(c.stateHash) + (Slot(c.rosterHash) +
    (Slot(c.prevHash) + (Slot(c.windowRoot) + Slot(c.rosterHistoryRoot))))))
  }

  function SigningHash(h: HashFn, c: CheckpointFile): Hash { h(SigningBytes(c)) }

  lemma SigningBytesBind(c: CheckpointFile, d: CheckpointFile)
    requires SigningBytes(c) == SigningBytes(d)
    ensures c.round == d.round && Slot(c.recordsRoot) == Slot(d.recordsRoot) && Slot(c.stateHash) == Slot(d.stateHash)
    ensures Slot(c.rosterHash) == Slot(d.rosterHash) && Slot(c.prevHash) == Slot(d.prevHash)
    ensures Slot(c.windowRoot) == Slot(d.windowRoot) && Slot(c.rosterHistoryRoot) == Slot(d.rosterHistoryRoot)
  {
    hide BigEndian, Slot;
    var c5, d5 := Slot(c.windowRoot) + Slot(c.rosterHistoryRoot), Slot(d.windowRoot) + Slot(d.rosterHistoryRoot);
    var c4, d4 := Slot(c.prevHash) + c5, Slot(d.prevHash) + d5;
    var c3, d3 := Slot(c.rosterHash) + c4, Slot(d.rosterHash) + d4;
    var c2, d2 := Slot(c.stateHash) + c3, Slot(d.stateHash) + d3;
    var c1, d1 := Slot(c.recordsRoot) + c2, Slot(d.recordsRoot) + d2;
    AppendInjective(BigEndian(c.round, 8), c1, BigEndian(d.round, 8), d1);
    AppendInjective(Slot(c.recordsRoot), c2, Slot(d.recordsRoot), d2);
    AppendInjective(Slot(c.stateHash), c3, Slot(d.stateHash), d3);
    AppendInjective(Slot(c.rosterHash), c4, Slot(d.rosterHash), d4);
    AppendInjective(Slot(c.prevHash), c5, Slot(d.prevHash), d5);
    AppendInjective(Slot(c.windowRoot), Slot(c.rosterHistoryRoot), Slot(d.windowRoot), Slot(d.rosterHistoryRoot));
    Widths();
    NumberOfBigEndian(c.round, 8);
    NumberOfBigEndian(d.round, 8);
  }

  // ---------------------------------------------------------------- record files

  datatype StateDiff = StateDiff(key: Bytes, value: Bytes)

  /** A record file; a running hash object that is missing or malformed reads as none. */
  datatype RecordFile = RecordFile(
    version: U32,
    round: U64,
    start: Option<Hash>,
    end: Option<Hash>,
    items: seq<Bytes>,
    checkpoint: Option<CheckpointFile>,
    diffs: seq<StateDiff>)

  const VERSION := 4

  const MAX_ITEMS := 0x1_0000

  const MAX_DIFFS := 10_000

  const MAX_DIFF_KEY := 1024

  const MAX_DIFF_VALUE := 0x10_0000

  /** What state diffs must satisfy: few enough, small enough, and in strictly ascending key order. */
  ghost predicate DiffsOk(diffs: seq<StateDiff>) {
    && |diffs| <= MAX_DIFFS
    && (forall i :: 0 <= i < |diffs| ==> 0 < |diffs[i].key| <= MAX_DIFF_KEY && |diffs[i].value| <= MAX_DIFF_VALUE)
    && (forall i, j :: 0 <= i < j < |diffs| ==> Below(diffs[i].key, diffs[j].key))
  }

  /** The one-pass validation; comparing neighbours is enough to order, and so tell apart, all keys. */
  method ValidateStateDiffs(diffs: seq<StateDiff>) returns (ok: bool)
    ensures ok <==> DiffsOk(diffs)
  {
    hide Below;
    if diffs == [] { return true; }
    if |diffs| > MAX_DIFFS { return false; }
    var seen: set<Bytes>, i := {}, 0;
    while i < |diffs|
      invariant 0 <= i <= |diffs| && DiffsOk(diffs[..i])
      invariant forall k :: k in seen <==> exists j :: 0 <= j < i && diffs[j].key == k
    {
      var d := diffs[i];
      if d.key == [] || |d.key| > MAX_DIFF_KEY || |d.value| > MAX_DIFF_VALUE { return false; }
      if d.key in seen {
        RepeatedKey(diffs, i);
        return false;
      }
      seen := seen + {d.key};
      if i > 0 && !Below(diffs[i - 1].key, d.key) { return false; }
      OneMoreDiff(diffs, i);
      i := i + 1;
    }
    assert diffs[..i] == diffs;
    return true;
  }

  lemma RepeatedKey(diffs: seq<StateDiff>, i: nat)
    requires i < |diffs| && exists j :: 0 <= j < i && diffs[j].key == diffs[i].key
    ensures !DiffsOk(diffs)
  {
    var j :| 0 <= j < i && diffs[j].key == diffs[i].key;
    BelowTotal(diffs[i].key, diffs[i].key);
  }

  lemma OneMoreDiff(diffs: seq<StateDiff>, i: nat)
    requires i < |diffs| <= MAX_DIFFS && DiffsOk(diffs[..i])
    requires 0 < |diffs[i].key| <= MAX_DIFF_KEY && |diffs[i].value| <= MAX_DIFF_VALUE
    requires i > 0 ==> Below(diffs[i - 1].key, diffs[i].key)
    ensures DiffsOk(diffs[..i + 1])
  {
    hide Below;
    var upTo := diffs[..i + 1];
    forall j | 0 <= j < i ensures Below(upTo[j].key, upTo[i].key) {
      if j < i - 1 {
        assert Below(diffs[..i][j].key, diffs[..i][i - 1].key);
        BelowTransitive(diffs[j].key, diffs[i - 1].key, diffs[i].key);
      }
    }
    forall j, k | 0 <= j < k < |upTo| ensures Below(upTo[j].key, upTo[k].key) {
      if k < i { assert Below(diffs[..i][j].key, diffs[..i][k].key); }
    }
    forall j | 0 <= j < |upTo| ensures 0 < |upTo[j].key| <= MAX_DIFF_KEY && |upTo[j].value| <= MAX_DIFF_VALUE {
      if j < i { assert upTo[j] == diffs[..i][j]; }
    }
  }

  /** The checks outside this module: decoding an item, the signers' quorum, and the proof side file. */
  datatype Checks = Checks(
    h: HashFn,
    read: Bytes -> RecordsTree.Item,
    quorum: CheckpointFile -> bool,
    proofs: RecordFile -> bool)

  /** The mirror's leaf of an item: the empty hash when the payload is too long for its length field. */
  function MirrorLeaf(h: HashFn, item: RecordsTree.Item): Hash {
    var leaf := RecordsTree.ItemLeaf(h, item);
    if leaf.Some? then leaf.value else SparseTree.Empty(h)
  }

  ghost function MirrorLeaves(c: Checks, items: seq<Bytes>): (leaves: seq<Hash>)
    ensures |leaves| == |items| && forall i :: 0 <= i < |items| ==> leaves[i] == MirrorLeaf(c.h, c.read(items[i]))
  {
    seq(|items|, i requires 0 <= i < |items| => MirrorLeaf(c.h, c.read(items[i])))
  }

  method ComputeRecordsRoot(c: Checks, items: seq<Bytes>) returns (root: Hash)
    ensures root == RecordsTree.RootOf(c.h, MirrorLeaves(c, items))
  {
    hide MirrorLeaf, RecordsTree.TreeHash, SparseTree.Combine;
    if items == [] {
      assert MirrorLeaves(c, items) == [];
      RecordsTree.TreeOfNone(c.h, RecordsTree.Levels(0));
      return SparseTree.Empty(c.h);
    }
    var leaves: seq<Hash>, i := [], 0;
    while i < |items|
      invariant 0 <= i <= |items| && |leaves| == i
      invariant forall j :: 0 <= j < i ==> leaves[j] == MirrorLeaf(c.h, c.read(items[j]))
    {
      leaves := leaves + [MirrorLeaf(c.h, c.read(items[i]))];
      i := i + 1;
    }
    assert leaves == MirrorLeaves(c, items);
    var k := RecordsTree.Levels(|leaves|);
    root := RecordsTree.FoldLevels(c.h, RecordsTree.Pad(c.h, leaves, k), k);
  }

  /** The checkpoint has whole hashes, names the root over the items, and a quorum signed it. */
  ghost predicate BoundTo(c: Checks, cp: CheckpointFile, items: seq<Bytes>) {
    && |cp.stateHash| == 32 && |cp.rosterHash| == 32 && |cp.recordsRoot| == 32 && |cp.prevHash| == 32
    && cp.recordsRoot == RecordsTree.RootOf(c.h, MirrorLeaves(c, items))
    && c.quorum(cp)
  }

  method VerifyCheckpointBinding(c: Checks, cp: CheckpointFile, items: seq<Bytes>) returns (ok: bool)
    ensures ok <==> BoundTo(c, cp, items)
  {
    if |cp.stateHash| != 32 || |cp.rosterHash| != 32 || |cp.recordsRoot| != 32 || |cp.prevHash| != 32 { return false; }
    var computed := ComputeRecordsRoot(c, items);
    if computed != cp.recordsRoot { return false; }
    return c.quorum(cp);
  }

  /** A file that passes verification on its own. */
  ghost predicate FileOk(c: Checks, f: RecordFile) {
    && f.version == VERSION && |f.items| <= MAX_ITEMS
    && f.start.Some? && f.end.Some? && Running(c.h, f.start.value, f.items) == f.end.value
    && f.checkpoint.Some? && f.checkpoint.value.round == f.round
    && DiffsOk(f.diffs)
    && BoundTo(c, f.checkpoint.value, f.items)
  }

  method VerifyRecordFile(c: Checks, f: RecordFile) returns (ok: bool)
    ensures ok <==> FileOk(c, f)
  {
    hide Running, DiffsOk, BoundTo;
    if f.version != VERSION { return false; }
    if |f.items| > MAX_ITEMS { return false; }
    if f.start.None? || f.end.None? { return false; }
    var cur := RunningHash(c.h, f.start.value, f.items);
    if cur != f.end.value { return false; }
    if f.checkpoint.None? { return false; }
    if f.checkpoint.value.round != f.round { return false; }
    var diffs := ValidateStateDiffs(f.diffs);
    if !diffs { return false; }
    ok := VerifyCheckpointBinding(c, f.checkpoint.value, f.items);
  }
}
