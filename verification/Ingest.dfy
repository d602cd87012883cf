/** The mirror's ingester: polls, claims, checks two hash chains, stores, and moves its anchors. */
module Ingest {
  import opened Prelude
  import opened Crypto
  import opened Codec
  import opened Streams
  import RecordsTree

  // ---------------------------------------------------------------- the chains

  ghost function Rounds(records: seq<RecordFile>): set<U64> {
    set i | 0 <= i < |records| :: records[i].round
  }

  /** The running hash the next record must start from. */
  ghost function NextStart(records: seq<RecordFile>): Hash {
    if records == [] || records[|records| - 1].end.None? then Zero() else records[|records| - 1].end.value
  }

  /** The checkpoint hash the next record must commit to. */
  ghost function NextPrev(h: HashFn, records: seq<RecordFile>): Hash {
    if records == [] || records[|records| - 1].checkpoint.None? then Zero()
    else SigningHash(h, records[|records| - 1].checkpoint.value)
  }

  /** Each record verifies, starts where the one before ended, and commits to its checkpoint. */
  ghost predicate Chained(c: Checks, records: seq<RecordFile>) {
    records == [] ||
    (Chained(c, records[..|records| - 1]) && Links(c, records[..|records| - 1], records[|records| - 1]))
  }

  ghost predicate Links(c: Checks, before: seq<RecordFile>, f: RecordFile) {
    FileOk(c, f) && f.start.value == NextStart(before) && f.checkpoint.value.prevHash == NextPrev(c.h, before)
  }

  /** All items, in order. */
  ghost function AllItems(records: seq<RecordFile>): seq<Bytes> {
    if records == [] then [] else AllItems(records[..|records| - 1]) + records[|records| - 1].items
  }

  /** The end of the last record is the running hash of everything stored, from the seed. */
  lemma {:induction false} ChainFromSeed(c: Checks, records: seq<RecordFile>)
    requires Chained(c, records)
    ensures NextStart(records) == Running(c.h, Zero(), AllItems(records))
  {
    hide Running, DiffsOk, SigningHash;
    if records == [] {
      assert Running(c.h, Zero(), []) == Zero() by { RunningNothing(c.h); }
    } else {
      var front, last := records[..|records| - 1], records[|records| - 1];
      ChainFromSeed(c, front);
      RunningAppend(c.h, Zero(), AllItems(front), last.items);
    }
  }

  lemma RunningNothing(h: HashFn)
    ensures Running(h, Zero(), []) == Zero()
  {
  }

  // ---------------------------------------------------------------- the store

  class MemStore {
    var records: seq<RecordFile>
    var seenRounds: set<U64>

    ghost predicate Valid()
      reads this
    {
      seenRounds == Rounds(records) && forall i, j :: 0 <= i < j < |records| ==> records[i].round != records[j].round
    }

    constructor ()
      ensures Valid() && records == []
    {
      records, seenRounds := [], {};
    }

    /** Appends a record unless one of its round is there already. */
    method PutRecord(f: RecordFile)
      requires Valid()
      modifies this
      ensures Valid()
      ensures records == if f.round in Rounds(old(records)) then old(records) else old(records) + [f]
    {
      if f.round in seenRounds { return; }
      ghost var before := records;
      seenRounds := seenRounds + {f.round};
      records := records + [f];
      RoundsAppend(before, f);
    }

    method LatestRound() returns (max: nat)
      requires Valid()
      ensures forall i :: 0 <= i < |records| ==> records[i].round <= max
      ensures max == 0 || max in Rounds(records)
    {
      max := 0;
      var i := 0;
      while i < |records|
        invariant 0 <= i <= |records|
        invariant forall j :: 0 <= j < i ==> records[j].round <= max
        invariant max == 0 || max in Rounds(records)
      {
        if records[i].round > max { max := records[i].round; }
        i := i + 1;
      }
    }
  }

  lemma RoundsAppend(records: seq<RecordFile>, f: RecordFile)
    ensures Rounds(records + [f]) == Rounds(records) + {f.round}
  {
    var longer := records + [f];
    forall r | r in Rounds(records) ensures r in Rounds(longer) {
      var i :| 0 <= i < |records| && records[i].round == r;
      assert longer[i] == records[i];
    }
    assert longer[|records|] == f;
  }

  // ---------------------------------------------------------------- the ingester

  /** A listed record file: the round in its name, what reading it gives, and whether the store fails on it. */
  datatype Listed = Listed(index: U64, file: Option<RecordFile>, storeFails: bool)

  class Ingester {
    const checks: Checks
    const store: MemStore
    var seenRecords: set<U64>
    var inFlightRecords: set<U64>
    var lastRecordEnd: Option<Hash>
    var expectedPrev: Option<Hash>

    /** The anchors describe the last stored record. */
    ghost predicate Anchored()
      reads this, store
    {
      && lastRecordEnd == (if store.records == [] then None else Some(NextStart(store.records)))
      && expectedPrev == (if store.records == [] then None else Some(NextPrev(checks.h, store.records)))
    }

    ghost predicate Valid()
      reads this, store
    {
      && store.Valid() && Chained(checks, store.records) && Anchored()
      && seenRecords == Rounds(store.records) && seenRecords * inFlightRecords == {}
    }

    constructor (checks: Checks)
      ensures Valid() && this.checks == checks && fresh(store) && store.records == [] && inFlightRecords == {}
    {
      this.checks := checks;
      store := new MemStore();
      seenRecords, inFlightRecords, lastRecordEnd, expectedPrev := {}, {}, None, None;
    }

    /** A restart: the seen rounds and the anchors are read back from a store. */
    constructor Seeded(checks: Checks, store: MemStore)
      requires store.Valid()
      ensures this.checks == checks && this.store == store
      ensures seenRecords == Rounds(store.records) && inFlightRecords == {}
      ensures Chained(checks, store.records) && RoundsRise(store.records) ==> Valid()
      ensures store.records != [] ==> exists top :: SeededBy(checks.h, store.records, top, lastRecordEnd, expectedPrev)
    {
      this.checks, this.store := checks, store;
      seenRecords, inFlightRecords, lastRecordEnd, expectedPrev := {}, {}, None, None;
      new;
      SeedFromStore();
    }

    method SeedFromStore()
      requires store.Valid() && seenRecords == {} && inFlightRecords == {} && lastRecordEnd == None
      requires expectedPrev == None
      modifies `seenRecords, `lastRecordEnd, `expectedPrev
      ensures seenRecords == Rounds(store.records)
      ensures store.records != [] ==> exists top :: SeededBy(checks.h, store.records, top, lastRecordEnd, expectedPrev)
      ensures Chained(checks, store.records) && RoundsRise(store.records) ==> Valid()
    {
      hide Chained, SigningHash, IsTop;
      var highest: Option<RecordFile>;
      seenRecords, highest := Scan(store.records);
      if highest.Some? {
        if highest.value.end.Some? { lastRecordEnd := highest.value.end; }
        if highest.value.checkpoint.Some? {
          expectedPrev := Some(SigningHash(checks.h, highest.value.checkpoint.value));
        }
        assert SeededBy(checks.h, store.records, highest.value, lastRecordEnd, expectedPrev);
        if Chained(checks, store.records) && RoundsRise(store.records) {
          StoredParts(checks, store.records, |store.records| - 1);
          TopUnique(store.records, highest.value);
        }
      }
    }

    // -------------------------------------------------------------- claims

    /** Reserves a round unless it is stored or being ingested. */
    method TryClaim(index: U64) returns (claimed: bool)
      requires Valid()
      modifies `inFlightRecords
      ensures Valid() && claimed == (index !in seenRecords && index !in old(inFlightRecords))
      ensures inFlightRecords == old(inFlightRecords) + (if claimed then {index} else {})
    {
      if index in seenRecords { return false; }
      if index in inFlightRecords { return false; }
      inFlightRecords := inFlightRecords + {index};
      return true;
    }

    method ReleaseClaim(index: U64)
      requires Valid()
      modifies `inFlightRecords
      ensures Valid() && inFlightRecords == old(inFlightRecords) - {index}
    {
      inFlightRecords := inFlightRecords - {index};
    }

    // -------------------------------------------------------------- checks against the anchors

    function ExpectedStart(): Hash
      reads this
    {
      if lastRecordEnd.Some? then lastRecordEnd.value else Zero()
    }

    /** Whether a checkpoint commits to the expected predecessor; with `commit`, expects this one next. */
    method CheckPrev(cp: CheckpointFile, commit: bool) returns (ok: bool)
      modifies `expectedPrev
      ensures ok == (cp.prevHash == if old(expectedPrev).Some? then old(expectedPrev).value else Zero())
      ensures expectedPrev == if ok && commit then Some(SigningHash(checks.h, cp)) else old(expectedPrev)
    {
      var expected := if expectedPrev.Some? then expectedPrev.value else Zero();
      if |cp.prevHash| != 32 { return false; }
      if cp.prevHash != expected { return false; }
      if commit { expectedPrev := Some(SigningHash(checks.h, cp)); }
      return true;
    }

    /** Every check a record must pass before it is stored. */
    method Accepts(l: Listed) returns (ok: bool)
      requires Valid()
      modifies `expectedPrev
      ensures expectedPrev == old(expectedPrev)
      ensures ok <==> Acceptable(checks, store.records, l)
    {
      hide FileOk, SigningHash;
      if l.file.None? { return false; }
      var f := l.file.value;
      if f.round != l.index { return false; }
      if FileOk(checks, f) { FileParts(checks, f); }
      if f.start.None? || f.end.None? { return false; }
      if f.start.value != ExpectedStart() { return false; }
      var verified := VerifyRecordFile(checks, f);
      if !verified { return false; }
      FileParts(checks, f);
      var linked := CheckPrev(f.checkpoint.value, false);
      if !linked { return false; }
      var diffs := ValidateStateDiffs(f.diffs);
      if !diffs { return false; }
      return checks.proofs(f);
    }

    /** Ingests one listed file: it is stored and both anchors move, or nothing changes. */
    method IngestRecord(l: Listed) returns (stored: bool)
      requires Valid()
      modifies this, store
      ensures Valid() && inFlightRecords == old(inFlightRecords)
      ensures stored <==>
        l.index !in old(seenRecords) + old(inFlightRecords) &&
        Acceptable(checks, old(store.records), l) && !l.storeFails
      ensures stored ==> store.records == old(store.records) + [l.file.value]
      ensures !stored ==> store.records == old(store.records)
    {
      hide FileOk, SigningHash, Links, Chained, Rounds, NextStart, NextPrev;
      var claimed := TryClaim(l.index);
      if !claimed { return false; }
      var accepted := Accepts(l);
      if !accepted || l.storeFails {
        ReleaseClaim(l.index);
        return false;
      }
      var f := l.file.value;
      ghost var before := store.records;
      RoundsAppend(before, f);
      LinkExtends(checks, before, f);
      store.PutRecord(f);
      assert store.records == before + [f];
      var linked := CheckPrev(f.checkpoint.value, true);
      lastRecordEnd := f.end;
      inFlightRecords := inFlightRecords - {l.index};
      seenRecords := seenRecords + {l.index};
      return true;
    }

    /** One poll: every listed file in turn, failures skipped. */
    method RunOnce(listing: seq<Listed>)
      requires Valid()
      modifies this, store
      ensures Valid() && inFlightRecords == old(inFlightRecords) && old(store.records) <= store.records
    {
      hide Chained;
      var i := 0;
      while i < |listing|
        invariant 0 <= i <= |listing| && Valid()
        invariant inFlightRecords == old(inFlightRecords) && old(store.records) <= store.records
      {
        var _ := IngestRecord(listing[i]);
        i := i + 1;
      }
    }
  }

  /** A file the ingester stores: readable, of the round its name says, continuing both chains, with sound proofs. */
  ghost predicate Acceptable(c: Checks, records: seq<RecordFile>, l: Listed) {
    l.file.Some? && l.file.value.round == l.index && Links(c, records, l.file.value) && c.proofs(l.file.value)
  }

  lemma FileParts(c: Checks, f: RecordFile)
    requires FileOk(c, f)
    ensures f.start.Some? && f.end.Some? && f.checkpoint.Some? && DiffsOk(f.diffs)
  {
  }

  lemma LinkExtends(c: Checks, before: seq<RecordFile>, f: RecordFile)
    requires Chained(c, before) && Links(c, before, f)
    ensures Chained(c, before + [f])
    ensures f.start.Some? && f.end.Some? && f.checkpoint.Some? && f.checkpoint.value.prevHash == NextPrev(c.h, before)
    ensures NextStart(before + [f]) == f.end.value
    ensures NextPrev(c.h, before + [f]) == SigningHash(c.h, f.checkpoint.value)
    ensures before == [] ==> NextPrev(c.h, before) == Zero()
  {
    hide FileOk, SigningHash;
    FileParts(c, f);
    assert (before + [f])[..|before|] == before;
  }

  // ---------------------------------------------------------------- restarting

  /** A stored record of the highest round. */
  ghost predicate IsTop(records: seq<RecordFile>, top: RecordFile) {
    top in records && forall i :: 0 <= i < |records| ==> records[i].round <= top.round
  }

  /** The anchors come from `top`, a record of the highest round. */
  ghost predicate SeededBy(h: HashFn, records: seq<RecordFile>, top: RecordFile, end: Option<Hash>,
                           prev: Option<Hash>) {
    && IsTop(records, top) && end == top.end
    && prev == if top.checkpoint.Some? then Some(SigningHash(h, top.checkpoint.value)) else None
  }

  /** One pass over the stored records: the rounds seen, and the record of the highest. */
  method Scan(records: seq<RecordFile>) returns (seen: set<U64>, highest: Option<RecordFile>)
    ensures seen == Rounds(records) && (highest.Some? <==> records != [])
    ensures highest.Some? ==> IsTop(records, highest.value)
  {
    hide IsTop, Rounds;
    seen, highest := {}, None;
    var i := 0;
    assert records[..0] == [];
    NoRounds();
    while i < |records|
      invariant 0 <= i <= |records| && seen == Rounds(records[..i]) && (highest.Some? <==> i > 0)
      invariant highest.Some? ==> IsTop(records[..i], highest.value)
    {
      var f := records[i];
      assert records[..i + 1] == records[..i] + [f];
      RoundsAppend(records[..i], f);
      TopAppend(records[..i], f, highest);
      seen := seen + {f.round};
      if highest.None? || f.round > highest.value.round { highest := Some(f); }
      i := i + 1;
    }
    assert records[..i] == records;
  }

  lemma NoRounds()
    ensures Rounds([]) == {}
  {
  }

  lemma TopAppend(records: seq<RecordFile>, f: RecordFile, top: Option<RecordFile>)
    requires top.Some? ==> IsTop(records, top.value)
    ensures top.Some? && f.round <= top.value.round ==> IsTop(records + [f], top.value)
    ensures (if top.None? then records == [] else f.round > top.value.round) ==> IsTop(records + [f], f)
  {
    var longer := records + [f];
    assert longer[|records|] == f;
    if top.Some? {
      var i :| 0 <= i < |records| && records[i] == top.value;
      assert longer[i] == top.value;
    }
  }

  /** Distinct rounds have one highest record. */
  lemma TopUnique(records: seq<RecordFile>, top: RecordFile)
    requires records != [] && IsTop(records, top) && RoundsRise(records)
    requires forall i, j :: 0 <= i < j < |records| ==> records[i].round != records[j].round
    ensures top == records[|records| - 1]
  {
    var i :| 0 <= i < |records| && records[i] == top;
    assert records[|records| - 1].round <= top.round;
  }

  /** The last stored record also has the highest round. */
  ghost predicate RoundsRise(records: seq<RecordFile>) {
    records == [] || IsTop(records, records[|records| - 1])
  }

  ghost function SigningPreimages(records: seq<RecordFile>): set<Bytes> {
    set i | 0 <= i < |records| && records[i].checkpoint.Some? :: SigningBytes(records[i].checkpoint.value)
  }

  lemma {:induction false} ChainedAt(c: Checks, records: seq<RecordFile>, i: nat)
    requires Chained(c, records) && i < |records|
    ensures Links(c, records[..i], records[i])
  {
    hide FileOk, SigningHash, Links;
    if i < |records| - 1 {
      var front := records[..|records| - 1];
      ChainedAt(c, front, i);
      assert front[..i] == records[..i];
    }
  }

  lemma StoredParts(c: Checks, records: seq<RecordFile>, i: nat)
    requires Chained(c, records) && i < |records|
    ensures records[i].end.Some? && records[i].checkpoint.Some? && records[i].checkpoint.value.round == records[i].round
  {
    hide SigningHash, Chained, Running, DiffsOk;
    ChainedAt(c, records, i);
  }

  /** Seeding from the highest stored round finds the live checkpoint anchor exactly when that round was stored last. */
  lemma SeedMatchesIff(c: Checks, records: seq<RecordFile>, top: RecordFile)
    requires Chained(c, records) && records != [] && IsTop(records, top)
    requires forall i, j :: 0 <= i < j < |records| ==> records[i].round != records[j].round
    requires CollisionFree(c.h, SigningPreimages(records))
    ensures top.checkpoint.Some?
    ensures SigningHash(c.h, top.checkpoint.value) == NextPrev(c.h, records) <==> RoundsRise(records)
    ensures RoundsRise(records) ==> top == records[|records| - 1]
  {
    hide Chained, SigningBytes;
    var last := records[|records| - 1];
    var i :| 0 <= i < |records| && records[i] == top;
    StoredParts(c, records, i);
    StoredParts(c, records, |records| - 1);
    assert SigningBytes(top.checkpoint.value) in SigningPreimages(records);
    assert SigningBytes(last.checkpoint.value) in SigningPreimages(records);
    if SigningHash(c.h, top.checkpoint.value) == SigningHash(c.h, last.checkpoint.value) {
      SigningBytesBind(top.checkpoint.value, last.checkpoint.value);
    }
  }

  /** `g` takes up where `f` ends: it starts from its running hash and commits to its checkpoint. */
  ghost predicate Follows(c: Checks, f: RecordFile, g: RecordFile) {
    && FileOk(c, f) && FileOk(c, g)
    && g.start.value == f.end.value && g.checkpoint.value.prevHash == SigningHash(c.h, f.checkpoint.value)
  }

  /**
    Nothing the ingester checks makes rounds rise: after any chain that `f` extends, any verified file
    of a lower round that takes up where `f` ends extends it further, and then the last record stored
    is not the one of the highest round.
  */
  lemma RoundsMayFall(c: Checks, before: seq<RecordFile>, f: RecordFile, g: RecordFile)
    requires Chained(c, before) && Links(c, before, f) && Follows(c, f, g) && g.round < f.round
    ensures Chained(c, before + [f]) && Links(c, before + [f], g)
    ensures Chained(c, before + [f] + [g]) && !RoundsRise(before + [f] + [g])
  {
    hide FileOk, SigningHash, Chained, DiffsOk;
    FileParts(c, g);
    LinkExtends(c, before, f);
    LinkExtends(c, before + [f], g);
    var all := before + [f] + [g];
    assert all[|before|] == f && all[|all| - 1] == g;
  }

  /** Listed one after the other, the two files are both stored, whatever the ingester held before. */
  method IngestFalling(ingester: Ingester, f: RecordFile, g: RecordFile) returns (first: bool, second: bool)
    requires ingester.Valid() && Links(ingester.checks, ingester.store.records, f) && Follows(ingester.checks, f, g)
    requires ingester.checks.proofs(f) && ingester.checks.proofs(g) && g.round < f.round
    requires f.round !in ingester.seenRecords + ingester.inFlightRecords
    requires g.round !in ingester.seenRecords + ingester.inFlightRecords
    modifies ingester, ingester.store
    ensures first && second && ingester.Valid()
    ensures ingester.store.records == old(ingester.store.records) + [f] + [g]
    ensures !RoundsRise(ingester.store.records)
  {
    hide FileOk, SigningHash, Links, Chained, Rounds, Follows, RoundsRise;
    ghost var before := ingester.store.records;
    RoundsMayFall(ingester.checks, before, f, g);
    first := ingester.IngestRecord(Listed(f.round, Some(f), false));
    RoundsAppend(before, f);
    second := ingester.IngestRecord(Listed(g.round, Some(g), false));
  }

  // ---------------------------------------------------------------- what an anchor commits to

  /** Both records carry checkpoints with the same signed bytes. */
  ghost predicate SameSigned(f: RecordFile, g: RecordFile) {
    f.checkpoint.Some? && g.checkpoint.Some? && SigningBytes(f.checkpoint.value) == SigningBytes(g.checkpoint.value)
  }

  /** One checkpoint hash, one history: mirrors that agree on it stored the same checkpoints from the first on. */
  lemma {:induction false} CheckpointChainBinds(c: Checks, d: Checks, s: set<Bytes>, a: seq<RecordFile>,
                                                b: seq<RecordFile>)
    requires Chained(c, a) && Chained(d, b) && c.h == d.h && CollisionFree(c.h, s) && MissesZero(c.h, s)
    requires SigningPreimages(a) <= s && SigningPreimages(b) <= s && NextPrev(c.h, a) == NextPrev(c.h, b)
    ensures |a| == |b| && forall i :: 0 <= i < |a| ==> SameSigned(a[i], b[i])
    decreases |a|
  {
    hide SigningBytes, FileOk, Slot;
    if a != [] { LastSigned(c, a); }
    if b != [] { LastSigned(d, b); }
    if a != [] && b != [] {
      var fa, la, fb, lb := a[..|a| - 1], a[|a| - 1], b[..|b| - 1], b[|b| - 1];
      SigningBytesBind(la.checkpoint.value, lb.checkpoint.value);
      SlotOfHash(NextPrev(c.h, fa));
      SlotOfHash(NextPrev(c.h, fb));
      FewerSigned(a);
      FewerSigned(b);
      CheckpointChainBinds(c, d, s, fa, fb);
      forall i | 0 <= i < |a| ensures SameSigned(a[i], b[i]) {
        if i < |fa| { assert a[i] == fa[i] && b[i] == fb[i]; }
      }
    }
  }

  // ---------------------------------------------------------------- what an anchor says about the items

  ghost function ReadAll(c: Checks, items: seq<Bytes>): (r: seq<RecordsTree.Item>)
    ensures |r| == |items| && forall i :: 0 <= i < |items| ==> r[i] == c.read(items[i])
  {
    seq(|items|, i requires 0 <= i < |items| => c.read(items[i]))
  }

  /** Where every payload fits its length field the mirror's leaves are those of the records tree. */
  lemma {:induction false} LeavesFit(c: Checks, items: seq<Bytes>)
    requires RecordsTree.Leaves(c.h, ReadAll(c, items)).Some?
    ensures MirrorLeaves(c, items) == RecordsTree.Leaves(c.h, ReadAll(c, items)).value
  {
    hide RecordsTree.ItemLeaf;
    if items != [] {
      var front := items[..|items| - 1];
      assert ReadAll(c, items)[..|items| - 1] == ReadAll(c, front);
      LeavesFit(c, front);
      assert MirrorLeaves(c, items) == MirrorLeaves(c, front) + [MirrorLeaf(c.h, c.read(items[|items| - 1]))];
    }
  }

  /** Everything hashed for the records roots of `records` lies in `s`. */
  ghost predicate RootsHashed(c: Checks, records: seq<RecordFile>, s: set<Bytes>) {
    forall i :: 0 <= i < |records| ==> RecordsTree.ItemsHashed(c.h, ReadAll(c, records[i].items), s)
  }

  /** The distinct encodings of the stored items decode to distinct items. */
  ghost predicate ReadsApart(c: Checks, a: seq<RecordFile>, b: seq<RecordFile>) {
    forall x, y :: x in AllItems(a) && y in AllItems(b) && c.read(x) == c.read(y) ==> x == y
  }

  lemma {:induction false} ItemStored(records: seq<RecordFile>, i: nat, x: Bytes)
    requires i < |records| && x in records[i].items
    ensures x in AllItems(records)
  {
    if i < |records| - 1 { ItemStored(records[..|records| - 1], i, x); }
  }

  lemma SameRootSameItems(c: Checks, d: Checks, s: set<Bytes>, a: seq<RecordFile>, b: seq<RecordFile>, k: nat)
    requires k < |a| == |b| && FileOk(c, a[k]) && FileOk(d, b[k]) && SameSigned(a[k], b[k])
    requires c.h == d.h && c.read == d.read && CollisionFree(c.h, s) && ReadsApart(c, a, b)
    requires RootsHashed(c, a, s) && RootsHashed(c, b, s)
    ensures a[k].items == b[k].items
  {
    hide SigningBytes, RecordsTree.RootOf, RecordsTree.TreeHashed, RecordsTree.Levels, DiffsOk, Running, CollisionFree,
         AllItems, MirrorLeaf;
    var f, g := a[k], b[k];
    SigningBytesBind(f.checkpoint.value, g.checkpoint.value);
    var xs, ys := ReadAll(c, f.items), ReadAll(c, g.items);
    assert RecordsTree.ItemsHashed(c.h, xs, s) && RecordsTree.ItemsHashed(c.h, ys, s);
    LeavesFit(c, f.items);
    LeavesFit(c, g.items);
    assert MirrorLeaves(d, g.items) == MirrorLeaves(c, g.items);
    SlotOfHash(f.checkpoint.value.recordsRoot);
    SlotOfHash(g.checkpoint.value.recordsRoot);
    RecordsTree.RecordsRootBinds(c.h, s, xs, ys);
    forall i | 0 <= i < |f.items| ensures f.items[i] == g.items[i] {
      assert xs[i] == c.read(f.items[i]) && ys[i] == c.read(g.items[i]);
      ItemStored(a, k, f.items[i]);
      ItemStored(b, k, g.items[i]);
    }
  }

  lemma {:induction false} SameItemsThroughout(a: seq<RecordFile>, b: seq<RecordFile>)
    requires |a| == |b| && forall i :: 0 <= i < |a| ==> a[i].items == b[i].items
    ensures AllItems(a) == AllItems(b)
  {
    if a != [] { SameItemsThroughout(a[..|a| - 1], b[..|b| - 1]); }
  }

  /**
    One checkpoint hash, one history of items: mirrors that agree on the last checkpoint stored the
    same items, file by file, and so stand at the same running hash.
  */
  lemma MirrorsStoreSameItems(c: Checks, d: Checks, s: set<Bytes>, a: seq<RecordFile>, b: seq<RecordFile>)
    requires Chained(c, a) && Chained(d, b) && c.h == d.h && c.read == d.read
    requires CollisionFree(c.h, s) && MissesZero(c.h, s) && ReadsApart(c, a, b)
    requires SigningPreimages(a) <= s && SigningPreimages(b) <= s && NextPrev(c.h, a) == NextPrev(c.h, b)
    requires RootsHashed(c, a, s) && RootsHashed(c, b, s)
    ensures |a| == |b| && forall i :: 0 <= i < |a| ==> a[i].items == b[i].items
    ensures AllItems(a) == AllItems(b) && NextStart(a) == NextStart(b)
  {
    hide Chained, Links, SigningPreimages, CollisionFree, MissesZero, ReadsApart, RecordsTree.ItemsHashed, FileOk,
         SameSigned, AllItems, Running, NextPrev, NextStart;
    CheckpointChainBinds(c, d, s, a, b);
    forall i | 0 <= i < |a| ensures a[i].items == b[i].items {
      StoredOk(c, a, i);
      StoredOk(d, b, i);
      SameRootSameItems(c, d, s, a, b, i);
    }
    SameItemsThroughout(a, b);
    ChainFromSeed(c, a);
    ChainFromSeed(d, b);
  }

  lemma StoredOk(c: Checks, records: seq<RecordFile>, i: nat)
    requires Chained(c, records) && i < |records|
    ensures FileOk(c, records[i])
  {
    hide FileOk, Chained;
    ChainedAt(c, records, i);
  }

  lemma LastSigned(c: Checks, a: seq<RecordFile>)
    requires Chained(c, a) && a != []
    ensures var last := a[|a| - 1];
      last.checkpoint.Some? && last.checkpoint.value.prevHash == NextPrev(c.h, a[..|a| - 1])
      && SigningBytes(last.checkpoint.value) in SigningPreimages(a)
  {
    hide SigningHash, SigningBytes, Running, DiffsOk;
  }

  lemma FewerSigned(a: seq<RecordFile>)
    requires a != []
    ensures SigningPreimages(a[..|a| - 1]) <= SigningPreimages(a)
  {
    hide SigningBytes;
    var front := a[..|a| - 1];
    forall p | p in SigningPreimages(front) ensures p in SigningPreimages(a) {
      var i :| 0 <= i < |front| && front[i].checkpoint.Some? && p == SigningBytes(front[i].checkpoint.value);
      assert a[i] == front[i];
    }
  }

  lemma SlotOfHash(d: Hash)
    ensures Slot(d) == d
  {
    assert d[..32] == d;
  }
}
