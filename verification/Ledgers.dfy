/**
  What the records in state amount to over every run: each root's commitment is the Merkle log of the
  sub-actors minted under it, in order, though the executor never holds that list.
*/
module Ledgers {
  import opened Prelude
  import opened Crypto
  import opened Codec
  import opened Identity
  import opened MerkleLog
  import opened Operations
  import opened Serialization
  import opened Transitions

  datatype Minted = Minted(tag: Tag, index: U32, control: Key)

  /** The sub-actors minted under each DID so far, oldest first. */
  type Ledger = map<DidId, seq<Minted>>

  function SlotOf(id: DidId, m: Minted): ActorId { Sub(id, m.tag, m.index) }

  function OwnerOf(a: ActorId): DidId { if a.Root? then a.did else a.rootDid }

  ghost function Leaves(env: Env, id: DidId, ms: seq<Minted>): seq<Hash> {
    seq(|ms|, i requires 0 <= i < |ms| => LeafOf(env, SlotOf(id, ms[i]), ms[i].control))
  }

  ghost predicate HasSlot(ms: seq<Minted>, tag: Tag, index: U32) {
    exists i :: 0 <= i < |ms| && ms[i].tag == tag && ms[i].index == index
  }

  /** The record of a minted sub-actor: its slot and control key as minted. */
  ghost predicate SubOk(env: Env, kv: Kv, id: DidId, m: Minted) {
    var sub := StoredSub(env, kv, SlotOf(id, m));
    sub.Some? && sub.value.id == SlotOf(id, m) && sub.value.control == m.control
  }

  /** The document and root record of one DID, against the sub-actors minted under it. */
  ghost predicate RootOk(env: Env, kv: Kv, id: DidId, ms: seq<Minted>, hashed: set<Bytes>) {
    var document, root := StoredDocument(env, kv, id), StoredRoot(env, kv, id);
    && document.Some? && root.Some? && root.value.did == id
    && root.value.leafCount == |ms|
    && (CollisionFree(env.hash, hashed) ==> root.value.merkleRoot == Mth(env.hash, Leaves(env, id, ms)))
    && (!document.value.deactivated ==> root.value.control == document.value.control)
  }

  ghost predicate AccountOk(env: Env, kv: Kv, id: DidId, ms: seq<Minted>, hashed: set<Bytes>) {
    && ValidDid(env, id)
    && RootOk(env, kv, id, ms, hashed)
    && MthPreimages(env.hash, Leaves(env, id, ms)) <= hashed
    && (forall i :: 0 <= i < |ms| ==> SubOk(env, kv, id, ms[i]))
    && (forall i, j :: 0 <= i < j < |ms| ==> SlotOf(id, ms[i]) != SlotOf(id, ms[j]))
  }

  /**
    The records of state and ledger correspond one to one. `hashed` holds every tree preimage hashed so
    far, by the executor when checking proofs or by a holder of the leaves; unless two of them collide,
    every stored root is the true tree hash.
  */
  ghost predicate Committed(env: Env, kv: Kv, ledger: Ledger, hashed: set<Bytes>) {
    && (forall id {:trigger DidKey(id)} :: DidKey(id) in kv <==> id in ledger)
    && (forall id {:trigger ActorKey(Root(id))} :: ActorKey(Root(id)) in kv <==> id in ledger)
    && (forall id, tag, index {:trigger ActorKey(Sub(id, tag, index))} ::
          ActorKey(Sub(id, tag, index)) in kv ==> id in ledger && HasSlot(ledger[id], tag, index))
    && (forall id :: id in ledger ==> AccountOk(env, kv, id, ledger[id], hashed))
  }

  // ---------------------------------------------------------------- frames

  ghost predicate SameAt(kv: Kv, kv': Kv, key: Bytes) {
    (key in kv <==> key in kv') && (key in kv ==> kv[key] == kv'[key])
  }

  /** Among the records, only those of `id` may differ. */
  ghost predicate TouchesOnly(kv: Kv, kv': Kv, id: DidId) {
    && (forall d {:trigger DidKey(d)} :: d != id ==> SameAt(kv, kv', DidKey(d)))
    && (forall a {:trigger ActorKey(a)} :: OwnerOf(a) != id ==> SameAt(kv, kv', ActorKey(a)))
  }

  lemma SubFrame(env: Env, kv: Kv, kv': Kv, id: DidId, m: Minted)
    requires SubOk(env, kv, id, m) && SameAt(kv, kv', ActorKey(SlotOf(id, m)))
    ensures SubOk(env, kv', id, m)
  {
    hide ActorKey, TakeSub;
  }

  lemma FewerHashed(h: HashFn, fewer: set<Bytes>, more: set<Bytes>)
    requires fewer <= more && CollisionFree(h, more)
    ensures CollisionFree(h, fewer)
  {
  }

  lemma RootFrame(env: Env, kv: Kv, kv': Kv, id: DidId, ms: seq<Minted>, hashed: set<Bytes>, hashed': set<Bytes>)
    requires RootOk(env, kv, id, ms, hashed) && hashed <= hashed'
    requires SameAt(kv, kv', DidKey(id)) && SameAt(kv, kv', ActorKey(Root(id)))
    ensures RootOk(env, kv', id, ms, hashed')
  {
    hide ActorKey, DidKey, TakeDocument, TakeRoot, Mth, Leaves, CollisionFree;
    if CollisionFree(env.hash, hashed') { FewerHashed(env.hash, hashed, hashed'); }
  }

  lemma AccountFrame(env: Env, kv: Kv, kv': Kv, id: DidId, other: DidId, ms: seq<Minted>, hashed: set<Bytes>,
                     hashed': set<Bytes>)
    requires AccountOk(env, kv, other, ms, hashed) && hashed <= hashed'
    requires TouchesOnly(kv, kv', id) && other != id
    ensures AccountOk(env, kv', other, ms, hashed')
  {
    hide ActorKey, DidKey, RootOk, SubOk, ValidDid, Leaves, MthPreimages;
    RootFrame(env, kv, kv', other, ms, hashed, hashed');
    forall i | 0 <= i < |ms| ensures SubOk(env, kv', other, ms[i]) {
      assert SubOk(env, kv, other, ms[i]);
      assert SameAt(kv, kv', ActorKey(SlotOf(other, ms[i])));
      SubFrame(env, kv, kv', other, ms[i]);
    }
  }

  /** A step that touches one DID keeps the correspondence once that DID's own account is in order. */
  lemma Assemble(env: Env, kv: Kv, kv': Kv, ledger: Ledger, id: DidId, ms: seq<Minted>, hashed: set<Bytes>,
                 hashed': set<Bytes>)
    requires Committed(env, kv, ledger, hashed) && hashed <= hashed' && TouchesOnly(kv, kv', id)
    requires DidKey(id) in kv' && ActorKey(Root(id)) in kv' && AccountOk(env, kv', id, ms, hashed')
    requires forall tag, index {:trigger ActorKey(Sub(id, tag, index))} ::
      ActorKey(Sub(id, tag, index)) in kv' ==> HasSlot(ms, tag, index)
    ensures Committed(env, kv', ledger[id := ms], hashed')
  {
    hide ActorKey, DidKey, AccountOk, HasSlot;
    var ledger' := ledger[id := ms];
    forall d ensures DidKey(d) in kv' <==> d in ledger' {
      assert d != id ==> SameAt(kv, kv', DidKey(d));
    }
    forall d ensures ActorKey(Root(d)) in kv' <==> d in ledger' {
      assert d != id ==> SameAt(kv, kv', ActorKey(Root(d)));
    }
    forall d, tag, index | ActorKey(Sub(d, tag, index)) in kv'
      ensures d in ledger' && HasSlot(ledger'[d], tag, index)
    {
      assert d != id ==> SameAt(kv, kv', ActorKey(Sub(d, tag, index)));
    }
    forall d | d in ledger' ensures AccountOk(env, kv', d, ledger'[d], hashed') {
      if d != id { AccountFrame(env, kv, kv', id, d, ledger[d], hashed, hashed'); }
    }
  }

  // ---------------------------------------------------------------- stored records

  lemma DocumentStored(env: Env, kv: Kv, id: DidId, d: DidDocument)
    requires ValidDocument(env, d) && DidKey(id) in kv && kv[DidKey(id)] == PutDocument(d)
    ensures StoredDocument(env, kv, id) == Some(d)
  {
    hide DidKey, PutDocument, TakeDocument;
    TakeDocumentAppended(env, d, []);
    assert PutDocument(d) + [] == PutDocument(d);
  }

  lemma RootStored(env: Env, kv: Kv, id: DidId, r: RootActor)
    requires ValidDid(env, r.did) && env.isPoint(r.control)
    requires ActorKey(Root(id)) in kv && kv[ActorKey(Root(id))] == PutRoot(r)
    ensures StoredRoot(env, kv, id) == Some(r)
  {
    hide ActorKey, PutRoot, TakeRoot, ValidDid;
    TakeRootAppended(env, r, []);
    assert PutRoot(r) + [] == PutRoot(r);
  }

  lemma SubStored(env: Env, kv: Kv, a: SubActor)
    requires a.id.Sub? && a.id.index < INDEX_LIMIT && ValidDid(env, a.id.rootDid)
    requires env.isPoint(a.control) && env.isPoint(a.operating)
    requires ActorKey(a.id) in kv && kv[ActorKey(a.id)] == PutSub(a)
    ensures StoredSub(env, kv, a.id) == Some(a)
  {
    hide ActorKey, PutSub, TakeSub, ValidDid;
    TakeSubAppended(env, a, []);
    assert PutSub(a) + [] == PutSub(a);
  }

  /** The keys in stored records are curve points. */
  lemma StoredPoints(env: Env, kv: Kv, id: DidId, a: ActorId)
    ensures StoredRoot(env, kv, id).Some? ==> env.isPoint(StoredRoot(env, kv, id).value.control)
    ensures StoredSub(env, kv, a).Some? ==> env.isPoint(StoredSub(env, kv, a).value.control)
  {
    hide ActorKey, TakeDid, TakeActor, TakeU64, Take;
  }

  /** Setting records of `id` touches no other DID. */
  lemma SetTouches(kv: Kv, kv': Kv, id: DidId)
    requires forall k :: k in kv.Keys + kv'.Keys && !SameAt(kv, kv', k) ==>
      k == DidKey(id) || exists a :: OwnerOf(a) == id && k == ActorKey(a)
    ensures TouchesOnly(kv, kv', id)
  {
    hide DidKey, ActorKey;
    forall d | d != id ensures SameAt(kv, kv', DidKey(d)) {
      if DidKey(d) == DidKey(id) { DidKeyInjective(d, id); }
      forall a ensures DidKey(d) != ActorKey(a) { KeyKinds(d, a); }
    }
    forall a | OwnerOf(a) != id ensures SameAt(kv, kv', ActorKey(a)) {
      KeyKinds(id, a);
      forall b | ActorKey(b) == ActorKey(a) ensures a == b { ActorKeyInjective(a, b); }
    }
  }

  // ---------------------------------------------------------------- creation and update

  lemma NoLeaves(env: Env, id: DidId)
    ensures Leaves(env, id, []) == [] && Mth(env.hash, Leaves(env, id, [])) == EmptyRoot(env.hash)
    ensures MthPreimages(env.hash, Leaves(env, id, [])) == {}
  {
  }

  lemma CreateKeeps(env: Env, kv: Kv, kv': Kv, ledger: Ledger, hashed: set<Bytes>, op: DidOp)
    requires Committed(env, kv, ledger, hashed) && ValidOp(env, Did(op)) && op.isCreation
    requires DidOutcome(env, kv, op).Ok? && kv' == ApplyWrites(kv, DidOutcome(env, kv, op).value)
    ensures op.id !in ledger && Committed(env, kv', ledger[op.id := []], hashed)
  {
    hide DidKey, ActorKey, PutDocument, PutRoot, StoredDocument, StoredRoot, ValidDid, ValidDocument, Mth,
         MthPreimages, Leaves, CollisionFree, DidSigned, SignedBy;
    var id := op.id;
    var root := RootActor(id, EmptyRoot(env.hash), 0, op.document.control);
    DocumentLimits(env, op.document);
    TwoWrites(kv, Write(DidKey(id), Some(PutDocument(op.document))), Write(ActorKey(Root(id)), Some(PutRoot(root))));
    assert kv' == kv[DidKey(id) := PutDocument(op.document)][ActorKey(Root(id)) := PutRoot(root)];
    KeyKinds(id, Root(id));
    SetTouches(kv, kv', id);
    DocumentStored(env, kv', id, op.document);
    RootStored(env, kv', id, root);
    NoLeaves(env, id);
    forall tag, index ensures ActorKey(Sub(id, tag, index)) !in kv' {
      KeyKinds(id, Sub(id, tag, index));
      if ActorKey(Sub(id, tag, index)) == ActorKey(Root(id)) { ActorKeyInjective(Sub(id, tag, index), Root(id)); }
      assert DidKey(id) !in kv;
    }
    Assemble(env, kv, kv', ledger, id, [], hashed, hashed);
  }

  lemma DocumentLimits(env: Env, d: DidDocument)
    requires ValidDocument(env, d)
    ensures env.isPoint(d.control) && |d.methods| <= MAX_METHODS
  {
  }

  /** The sub-actor records of `id` survive when their keys do. */
  lemma SubsFrame(env: Env, kv: Kv, kv': Kv, id: DidId, ms: seq<Minted>, hashed: set<Bytes>)
    requires AccountOk(env, kv, id, ms, hashed)
    requires forall tag, index {:trigger ActorKey(Sub(id, tag, index))} ::
      SameAt(kv, kv', ActorKey(Sub(id, tag, index)))
    ensures forall i :: 0 <= i < |ms| ==> SubOk(env, kv', id, ms[i])
  {
    hide ActorKey, RootOk, SubOk, ValidDid, Leaves, MthPreimages;
    forall i | 0 <= i < |ms| ensures SubOk(env, kv', id, ms[i]) {
      assert SubOk(env, kv, id, ms[i]);
      assert SameAt(kv, kv', ActorKey(Sub(id, ms[i].tag, ms[i].index)));
      SubFrame(env, kv, kv', id, ms[i]);
    }
  }

  lemma UpdateKeeps(env: Env, kv: Kv, kv': Kv, ledger: Ledger, hashed: set<Bytes>, op: DidOp)
    requires Committed(env, kv, ledger, hashed) && ValidOp(env, Did(op)) && !op.isCreation
    requires DidOutcome(env, kv, op).Ok? && kv' == ApplyWrites(kv, DidOutcome(env, kv, op).value)
    ensures Committed(env, kv', ledger, hashed)
  {
    hide DidKey, ActorKey, PutDocument, PutRoot, StoredDocument, StoredRoot, ValidDid, ValidDocument, Mth,
         MthPreimages, Leaves, CollisionFree, DidSigned, SignedBy, SubOk, HasSlot;
    var id := op.id;
    var ms := ledger[id];
    assert AccountOk(env, kv, id, ms, hashed);
    var prior := StoredRoot(env, kv, id).value;
    var root := RootActor(id, prior.merkleRoot, prior.leafCount, op.document.control);
    DocumentLimits(env, op.document);
    var document := Write(DidKey(id), Some(PutDocument(op.document)));
    OneWrite(kv, document);
    TwoWrites(kv, document, Write(ActorKey(Root(id)), Some(PutRoot(root))));
    assert kv' == if op.document.deactivated then kv[DidKey(id) := PutDocument(op.document)]
                  else kv[DidKey(id) := PutDocument(op.document)][ActorKey(Root(id)) := PutRoot(root)];
    KeyKinds(id, Root(id));
    SetTouches(kv, kv', id);
    DocumentStored(env, kv', id, op.document);
    if op.document.deactivated {
      SameRoot(env, kv, kv', id);
    } else {
      RootStored(env, kv', id, root);
    }
    forall tag, index ensures SameAt(kv, kv', ActorKey(Sub(id, tag, index))) {
      KeyKinds(id, Sub(id, tag, index));
      if ActorKey(Sub(id, tag, index)) == ActorKey(Root(id)) { ActorKeyInjective(Sub(id, tag, index), Root(id)); }
    }
    SubsFrame(env, kv, kv', id, ms, hashed);
    Assemble(env, kv, kv', ledger, id, ms, hashed, hashed);
    assert ledger[id := ms] == ledger;
  }

  lemma SameRoot(env: Env, kv: Kv, kv': Kv, id: DidId)
    requires SameAt(kv, kv', ActorKey(Root(id)))
    ensures StoredRoot(env, kv', id) == StoredRoot(env, kv, id)
  {
    hide ActorKey, TakeRoot;
  }

  lemma SameDocument(env: Env, kv: Kv, kv': Kv, id: DidId)
    requires SameAt(kv, kv', DidKey(id))
    ensures StoredDocument(env, kv', id) == StoredDocument(env, kv, id)
  {
    hide DidKey, TakeDocument;
  }

  // ---------------------------------------------------------------- minting

  /** The tree preimages hashed to check a mint's two proofs, and to build the tree they claim. */
  ghost function MintHashed(env: Env, root: RootActor, ms: seq<Minted>, op: SubActorOp): set<Bytes> {
    ConsistencyHashed(env.hash, root.merkleRoot, op.consistency)
    + InclusionHashed(env.hash, LeafOf(env, op.Id(), op.control), op.inclusion)
    + MthPreimages(env.hash, Leaves(env, op.rootDid, ms + [Minted(op.tag, op.index, op.control)]))
  }

  /** The two proofs force the claimed root to be the tree hash of the leaves minted so far and the new one. */
  lemma MintForced(env: Env, root: RootActor, ms: seq<Minted>, op: SubActorOp, hashed: set<Bytes>)
    requires ProofsChecked(env, root, op).Ok? && root.leafCount == |ms|
    requires MthPreimages(env.hash, Leaves(env, op.rootDid, ms)) <= hashed && MintHashed(env, root, ms, op) <= hashed
    ensures Succ(root.leafCount) == |ms| + 1
    ensures CollisionFree(env.hash, hashed) && root.merkleRoot == Mth(env.hash, Leaves(env, op.rootDid, ms)) ==>
      op.newRoot == Mth(env.hash, Leaves(env, op.rootDid, ms + [Minted(op.tag, op.index, op.control)]))
  {
    hide Mth, MthPreimages, CollisionFree, LeafHash, ConsistencyHashed, InclusionHashed, InclusionRec,
         VerifyConsistency, LeafData;
    var leaf := LeafOf(env, op.Id(), op.control);
    var leaves := Leaves(env, op.rootDid, ms);
    assert Leaves(env, op.rootDid, ms + [Minted(op.tag, op.index, op.control)]) == leaves + [leaf];
    if CollisionFree(env.hash, hashed) && root.merkleRoot == Mth(env.hash, leaves) {
      AppendForced(env.hash, hashed, leaves, leaf, op.consistency, op.inclusion, op.newRoot);
    }
  }

  lemma MintKeeps(env: Env, kv: Kv, kv': Kv, ledger: Ledger, hashed: set<Bytes>, hashed': set<Bytes>, op: SubActorOp)
    requires Committed(env, kv, ledger, hashed) && ValidOp(env, Mint(op))
    requires MintOutcome(env, kv, op).Ok? && kv' == ApplyWrites(kv, MintOutcome(env, kv, op).value)
    requires op.rootDid in ledger && StoredRoot(env, kv, op.rootDid).Some?
    requires hashed' == hashed + MintHashed(env, StoredRoot(env, kv, op.rootDid).value, ledger[op.rootDid], op)
    ensures var minted := Minted(op.tag, op.index, op.control);
      Committed(env, kv', ledger[op.rootDid := ledger[op.rootDid] + [minted]], hashed')
  {
    hide DidKey, ActorKey, PutSub, PutRoot, StoredDocument, StoredRoot, StoredSub, ValidDid, Mth, MthPreimages,
         Leaves, CollisionFree, MintSigned, SigningKey, ProofsChecked, ConsistencyHashed, InclusionHashed, LeafOf,
         Succ, HasSlot;
    var id, a := op.rootDid, op.Id();
    var ms := ledger[id];
    var minted := Minted(op.tag, op.index, op.control);
    assert AccountOk(env, kv, id, ms, hashed);
    var prior := StoredRoot(env, kv, id).value;
    var root := RootActor(id, op.newRoot, Succ(prior.leafCount), prior.control);
    var sub := SubActor(a, op.control, op.operating);
    TwoWrites(kv, Write(ActorKey(a), Some(PutSub(sub))), Write(ActorKey(Root(id)), Some(PutRoot(root))));
    assert kv' == kv[ActorKey(a) := PutSub(sub)][ActorKey(Root(id)) := PutRoot(root)];
    if ActorKey(a) == ActorKey(Root(id)) { ActorKeyInjective(a, Root(id)); }
    KeyKinds(id, Root(id));
    KeyKinds(id, a);
    assert OwnerOf(a) == id && OwnerOf(Root(id)) == id;
    SetTouches(kv, kv', id);
    SameDocument(env, kv, kv', id);
    StoredPoints(env, kv, id, a);
    RootStored(env, kv', id, root);
    SubStored(env, kv', sub);
    MintForced(env, prior, ms, op, hashed');
    if CollisionFree(env.hash, hashed') { FewerHashed(env.hash, hashed, hashed'); }
    assert RootOk(env, kv', id, ms + [minted], hashed');
    MintedSubs(env, kv, kv', id, ms, minted, hashed);
    forall tag, index | ActorKey(Sub(id, tag, index)) in kv' ensures HasSlot(ms + [minted], tag, index) {
      if ActorKey(Sub(id, tag, index)) == ActorKey(Root(id)) { ActorKeyInjective(Sub(id, tag, index), Root(id)); }
      if ActorKey(Sub(id, tag, index)) == ActorKey(a) { ActorKeyInjective(Sub(id, tag, index), a); }
      SlotsGrow(ms, minted, tag, index);
    }
    Assemble(env, kv, kv', ledger, id, ms + [minted], hashed, hashed');
  }

  lemma SlotsGrow(ms: seq<Minted>, m: Minted, tag: Tag, index: U32)
    ensures HasSlot(ms, tag, index) || (m.tag == tag && m.index == index) ==> HasSlot(ms + [m], tag, index)
  {
    if HasSlot(ms, tag, index) {
      var i :| 0 <= i < |ms| && ms[i].tag == tag && ms[i].index == index;
      assert (ms + [m])[i] == ms[i];
    } else if m.tag == tag && m.index == index {
      assert (ms + [m])[|ms|] == m;
    }
  }

  lemma MintedSubs(env: Env, kv: Kv, kv': Kv, id: DidId, ms: seq<Minted>, m: Minted, hashed: set<Bytes>)
    requires AccountOk(env, kv, id, ms, hashed) && ActorKey(SlotOf(id, m)) !in kv && SubOk(env, kv', id, m)
    requires forall k :: k in kv && k != ActorKey(Root(id)) ==> k in kv' && kv'[k] == kv[k]
    ensures forall i :: 0 <= i < |ms| + 1 ==> SubOk(env, kv', id, (ms + [m])[i])
    ensures forall i, j :: 0 <= i < j < |ms| + 1 ==> SlotOf(id, (ms + [m])[i]) != SlotOf(id, (ms + [m])[j])
  {
    hide ActorKey, RootOk, ValidDid, Leaves, MthPreimages, TakeSub;
    forall i | 0 <= i < |ms| ensures SubOk(env, kv', id, ms[i]) && SlotOf(id, ms[i]) != SlotOf(id, m) {
      assert SubOk(env, kv, id, ms[i]);
      if ActorKey(SlotOf(id, ms[i])) == ActorKey(Root(id)) { ActorKeyInjective(SlotOf(id, ms[i]), Root(id)); }
    }
  }

  // ---------------------------------------------------------------- rebinding and plain writes

  lemma RebindKeeps(env: Env, kv: Kv, kv': Kv, ledger: Ledger, hashed: set<Bytes>, op: RebindOp)
    requires Committed(env, kv, ledger, hashed) && ValidOp(env, Rebind(op))
    requires RebindOutcome(env, kv, op).Ok? && kv' == ApplyWrites(kv, RebindOutcome(env, kv, op).value)
    ensures Committed(env, kv', ledger, hashed)
  {
    hide DidKey, ActorKey, PutSub, StoredDocument, StoredRoot, ValidDid, Mth, MthPreimages, Leaves, CollisionFree,
         RebindSigned, TakeSub, HasSlot;
    var id, a := op.id.rootDid, op.id;
    var prior := StoredSub(env, kv, a).value;
    var sub := SubActor(a, prior.control, op.newOperating);
    OneWrite(kv, Write(ActorKey(a), Some(PutSub(sub))));
    assert kv' == kv[ActorKey(a) := PutSub(sub)];
    assert ActorKey(Sub(id, a.tag, a.index)) in kv;
    var ms := ledger[id];
    assert AccountOk(env, kv, id, ms, hashed);
    if ActorKey(a) == ActorKey(Root(id)) { ActorKeyInjective(a, Root(id)); }
    KeyKinds(id, a);
    assert OwnerOf(a) == id;
    SetTouches(kv, kv', id);
    RootFrame(env, kv, kv', id, ms, hashed, hashed);
    StoredPoints(env, kv, id, a);
    SubStored(env, kv', sub);
    forall i | 0 <= i < |ms| ensures SubOk(env, kv', id, ms[i]) {
      assert SubOk(env, kv, id, ms[i]);
      if ActorKey(SlotOf(id, ms[i])) == ActorKey(a) { ActorKeyInjective(SlotOf(id, ms[i]), a); }
    }
    Assemble(env, kv, kv', ledger, id, ms, hashed, hashed);
    assert ledger[id := ms] == ledger;
  }

  lemma PlainKeeps(env: Env, kv: Kv, kv': Kv, ledger: Ledger, hashed: set<Bytes>, key: Bytes)
    requires Committed(env, kv, ledger, hashed) && !Reserved(key)
    requires forall k :: k != key ==> SameAt(kv, kv', k)
    ensures Committed(env, kv', ledger, hashed)
  {
    hide DidKey, ActorKey, SubOk, RootOk, ValidDid, MthPreimages, Leaves, HasSlot;
    forall d ensures SameAt(kv, kv', DidKey(d)) { KeyKinds(d, Root(d)); }
    forall a ensures SameAt(kv, kv', ActorKey(a)) { KeyKinds(OwnerOf(a), a); }
    forall id | id in ledger ensures AccountOk(env, kv', id, ledger[id], hashed) {
      assert AccountOk(env, kv, id, ledger[id], hashed);
      RootFrame(env, kv, kv', id, ledger[id], hashed, hashed);
      SubsFrame(env, kv, kv', id, ledger[id], hashed);
    }
  }

  // ---------------------------------------------------------------- every run

  /** The bookkeeping that accompanies a run: who was minted, and what was hashed. */
  datatype Books = Books(ledger: Ledger, hashed: set<Bytes>)

  ghost function BooksAfterOp(env: Env, kv: Kv, books: Books, op: Op): Books
    requires ValidOp(env, op)
  {
    if !OpOutcome(env, kv, op).Written? then books
    else if op.Did? && op.did.isCreation then books.(ledger := books.ledger[op.did.id := []])
    else if op.Mint? && op.mint.rootDid in books.ledger && StoredRoot(env, kv, op.mint.rootDid).Some? then
      var m, ms := op.mint, books.ledger[op.mint.rootDid];
      Books(books.ledger[m.rootDid := ms + [Minted(m.tag, m.index, m.control)]],
            books.hashed + MintHashed(env, StoredRoot(env, kv, m.rootDid).value, ms, m))
    else books
  }

  ghost function BooksAfter(env: Env, kv: Kv, books: Books, payload: Bytes): Books {
    match Decode(env, payload)
    case Err(_) => books
    case Ok(op) => DecodedIsValid(env, payload); BooksAfterOp(env, kv, books, op)
  }

  ghost function BooksAfterRun(env: Env, kv: Kv, books: Books, payloads: seq<Bytes>): Books {
    if payloads == [] then books
    else
      var before := payloads[..|payloads| - 1];
      BooksAfter(env, Run(env, kv, before), BooksAfterRun(env, kv, books, before), payloads[|payloads| - 1])
  }

  lemma MintFindsRoot(env: Env, kv: Kv, books: Books, op: SubActorOp)
    requires Committed(env, kv, books.ledger, books.hashed) && MintOutcome(env, kv, op).Ok?
    ensures op.rootDid in books.ledger && StoredRoot(env, kv, op.rootDid).Some?
  {
    hide ActorKey, DidKey, TakeDocument, StoredRoot, ProofsChecked, AccountOk, HasSlot, SigningKey, MintSigned;
  }

  lemma OpKeeps(env: Env, kv: Kv, books: Books, op: Op)
    requires Committed(env, kv, books.ledger, books.hashed) && ValidOp(env, op)
    requires op.Put? || op.Delete? ==> !Reserved(op.key)
    ensures var after := BooksAfterOp(env, kv, books, op);
      Committed(env, ApplyWrites(kv, WritesOf(OpOutcome(env, kv, op))), after.ledger, after.hashed)
  {
    hide Committed, DidOutcome, MintOutcome, RebindOutcome, ApplyWrites, MintHashed, StoredRoot, ValidDid,
         ValidDocument;
    var ws := WritesOf(OpOutcome(env, kv, op));
    var kv' := ApplyWrites(kv, ws);
    match op
    case Put(key, value) =>
      OneWrite(kv, Write(key, Some(value)));
      PlainKeeps(env, kv, kv', books.ledger, books.hashed, key);
    case Delete(key) => OneWrite(kv, Write(key, None)); PlainKeeps(env, kv, kv', books.ledger, books.hashed, key);
    case Membership(_) => NoWrites(kv);
    case Did(d) =>
      DocumentLimits(env, d.document);
      if DidOutcome(env, kv, d).Err? {
        NoWrites(kv);
      } else if d.isCreation {
        CreateKeeps(env, kv, kv', books.ledger, books.hashed, d);
      } else {
        UpdateKeeps(env, kv, kv', books.ledger, books.hashed, d);
      }
    case Mint(m) =>
      if MintOutcome(env, kv, m).Err? {
        NoWrites(kv);
      } else {
        MintFindsRoot(env, kv, books, m);
        MintKeeps(env, kv, kv', books.ledger, books.hashed, BooksAfterOp(env, kv, books, op).hashed, m);
      }
    case Rebind(r) =>
      if RebindOutcome(env, kv, r).Err? {
        NoWrites(kv);
      } else {
        RebindKeeps(env, kv, kv', books.ledger, books.hashed, r);
      }
  }

  lemma StepKeeps(env: Env, kv: Kv, books: Books, payload: Bytes)
    requires Committed(env, kv, books.ledger, books.hashed)
    ensures var after := BooksAfter(env, kv, books, payload);
      Committed(env, Step(env, kv, payload), after.ledger, after.hashed)
  {
    hide Committed, OpOutcome, BooksAfterOp, Decode, ApplyWrites;
    if Decode(env, payload).Ok? {
      DecodedIsValid(env, payload);
      OpKeeps(env, kv, books, Decode(env, payload).value);
    } else {
      NoWrites(kv);
    }
  }

  lemma {:induction false} RunKeeps(env: Env, kv: Kv, books: Books, payloads: seq<Bytes>)
    requires Committed(env, kv, books.ledger, books.hashed)
    ensures var after := BooksAfterRun(env, kv, books, payloads);
      Committed(env, Run(env, kv, payloads), after.ledger, after.hashed)
  {
    hide Committed, Step, BooksAfter;
    if payloads != [] {
      var before := payloads[..|payloads| - 1];
      RunKeeps(env, kv, books, before);
      StepKeeps(env, Run(env, kv, before), BooksAfterRun(env, kv, books, before), payloads[|payloads| - 1]);
    }
  }

  /**
    From the empty state, whatever bytes are executed: every stored root is the log of its mints, or a
    collision was hashed.
  */
  lemma RunCommitted(env: Env, payloads: seq<Bytes>)
    ensures var after := BooksAfterRun(env, map[], Books(map[], {}), payloads);
      Committed(env, Run(env, map[], payloads), after.ledger, after.hashed)
  {
    hide Run, BooksAfterRun, AccountOk;
    RunKeeps(env, map[], Books(map[], {}), payloads);
  }

  // ---------------------------------------------------------------- what never changes

  /** No record of `id` differs. */
  ghost predicate SameRecords(kv: Kv, kv': Kv, id: DidId) {
    && SameAt(kv, kv', DidKey(id))
    && (forall a {:trigger ActorKey(a)} :: OwnerOf(a) == id ==> SameAt(kv, kv', ActorKey(a)))
  }

  lemma PlainTouchesNone(kv: Kv, w: Write, id: DidId)
    requires !Reserved(w.key)
    ensures SameRecords(kv, ApplyWrites(kv, [w]), id)
  {
    hide DidKey, ActorKey;
    OneWrite(kv, w);
    KeyKinds(id, Root(id));
    forall a | OwnerOf(a) == id ensures SameAt(kv, ApplyWrite(kv, w), ActorKey(a)) { KeyKinds(id, a); }
  }

  lemma DidOpTouches(env: Env, kv: Kv, op: DidOp)
    requires |op.document.methods| <= MAX_METHODS && DidOutcome(env, kv, op).Ok?
    ensures TouchesOnly(kv, ApplyWrites(kv, DidOutcome(env, kv, op).value), op.id)
  {
    hide DidKey, ActorKey, PutDocument, PutRoot, StoredDocument, StoredRoot, DidSigned, SignedBy;
    var document := Write(DidKey(op.id), Some(PutDocument(op.document)));
    var root := Write(ActorKey(Root(op.id)), Some(PutRoot(RootAfter(env, kv, op))));
    OneWrite(kv, document);
    TwoWrites(kv, document, root);
    assert OwnerOf(Root(op.id)) == op.id;
    SetTouches(kv, ApplyWrites(kv, DidOutcome(env, kv, op).value), op.id);
  }

  lemma MintTouches(env: Env, kv: Kv, op: SubActorOp)
    requires MintOutcome(env, kv, op).Ok?
    ensures TouchesOnly(kv, ApplyWrites(kv, MintOutcome(env, kv, op).value), op.rootDid)
  {
    hide DidKey, ActorKey, PutSub, PutRoot, StoredDocument, StoredRoot, MintSigned, ProofsChecked;
    var ws := MintOutcome(env, kv, op).value;
    TwoWrites(kv, ws[0], ws[1]);
    assert ws == [ws[0], ws[1]];
    assert OwnerOf(op.Id()) == op.rootDid && OwnerOf(Root(op.rootDid)) == op.rootDid;
    SetTouches(kv, ApplyWrites(kv, ws), op.rootDid);
  }

  lemma RebindTouches(env: Env, kv: Kv, op: RebindOp)
    requires RebindOutcome(env, kv, op).Ok?
    ensures TouchesOnly(kv, ApplyWrites(kv, RebindOutcome(env, kv, op).value), op.id.rootDid)
  {
    hide DidKey, ActorKey, PutSub, StoredDocument, StoredRoot, StoredSub, RebindSigned;
    var ws := RebindOutcome(env, kv, op).value;
    OneWrite(kv, ws[0]);
    assert ws == [ws[0]];
    assert OwnerOf(op.id) == op.id.rootDid;
    SetTouches(kv, ApplyWrites(kv, ws), op.id.rootDid);
  }

  lemma OthersSame(kv: Kv, kv': Kv, touched: DidId, id: DidId)
    requires TouchesOnly(kv, kv', touched) && touched != id
    ensures SameRecords(kv, kv', id)
  {
    hide DidKey, ActorKey;
  }

  ghost predicate Retired(env: Env, kv: Kv, id: DidId) {
    StoredDocument(env, kv, id).Some? && StoredDocument(env, kv, id).value.deactivated
  }

  lemma RetiredStep(env: Env, kv: Kv, payload: Bytes, id: DidId)
    requires Retired(env, kv, id)
    ensures SameRecords(kv, Step(env, kv, payload), id) && Retired(env, Step(env, kv, payload), id)
  {
    hide Decode, ApplyWrites, SameRecords, TakeDocument, DidKey, ActorKey, StoredRoot, StoredSub, SignedBy,
         ValidDid, ValidDocument;
    var kv' := Step(env, kv, payload);
    NoWrites(kv);
    SameRecordsReflexive(kv, id);
    if Decode(env, payload).Ok? {
      DecodedIsValid(env, payload);
      match Decode(env, payload).value
      case Put(key, value) => PlainTouchesNone(kv, Write(key, Some(value)), id);
      case Delete(key) => PlainTouchesNone(kv, Write(key, None), id);
      case Membership(_) =>
      case Did(d) =>
        DocumentLimits(env, d.document);
        if DidOutcome(env, kv, d).Ok? { DidOpTouches(env, kv, d); OthersSame(kv, kv', d.id, id); }
      case Mint(m) =>
        if MintOutcome(env, kv, m).Ok? { MintTouches(env, kv, m); OthersSame(kv, kv', m.rootDid, id); }
      case Rebind(r) =>
        if RebindOutcome(env, kv, r).Ok? { RebindTouches(env, kv, r); OthersSame(kv, kv', r.id.rootDid, id); }
    }
    RetiredStays(env, kv, kv', id);
  }

  lemma SameRecordsReflexive(kv: Kv, id: DidId)
    ensures SameRecords(kv, kv, id)
  {
  }

  lemma RetiredStays(env: Env, kv: Kv, kv': Kv, id: DidId)
    requires Retired(env, kv, id) && SameRecords(kv, kv', id)
    ensures Retired(env, kv', id)
  {
    hide DidKey, ActorKey, StoredDocument;
    SameDocument(env, kv, kv', id);
  }

  /** Deactivation is final: whatever is executed afterwards, no record of the DID changes, appears or disappears. */
  lemma {:induction false} RetiredForever(env: Env, kv: Kv, payloads: seq<Bytes>, id: DidId)
    requires Retired(env, kv, id)
    ensures SameRecords(kv, Run(env, kv, payloads), id) && Retired(env, Run(env, kv, payloads), id)
  {
    hide Step, Retired, DidKey, ActorKey;
    if payloads != [] {
      var before := payloads[..|payloads| - 1];
      RetiredForever(env, kv, before, id);
      RetiredStep(env, Run(env, kv, before), payloads[|payloads| - 1], id);
    }
  }

  lemma BooksGrowStep(env: Env, kv: Kv, books: Books, payload: Bytes, id: DidId)
    requires Committed(env, kv, books.ledger, books.hashed) && id in books.ledger
    ensures var after := BooksAfter(env, kv, books, payload);
      id in after.ledger && books.ledger[id] <= after.ledger[id] && books.hashed <= after.hashed
  {
    hide Decode, MintOutcome, RebindOutcome, SignedBy, DidSigned, MintHashed, AccountOk, HasSlot, ActorKey, DidKey,
         ValidDid, ValidDocument, StoredDocument, StoredRoot, RootAfter;
    if Decode(env, payload).Ok? {
      DecodedIsValid(env, payload);
      var op := Decode(env, payload).value;
      if op.Did? { DocumentLimits(env, op.did.document); }
    }
  }

  lemma {:induction false} BooksGrow(env: Env, kv: Kv, books: Books, payloads: seq<Bytes>, id: DidId)
    requires Committed(env, kv, books.ledger, books.hashed) && id in books.ledger
    ensures var after := BooksAfterRun(env, kv, books, payloads);
      id in after.ledger && books.ledger[id] <= after.ledger[id] && books.hashed <= after.hashed
  {
    hide Step, BooksAfter, Committed;
    if payloads != [] {
      var before := payloads[..|payloads| - 1];
      BooksGrow(env, kv, books, before, id);
      RunKeeps(env, kv, books, before);
      BooksGrowStep(env, Run(env, kv, before), BooksAfterRun(env, kv, books, before), payloads[|payloads| - 1], id);
    }
  }

  /** A minted sub-actor stays: over any further run its record remains, in its slot, under its control key. */
  lemma MintedForever(env: Env, kv: Kv, books: Books, payloads: seq<Bytes>, id: DidId, i: nat)
    requires Committed(env, kv, books.ledger, books.hashed) && id in books.ledger && i < |books.ledger[id]|
    ensures SubOk(env, kv, id, books.ledger[id][i]) && SubOk(env, Run(env, kv, payloads), id, books.ledger[id][i])
  {
    hide SubOk, RootOk, ValidDid, Leaves, MthPreimages, Run, BooksAfterRun, ActorKey, DidKey, HasSlot;
    BooksGrow(env, kv, books, payloads, id);
    RunKeeps(env, kv, books, payloads);
    var after := BooksAfterRun(env, kv, books, payloads);
    assert AccountOk(env, kv, id, books.ledger[id], books.hashed);
    assert AccountOk(env, Run(env, kv, payloads), id, after.ledger[id], after.hashed);
    assert after.ledger[id][i] == books.ledger[id][i];
  }

  // ---------------------------------------------------------------- what an accepted operation leaves to be read

  /** The stored document is the one the operation carried, and an active one's root has its control key. */
  lemma DidTakesEffect(env: Env, kv: Kv, kv': Kv, op: DidOp)
    requires ValidOp(env, Did(op)) && DidOutcome(env, kv, op).Ok?
    requires kv' == ApplyWrites(kv, DidOutcome(env, kv, op).value)
    ensures StoredDocument(env, kv', op.id) == Some(op.document)
    ensures !op.document.deactivated ==> StoredRoot(env, kv', op.id) == Some(RootAfter(env, kv, op))
    ensures op.document.deactivated ==> StoredRoot(env, kv', op.id) == StoredRoot(env, kv, op.id)
  {
    hide DidKey, ActorKey, PutDocument, PutRoot, StoredDocument, StoredRoot, ValidDid, ValidDocument, DidSigned,
         SignedBy, DidSigners;
    DocumentLimits(env, op.document);
    var document, root := Write(DidKey(op.id), Some(PutDocument(op.document))), RootAfter(env, kv, op);
    OneWrite(kv, document);
    TwoWrites(kv, document, Write(ActorKey(Root(op.id)), Some(PutRoot(root))));
    KeyKinds(op.id, Root(op.id));
    DocumentStored(env, kv', op.id, op.document);
    if op.document.deactivated {
      SameRoot(env, kv, kv', op.id);
    } else {
      RootStored(env, kv', op.id, root);
    }
  }

  /**
    The minted record holds both keys of the operation; the root advances by one to the claimed tree hash
    and keeps its control key.
  */
  lemma MintTakesEffect(env: Env, kv: Kv, kv': Kv, op: SubActorOp)
    requires ValidOp(env, Mint(op)) && MintOutcome(env, kv, op).Ok?
    requires kv' == ApplyWrites(kv, MintOutcome(env, kv, op).value)
    ensures StoredSub(env, kv', op.Id()) == Some(SubActor(op.Id(), op.control, op.operating))
    ensures StoredRoot(env, kv, op.rootDid).Some?
    ensures var root := StoredRoot(env, kv, op.rootDid).value;
      StoredRoot(env, kv', op.rootDid) == Some(RootActor(op.rootDid, op.newRoot, Succ(root.leafCount), root.control))
  {
    hide DidKey, ActorKey, PutSub, PutRoot, StoredDocument, StoredRoot, StoredSub, ValidDid, MintSigned,
         SigningKey, ProofsChecked, Succ;
    var id, a := op.rootDid, op.Id();
    var prior := StoredRoot(env, kv, id).value;
    var root := RootActor(id, op.newRoot, Succ(prior.leafCount), prior.control);
    var sub := SubActor(a, op.control, op.operating);
    TwoWrites(kv, Write(ActorKey(a), Some(PutSub(sub))), Write(ActorKey(Root(id)), Some(PutRoot(root))));
    if ActorKey(a) == ActorKey(Root(id)) { ActorKeyInjective(a, Root(id)); }
    StoredPoints(env, kv, id, a);
    RootStored(env, kv', id, root);
    SubStored(env, kv', sub);
  }

  /** A rebind replaces the operating key of the record and nothing else in it. */
  lemma RebindTakesEffect(env: Env, kv: Kv, kv': Kv, op: RebindOp)
    requires ValidOp(env, Rebind(op)) && RebindOutcome(env, kv, op).Ok?
    requires kv' == ApplyWrites(kv, RebindOutcome(env, kv, op).value)
    ensures StoredSub(env, kv, op.id).Some?
    ensures StoredSub(env, kv', op.id) ==
      Some(SubActor(op.id, StoredSub(env, kv, op.id).value.control, op.newOperating))
  {
    hide DidKey, ActorKey, PutSub, StoredDocument, StoredRoot, StoredSub, ValidDid, RebindSigned;
    var sub := SubActor(op.id, StoredSub(env, kv, op.id).value.control, op.newOperating);
    OneWrite(kv, Write(ActorKey(op.id), Some(PutSub(sub))));
    StoredPoints(env, kv, op.id.rootDid, op.id);
    SubStored(env, kv', sub);
  }

  // ---------------------------------------------------------------- who may change what

  /** A signing method of the stored, active document signed the new one. */
  ghost predicate SignedByPrior(env: Env, kv: Kv, op: DidOp)
    requires |op.document.methods| <= MAX_METHODS
  {
    var prior := StoredDocument(env, kv, op.id);
    && prior.Some? && !prior.value.deactivated
    && exists key ::
         Signing(key) in prior.value.methods && env.verifies(key, DidSigned(op.id, op.document), op.signature)
  }

  lemma UpdateIsSigned(env: Env, kv: Kv, op: DidOp)
    requires |op.document.methods| <= MAX_METHODS && DidKey(op.id) in kv && DidOutcome(env, kv, op).Ok?
    ensures SignedByPrior(env, kv, op)
  {
    hide DidKey, ActorKey, PutRoot, PutDocument, TakeDocument, StoredRoot, SigningKeys;
    var prior := StoredDocument(env, kv, op.id).value;
    SigningKeysListed(prior.methods, op.signedBy);
  }

  lemma RecordUntouched(kv: Kv, kv': Kv, touched: DidId, id: DidId)
    requires TouchesOnly(kv, kv', touched) && !SameAt(kv, kv', DidKey(id))
    ensures touched == id
  {
    hide ActorKey;
  }

  lemma ActorOpsKeepDocuments(env: Env, kv: Kv, op: Op, id: DidId)
    requires op.Mint? || op.Rebind?
    requires ValidOp(env, op)
    ensures SameAt(kv, ApplyWrites(kv, WritesOf(OpOutcome(env, kv, op))), DidKey(id))
  {
    hide DidKey, ActorKey, PutSub, PutRoot, StoredDocument, StoredRoot, StoredSub, MintSigned, RebindSigned,
         ProofsChecked, ValidOp;
    NoWrites(kv);
    if op.Mint? && MintOutcome(env, kv, op.mint).Ok? {
      var ws := MintOutcome(env, kv, op.mint).value;
      TwoWrites(kv, ws[0], ws[1]);
      assert ws == [ws[0], ws[1]];
      KeyKinds(id, op.mint.Id());
      KeyKinds(id, Root(op.mint.rootDid));
    } else if op.Rebind? && RebindOutcome(env, kv, op.rebind).Ok? {
      var ws := RebindOutcome(env, kv, op.rebind).value;
      OneWrite(kv, ws[0]);
      assert ws == [ws[0]];
      KeyKinds(id, op.rebind.id);
    }
  }

  /** A stored document changes only through an operation on that DID signed by a signing method of the document. */
  lemma DocumentChangeIsSigned(env: Env, kv: Kv, payload: Bytes, id: DidId)
    requires DidKey(id) in kv && !SameAt(kv, Step(env, kv, payload), DidKey(id))
    ensures Decode(env, payload).Ok? && Decode(env, payload).value.Did?
    ensures var op := Decode(env, payload).value.did;
      op.id == id && |op.document.methods| <= MAX_METHODS && SignedByPrior(env, kv, op)
  {
    hide Decode, ApplyWrites, DidKey, ActorKey, SignedByPrior, DidOutcome, MintOutcome, RebindOutcome, ValidDid,
         ValidDocument;
    NoWrites(kv);
    if Decode(env, payload).Ok? {
      DecodedIsValid(env, payload);
      var op := Decode(env, payload).value;
      if op.Put? {
        PlainTouchesNone(kv, Write(op.key, Some(op.value)), id);
      } else if op.Delete? {
        PlainTouchesNone(kv, Write(op.key, None), id);
      } else if op.Did? {
        DocumentLimits(env, op.did.document);
        if DidOutcome(env, kv, op.did).Ok? {
          DidOpTouches(env, kv, op.did);
          RecordUntouched(kv, Step(env, kv, payload), op.did.id, id);
          UpdateIsSigned(env, kv, op.did);
        }
      } else if !op.Membership? {
        ActorOpsKeepDocuments(env, kv, op, id);
      }
    }
  }

  /** A new document is signed by one of its own signing methods, and is active. */
  ghost predicate SelfSigned(env: Env, op: DidOp)
    requires |op.document.methods| <= MAX_METHODS
  {
    && op.isCreation && !op.document.deactivated
    && exists key ::
         Signing(key) in op.document.methods && env.verifies(key, DidSigned(op.id, op.document), op.signature)
  }

  lemma CreationIsSigned(env: Env, kv: Kv, op: DidOp)
    requires |op.document.methods| <= MAX_METHODS && DidKey(op.id) !in kv && DidOutcome(env, kv, op).Ok?
    ensures SelfSigned(env, op)
  {
    hide DidKey, ActorKey, PutRoot, PutDocument, TakeDocument, StoredRoot, SigningKeys;
    SigningKeysListed(op.document.methods, op.signedBy);
  }

  /** A DID comes into being only through a creation that its own document signs. */
  lemma NewDocumentIsSelfSigned(env: Env, kv: Kv, payload: Bytes, id: DidId)
    requires DidKey(id) !in kv && DidKey(id) in Step(env, kv, payload)
    ensures Decode(env, payload).Ok? && Decode(env, payload).value.Did?
    ensures var op := Decode(env, payload).value.did;
      op.id == id && |op.document.methods| <= MAX_METHODS && SelfSigned(env, op)
  {
    hide Decode, ApplyWrites, DidKey, ActorKey, SelfSigned, DidOutcome, MintOutcome, RebindOutcome, ValidDid,
         ValidDocument;
    NoWrites(kv);
    if Decode(env, payload).Ok? {
      DecodedIsValid(env, payload);
      var op := Decode(env, payload).value;
      if op.Put? {
        PlainTouchesNone(kv, Write(op.key, Some(op.value)), id);
      } else if op.Delete? {
        PlainTouchesNone(kv, Write(op.key, None), id);
      } else if op.Did? {
        DocumentLimits(env, op.did.document);
        if DidOutcome(env, kv, op.did).Ok? {
          DidOpTouches(env, kv, op.did);
          RecordUntouched(kv, Step(env, kv, payload), op.did.id, id);
          CreationIsSigned(env, kv, op.did);
        }
      } else if !op.Membership? {
        ActorOpsKeepDocuments(env, kv, op, id);
      }
    }
  }

  /** The root's document is active and one of its signing methods signed the mint. */
  ghost predicate MintSignedByRoot(env: Env, kv: Kv, op: SubActorOp) {
    var document := StoredDocument(env, kv, op.rootDid);
    && document.Some? && !document.value.deactivated
    && exists key :: Signing(key) in document.value.methods && env.verifies(key, MintSigned(op), op.signature)
  }

  /**
    The new operating key and the root's control key both signed, over the old key the record holds, under
    an active document.
  */
  ghost predicate RebindAuthorized(env: Env, kv: Kv, op: RebindOp)
    requires op.id.Sub?
  {
    var sub, document := StoredSub(env, kv, op.id), StoredDocument(env, kv, op.id.rootDid);
    var root := StoredRoot(env, kv, op.id.rootDid);
    && sub.Some? && document.Some? && !document.value.deactivated && root.Some?
    && env.verifies(op.newOperating, RebindSigned(op, sub.value.operating), op.possession)
    && env.verifies(root.value.control, RebindSigned(op, sub.value.operating), op.authorization)
  }

  lemma MintIsSigned(env: Env, kv: Kv, op: SubActorOp)
    requires MintOutcome(env, kv, op).Ok?
    ensures ActorKey(op.Id()) !in kv && MintSignedByRoot(env, kv, op)
  {
    hide DidKey, ActorKey, PutRoot, PutSub, TakeDocument, StoredRoot, SigningKeys, ProofsChecked, MintSigned;
    SigningKeysListed(StoredDocument(env, kv, op.rootDid).value.methods, op.signedBy);
  }

  lemma RebindIsAuthorized(env: Env, kv: Kv, op: RebindOp)
    requires RebindOutcome(env, kv, op).Ok?
    ensures op.id.Sub? && RebindAuthorized(env, kv, op)
  {
    hide DidKey, ActorKey, PutSub, TakeDocument, TakeSub, TakeRoot, RebindSigned;
  }

  /** Only a mint or a rebind of that very actor reaches the record of a sub-actor. */
  lemma SubActorTouchedBy(env: Env, kv: Kv, op: Op, a: ActorId)
    requires ValidOp(env, op) && a.Sub? && ((op.Put? || op.Delete?) ==> !Reserved(op.key))
    requires !SameAt(kv, ApplyWrites(kv, WritesOf(OpOutcome(env, kv, op))), ActorKey(a))
    ensures (op.Mint? && op.mint.Id() == a && MintOutcome(env, kv, op.mint).Ok?)
         || (op.Rebind? && op.rebind.id == a && RebindOutcome(env, kv, op.rebind).Ok?)
  {
    hide DidKey, ActorKey, PutSub, PutRoot, PutDocument, StoredDocument, StoredRoot, StoredSub, MintSigned,
         RebindSigned, ProofsChecked, SignedBy, DidSigned, RootAfter, DidSigners, ValidDid, ValidDocument,
         Reserved;
    NoWrites(kv);
    match op
    case Put(key, value) => PlainTouchesNone(kv, Write(key, Some(value)), OwnerOf(a));
    case Delete(key) => PlainTouchesNone(kv, Write(key, None), OwnerOf(a));
    case Membership(_) =>
    case Did(d) =>
      DocumentLimits(env, d.document);
      if DidOutcome(env, kv, d).Ok? {
        var document := Write(DidKey(d.id), Some(PutDocument(d.document)));
        OneWrite(kv, document);
        TwoWrites(kv, document, Write(ActorKey(Root(d.id)), Some(PutRoot(RootAfter(env, kv, d)))));
        KeyKinds(d.id, a);
        if ActorKey(a) == ActorKey(Root(d.id)) { ActorKeyInjective(a, Root(d.id)); }
      }
    case Mint(m) =>
      if MintOutcome(env, kv, m).Ok? {
        var ws := MintOutcome(env, kv, m).value;
        TwoWrites(kv, ws[0], ws[1]);
        assert ws == [ws[0], ws[1]];
        if ActorKey(a) == ActorKey(Root(m.rootDid)) { ActorKeyInjective(a, Root(m.rootDid)); }
        if ActorKey(a) == ActorKey(m.Id()) { ActorKeyInjective(a, m.Id()); }
      }
    case Rebind(r) =>
      if RebindOutcome(env, kv, r).Ok? {
        var ws := RebindOutcome(env, kv, r).value;
        OneWrite(kv, ws[0]);
        assert ws == [ws[0]];
        if ActorKey(a) == ActorKey(r.id) { ActorKeyInjective(a, r.id); }
      }
  }

  /** A sub-actor appears only by a mint its root signed, and changes only by a rebind both keys signed. */
  lemma SubActorChangeIsAuthorized(env: Env, kv: Kv, payload: Bytes, a: ActorId)
    requires a.Sub? && !SameAt(kv, Step(env, kv, payload), ActorKey(a))
    ensures Decode(env, payload).Ok?
    ensures var op := Decode(env, payload).value;
      || (op.Mint? && op.mint.Id() == a && ActorKey(a) !in kv && MintSignedByRoot(env, kv, op.mint))
      || (op.Rebind? && op.rebind.id == a && RebindAuthorized(env, kv, op.rebind))
  {
    hide Decode, ApplyWrites, ActorKey, MintSignedByRoot, RebindAuthorized, OpOutcome, MintOutcome, RebindOutcome,
         ValidOp;
    NoWrites(kv);
    if Decode(env, payload).Ok? {
      DecodedIsValid(env, payload);
      var op := Decode(env, payload).value;
      SubActorTouchedBy(env, kv, op, a);
      if op.Mint? { MintIsSigned(env, kv, op.mint); } else { RebindIsAuthorized(env, kv, op.rebind); }
    }
  }

  // ---------------------------------------------------------------- what a root commits to

  ghost function LeafPreimages(id: DidId, ms: seq<Minted>): set<Bytes> {
    set i | 0 <= i < |ms| :: [0x00] + LeafData(SlotOf(id, ms[i]), ms[i].control)
  }

  lemma LeafDataInjective(a: ActorId, b: ActorId, ca: Key, cb: Key)
    requires LeafData(a, ca) == LeafData(b, cb)
    ensures a == b && ca == cb
  {
    hide PutActor, BigEndian;
    var la, lb := BigEndian(|PutActor(a)|, 4), BigEndian(|PutActor(b)|, 4);
    assert |WithActor(LEAF_DOMAIN, a)| + 32 == |LeafData(a, ca)|;
    assert |WithActor(LEAF_DOMAIN, b)| + 32 == |LeafData(b, cb)|;
    AppendInjective(WithActor(LEAF_DOMAIN, a), ca, WithActor(LEAF_DOMAIN, b), cb);
    AppendInjective(LEAF_DOMAIN, la + PutActor(a), LEAF_DOMAIN, lb + PutActor(b));
    AppendInjective(la, PutActor(a), lb, PutActor(b));
    PutActorInjective(a, b);
  }

  lemma LeafInjective(env: Env, s: set<Bytes>, id: DidId, a: seq<Minted>, b: seq<Minted>, i: nat)
    requires CollisionFree(env.hash, s) && LeafPreimages(id, a) <= s && LeafPreimages(id, b) <= s
    requires i < |a| == |b| && Leaves(env, id, a)[i] == Leaves(env, id, b)[i]
    ensures a[i] == b[i]
  {
    hide LeafData;
    var da, db := LeafData(SlotOf(id, a[i]), a[i].control), LeafData(SlotOf(id, b[i]), b[i].control);
    assert [0x00] + da in LeafPreimages(id, a) && [0x00] + db in LeafPreimages(id, b);
    AppendInjective([0x00], da, [0x00], db);
    LeafDataInjective(SlotOf(id, a[i]), SlotOf(id, b[i]), a[i].control, b[i].control);
  }

  /**
    Two states, on two nodes or at two times, that store one root and count hold the same sub-actors in the
    same order.
  */
  lemma RootNamesSubActors(env: Env, kv: Kv, kv': Kv, books: Books, books': Books, id: DidId, s: set<Bytes>)
    requires Committed(env, kv, books.ledger, books.hashed) && Committed(env, kv', books'.ledger, books'.hashed)
    requires id in books.ledger && id in books'.ledger
    requires StoredRoot(env, kv, id).value.merkleRoot == StoredRoot(env, kv', id).value.merkleRoot
    requires StoredRoot(env, kv, id).value.leafCount == StoredRoot(env, kv', id).value.leafCount
    requires CollisionFree(env.hash, s) && books.hashed <= s && books'.hashed <= s
    requires LeafPreimages(id, books.ledger[id]) <= s && LeafPreimages(id, books'.ledger[id]) <= s
    ensures books.ledger[id] == books'.ledger[id]
  {
    hide CollisionFree, LeafPreimages, Mth, MthPreimages, StoredRoot, StoredDocument, SubOk, ValidDid, LeafData,
         ActorKey, DidKey, HasSlot;
    var a, b := books.ledger[id], books'.ledger[id];
    assert AccountOk(env, kv, id, a, books.hashed) && AccountOk(env, kv', id, b, books'.hashed);
    FewerHashed(env.hash, books.hashed, s);
    FewerHashed(env.hash, books'.hashed, s);
    MthBinds(env.hash, s, Leaves(env, id, a), Leaves(env, id, b));
    forall i | 0 <= i < |a| ensures a[i] == b[i] { LeafInjective(env, s, id, a, b, i); }
  }
}
