/** The operations a transaction payload can carry, and their byte formats. */
module Operations {
  import opened Prelude
  import opened Crypto
  import opened Codec
  import opened Identity
  import opened MerkleLog

  // ---------------------------------------------------------------- proofs on the wire

  function PutHashes(nodes: seq<Hash>): Bytes {
    if nodes == [] then [] else nodes[0] + PutHashes(nodes[1..])
  }

  function Chunks(b: Bytes, n: nat): seq<Hash>
    requires |b| == 32 * n
  {
    if n == 0 then [] else [b[..32]] + Chunks(b[32..], n - 1)
  }

  /** Two sizes and the nodes of a proof. */
  datatype ProofBody = ProofBody(first: U64, second: U64, nodes: seq<Hash>)

  function PutProof(p: ProofBody): Bytes
    requires |p.nodes| < 0x1_0000_0000
  {
    BigEndian(p.first, 8) + (BigEndian(p.second, 8) + (BigEndian(|p.nodes|, 4) + PutHashes(p.nodes)))
  }

  function TakeProof(cursor: Bytes): Decoded<ProofBody> {
    var Parsed(first, afterFirst) :- TakeU64(cursor);
    var Parsed(second, afterSecond) :- TakeU64(afterFirst);
    var Parsed(count, afterCount) :- TakeU32(afterSecond);
    var Parsed(head, rest) :- Take(afterCount, 32 * count);
    Ok(Parsed(ProofBody(first, second, Chunks(head, count)), rest))
  }

  lemma {:induction false} ChunksOfHashes(nodes: seq<Hash>)
    ensures |PutHashes(nodes)| == 32 * |nodes| && Chunks(PutHashes(nodes), |nodes|) == nodes
  {
    if nodes != [] {
      ChunksOfHashes(nodes[1..]);
      var b := PutHashes(nodes);
      assert b[..32] == nodes[0] && b[32..] == PutHashes(nodes[1..]);
      assert nodes == [nodes[0]] + nodes[1..];
    }
  }

  lemma TakeProofAppended(p: ProofBody, rest: Bytes)
    requires |p.nodes| < 0x1_0000_0000
    ensures TakeProof(PutProof(p) + rest) == Ok(Parsed(p, rest))
  {
    hide BigEndian, TakeU64, TakeU32, Take, PutHashes, Chunks;
    var first, second := BigEndian(p.first, 8), BigEndian(p.second, 8);
    var count, hashes := BigEndian(|p.nodes|, 4), PutHashes(p.nodes);
    assert PutProof(p) + rest == first + (second + (count + (hashes + rest)));
    TakeU64Appended(p.first, second + (count + (hashes + rest)));
    TakeU64Appended(p.second, count + (hashes + rest));
    TakeU32Appended(|p.nodes|, hashes + rest);
    ChunksOfHashes(p.nodes);
    TakeAppended(hashes, rest);
  }

  // ---------------------------------------------------------------- operations

  datatype DidOp = DidOp(id: DidId, document: DidDocument, signature: Signature, signedBy: Byte, isCreation: bool)

  datatype SubActorOp = SubActorOp(
    rootDid: DidId,
    tag: Tag,
    index: U32,
    control: Key,
    operating: Key,
    newRoot: Hash,
    consistency: ConsistencyProof,
    inclusion: InclusionProof,
    signature: Signature,
    signedBy: Byte)
  {
    function Id(): ActorId { Sub(rootDid, tag, index) }
  }

  datatype RebindOp = RebindOp(id: ActorId, newOperating: Key, possession: Signature, authorization: Signature)

  datatype Op =
    | Put(key: Field, value: Field)
    | Delete(key: Field)
    | Membership(body: Bytes)
    | Did(did: DidOp)
    | Mint(mint: SubActorOp)
    | Rebind(rebind: RebindOp)

  /** What the constructors of the source guarantee about an operation. */
  ghost predicate ValidOp(env: Env, op: Op) {
    match op
    case Put(_, _) => true
    case Delete(_) => true
    case Membership(_) => true
    case Did(d) => ValidDid(env, d.id) && ValidDocument(env, d.document)
    case Mint(m) =>
      && ValidDid(env, m.rootDid) && m.index < INDEX_LIMIT && env.isPoint(m.control) && env.isPoint(m.operating)
      && m.consistency.oldLeafCount < 0x1_0000_0000_0000_0000 && m.consistency.newLeafCount < 0x1_0000_0000_0000_0000
      && m.inclusion.leafIndex < 0x1_0000_0000_0000_0000 && m.inclusion.leafCount < 0x1_0000_0000_0000_0000
    case Rebind(r) =>
      && ValidDid(env, if r.id.Root? then r.id.did else r.id.rootDid)
      && (r.id.Sub? ==> r.id.index < INDEX_LIMIT) && env.isPoint(r.newOperating)
  }

  predicate Reserved(key: Bytes) {
    key != [] && (key[0] == DID_PREFIX || key[0] == ACTOR_PREFIX)
  }

  // ---------------------------------------------------------------- encoding

  function PutDidOp(d: DidOp): Bytes
    requires |d.document.methods| <= MAX_METHODS
  {
    PutDid(d.id) + (PutDocument(d.document) + (d.signature + ([d.signedBy] + PutFlag(d.isCreation))))
  }

  function PutMint(m: SubActorOp): Bytes
    requires m.consistency.oldLeafCount < 0x1_0000_0000_0000_0000
    requires m.consistency.newLeafCount < 0x1_0000_0000_0000_0000
    requires m.inclusion.leafIndex < 0x1_0000_0000_0000_0000 && m.inclusion.leafCount < 0x1_0000_0000_0000_0000
    requires |m.consistency.nodes| < 0x1_0000_0000 && |m.inclusion.nodes| < 0x1_0000_0000
  {
    var c, i := m.consistency, m.inclusion;
    PutDid(m.rootDid) + (([TagCode(m.tag)] + BigEndian(m.index, 4)) + (m.control + (m.operating + (m.newRoot +
    (PutProof(ProofBody(c.oldLeafCount, c.newLeafCount, c.nodes)) +
    (PutProof(ProofBody(i.leafIndex, i.leafCount, i.nodes)) + (m.signature + [m.signedBy])))))))
  }

  function PutRebind(r: RebindOp): Bytes {
    PutActor(r.id) + (r.newOperating + (r.possession + r.authorization))
  }

  // ---------------------------------------------------------------- decoding

  function Whole<T>(p: Parsed<T>): Result<T, DecodeError> {
    if p.rest == [] then Ok(p.value) else Err(TrailingBytes)
  }

  function DecodeDid(env: Env, body: Bytes): Result<DidOp, DecodeError> {
    var Parsed(id, afterId) :- TakeDid(env, body);
    var Parsed(document, afterDocument) :- TakeDocument(env, afterId);
    var Parsed(signature, afterSignature) :- Take(afterDocument, 64);
    var Parsed(signedBy, afterSigner) :- TakeByte(afterSignature);
    var Parsed(flag, rest) :- TakeByte(afterSigner);
    Whole(Parsed(DidOp(id, document, signature, signedBy, flag != 0), rest))
  }

  function DecodeMint(env: Env, body: Bytes): Result<SubActorOp, DecodeError> {
    var Parsed(did, afterDid) :- TakeDid(env, body);
    var Parsed(slot, afterSlot) :- TakeSlot(afterDid);
    var Parsed(control, afterControl) :- TakeKey(env, afterSlot);
    var Parsed(operating, afterOperating) :- TakeKey(env, afterControl);
    var Parsed(newRoot, afterRoot) :- Take(afterOperating, 32);
    var Parsed(c, afterConsistency) :- TakeProof(afterRoot);
    var Parsed(i, afterInclusion) :- TakeProof(afterConsistency);
    var Parsed(signature, afterSignature) :- Take(afterInclusion, 64);
    var Parsed(signedBy, rest) :- TakeByte(afterSignature);
    Whole(Parsed(SubActorOp(did, slot.0, slot.1, control, operating, newRoot,
                            ConsistencyProof(c.first, c.second, c.nodes),
                            InclusionProof(i.first, i.second, i.nodes), signature, signedBy), rest))
  }

  function DecodeRebind(env: Env, body: Bytes): Result<RebindOp, DecodeError> {
    var Parsed(id, afterId) :- TakeActor(env, body);
    var Parsed(operating, afterOperating) :- TakeKey(env, afterId);
    var Parsed(possession, afterPossession) :- Take(afterOperating, 64);
    var Parsed(authorization, rest) :- Take(afterPossession, 64);
    Whole(Parsed(RebindOp(id, operating, possession, authorization), rest))
  }

  function DecodePut(body: Bytes): Result<Op, DecodeError> {
    var Parsed(key, afterKey) :- TakeField(body);
    if Reserved(key) then Err(ReservedKeyPrefix(key[0]))
    else
      var Parsed(value, rest) :- TakeField(afterKey);
      Whole(Parsed(Put(key, value), rest))
  }

  function DecodeDelete(body: Bytes): Result<Op, DecodeError> {
    var Parsed(key, rest) :- TakeField(body);
    if Reserved(key) then Err(ReservedKeyPrefix(key[0])) else Whole(Parsed(Delete(key), rest))
  }

  function Decode(env: Env, payload: Bytes): Result<Op, DecodeError> {
    if payload == [] then Err(EmptyPayload)
    else
      var opcode, body := payload[0], payload[1..];
      if opcode == 0x00 then DecodePut(body)
      else if opcode == 0x01 then DecodeDelete(body)
      else if opcode == 0x02 then
        match env.membership(body)
        case None => Err(MalformedMembershipOp)
        case Some(m) => Ok(Membership(m))
      else if opcode == 0x03 then
        match DecodeDid(env, body)
        case Err(_) => Err(MalformedDidOp)
        case Ok(d) => Ok(Did(d))
      else if opcode == 0x04 then
        match DecodeMint(env, body)
        case Err(_) => Err(MalformedSubActorOp)
        case Ok(m) => Ok(Mint(m))
      else if opcode == 0x05 then
        match DecodeRebind(env, body)
        case Err(_) => Err(MalformedRebindOp)
        case Ok(r) => Ok(Rebind(r))
      else Err(UnknownOpcode(opcode))
  }

  // ---------------------------------------------------------------- round trips

  lemma DidOpRoundTrip(env: Env, d: DidOp)
    requires ValidDid(env, d.id) && ValidDocument(env, d.document)
    ensures DecodeDid(env, PutDidOp(d)) == Ok(d)
  {
    hide TakeDid, TakeDocument, Take, TakeByte, PutDid, PutDocument, ValidDid;
    var flag := PutFlag(d.isCreation);
    var tail := d.signature + ([d.signedBy] + flag);
    TakeDidAppended(env, d.id, PutDocument(d.document) + tail);
    TakeDocumentAppended(env, d.document, tail);
    TakeAppended(d.signature, [d.signedBy] + flag);
    TakeByteAppended(d.signedBy, flag);
    assert flag == [flag[0]] + [];
    TakeByteAppended(flag[0], []);
  }

  lemma MintRoundTrip(env: Env, m: SubActorOp)
    requires ValidOp(env, Mint(m)) && |m.consistency.nodes| < 0x1_0000_0000 && |m.inclusion.nodes| < 0x1_0000_0000
    ensures DecodeMint(env, PutMint(m)) == Ok(m)
  {
    hide TakeDid, TakeSlot, TakeKey, Take, TakeByte, TakeProof, PutDid, PutProof, BigEndian, ValidDid;
    var c, i := ProofBody(m.consistency.oldLeafCount, m.consistency.newLeafCount, m.consistency.nodes),
                ProofBody(m.inclusion.leafIndex, m.inclusion.leafCount, m.inclusion.nodes);
    var t0 := m.signature + [m.signedBy];
    var t1 := PutProof(i) + t0;
    var t2 := PutProof(c) + t1;
    var t3 := m.newRoot + t2;
    var t4 := m.operating + t3;
    var t5 := m.control + t4;
    var slot := [TagCode(m.tag)] + BigEndian(m.index, 4);
    TakeDidAppended(env, m.rootDid, slot + t5);
    TakeSlotAppended(m.tag, m.index, t5);
    TakeKeyAppended(env, m.control, t4);
    TakeKeyAppended(env, m.operating, t3);
    TakeAppended(m.newRoot, t2);
    TakeProofAppended(c, t1);
    TakeProofAppended(i, t0);
    TakeAppended(m.signature, [m.signedBy]);
    assert [m.signedBy] == [m.signedBy] + [];
    TakeByteAppended(m.signedBy, []);
  }

  lemma RebindRoundTrip(env: Env, r: RebindOp)
    requires ValidOp(env, Rebind(r))
    ensures DecodeRebind(env, PutRebind(r)) == Ok(r)
  {
    hide TakeActor, TakeKey, Take, PutActor, ValidDid;
    TakeActorAppended(env, r.id, r.newOperating + (r.possession + r.authorization));
    TakeKeyAppended(env, r.newOperating, r.possession + r.authorization);
    TakeAppended(r.possession, r.authorization);
    assert r.authorization == r.authorization + [];
    TakeAppended(r.authorization, []);
  }

  /** A plain write reads back exactly when its key lies outside the reserved prefixes. */
  lemma PutRoundTrip(env: Env, key: Field, value: Field)
    ensures Decode(env, [0x00] + (PutField(key) + PutField(value))) ==
      if Reserved(key) then Err(ReservedKeyPrefix(key[0])) else Ok(Put(key, value))
    ensures Decode(env, [0x01] + PutField(key)) ==
      if Reserved(key) then Err(ReservedKeyPrefix(key[0])) else Ok(Delete(key))
  {
    hide PutField, TakeField;
    TakeFieldAppended(key, PutField(value));
    assert PutField(value) == PutField(value) + [] && PutField(key) == PutField(key) + [];
    TakeFieldAppended(value, []);
    TakeFieldAppended(key, []);
    assert ([0x00] + (PutField(key) + PutField(value)))[1..] == PutField(key) + PutField(value);
    assert ([0x01] + PutField(key))[1..] == PutField(key);
  }

  /** Whatever decodes satisfies the constructors' conditions, and no plain write names a reserved key. */
  lemma DecodedIsValid(env: Env, payload: Bytes)
    requires Decode(env, payload).Ok?
    ensures ValidOp(env, Decode(env, payload).value)
    ensures var op := Decode(env, payload).value; (op.Put? || op.Delete?) ==> !Reserved(op.key)
  {
    hide DecodeDid, DecodeMint, DecodeRebind, ValidDid, ValidDocument;
    var body := payload[1..];
    if payload[0] == 0x03 {
      DidOpIsValid(env, body);
    } else if payload[0] == 0x04 {
      MintIsValid(env, body);
    } else if payload[0] == 0x05 {
      RebindIsValid(env, body);
    }
  }

  lemma DidOpIsValid(env: Env, body: Bytes)
    requires DecodeDid(env, body).Ok?
    ensures var d := DecodeDid(env, body).value; ValidDid(env, d.id) && ValidDocument(env, d.document)
  {
    hide TakeDid, TakeDocument, ValidDid, ValidDocument;
    TakeDidCanonical(env, body);
    TakeDocumentValid(env, TakeDid(env, body).value.rest);
  }

  lemma MintIsValid(env: Env, body: Bytes)
    requires DecodeMint(env, body).Ok?
    ensures ValidOp(env, Mint(DecodeMint(env, body).value))
  {
    hide TakeDid, TakeProof, ValidDid, Take, TakeByte, TakeU32;
    TakeDidCanonical(env, body);
    var afterSlot := TakeSlot(TakeDid(env, body).value.rest).value.rest;
    var afterOperating := TakeKey(env, TakeKey(env, afterSlot).value.rest).value.rest;
    var c := TakeProof(Take(afterOperating, 32).value.rest).value;
    var i := TakeProof(c.rest).value;
    assert c.value.first < 0x1_0000_0000_0000_0000 && c.value.second < 0x1_0000_0000_0000_0000;
    assert i.value.first < 0x1_0000_0000_0000_0000 && i.value.second < 0x1_0000_0000_0000_0000;
  }

  lemma RebindIsValid(env: Env, body: Bytes)
    requires DecodeRebind(env, body).Ok?
    ensures ValidOp(env, Rebind(DecodeRebind(env, body).value))
  {
    hide TakeDid, ValidDid, Take, TakeU32;
    TakeDidCanonical(env, body[1..]);
  }
}
