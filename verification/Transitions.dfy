/** What one transaction payload does to the state: every check the executor makes, and the writes that follow. */
module Transitions {
  import opened Prelude
  import opened Crypto
  import opened Codec
  import opened Identity
  import opened MerkleLog
  import opened Operations
  import opened Serialization

  datatype DidError =
    | IdentifierAlreadyExists
    | UnknownIdentifier
    | CreationDeactivated
    | AlreadyDeactivated
    | UnknownSigner
    | InvalidSignature

  datatype ActorError =
    | SubActorAlreadyExists
    | UnknownRootDid
    | RootDeactivated
    | UnknownRootActor
    | UnknownActorSigner
    | InvalidActorSignature
    | InclusionProofInvalid
    | ConsistencyProofInvalid
    | ExpectedSubActorId
    | UnknownSubActor
    | InvalidProofOfPossession
    | InvalidAuthorization

  datatype OpError = DidFailed(did: DidError) | ActorFailed(actor: ActorError)

  datatype Outcome =
    | Written(writes: seq<Write>)
    | Collected(member: Bytes)
    | Undecodable(decodeError: DecodeError)
    | Refused(opError: OpError)

  // ---------------------------------------------------------------- reading records

  function StoredDocument(env: Env, kv: Kv, id: DidId): Option<DidDocument> {
    if DidKey(id) !in kv then None
    else
      match TakeDocument(env, kv[DidKey(id)])
      case Err(_) => None
      case Ok(p) => if p.rest == [] then Some(p.value) else None
  }

  function StoredRoot(env: Env, kv: Kv, id: DidId): Option<RootActor> {
    if ActorKey(Root(id)) !in kv then None
    else
      match TakeRoot(env, kv[ActorKey(Root(id))])
      case Err(_) => None
      case Ok(p) => if p.rest == [] then Some(p.value) else None
  }

  function StoredSub(env: Env, kv: Kv, id: ActorId): Option<SubActor> {
    if ActorKey(id) !in kv then None
    else
      match TakeSub(env, kv[ActorKey(id)])
      case Err(_) => None
      case Ok(p) => if p.rest == [] then Some(p.value) else None
  }

  // ---------------------------------------------------------------- signed payloads and leaves

  const DID_DOMAIN: Bytes := [0x6A, 0x6B, 0x61, 0x69, 0x6E, 0x3A, 0x64, 0x69, 0x64, 0x3A, 0x76, 0x31]

  const SUBACTOR_DOMAIN: Bytes :=
    [0x6A, 0x6B, 0x61, 0x69, 0x6E, 0x3A, 0x73, 0x75, 0x62, 0x61, 0x63, 0x74, 0x6F, 0x72, 0x3A, 0x76, 0x31]

  const REBIND_DOMAIN: Bytes :=
    [0x6A, 0x6B, 0x61, 0x69, 0x6E, 0x3A, 0x72, 0x65, 0x62, 0x69, 0x6E, 0x64, 0x3A, 0x76, 0x31]

  const LEAF_DOMAIN: Bytes :=
    [0x6A, 0x6B, 0x61, 0x69, 0x6E, 0x3A, 0x73, 0x75, 0x62, 0x61, 0x63, 0x74, 0x6F, 0x72, 0x2D,
     0x6C, 0x65, 0x61, 0x66, 0x3A, 0x76, 0x31]

  function DidSigned(id: DidId, d: DidDocument): Bytes
    requires |d.methods| <= MAX_METHODS
  {
    DID_DOMAIN + (PutDid(id) + PutDocument(d))
  }

  function WithActor(domain: Bytes, id: ActorId): Bytes { domain + (BigEndian(|PutActor(id)|, 4) + PutActor(id)) }

  function MintSigned(m: SubActorOp): Bytes { WithActor(SUBACTOR_DOMAIN, m.Id()) + (m.control + m.operating) }

  function RebindSigned(r: RebindOp, replaced: Key): Bytes {
    WithActor(REBIND_DOMAIN, r.id) + (replaced + r.newOperating)
  }

  function LeafData(id: ActorId, control: Key): Bytes { WithActor(LEAF_DOMAIN, id) + control }

  function LeafOf(env: Env, id: ActorId, control: Key): Hash { LeafHash(env.hash, LeafData(id, control)) }

  // ---------------------------------------------------------------- the three validated transitions

  /** The 64-bit sum, which wraps. */
  function Succ(n: U64): U64 { (n + 1) % 0x1_0000_0000_0000_0000 }

  function SignedBy(
    env: Env, signers: DidDocument, index: Byte, payload: Bytes, signature: Signature): Result<Key, DidError> {
    match SigningKey(signers, index)
    case None => Err(UnknownSigner)
    case Some(key) => if env.verifies(key, payload, signature) then Ok(key) else Err(InvalidSignature)
  }

  /** Who must have signed: the new document itself at creation, the stored one afterwards. */
  function DidSigners(env: Env, kv: Kv, op: DidOp): Result<DidDocument, DidError> {
    var key := DidKey(op.id);
    if op.isCreation then
      if key in kv then Err(IdentifierAlreadyExists)
      else if op.document.deactivated then Err(CreationDeactivated)
      else Ok(op.document)
    else if key !in kv then Err(UnknownIdentifier)
    else
      match StoredDocument(env, kv, op.id)
      case None => Err(InvalidSignature)
      case Some(prior) => if prior.deactivated then Err(AlreadyDeactivated) else Ok(prior)
  }

  /** The root record that accompanies an active document. */
  function RootAfter(env: Env, kv: Kv, op: DidOp): RootActor {
    match if op.isCreation then None else StoredRoot(env, kv, op.id)
    case Some(root) => RootActor(op.id, root.merkleRoot, root.leafCount, op.document.control)
    case None => RootActor(op.id, EmptyRoot(env.hash), 0, op.document.control)
  }

  function DidOutcome(env: Env, kv: Kv, op: DidOp): Result<seq<Write>, DidError>
    requires |op.document.methods| <= MAX_METHODS
  {
    var signers :- DidSigners(env, kv, op);
    var _ :- SignedBy(env, signers, op.signedBy, DidSigned(op.id, op.document), op.signature);
    var document := Write(DidKey(op.id), Some(PutDocument(op.document)));
    if op.document.deactivated then Ok([document])
    else Ok([document, Write(ActorKey(Root(op.id)), Some(PutRoot(RootAfter(env, kv, op))))])
  }

  /** The active document of a root and its root record, as minting and rebinding read them. */
  function ActiveRoot(env: Env, kv: Kv, did: DidId): Result<(DidDocument, RootActor), ActorError> {
    match StoredDocument(env, kv, did)
    case None => Err(UnknownRootDid)
    case Some(document) =>
      if document.deactivated then Err(RootDeactivated)
      else
        match StoredRoot(env, kv, did)
        case None => Err(UnknownRootActor)
        case Some(root) => Ok((document, root))
  }

  function ProofsChecked(env: Env, root: RootActor, op: SubActorOp): Result<(), ActorError> {
    var leaf := LeafOf(env, op.Id(), op.control);
    if op.inclusion.leafIndex != root.leafCount || op.inclusion.leafCount != Succ(root.leafCount)
       || !VerifyInclusion(env.hash, leaf, op.inclusion, op.newRoot) then Err(InclusionProofInvalid)
    else if op.consistency.oldLeafCount != root.leafCount || op.consistency.newLeafCount != Succ(root.leafCount)
       || !VerifyConsistency(env.hash, root.merkleRoot, op.consistency, op.newRoot) then Err(ConsistencyProofInvalid)
    else Ok(())
  }

  function MintOutcome(env: Env, kv: Kv, op: SubActorOp): Result<seq<Write>, ActorError> {
    if ActorKey(op.Id()) in kv then Err(SubActorAlreadyExists)
    else
      var (document, root) :- ActiveRoot(env, kv, op.rootDid);
      match SigningKey(document, op.signedBy)
      case None => Err(UnknownActorSigner)
      case Some(key) =>
        if !env.verifies(key, MintSigned(op), op.signature) then Err(InvalidActorSignature)
        else
          var _ :- ProofsChecked(env, root, op);
          Ok([Write(ActorKey(op.Id()), Some(PutSub(SubActor(op.Id(), op.control, op.operating)))),
              Write(ActorKey(Root(op.rootDid)),
                    Some(PutRoot(RootActor(op.rootDid, op.newRoot, Succ(root.leafCount), root.control))))])
  }

  function RebindOutcome(env: Env, kv: Kv, op: RebindOp): Result<seq<Write>, ActorError> {
    if op.id.Root? then Err(ExpectedSubActorId)
    else
      match StoredSub(env, kv, op.id)
      case None => Err(UnknownSubActor)
      case Some(sub) =>
        var (_, root) :- ActiveRoot(env, kv, op.id.rootDid);
        var payload := RebindSigned(op, sub.operating);
        if !env.verifies(op.newOperating, payload, op.possession) then Err(InvalidProofOfPossession)
        else if !env.verifies(root.control, payload, op.authorization) then Err(InvalidAuthorization)
        else Ok([Write(ActorKey(op.id), Some(PutSub(SubActor(op.id, sub.control, op.newOperating))))])
  }

  function OpOutcome(env: Env, kv: Kv, op: Op): Outcome
    requires ValidOp(env, op)
  {
    match op
    case Put(key, value) => Written([Write(key, Some(value))])
    case Delete(key) => Written([Write(key, None)])
    case Membership(body) => Collected(body)
    case Did(d) =>
      (match DidOutcome(env, kv, d)
       case Ok(ws) => Written(ws)
       case Err(e) => Refused(DidFailed(e)))
    case Mint(m) =>
      (match MintOutcome(env, kv, m)
       case Ok(ws) => Written(ws)
       case Err(e) => Refused(ActorFailed(e)))
    case Rebind(r) =>
      (match RebindOutcome(env, kv, r)
       case Ok(ws) => Written(ws)
       case Err(e) => Refused(ActorFailed(e)))
  }

  function PayloadOutcome(env: Env, kv: Kv, payload: Bytes): Outcome {
    match Decode(env, payload)
    case Err(e) => Undecodable(e)
    case Ok(op) => DecodedIsValid(env, payload); OpOutcome(env, kv, op)
  }

  function WritesOf(o: Outcome): seq<Write> { if o.Written? then o.writes else [] }

  function Step(env: Env, kv: Kv, payload: Bytes): Kv { ApplyWrites(kv, WritesOf(PayloadOutcome(env, kv, payload))) }

  /** The state after a list of payloads, in order. */
  function Run(env: Env, kv: Kv, payloads: seq<Bytes>): Kv {
    if payloads == [] then kv
    else Step(env, Run(env, kv, payloads[..|payloads| - 1]), payloads[|payloads| - 1])
  }
}
