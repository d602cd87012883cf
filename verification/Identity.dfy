/** DID identifiers and documents, actor identifiers, and the root and sub-actor records kept in state. */
module Identity {
  import opened Prelude
  import opened Crypto
  import opened Codec

  type Key = k: Bytes | |k| == 32 witness seq(32, _ => 0)

  type Uuid = u: Bytes | |u| == 16 witness seq(16, _ => 0)

  type Signature = s: Bytes | |s| == 64 witness seq(64, _ => 0)

  /** What the cryptographic and text libraries decide. */
  datatype Env = Env(
    hash: HashFn,
    isPoint: Key -> bool,
    isUtf8: Bytes -> bool,
    verifies: (Key, Bytes, Signature) -> bool,
    membership: Bytes -> Option<Bytes>)

  function TakeKey(env: Env, cursor: Bytes): Decoded<Key> {
    var Parsed(bytes, rest) :- Take(cursor, 32);
    if env.isPoint(bytes) then Ok(Parsed(bytes, rest)) else Err(Truncated)
  }

  lemma TakeKeyAppended(env: Env, key: Key, rest: Bytes)
    requires env.isPoint(key)
    ensures TakeKey(env, key + rest) == Ok(Parsed(key, rest))
  {
    TakeAppended(key, rest);
  }

  // ---------------------------------------------------------------- identifiers

  const COLON: Byte := 0x3A

  /** Network and alias are UTF-8 text, kept as their bytes. */
  datatype DidId = DidId(network: Field, alias: Field, uuid: Uuid)

  ghost predicate ValidDid(env: Env, id: DidId) {
    && env.isUtf8(id.network) && env.isUtf8(id.alias)
    && COLON !in id.network && COLON !in id.alias
  }

  function PutDid(id: DidId): Bytes { PutField(id.network) + (PutField(id.alias) + id.uuid) }

  function TakeDid(env: Env, cursor: Bytes): Decoded<DidId> {
    var Parsed(network, afterNetwork) :- TakeField(cursor);
    var Parsed(alias, afterAlias) :- TakeField(afterNetwork);
    var Parsed(uuid, rest) :- Take(afterAlias, 16);
    if !env.isUtf8(network) || !env.isUtf8(alias) then Err(InvalidDid)
    else if COLON in network || COLON in alias then Err(InvalidDid)
    else Ok(Parsed(DidId(network, alias, uuid), rest))
  }

  lemma TakeDidAppended(env: Env, id: DidId, rest: Bytes)
    requires ValidDid(env, id)
    ensures TakeDid(env, PutDid(id) + rest) == Ok(Parsed(id, rest))
  {
    hide PutField, TakeField, Take;
    var n, a := PutField(id.network), PutField(id.alias);
    assert PutDid(id) + rest == n + (a + (id.uuid + rest));
    TakeFieldAppended(id.network, a + (id.uuid + rest));
    TakeFieldAppended(id.alias, id.uuid + rest);
    TakeAppended(id.uuid, rest);
  }

  lemma TakeDidCanonical(env: Env, cursor: Bytes)
    requires TakeDid(env, cursor).Ok?
    ensures ValidDid(env, TakeDid(env, cursor).value.value)
    ensures cursor == PutDid(TakeDid(env, cursor).value.value) + TakeDid(env, cursor).value.rest
  {
    hide PutField, TakeField;
    var afterNetwork := TakeField(cursor).value.rest;
    TakeFieldCanonical(cursor);
    TakeFieldCanonical(afterNetwork);
    var Parsed(id, rest) := TakeDid(env, cursor).value;
    assert TakeField(afterNetwork).value.rest == id.uuid + rest;
    assert cursor == PutField(id.network) + (PutField(id.alias) + (id.uuid + rest));
    assert cursor == PutDid(id) + rest;
  }

  /** Identifier encodings delimit themselves: no two of them can start the same byte string. */
  lemma PutDidPrefixFree(a: DidId, b: DidId, restA: Bytes, restB: Bytes)
    requires PutDid(a) + restA == PutDid(b) + restB
    ensures a == b && restA == restB
  {
    hide PutField, TakeField;
    var na, nb, aa, ab := PutField(a.network), PutField(b.network), PutField(a.alias), PutField(b.alias);
    assert PutDid(a) + restA == na + (aa + (a.uuid + restA));
    assert PutDid(b) + restB == nb + (ab + (b.uuid + restB));
    TakeFieldAppended(a.network, aa + (a.uuid + restA));
    TakeFieldAppended(b.network, ab + (b.uuid + restB));
    TakeFieldAppended(a.alias, a.uuid + restA);
    TakeFieldAppended(b.alias, b.uuid + restB);
    AppendInjective(a.uuid, restA, b.uuid, restB);
  }

  // ---------------------------------------------------------------- documents

  const DOCUMENT_VERSION: Byte := 0x02

  const MAX_METHODS := 5

  datatype Method = Signing(key: Key) | Agreement(key: Key)

  datatype DidDocument = DidDocument(control: Key, methods: seq<Method>, deactivated: bool)

  ghost predicate ValidDocument(env: Env, d: DidDocument) {
    && env.isPoint(d.control)
    && 1 <= |d.methods| <= MAX_METHODS
    && (forall m :: m in d.methods && m.Signing? ==> env.isPoint(m.key))
    && (exists m :: m in d.methods && m.Signing?)
  }

  function MethodType(m: Method): Byte { if m.Signing? then 0x01 else 0x02 }

  function PutMethods(ms: seq<Method>): Bytes {
    if ms == [] then [] else [MethodType(ms[0])] + (ms[0].key + PutMethods(ms[1..]))
  }

  function PutFlag(b: bool): Bytes { if b then [0x01] else [0x00] }

  function PutDocument(d: DidDocument): Bytes
    requires |d.methods| <= MAX_METHODS
  {
    [DOCUMENT_VERSION] + (d.control + ([|d.methods|] + (PutMethods(d.methods) + PutFlag(d.deactivated))))
  }

  function TakeMethod(env: Env, cursor: Bytes): Decoded<Method> {
    var Parsed(kind, afterKind) :- TakeByte(cursor);
    var Parsed(key, rest) :- Take(afterKind, 32);
    if kind == 0x01 then (if env.isPoint(key) then Ok(Parsed(Signing(key), rest)) else Err(Truncated))
    else if kind == 0x02 then Ok(Parsed(Agreement(key), rest))
    else Err(UnknownVerificationMethodType(kind))
  }

  function TakeMethods(env: Env, cursor: Bytes, n: nat): Decoded<seq<Method>> {
    if n == 0 then Ok(Parsed([], cursor))
    else
      var Parsed(first, afterFirst) :- TakeMethod(env, cursor);
      var Parsed(others, rest) :- TakeMethods(env, afterFirst, n - 1);
      Ok(Parsed([first] + others, rest))
  }

  /** The decoder's loop, which keeps the methods read so far and moves its cursor. */
  method DecodeMethods(env: Env, cursor: Bytes, n: nat) returns (r: Decoded<seq<Method>>)
    ensures r == TakeMethods(env, cursor, n)
  {
    var methods: seq<Method>, at: Bytes := [], cursor;
    var i := 0;
    assert forall tail: seq<Method> :: methods + tail == tail;
    while i < n
      invariant i <= n
      invariant TakeMethods(env, cursor, n) ==
        match TakeMethods(env, at, n - i)
        case Err(e) => Err(e)
        case Ok(p) => Ok(Parsed(methods + p.value, p.rest))
    {
      var m := TakeMethod(env, at);
      if m.Err? { return Err(m.error); }
      var before := methods;
      methods, at := methods + [m.value.value], m.value.rest;
      i := i + 1;
      assert forall tail: seq<Method> :: before + ([m.value.value] + tail) == methods + tail;
    }
    assert methods + [] == methods;
    return Ok(Parsed(methods, at));
  }

  predicate HasSigning(ms: seq<Method>) {
    exists i :: 0 <= i < |ms| && ms[i].Signing?
  }

  function TakeDocument(env: Env, cursor: Bytes): Decoded<DidDocument> {
    var Parsed(version, afterVersion) :- TakeByte(cursor);
    if version != DOCUMENT_VERSION then Err(UnsupportedDidDocumentVersion(version))
    else
      var Parsed(control, afterControl) :- TakeKey(env, afterVersion);
      var Parsed(count, afterCount) :- TakeByte(afterControl);
      if count == 0 || count > MAX_METHODS then Err(Truncated)
      else
        var Parsed(methods, afterMethods) :- TakeMethods(env, afterCount, count);
        var Parsed(flag, rest) :- TakeByte(afterMethods);
        if !HasSigning(methods) then Err(NoSigningMethod)
        else Ok(Parsed(DidDocument(control, methods, flag != 0), rest))
  }

  lemma {:induction false} TakeMethodsAppended(env: Env, ms: seq<Method>, rest: Bytes)
    requires forall m :: m in ms && m.Signing? ==> env.isPoint(m.key)
    ensures TakeMethods(env, PutMethods(ms) + rest, |ms|) == Ok(Parsed(ms, rest))
  {
    if ms == [] {
      assert PutMethods(ms) + rest == rest;
    } else {
      var tail := PutMethods(ms[1..]) + rest;
      assert PutMethods(ms) + rest == [MethodType(ms[0])] + (ms[0].key + tail);
      TakeByteAppended(MethodType(ms[0]), ms[0].key + tail);
      TakeAppended(ms[0].key, tail);
      TakeMethodsAppended(env, ms[1..], rest);
      assert ms == [ms[0]] + ms[1..];
    }
  }

  lemma TakeDocumentAppended(env: Env, d: DidDocument, rest: Bytes)
    requires ValidDocument(env, d)
    ensures TakeDocument(env, PutDocument(d) + rest) == Ok(Parsed(d, rest))
  {
    hide PutMethods, TakeMethods, TakeByte, TakeKey;
    var flag := PutFlag(d.deactivated);
    var methods := PutMethods(d.methods) + (flag + rest);
    assert PutDocument(d) + rest == [DOCUMENT_VERSION] + (d.control + ([|d.methods|] + methods));
    TakeByteAppended(DOCUMENT_VERSION, d.control + ([|d.methods|] + methods));
    TakeKeyAppended(env, d.control, [|d.methods|] + methods);
    TakeByteAppended(|d.methods|, methods);
    TakeMethodsAppended(env, d.methods, flag + rest);
    TakeByteAppended(flag[0], rest);
    assert flag == [flag[0]];
  }

  lemma {:induction false} MethodsAreValid(env: Env, cursor: Bytes, n: nat)
    requires TakeMethods(env, cursor, n).Ok?
    ensures var ms := TakeMethods(env, cursor, n).value.value;
      |ms| == n && forall m :: m in ms && m.Signing? ==> env.isPoint(m.key)
  {
    if n > 0 { MethodsAreValid(env, TakeMethod(env, cursor).value.rest, n - 1); }
  }

  lemma TakeDocumentValid(env: Env, cursor: Bytes)
    requires TakeDocument(env, cursor).Ok?
    ensures ValidDocument(env, TakeDocument(env, cursor).value.value)
  {
    hide TakeMethods;
    var afterVersion := TakeByte(cursor).value.rest;
    var afterControl := TakeKey(env, afterVersion).value.rest;
    var Parsed(count, afterCount) := TakeByte(afterControl).value;
    MethodsAreValid(env, afterCount, count);
  }

  function SigningKeys(ms: seq<Method>): seq<Key> {
    if ms == [] then []
    else if ms[0].Signing? then [ms[0].key] + SigningKeys(ms[1..])
    else SigningKeys(ms[1..])
  }

  /** The signing key that `index` addresses: agreement methods are skipped. */
  function SigningKey(d: DidDocument, index: nat): Option<Key> {
    var keys := SigningKeys(d.methods);
    if index < |keys| then Some(keys[index]) else None
  }

  /** Only a signing method of the document can be addressed. */
  lemma {:induction false} SigningKeysListed(ms: seq<Method>, i: nat)
    requires i < |SigningKeys(ms)|
    ensures Signing(SigningKeys(ms)[i]) in ms
  {
    if ms[0].Signing? {
      if i > 0 { SigningKeysListed(ms[1..], i - 1); }
    } else {
      SigningKeysListed(ms[1..], i);
    }
  }

  // ---------------------------------------------------------------- actors

  datatype Tag = Defi | Messenger | Game | Generic

  function TagCode(t: Tag): Byte {
    match t
    case Defi => 0
    case Messenger => 1
    case Game => 2
    case Generic => 3
  }

  function TagOf(code: Byte): Option<Tag> {
    if code == 0 then Some(Defi)
    else if code == 1 then Some(Messenger)
    else if code == 2 then Some(Game)
    else if code == 3 then Some(Generic)
    else None
  }

  const INDEX_LIMIT := 0x8000_0000

  datatype ActorId = Root(did: DidId) | Sub(rootDid: DidId, tag: Tag, index: U32)

  function PutActor(id: ActorId): Bytes {
    match id
    case Root(did) => [0x00] + PutDid(did)
    case Sub(did, tag, index) => [0x01] + (PutDid(did) + ([TagCode(tag)] + BigEndian(index, 4)))
  }

  /** The tag and index of a sub-actor, as they follow the identifier of its root. */
  function TakeSlot(cursor: Bytes): Decoded<(Tag, U32)> {
    var Parsed(code, afterCode) :- TakeByte(cursor);
    var tag := TagOf(code);
    if tag.None? then Err(UnknownActorTag(code))
    else
      var Parsed(index, rest) :- TakeU32(afterCode);
      if index >= INDEX_LIMIT then Err(ActorIndexOutOfRange(index))
      else Ok(Parsed((tag.value, index), rest))
  }

  function TakeActor(env: Env, cursor: Bytes): Decoded<ActorId> {
    var Parsed(variant, body) :- TakeByte(cursor);
    if variant == 0x00 then
      var Parsed(did, rest) :- TakeDid(env, body);
      Ok(Parsed(Root(did), rest))
    else if variant == 0x01 then
      var Parsed(did, afterDid) :- TakeDid(env, body);
      var Parsed(slot, rest) :- TakeSlot(afterDid);
      Ok(Parsed(Sub(did, slot.0, slot.1), rest))
    else Err(UnknownActorIdVariant(variant))
  }

  lemma TakeSlotAppended(tag: Tag, index: U32, rest: Bytes)
    ensures TakeSlot(([TagCode(tag)] + BigEndian(index, 4)) + rest) ==
      if index < INDEX_LIMIT then Ok(Parsed((tag, index), rest)) else Err(ActorIndexOutOfRange(index))
  {
    hide TakeByte, TakeU32, BigEndian;
    assert ([TagCode(tag)] + BigEndian(index, 4)) + rest == [TagCode(tag)] + (BigEndian(index, 4) + rest);
    TakeByteAppended(TagCode(tag), BigEndian(index, 4) + rest);
    TakeU32Appended(index, rest);
  }

  /** Every identifier reads back, except an index the key derivation cannot produce, which is refused. */
  lemma TakeActorAppended(env: Env, id: ActorId, rest: Bytes)
    requires ValidDid(env, if id.Root? then id.did else id.rootDid)
    ensures TakeActor(env, PutActor(id) + rest) ==
      if id.Sub? && id.index >= INDEX_LIMIT then Err(ActorIndexOutOfRange(id.index)) else Ok(Parsed(id, rest))
  {
    hide TakeByte, TakeDid, TakeSlot, PutDid, ValidDid, BigEndian;
    match id
    case Root(did) =>
      assert PutActor(id) + rest == [0x00] + (PutDid(did) + rest);
      TakeByteAppended(0x00, PutDid(did) + rest);
      TakeDidAppended(env, did, rest);
    case Sub(did, tag, index) =>
      var slot := [TagCode(tag)] + BigEndian(index, 4);
      assert PutActor(id) + rest == [0x01] + (PutDid(did) + (slot + rest));
      TakeByteAppended(0x01, PutDid(did) + (slot + rest));
      TakeDidAppended(env, did, slot + rest);
      TakeSlotAppended(tag, index, rest);
  }

  // ---------------------------------------------------------------- records

  /** The append-only commitment of a DID to its sub-actors. */
  datatype RootActor = RootActor(did: DidId, merkleRoot: Hash, leafCount: U64, control: Key)

  function PutRoot(r: RootActor): Bytes {
    PutDid(r.did) + (r.merkleRoot + (BigEndian(r.leafCount, 8) + r.control))
  }

  function TakeRoot(env: Env, cursor: Bytes): Decoded<RootActor> {
    var Parsed(did, afterDid) :- TakeDid(env, cursor);
    var Parsed(root, afterRoot) :- Take(afterDid, 32);
    var Parsed(count, afterCount) :- TakeU64(afterRoot);
    var Parsed(control, rest) :- TakeKey(env, afterCount);
    Ok(Parsed(RootActor(did, root, count, control), rest))
  }

  lemma TakeRootAppended(env: Env, r: RootActor, rest: Bytes)
    requires ValidDid(env, r.did) && env.isPoint(r.control)
    ensures TakeRoot(env, PutRoot(r) + rest) == Ok(Parsed(r, rest))
  {
    hide TakeDid, PutDid, TakeU64, TakeKey, Take, BigEndian, ValidDid;
    var count := BigEndian(r.leafCount, 8);
    assert PutRoot(r) + rest == PutDid(r.did) + (r.merkleRoot + (count + (r.control + rest)));
    TakeDidAppended(env, r.did, r.merkleRoot + (count + (r.control + rest)));
    TakeAppended(r.merkleRoot, count + (r.control + rest));
    TakeU64Appended(r.leafCount, r.control + rest);
    TakeKeyAppended(env, r.control, rest);
  }

  datatype SubActor = SubActor(id: ActorId, control: Key, operating: Key)

  function PutSub(a: SubActor): Bytes { PutActor(a.id) + (a.control + a.operating) }

  function TakeSub(env: Env, cursor: Bytes): Decoded<SubActor> {
    var Parsed(id, afterId) :- TakeActor(env, cursor);
    if id.Root? then Err(ExpectedSubActor)
    else
      var Parsed(control, afterControl) :- TakeKey(env, afterId);
      var Parsed(operating, rest) :- TakeKey(env, afterControl);
      Ok(Parsed(SubActor(id, control, operating), rest))
  }

  lemma TakeSubAppended(env: Env, a: SubActor, rest: Bytes)
    requires a.id.Sub? && a.id.index < INDEX_LIMIT && ValidDid(env, a.id.rootDid)
    requires env.isPoint(a.control) && env.isPoint(a.operating)
    ensures TakeSub(env, PutSub(a) + rest) == Ok(Parsed(a, rest))
  {
    hide TakeActor, PutActor, TakeKey, ValidDid;
    assert PutSub(a) + rest == PutActor(a.id) + (a.control + (a.operating + rest));
    TakeActorAppended(env, a.id, a.control + (a.operating + rest));
    TakeKeyAppended(env, a.control, a.operating + rest);
    TakeKeyAppended(env, a.operating, rest);
  }

  // ---------------------------------------------------------------- state keys

  const DID_PREFIX: Byte := 0xD1

  const ACTOR_PREFIX: Byte := 0xA1

  function DidKey(id: DidId): Bytes { [DID_PREFIX] + PutDid(id) }

  function ActorKey(id: ActorId): Bytes { [ACTOR_PREFIX] + PutActor(id) }

  lemma DidKeyInjective(a: DidId, b: DidId)
    requires DidKey(a) == DidKey(b)
    ensures a == b
  {
    hide PutDid;
    AppendInjective([DID_PREFIX], PutDid(a), [DID_PREFIX], PutDid(b));
    assert PutDid(a) + [] == PutDid(b) + [];
    PutDidPrefixFree(a, b, [], []);
  }

  lemma ActorKeyInjective(a: ActorId, b: ActorId)
    requires ActorKey(a) == ActorKey(b)
    ensures a == b
  {
    hide PutDid, PutActor;
    AppendInjective([ACTOR_PREFIX], PutActor(a), [ACTOR_PREFIX], PutActor(b));
    PutActorInjective(a, b);
  }

  lemma PutActorInjective(a: ActorId, b: ActorId)
    requires PutActor(a) == PutActor(b)
    ensures a == b
  {
    hide PutDid, BigEndian;
    assert PutActor(a)[0] == PutActor(b)[0];
    if a.Root? {
      AppendInjective([0x00], PutDid(a.did), [0x00], PutDid(b.did));
      assert PutDid(a.did) + [] == PutDid(b.did) + [];
      PutDidPrefixFree(a.did, b.did, [], []);
    } else {
      var slotA, slotB := [TagCode(a.tag)] + BigEndian(a.index, 4), [TagCode(b.tag)] + BigEndian(b.index, 4);
      AppendInjective([0x01], PutDid(a.rootDid) + slotA, [0x01], PutDid(b.rootDid) + slotB);
      PutDidPrefixFree(a.rootDid, b.rootDid, slotA, slotB);
      AppendInjective([TagCode(a.tag)], BigEndian(a.index, 4), [TagCode(b.tag)], BigEndian(b.index, 4));
      Widths();
      NumberOfBigEndian(a.index, 4);
      NumberOfBigEndian(b.index, 4);
      assert a.tag == b.tag by { assert TagOf(TagCode(a.tag)) == Some(a.tag) && TagOf(TagCode(b.tag)) == Some(b.tag); }
    }
  }

  /** Document keys, actor keys and the keys a plain write may use never meet. */
  lemma KeyKinds(d: DidId, a: ActorId)
    ensures DidKey(d) != [] && ActorKey(a) != []
    ensures DidKey(d)[0] == DID_PREFIX && ActorKey(a)[0] == ACTOR_PREFIX && DidKey(d) != ActorKey(a)
  {
    assert DidKey(d)[0] != ActorKey(a)[0];
  }
}
