/** The deterministic executor: applies finalized events to the state, each exactly once. */
module Executor {
  import opened Prelude
  import opened Crypto
  import opened Codec
  import opened Identity
  import opened MerkleLog
  import opened Operations
  import opened Serialization
  import opened StateStore
  import opened Transitions
  import opened Ledgers
  import opened Deliveries

  /** Runs compose. */
  lemma RunExtends(env: Env, kv: Kv, payloads: seq<Bytes>, i: nat)
    requires i < |payloads|
    ensures Run(env, kv, payloads[..i + 1]) == Step(env, Run(env, kv, payloads[..i]), payloads[i])
    ensures ResultOf(env, kv, payloads[..i + 1]) ==
      Noted(ResultOf(env, kv, payloads[..i]), PayloadOutcome(env, Run(env, kv, payloads[..i]), payloads[i]))
  {
    hide Step, PayloadOutcome, Noted;
    assert payloads[..i + 1][..i] == payloads[..i];
  }

  lemma DiffExtends(env: Env, kv: Kv, payloads: seq<Bytes>, d: Diff, i: nat)
    requires i < |payloads|
    ensures DiffOf(env, kv, payloads[..i + 1], d) ==
      RecordAll(DiffOf(env, kv, payloads[..i], d),
                WritesOf(PayloadOutcome(env, Run(env, kv, payloads[..i]), payloads[i])))
  {
    hide PayloadOutcome, RecordAll, Run;
    assert payloads[..i + 1][..i] == payloads[..i];
  }

  lemma RecordOne(d: Diff, v: Write, w: Write)
    ensures RecordAll(d, []) == d && RecordAll(d, [v]) == Recorded(d, v)
    ensures RecordAll(d, [v, w]) == Recorded(Recorded(d, v), w)
  {
    assert [v, w][..1] == [v] && [v][..0] == [];
    assert RecordAll(d, [v]) == Recorded(d, v);
  }

  class Executor {
    const env: Env
    const state: State
    var executed: set<Hash>
    /** Who was minted under each DID, and what was hashed, since the executor was created. */
    ghost var books: Books

    ghost predicate Valid()
      reads this, state, state.tree
    {
      && state.Valid() && state.h == env.hash
      && Committed(env, state.kv, books.ledger, books.hashed)
    }

    constructor (env: Env)
      ensures Valid() && this.env == env && fresh(state) && fresh(state.tree)
      ensures state.kv == map[] && executed == {} && books == Books(map[], {})
    {
      this.env, executed, books := env, {}, Books(map[], {});
      state := new State(env.hash);
    }

    // -------------------------------------------------------------- the validated operations

    /** Applies a document; the result carries the root record it wrote, if any. */
    method ApplyDidOp(op: DidOp) returns (r: Result<Option<Write>, DidError>)
      requires Valid() && ValidOp(env, Did(op))
      modifies state, state.tree
      ensures state.Valid()
      ensures match DidOutcome(env, old(state.kv), op)
        case Err(e) => r == Err(e) && state.kv == old(state.kv)
        case Ok(ws) =>
          && state.kv == ApplyWrites(old(state.kv), ws) && r.Ok?
          && ws == [Write(DidKey(op.id), Some(PutDocument(op.document)))] +
                   (if r.value.Some? then [r.value.value] else [])
    {
      hide Committed, PutDocument, PutRoot, DidKey, ActorKey, DidSigners, SignedBy, DidSigned, RootAfter,
           ApplyWrites, ApplyWrite, ValidDocument, ValidDid;
      DocumentLimits(env, op.document);
      ghost var before := state.kv;
      var signers := DidSigners(env, state.kv, op);
      if signers.Err? { return Err(signers.error); }
      var signed := SignedBy(env, signers.value, op.signedBy, DidSigned(op.id, op.document), op.signature);
      if signed.Err? { return Err(signed.error); }
      var document := Write(DidKey(op.id), Some(PutDocument(op.document)));
      var root := Write(ActorKey(Root(op.id)), Some(PutRoot(RootAfter(env, state.kv, op))));
      OneWrite(before, document);
      TwoWrites(before, document, root);
      state.Apply(document);
      if op.document.deactivated { return Ok(None); }
      state.Apply(root);
      return Ok(Some(root));
    }

    /** Mints a sub-actor; the result carries the two records it wrote. */
    method ApplySubActorOp(op: SubActorOp) returns (r: Result<(Write, Write), ActorError>)
      requires Valid() && ValidOp(env, Mint(op))
      modifies state, state.tree
      ensures state.Valid()
      ensures match MintOutcome(env, old(state.kv), op)
        case Err(e) => r == Err(e) && state.kv == old(state.kv)
        case Ok(ws) => r.Ok? && ws == [r.value.0, r.value.1] && state.kv == ApplyWrites(old(state.kv), ws)
    {
      hide Committed, PutSub, PutRoot, DidKey, ActorKey, ActiveRoot, ProofsChecked, SigningKey, MintSigned, Succ,
           ApplyWrites, ApplyWrite, ValidOp;
      ghost var before := state.kv;
      if ActorKey(op.Id()) in state.kv { return Err(SubActorAlreadyExists); }
      var found := ActiveRoot(env, state.kv, op.rootDid);
      if found.Err? { return Err(found.error); }
      var (document, root) := found.value;
      var key := SigningKey(document, op.signedBy);
      if key.None? { return Err(UnknownActorSigner); }
      if !env.verifies(key.value, MintSigned(op), op.signature) { return Err(InvalidActorSignature); }
      var checked := ProofsChecked(env, root, op);
      if checked.Err? { return Err(checked.error); }
      var sub := Write(ActorKey(op.Id()), Some(PutSub(SubActor(op.Id(), op.control, op.operating))));
      var updated := Write(ActorKey(Root(op.rootDid)),
                           Some(PutRoot(RootActor(op.rootDid, op.newRoot, Succ(root.leafCount), root.control))));
      TwoWrites(before, sub, updated);
      state.Apply(sub);
      state.Apply(updated);
      return Ok((sub, updated));
    }

    /** Rebinds the operating key of a sub-actor; the result carries the record it wrote. */
    method ApplyRebindOp(op: RebindOp) returns (r: Result<Write, ActorError>)
      requires Valid() && ValidOp(env, Rebind(op))
      modifies state, state.tree
      ensures state.Valid()
      ensures match RebindOutcome(env, old(state.kv), op)
        case Err(e) => r == Err(e) && state.kv == old(state.kv)
        case Ok(ws) => r.Ok? && ws == [r.value] && state.kv == ApplyWrites(old(state.kv), ws)
    {
      hide Committed, PutSub, DidKey, ActorKey, ActiveRoot, StoredSub, RebindSigned, ApplyWrites, ApplyWrite, ValidOp;
      ghost var before := state.kv;
      if op.id.Root? { return Err(ExpectedSubActorId); }
      var sub := StoredSub(env, state.kv, op.id);
      if sub.None? { return Err(UnknownSubActor); }
      var found := ActiveRoot(env, state.kv, op.id.rootDid);
      if found.Err? { return Err(found.error); }
      var payload := RebindSigned(op, sub.value.operating);
      if !env.verifies(op.newOperating, payload, op.possession) { return Err(InvalidProofOfPossession); }
      if !env.verifies(found.value.1.control, payload, op.authorization) { return Err(InvalidAuthorization); }
      var updated := Write(ActorKey(op.id), Some(PutSub(SubActor(op.id, sub.value.control, op.newOperating))));
      OneWrite(before, updated);
      state.Apply(updated);
      return Ok(updated);
    }

    // -------------------------------------------------------------- one payload

    /** Decodes and applies one payload, adding to `result` what it leaves behind. */
    method ExecutePayload(payload: Bytes, result: ExecuteResult) returns (result': ExecuteResult)
      requires Valid()
      modifies state, state.tree, `books
      ensures Valid() && books == BooksAfter(env, old(state.kv), old(books), payload)
      ensures state.kv == Step(env, old(state.kv), payload)
      ensures result' == Noted(result, PayloadOutcome(env, old(state.kv), payload))
    {
      hide Committed, Decode, DidOutcome, MintOutcome, RebindOutcome, ApplyWrites, ApplyWrite, BooksAfter,
           ValidDocument, ValidDid;
      ghost var before := state.kv;
      StepKeeps(env, before, books, payload);
      NoWrites(before);
      result' := result;
      var decoded := Decode(env, payload);
      if decoded.Err? {
        result' := result.(errors := result.errors + [decoded.error]);
      } else {
        DecodedIsValid(env, payload);
        result' := ExecuteOp(decoded.value, result);
      }
      books := BooksAfter(env, before, books, payload);
    }

    method ExecuteOp(op: Op, result: ExecuteResult) returns (result': ExecuteResult)
      requires Valid() && ValidOp(env, op)
      modifies state, state.tree
      ensures state.Valid() && state.kv == ApplyWrites(old(state.kv), WritesOf(OpOutcome(env, old(state.kv), op)))
      ensures result' == Noted(result, OpOutcome(env, old(state.kv), op))
    {
      hide Committed, DidOutcome, MintOutcome, RebindOutcome, ApplyWrites, ApplyWrite, ValidDocument, ValidDid;
      ghost var before := state.kv;
      NoWrites(before);
      result' := result;
      match op
      case Put(key, value) =>
        OneWrite(before, Write(key, Some(value)));
        state.Apply(Write(key, Some(value)));
      case Delete(key) =>
        OneWrite(before, Write(key, None));
        state.Apply(Write(key, None));
      case Membership(body) =>
        result' := result.(membershipOps := result.membershipOps + [body]);
      case Did(d) =>
        DocumentLimits(env, d.document);
        var r := ApplyDidOp(d);
        if r.Err? { result' := result.(opErrors := result.opErrors + [DidFailed(r.error)]); }
      case Mint(m) =>
        var r := ApplySubActorOp(m);
        if r.Err? { result' := result.(opErrors := result.opErrors + [ActorFailed(r.error)]); }
      case Rebind(b) =>
        var r := ApplyRebindOp(b);
        if r.Err? { result' := result.(opErrors := result.opErrors + [ActorFailed(r.error)]); }
    }

    /** As `ExecuteOp`, recording in `diff` the after-image of every key written. */
    method ExecuteOpWithDiffs(op: Op, result: ExecuteResult, diff: Diff) returns (result': ExecuteResult, diff': Diff)
      requires Valid() && ValidOp(env, op)
      modifies state, state.tree
      ensures state.Valid() && state.kv == ApplyWrites(old(state.kv), WritesOf(OpOutcome(env, old(state.kv), op)))
      ensures result' == Noted(result, OpOutcome(env, old(state.kv), op))
      ensures diff' == RecordAll(diff, WritesOf(OpOutcome(env, old(state.kv), op)))
    {
      hide Committed, DidOutcome, MintOutcome, RebindOutcome, ApplyWrites, ApplyWrite, ValidDocument, ValidDid,
           RecordAll, DidKey, PutDocument;
      ghost var before := state.kv;
      NoWrites(before);
      result', diff' := result, diff;
      match op
      case Put(key, value) =>
        OneWrite(before, Write(key, Some(value)));
        RecordOne(diff, Write(key, Some(value)), Write(key, Some(value)));
        state.Apply(Write(key, Some(value)));
        diff' := diff[key := Some(value)];
      case Delete(key) =>
        OneWrite(before, Write(key, None));
        RecordOne(diff, Write(key, None), Write(key, None));
        state.Apply(Write(key, None));
        diff' := diff[key := None];
      case Membership(body) =>
        RecordOne(diff, Write([], None), Write([], None));
        result' := result.(membershipOps := result.membershipOps + [body]);
      case Did(d) =>
        DocumentLimits(env, d.document);
        var document := Write(DidKey(d.id), Some(PutDocument(d.document)));
        var r := ApplyDidOp(d);
        if r.Err? {
          RecordOne(diff, document, document);
          result' := result.(opErrors := result.opErrors + [DidFailed(r.error)]);
        } else {
          diff' := diff[document.key := document.value];
          RecordOne(diff, document, if r.value.Some? then r.value.value else document);
          if r.value.Some? { diff' := diff'[r.value.value.key := r.value.value.value]; }
          assert [document] + [] == [document];
          if r.value.Some? { assert [document] + [r.value.value] == [document, r.value.value]; }
        }
      case Mint(m) =>
        var r := ApplySubActorOp(m);
        if r.Err? {
          RecordOne(diff, Write([], None), Write([], None));
          result' := result.(opErrors := result.opErrors + [ActorFailed(r.error)]);
        } else {
          RecordOne(diff, r.value.0, r.value.1);
          diff' := diff[r.value.0.key := r.value.0.value][r.value.1.key := r.value.1.value];
        }
      case Rebind(b) =>
        var r := ApplyRebindOp(b);
        if r.Err? {
          RecordOne(diff, Write([], None), Write([], None));
          result' := result.(opErrors := result.opErrors + [ActorFailed(r.error)]);
        } else {
          RecordOne(diff, r.value, r.value);
          diff' := diff[r.value.key := r.value.value];
        }
    }

    method ExecutePayloadWithDiffs(payload: Bytes, result: ExecuteResult,
                                   diff: Diff) returns (result': ExecuteResult, diff': Diff)
      requires Valid()
      modifies state, state.tree, `books
      ensures Valid() && books == BooksAfter(env, old(state.kv), old(books), payload)
      ensures state.kv == Step(env, old(state.kv), payload)
      ensures result' == Noted(result, PayloadOutcome(env, old(state.kv), payload))
      ensures diff' == RecordAll(diff, WritesOf(PayloadOutcome(env, old(state.kv), payload)))
    {
      hide Committed, Decode, OpOutcome, ApplyWrites, BooksAfter, ValidOp, RecordAll;
      ghost var before := state.kv;
      StepKeeps(env, before, books, payload);
      NoWrites(before);
      RecordOne(diff, Write([], None), Write([], None));
      result', diff' := result, diff;
      var decoded := Decode(env, payload);
      if decoded.Err? {
        result' := result.(errors := result.errors + [decoded.error]);
      } else {
        DecodedIsValid(env, payload);
        result', diff' := ExecuteOpWithDiffs(decoded.value, result, diff);
      }
      books := BooksAfter(env, before, books, payload);
    }

    // -------------------------------------------------------------- one event

    /** Applies the payloads of an event in order; no payload's failure stops the next. */
    method ExecuteEvent(payloads: seq<Bytes>) returns (result: ExecuteResult)
      requires Valid()
      modifies state, state.tree, `books
      ensures Valid() && state.kv == Run(env, old(state.kv), payloads)
      ensures result == ResultOf(env, old(state.kv), payloads)
    {
      hide Committed, Step, PayloadOutcome, Noted, Run, ResultOf, BooksAfter;
      ghost var before := state.kv;
      RunNothing(env, before, map[]);
      result := NOTHING;
      var i := 0;
      assert payloads[..0] == [];
      while i < |payloads|
        invariant 0 <= i <= |payloads| && Valid()
        invariant state.kv == Run(env, before, payloads[..i]) && result == ResultOf(env, before, payloads[..i])
      {
        RunExtends(env, before, payloads, i);
        result := ExecutePayload(payloads[i], result);
        i := i + 1;
      }
      assert payloads[..i] == payloads;
    }

    method ExecuteEventWithDiffs(payloads: seq<Bytes>, diff: Diff) returns (result: ExecuteResult, diff': Diff)
      requires Valid()
      modifies state, state.tree, `books
      ensures Valid() && state.kv == Run(env, old(state.kv), payloads)
      ensures result == ResultOf(env, old(state.kv), payloads)
      ensures diff' == DiffOf(env, old(state.kv), payloads, diff)
    {
      hide Committed, Step, PayloadOutcome, Noted, Run, ResultOf, DiffOf, RecordAll, BooksAfter;
      ghost var before := state.kv;
      RunNothing(env, before, diff);
      result, diff' := NOTHING, diff;
      var i := 0;
      assert payloads[..0] == [];
      while i < |payloads|
        invariant 0 <= i <= |payloads| && Valid()
        invariant state.kv == Run(env, before, payloads[..i]) && result == ResultOf(env, before, payloads[..i])
        invariant diff' == DiffOf(env, before, payloads[..i], diff)
      {
        RunExtends(env, before, payloads, i);
        DiffExtends(env, before, payloads, diff, i);
        result, diff' := ExecutePayloadWithDiffs(payloads[i], result, diff');
        i := i + 1;
      }
      assert payloads[..i] == payloads;
    }

    // -------------------------------------------------------------- batches

    ghost function Now(pending: Pending): Progress
      reads this, state
    {
      Progress(state.kv, executed, pending)
    }

    /** Executes what is new in a batch, collecting membership operations by the round that received them. */
    method BucketFinalized(pending: Pending, watermark: nat, batch: seq<Delivery>) returns (pending': Pending,
                           watermark': nat)
      requires Valid()
      modifies this, state, state.tree
      ensures Valid() && Now(pending') == DeliverAll(env, old(Now(pending)), batch)
      ensures watermark' == WatermarkAfter(old(executed), watermark, batch)
    {
      hide Committed, Run, ResultOf, AddPending, AllExecuted;
      pending', watermark' := pending, watermark;
      if batch == [] { return; }
      ghost var start := Now(pending);
      var newMax := Highest(batch);
      var anyNew, i := false, 0;
      assert batch[..0] == [];
      AllExecutedUpTo(executed, batch, 0);
      while i < |batch|
        invariant 0 <= i <= |batch| && Valid()
        invariant Now(pending') == DeliverAll(env, start, batch[..i])
        invariant anyNew == !AllExecuted(start.executed, batch[..i])
      {
        BatchExtends(env, start, batch, i);
        AllExecutedUpTo(start.executed, batch, i + 1);
        if batch[i].hash !in executed {
          var result := ExecuteEvent(batch[i].payloads);
          pending' := AddPending(pending', batch[i].round, result.membershipOps);
          executed := executed + {batch[i].hash};
          anyNew := true;
        }
        i := i + 1;
      }
      assert batch[..i] == batch;
      if anyNew && newMax > watermark { watermark' := newMax; }
    }

    /** Executes one new event, recording its writes under its round. */
    method DeliverWithDiffs(pending: Pending, diffs: RoundDiffs, d: Delivery) returns (pending': Pending,
                            diffs': RoundDiffs)
      requires Valid() && d.hash !in executed
      modifies this, state, state.tree
      ensures Valid() && Now(pending') == Deliver(env, old(Now(pending)), d)
      ensures diffs' == DiffsAfter(env, old(Now(pending)), diffs, d)
    {
      hide Committed, Run, ResultOf, AddPending, DiffOf;
      var diff := if d.round in diffs then diffs[d.round] else map[];
      var result, diff' := ExecuteEventWithDiffs(d.payloads, diff);
      diffs' := diffs[d.round := diff'];
      pending' := AddPending(pending, d.round, result.membershipOps);
      executed := executed + {d.hash};
    }

    /** As `BucketFinalized`, also returning per round the after-images of the keys written. */
    method BucketFinalizedWithDiffs(pending: Pending, watermark: nat, batch: seq<Delivery>)
      returns (pending': Pending, watermark': nat, diffs: RoundDiffs)
      requires Valid()
      modifies this, state, state.tree
      ensures Valid() && Now(pending') == DeliverAll(env, old(Now(pending)), batch)
      ensures watermark' == WatermarkAfter(old(executed), watermark, batch)
      ensures diffs == NonEmpty(DiffsAll(env, old(Now(pending)), batch))
    {
      hide Committed, Deliver, DeliverAll, AllExecuted, DiffsAfter, DiffsAll;
      pending', watermark', diffs := pending, watermark, map[];
      ghost var start := Now(pending);
      DeliverNothing(env, start);
      if batch == [] { return; }
      var newMax := Highest(batch);
      var anyNew, i := false, 0;
      assert batch[..0] == [];
      AllExecutedUpTo(executed, batch, 0);
      while i < |batch|
        invariant 0 <= i <= |batch| && Valid()
        invariant Now(pending') == DeliverAll(env, start, batch[..i]) && diffs == DiffsAll(env, start, batch[..i])
        invariant anyNew == !AllExecuted(start.executed, batch[..i])
      {
        BatchExtends(env, start, batch, i);
        AllExecutedUpTo(start.executed, batch, i + 1);
        if batch[i].hash !in executed {
          pending', diffs := DeliverWithDiffs(pending', diffs, batch[i]);
          anyNew := true;
        } else {
          AlreadyDelivered(env, Now(pending'), diffs, batch[i]);
        }
        i := i + 1;
      }
      assert batch[..i] == batch;
      if anyNew && newMax > watermark { watermark' := newMax; }
      diffs := NonEmpty(diffs);
    }
  }

  lemma DeliverNothing(env: Env, p: Progress)
    ensures DeliverAll(env, p, []) == p && DiffsAll(env, p, []) == map[]
  {
  }

  lemma AlreadyDelivered(env: Env, p: Progress, diffs: RoundDiffs, d: Delivery)
    requires d.hash in p.executed
    ensures Deliver(env, p, d) == p && DiffsAfter(env, p, diffs, d) == diffs
  {
  }

  lemma RunNothing(env: Env, kv: Kv, d: Diff)
    ensures Run(env, kv, []) == kv && ResultOf(env, kv, []) == NOTHING && DiffOf(env, kv, [], d) == d
  {
  }

  lemma BatchExtends(env: Env, p: Progress, batch: seq<Delivery>, i: nat)
    requires i < |batch|
    ensures DeliverAll(env, p, batch[..i + 1]) == Deliver(env, DeliverAll(env, p, batch[..i]), batch[i])
    ensures DiffsAll(env, p, batch[..i + 1]) ==
      DiffsAfter(env, DeliverAll(env, p, batch[..i]), DiffsAll(env, p, batch[..i]), batch[i])
    ensures AllExecuted(p.executed, batch[..i]) ==> DeliverAll(env, p, batch[..i]) == p
    ensures p.executed <= DeliverAll(env, p, batch[..i]).executed
  {
    hide Deliver, DiffsAfter, AllExecuted;
    assert batch[..i + 1][..i] == batch[..i];
    DeliverAllExecutes(env, p, batch[..i]);
    if AllExecuted(p.executed, batch[..i]) { RepeatedBatch(env, p, batch[..i]); }
  }

  lemma AllExecutedUpTo(executed: set<Hash>, batch: seq<Delivery>, n: nat)
    requires n <= |batch|
    ensures AllExecuted(executed, batch[..n]) <==>
      (n == 0 || (AllExecuted(executed, batch[..n - 1]) && batch[n - 1].hash in executed))
  {
  }

  method Highest(batch: seq<Delivery>) returns (max: nat)
    ensures max == HighestRound(batch)
  {
    max := 0;
    var i := 0;
    assert batch[..0] == [];
    while i < |batch|
      invariant 0 <= i <= |batch| && max == HighestRound(batch[..i])
    {
      assert batch[..i + 1][..i] == batch[..i];
      max := Max(max, batch[i].round);
      i := i + 1;
    }
    assert batch[..i] == batch;
  }
}
