/** What executing a batch of finalized events amounts to, and what replaying its recorded diffs gives. */
module Deliveries {
  import opened Prelude
  import opened Crypto
  import opened Codec
  import opened Identity
  import opened Operations
  import opened Serialization
  import opened Transitions

  // ---------------------------------------------------------------- one event

  datatype ExecuteResult = ExecuteResult(errors: seq<DecodeError>, membershipOps: seq<Bytes>, opErrors: seq<OpError>)

  const NOTHING := ExecuteResult([], [], [])

  function Noted(r: ExecuteResult, o: Outcome): ExecuteResult {
    match o
    case Written(_) => r
    case Collected(m) => r.(membershipOps := r.membershipOps + [m])
    case Undecodable(e) => r.(errors := r.errors + [e])
    case Refused(e) => r.(opErrors := r.opErrors + [e])
  }

  /** What the payloads of one event leave behind besides their writes. */
  function ResultOf(env: Env, kv: Kv, payloads: seq<Bytes>): ExecuteResult {
    if payloads == [] then NOTHING
    else
      var before, last := payloads[..|payloads| - 1], payloads[|payloads| - 1];
      Noted(ResultOf(env, kv, before), PayloadOutcome(env, Run(env, kv, before), last))
  }

  // ---------------------------------------------------------------- diffs

  /** After-images of the keys written in one round. */
  type Diff = map<Bytes, Option<Bytes>>

  function Recorded(d: Diff, w: Write): Diff { d[w.key := w.value] }

  function RecordAll(d: Diff, ws: seq<Write>): Diff {
    if ws == [] then d else Recorded(RecordAll(d, ws[..|ws| - 1]), ws[|ws| - 1])
  }

  /** The diff after the payloads of one event. */
  function DiffOf(env: Env, kv: Kv, payloads: seq<Bytes>, d: Diff): Diff {
    if payloads == [] then d
    else
      var before, last := payloads[..|payloads| - 1], payloads[|payloads| - 1];
      RecordAll(DiffOf(env, kv, before, d), WritesOf(PayloadOutcome(env, Run(env, kv, before), last)))
  }

  /** A state with the after-images of one round laid over it. */
  ghost function Overlay(kv: Kv, d: Diff): Kv {
    map k | k in kv.Keys + d.Keys && (k in d ==> d[k].Some?) :: if k in d then d[k].value else kv[k]
  }

  lemma OverlayRecorded(kv: Kv, d: Diff, w: Write)
    ensures Overlay(kv, Recorded(d, w)) == ApplyWrite(Overlay(kv, d), w)
  {
  }

  lemma {:induction false} OverlayRecordAll(kv: Kv, d: Diff, ws: seq<Write>)
    ensures Overlay(kv, RecordAll(d, ws)) == ApplyWrites(Overlay(kv, d), ws)
  {
    hide Overlay, Recorded, ApplyWrite;
    if ws != [] {
      OverlayRecordAll(kv, d, ws[..|ws| - 1]);
      OverlayRecorded(kv, RecordAll(d, ws[..|ws| - 1]), ws[|ws| - 1]);
    }
  }

  /** The diff of an event, laid over what the diff so far gives, is the state after the event. */
  lemma {:induction false} OverlayDiffOf(env: Env, base: Kv, d: Diff, kv: Kv, payloads: seq<Bytes>)
    requires Overlay(base, d) == kv
    ensures Overlay(base, DiffOf(env, kv, payloads, d)) == Run(env, kv, payloads)
  {
    hide Overlay, RecordAll, ApplyWrites, PayloadOutcome;
    if payloads != [] {
      var before, last := payloads[..|payloads| - 1], payloads[|payloads| - 1];
      OverlayDiffOf(env, base, d, kv, before);
      OverlayRecordAll(base, DiffOf(env, kv, before, d), WritesOf(PayloadOutcome(env, Run(env, kv, before), last)));
    }
  }

  type RoundDiffs = map<nat, Diff>

  /** Lays the diffs of all rounds below `bound` over `kv`, in round order. */
  ghost function Replay(kv: Kv, diffs: RoundDiffs, bound: nat): Kv {
    if bound == 0 then kv
    else
      var before := Replay(kv, diffs, bound - 1);
      if bound - 1 in diffs then Overlay(before, diffs[bound - 1]) else before
  }

  /** Rounds without entries do nothing. */
  lemma {:induction false} ReplayIdle(kv: Kv, diffs: RoundDiffs, from: nat, bound: nat)
    requires from <= bound && forall r :: r in diffs ==> r < from
    ensures Replay(kv, diffs, bound) == Replay(kv, diffs, from)
  {
    hide Overlay;
    if from < bound { ReplayIdle(kv, diffs, from, bound - 1); }
  }

  /** A round's entry is not read while replaying earlier rounds. */
  lemma {:induction false} ReplayFrame(kv: Kv, diffs: RoundDiffs, round: nat, d: Diff, bound: nat)
    requires bound <= round
    ensures Replay(kv, diffs[round := d], bound) == Replay(kv, diffs, bound)
  {
    hide Overlay;
    if bound > 0 { ReplayFrame(kv, diffs, round, d, bound - 1); }
  }

  lemma EmptyDiff(kv: Kv)
    ensures Overlay(kv, map[]) == kv
  {
  }

  /** Leaving out the rounds whose diff is empty changes nothing. */
  lemma {:induction false} ReplayDropsEmpty(kv: Kv, diffs: RoundDiffs, kept: RoundDiffs, bound: nat)
    requires kept == map r | r in diffs && diffs[r] != map[] :: diffs[r]
    ensures Replay(kv, kept, bound) == Replay(kv, diffs, bound)
  {
    hide Overlay;
    if bound > 0 {
      ReplayDropsEmpty(kv, diffs, kept, bound - 1);
      EmptyDiff(Replay(kv, diffs, bound - 1));
    }
  }

  // ---------------------------------------------------------------- batches

  /** A finalized event as the executor sees it: its hash, its payloads and the round that received it. */
  datatype Delivery = Delivery(hash: Hash, payloads: seq<Bytes>, round: nat)

  type Pending = map<nat, seq<Bytes>>

  function AddPending(pending: Pending, round: nat, ops: seq<Bytes>): Pending {
    if ops == [] then pending
    else pending[round := (if round in pending then pending[round] else []) + ops]
  }

  datatype Progress = Progress(kv: Kv, executed: set<Hash>, pending: Pending)

  function Deliver(env: Env, p: Progress, d: Delivery): Progress {
    if d.hash in p.executed then p
    else Progress(Run(env, p.kv, d.payloads), p.executed + {d.hash},
                  AddPending(p.pending, d.round, ResultOf(env, p.kv, d.payloads).membershipOps))
  }

  function DeliverAll(env: Env, p: Progress, batch: seq<Delivery>): Progress {
    if batch == [] then p
    else Deliver(env, DeliverAll(env, p, batch[..|batch| - 1]), batch[|batch| - 1])
  }

  /** The highest round of a batch. */
  function HighestRound(batch: seq<Delivery>): nat {
    if batch == [] then 0 else Max(HighestRound(batch[..|batch| - 1]), batch[|batch| - 1].round)
  }

  predicate AllExecuted(executed: set<Hash>, batch: seq<Delivery>) {
    forall i :: 0 <= i < |batch| ==> batch[i].hash in executed
  }

  /** The watermark moves to the highest round of a batch that held anything new. */
  function WatermarkAfter(executed: set<Hash>, watermark: nat, batch: seq<Delivery>): nat {
    if !AllExecuted(executed, batch) && HighestRound(batch) > watermark then HighestRound(batch) else watermark
  }

  lemma {:induction false} DeliverAllExecutes(env: Env, p: Progress, batch: seq<Delivery>)
    ensures p.executed <= DeliverAll(env, p, batch).executed && AllExecuted(DeliverAll(env, p, batch).executed, batch)
    ensures DeliverAll(env, p, batch).executed == p.executed + set i | 0 <= i < |batch| :: batch[i].hash
  {
    hide Run, ResultOf, AddPending;
    if batch != [] {
      var front := batch[..|batch| - 1];
      DeliverAllExecutes(env, p, front);
      assert batch == front + [batch[|batch| - 1]];
      var hashes := set i | 0 <= i < |batch| :: batch[i].hash;
      assert hashes == (set i | 0 <= i < |front| :: front[i].hash) + {batch[|batch| - 1].hash} by {
        forall i | 0 <= i < |front| ensures front[i].hash in hashes { assert batch[i] == front[i]; }
      }
    }
  }

  /** A batch whose events were all executed changes nothing. */
  lemma {:induction false} RepeatedBatch(env: Env, p: Progress, batch: seq<Delivery>)
    requires AllExecuted(p.executed, batch)
    ensures DeliverAll(env, p, batch) == p
  {
    hide Run, ResultOf, AddPending;
    if batch != [] { RepeatedBatch(env, p, batch[..|batch| - 1]); }
  }

  lemma {:induction false} DeliverAppend(env: Env, p: Progress, a: seq<Delivery>, b: seq<Delivery>)
    ensures DeliverAll(env, p, a + b) == DeliverAll(env, DeliverAll(env, p, a), b)
  {
    hide Deliver;
    if b == [] {
      assert a + b == a;
    } else {
      assert (a + b)[..|a + b| - 1] == a + b[..|b| - 1];
      DeliverAppend(env, p, a, b[..|b| - 1]);
    }
  }

  /**
    Feeding a log again after it has grown executes only what was added: growing logs converge to one pass
    over the last.
  */
  lemma GrownLog(env: Env, p: Progress, log: seq<Delivery>, added: seq<Delivery>)
    ensures DeliverAll(env, DeliverAll(env, p, log), log + added) == DeliverAll(env, p, log + added)
  {
    hide Deliver, AllExecuted;
    var q := DeliverAll(env, p, log);
    DeliverAllExecutes(env, p, log);
    DeliverAppend(env, q, log, added);
    RepeatedBatch(env, q, log);
    DeliverAppend(env, p, log, added);
  }

  /** Feeding a node every log it held along the way, each extending the one before. */
  function DeliverLogs(env: Env, p: Progress, logs: seq<seq<Delivery>>): Progress {
    if logs == [] then p else DeliverAll(env, DeliverLogs(env, p, logs[..|logs| - 1]), logs[|logs| - 1])
  }

  /** However often and in whatever instalments the growing log is fed, the outcome is one pass over the last one. */
  lemma {:induction false} LogsConverge(env: Env, p: Progress, logs: seq<seq<Delivery>>)
    requires logs != [] && forall i, j :: 0 <= i < j < |logs| ==> logs[i] <= logs[j]
    ensures DeliverLogs(env, p, logs) == DeliverAll(env, p, logs[|logs| - 1])
  {
    hide DeliverAll;
    var front, last := logs[..|logs| - 1], logs[|logs| - 1];
    if front == [] {
      assert DeliverLogs(env, p, front) == p;
    } else {
      LogsConverge(env, p, front);
      var previous := front[|front| - 1];
      assert previous == logs[|logs| - 2];
      var added := last[|previous|..];
      assert last == previous + added;
      GrownLog(env, p, previous, added);
    }
  }

  // ---------------------------------------------------------------- nothing lost, nothing twice

  function PendingAt(pending: Pending, round: nat): seq<Bytes> { if round in pending then pending[round] else [] }

  /** The membership operations of the new events of a batch that `round` received, in order. */
  function CollectedIn(env: Env, p: Progress, batch: seq<Delivery>, round: nat): seq<Bytes> {
    if batch == [] then []
    else
      var front, last := batch[..|batch| - 1], batch[|batch| - 1];
      var before, earlier := DeliverAll(env, p, front), CollectedIn(env, p, front, round);
      if last.round != round || last.hash in before.executed then earlier
      else earlier + ResultOf(env, before.kv, last.payloads).membershipOps
  }

  /** Each round's queue grows by exactly the operations of that round's newly executed events, in order. */
  lemma {:induction false} PendingByRound(env: Env, p: Progress, batch: seq<Delivery>, round: nat)
    ensures PendingAt(DeliverAll(env, p, batch).pending, round) ==
      PendingAt(p.pending, round) + CollectedIn(env, p, batch, round)
  {
    hide Run, ResultOf;
    if batch != [] {
      var front, last := batch[..|batch| - 1], batch[|batch| - 1];
      PendingByRound(env, p, front, round);
      var before := DeliverAll(env, p, front);
      PendingGrows(before.pending, last.round, ResultOf(env, before.kv, last.payloads).membershipOps, round);
    }
  }

  lemma PendingGrows(pending: Pending, round: nat, ops: seq<Bytes>, at: nat)
    ensures PendingAt(AddPending(pending, round, ops), at) == PendingAt(pending, at) + if at == round then ops else []
  {
  }

  /** How many payloads of an event took effect on the state. */
  function Effective(env: Env, kv: Kv, payloads: seq<Bytes>): nat {
    if payloads == [] then 0
    else
      var before, last := payloads[..|payloads| - 1], payloads[|payloads| - 1];
      Effective(env, kv, before) + if PayloadOutcome(env, Run(env, kv, before), last).Written? then 1 else 0
  }

  /** Every payload is accounted for once: applied, collected, undecodable or refused. */
  lemma {:induction false} EveryPayloadCounted(env: Env, kv: Kv, payloads: seq<Bytes>)
    ensures var r := ResultOf(env, kv, payloads);
      Effective(env, kv, payloads) + |r.membershipOps| + |r.errors| + |r.opErrors| == |payloads|
  {
    hide Run, PayloadOutcome;
    if payloads != [] { EveryPayloadCounted(env, kv, payloads[..|payloads| - 1]); }
  }

  // ---------------------------------------------------------------- recorded diffs

  function DiffsAfter(env: Env, p: Progress, diffs: RoundDiffs, d: Delivery): RoundDiffs {
    if d.hash in p.executed then diffs
    else diffs[d.round := DiffOf(env, p.kv, d.payloads, if d.round in diffs then diffs[d.round] else map[])]
  }

  /** The diffs recorded while delivering a batch. */
  function DiffsAll(env: Env, p: Progress, batch: seq<Delivery>): RoundDiffs {
    if batch == [] then map[]
    else
      var front := batch[..|batch| - 1];
      DiffsAfter(env, DeliverAll(env, p, front), DiffsAll(env, p, front), batch[|batch| - 1])
  }

  function NonEmpty(diffs: RoundDiffs): RoundDiffs {
    map r | r in diffs && diffs[r] != map[] :: diffs[r]
  }

  ghost predicate InRoundOrder(batch: seq<Delivery>) {
    forall i, j :: 0 <= i < j < |batch| ==> batch[i].round <= batch[j].round
  }

  ghost predicate RoundsBelow(diffs: RoundDiffs, bound: nat) {
    forall r :: r in diffs ==> r < bound
  }

  /** Recording an event in its round, which no recorded round exceeds, keeps the replay in step with the state. */
  lemma RoundRecorded(env: Env, base: Kv, diffs: RoundDiffs, bound: nat, round: nat, kv: Kv, payloads: seq<Bytes>)
    requires Replay(base, diffs, bound) == kv && RoundsBelow(diffs, bound) && bound <= round + 1
    ensures var d := if round in diffs then diffs[round] else map[];
      var diffs' := diffs[round := DiffOf(env, kv, payloads, d)];
      Replay(base, diffs', round + 1) == Run(env, kv, payloads) && RoundsBelow(diffs', round + 1)
  {
    hide Overlay, DiffOf, Run;
    var d := if round in diffs then diffs[round] else map[];
    var after := DiffOf(env, kv, payloads, d);
    var before := Replay(base, diffs, round);
    ReplayIdle(base, diffs, bound, round + 1);
    EmptyDiff(before);
    assert Overlay(before, d) == kv;
    OverlayDiffOf(env, before, d, kv, payloads);
    ReplayFrame(base, diffs, round, after, round);
  }

  lemma {:induction false} HighestIsLast(batch: seq<Delivery>)
    requires batch != [] && forall i, j :: 0 <= i < j < |batch| ==> batch[i].round <= batch[j].round
    ensures HighestRound(batch) == batch[|batch| - 1].round
  {
    var front := batch[..|batch| - 1];
    if front != [] {
      HighestIsLast(front);
      assert front[|front| - 1] == batch[|batch| - 2];
    }
  }

  lemma {:induction false} ReplayRecorded(env: Env, p: Progress, batch: seq<Delivery>) returns (bound: nat)
    requires InRoundOrder(batch)
    ensures RoundsBelow(DiffsAll(env, p, batch), bound) && bound <= if batch == [] then 0 else HighestRound(batch) + 1
    ensures Replay(p.kv, DiffsAll(env, p, batch), bound) == DeliverAll(env, p, batch).kv
  {
    hide Run, DiffOf, ResultOf, AddPending, Replay, Overlay;
    bound := 0;
    if batch == [] {
      assert Replay(p.kv, map[], 0) == p.kv by { ReplayStart(p.kv, map[]); }
    } else {
      var front, last := batch[..|batch| - 1], batch[|batch| - 1];
      bound := ReplayRecorded(env, p, front);
      HighestIsLast(batch);
      if front != [] {
        HighestIsLast(front);
        assert front[|front| - 1] == batch[|batch| - 2];
      }
      var q := DeliverAll(env, p, front);
      if last.hash !in q.executed {
        RoundRecorded(env, p.kv, DiffsAll(env, p, front), bound, last.round, q.kv, last.payloads);
        bound := last.round + 1;
      }
    }
  }

  lemma ReplayStart(kv: Kv, diffs: RoundDiffs)
    ensures Replay(kv, diffs, 0) == kv
  {
  }

  /** Laying the emitted diffs over the starting state, round by round, gives the state the executor reached. */
  lemma DiffReplay(env: Env, p: Progress, batch: seq<Delivery>)
    requires InRoundOrder(batch)
    ensures Replay(p.kv, NonEmpty(DiffsAll(env, p, batch)), HighestRound(batch) + 1) == DeliverAll(env, p, batch).kv
  {
    hide DiffsAll, DeliverAll, Replay;
    var all, top := DiffsAll(env, p, batch), HighestRound(batch) + 1;
    var bound := ReplayRecorded(env, p, batch);
    ReplayIdle(p.kv, all, bound, top);
    ReplayDropsEmpty(p.kv, all, NonEmpty(all), top);
  }

  // ---------------------------------------------------------------- late events

  /** A payload that does not read the state: a write, a delete, a membership request or an undecodable one. */
  predicate Plain(env: Env, payload: Bytes) {
    match Decode(env, payload)
    case Err(_) => true
    case Ok(op) => op.Put? || op.Delete? || op.Membership?
  }

  predicate AllPlain(env: Env, payloads: seq<Bytes>) {
    forall i :: 0 <= i < |payloads| ==> Plain(env, payloads[i])
  }

  lemma PlainOutcome(env: Env, kv: Kv, kv': Kv, payload: Bytes)
    requires Plain(env, payload)
    ensures PayloadOutcome(env, kv, payload) == PayloadOutcome(env, kv', payload)
  {
    hide Decode;
  }

  /** What plain payloads write does not depend on where they are executed. */
  lemma {:induction false} PlainDiff(env: Env, kv: Kv, kv': Kv, payloads: seq<Bytes>, d: Diff)
    requires AllPlain(env, payloads)
    ensures DiffOf(env, kv, payloads, d) == DiffOf(env, kv', payloads, d)
  {
    hide Plain, PayloadOutcome, Run, RecordAll;
    if payloads != [] {
      var before, last := payloads[..|payloads| - 1], payloads[|payloads| - 1];
      assert AllPlain(env, before) by {
        forall i | 0 <= i < |before| ensures Plain(env, before[i]) { assert before[i] == payloads[i]; }
      }
      PlainDiff(env, kv, kv', before, d);
      PlainOutcome(env, Run(env, kv, before), Run(env, kv', before), last);
    }
  }

  /** The after-images of everything a batch executes. */
  ghost function BatchDiff(env: Env, p: Progress, batch: seq<Delivery>): Diff {
    if batch == [] then map[]
    else
      var front, last := batch[..|batch| - 1], batch[|batch| - 1];
      var q, d := DeliverAll(env, p, front), BatchDiff(env, p, front);
      if last.hash in q.executed then d else DiffOf(env, q.kv, last.payloads, d)
  }

  lemma {:induction false} BatchOverlay(env: Env, p: Progress, batch: seq<Delivery>)
    ensures DeliverAll(env, p, batch).kv == Overlay(p.kv, BatchDiff(env, p, batch))
  {
    hide Run, DiffOf, ResultOf, AddPending, Overlay;
    if batch == [] {
      OverlayNothing(p.kv);
    } else {
      var front, last := batch[..|batch| - 1], batch[|batch| - 1];
      BatchOverlay(env, p, front);
      OverlayDiffOf(env, p.kv, BatchDiff(env, p, front), DeliverAll(env, p, front).kv, last.payloads);
    }
  }

  lemma OverlayNothing(kv: Kv)
    ensures Overlay(kv, map[]) == kv
  {
  }

  predicate PlainBatch(env: Env, batch: seq<Delivery>) {
    forall i :: 0 <= i < |batch| ==> AllPlain(env, batch[i].payloads)
  }

  predicate SameKnown(executed: set<Hash>, executed': set<Hash>, batch: seq<Delivery>) {
    forall i :: 0 <= i < |batch| ==> (batch[i].hash in executed <==> batch[i].hash in executed')
  }

  /** What a batch of plain events writes depends only on which of them were executed before. */
  lemma {:induction false} PlainBatchDiff(env: Env, p: Progress, p': Progress, batch: seq<Delivery>)
    requires PlainBatch(env, batch) && SameKnown(p.executed, p'.executed, batch)
    ensures BatchDiff(env, p, batch) == BatchDiff(env, p', batch)
  {
    hide Plain, AllPlain, DiffOf, DeliverAll;
    if batch != [] {
      var front, last := batch[..|batch| - 1], batch[|batch| - 1];
      assert forall i :: 0 <= i < |front| ==> front[i] == batch[i];
      PlainBatchDiff(env, p, p', front);
      DeliverAllExecutes(env, p, front);
      DeliverAllExecutes(env, p', front);
      PlainDiff(env, DeliverAll(env, p, front).kv, DeliverAll(env, p', front).kv, last.payloads,
                BatchDiff(env, p, front));
    }
  }

  /** The two diffs write the same after-image to every key both write. */
  ghost predicate DiffsAgree(c: Diff, d: Diff) {
    forall k :: k in c && k in d ==> c[k] == d[k]
  }

  lemma OverlaysCommute(kv: Kv, c: Diff, d: Diff)
    ensures Overlay(Overlay(kv, c), d) == Overlay(Overlay(kv, d), c) <==> DiffsAgree(c, d)
  {
    var cd, dc := Overlay(Overlay(kv, c), d), Overlay(Overlay(kv, d), c);
    if cd == dc {
      forall k | k in c && k in d ensures c[k] == d[k] {
        assert k in cd <==> d[k].Some?;
        assert k in dc <==> c[k].Some?;
      }
    }
    if DiffsAgree(c, d) { assert cd == dc; }
  }

  /**
    A plain event that arrives late, after any batch that other nodes executed it before, leaves the
    same state exactly when it and the batch write the same after-image to every key both write.
  */
  lemma LateEventConverges(env: Env, p: Progress, batch: seq<Delivery>, y: Delivery)
    requires y.hash !in p.executed && forall i :: 0 <= i < |batch| ==> batch[i].hash != y.hash
    requires PlainBatch(env, batch) && AllPlain(env, y.payloads)
    ensures DeliverAll(env, p, batch + [y]).kv == DeliverAll(env, p, [y] + batch).kv <==>
      DiffsAgree(BatchDiff(env, p, batch), DiffOf(env, p.kv, y.payloads, map[]))
  {
    hide AllPlain, PlainBatch, DiffOf, Overlay, DeliverAll, BatchDiff, DiffsAgree, ResultOf, AddPending, Run;
    var c, d := BatchDiff(env, p, batch), DiffOf(env, p.kv, y.payloads, map[]);
    var after, first := DeliverAll(env, p, batch), Deliver(env, p, y);
    assert DeliverAll(env, p, batch + [y]).kv == Overlay(Overlay(p.kv, c), d) by {
      DeliverAppend(env, p, batch, [y]);
      DeliverOne(env, after, y);
      DeliverAllExecutes(env, p, batch);
      BatchOverlay(env, p, batch);
      PlainDiff(env, p.kv, after.kv, y.payloads, map[]);
      OverlayNothing(after.kv);
      OverlayDiffOf(env, after.kv, map[], after.kv, y.payloads);
    }
    assert DeliverAll(env, p, [y] + batch).kv == Overlay(Overlay(p.kv, d), c) by {
      DeliverAppend(env, p, [y], batch);
      DeliverOne(env, p, y);
      BatchOverlay(env, first, batch);
      PlainBatchDiff(env, p, first, batch);
      OverlayNothing(p.kv);
      OverlayDiffOf(env, p.kv, map[], p.kv, y.payloads);
    }
    OverlaysCommute(p.kv, c, d);
  }

  lemma DeliverOne(env: Env, p: Progress, d: Delivery)
    ensures DeliverAll(env, p, [d]) == Deliver(env, p, d)
  {
    hide Deliver;
    assert [d][..0] == [];
    assert DeliverAll(env, p, []) == p;
  }

  /** One plain write as a payload. */
  function WritePayload(key: Field, value: Field): Bytes { [0x00] + (PutField(key) + PutField(value)) }

  lemma WriteDiff(env: Env, kv: Kv, key: Field, value: Field)
    requires !Reserved(key)
    ensures AllPlain(env, [WritePayload(key, value)])
    ensures DiffOf(env, kv, [WritePayload(key, value)], map[]) == map[key := Some(value)]
  {
    hide Decode, PutField, Reserved;
    PutRoundTrip(env, key, value);
    var w := Write(key, Some(value));
    assert [WritePayload(key, value)][..0] == [];
    assert [w][..0] == [];
    assert RecordAll(map[], [w]) == Recorded(RecordAll(map[], []), w);
  }

  /** Two events that write one key: which order they are executed in matters exactly when the values differ. */
  lemma LateWriteDiverges(env: Env, p: Progress, x: Delivery, y: Delivery, key: Field, a: Field, b: Field)
    requires !Reserved(key) && x.payloads == [WritePayload(key, a)] && y.payloads == [WritePayload(key, b)]
    requires x.hash !in p.executed && y.hash !in p.executed && x.hash != y.hash
    ensures DeliverAll(env, p, [x, y]).kv == DeliverAll(env, p, [y, x]).kv <==> a == b
  {
    hide Plain, DiffOf, DeliverAll, WritePayload;
    WriteDiff(env, p.kv, key, a);
    WriteDiff(env, p.kv, key, b);
    OneEventBatch(env, p, x);
    assert [x] + [y] == [x, y] && [y] + [x] == [y, x];
    LateEventConverges(env, p, [x], y);
    var c, d := map[key := Some(a)], map[key := Some(b)];
    assert DiffsAgree(c, d) <==> c[key] == d[key];
  }

  lemma OneEventBatch(env: Env, p: Progress, x: Delivery)
    requires x.hash !in p.executed
    ensures BatchDiff(env, p, [x]) == DiffOf(env, p.kv, x.payloads, map[])
  {
    hide DiffOf;
    assert [x][..0] == [];
    assert DeliverAll(env, p, []) == p && BatchDiff(env, p, []) == map[];
  }
}
