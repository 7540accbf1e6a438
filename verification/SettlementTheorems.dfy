/** Whole runs of the settlement pipeline. */
module SettlementTheorems {
  import opened Collections
  import opened Session
  import opened Protocol
  import opened Tables
  import opened JobKeys
  import opened Runs
  import opened Settlement
  import opened SettlementProofs
  import opened RfqProofs

  ghost predicate WorldInv(cfg: Config, w: World) {
    PipelineOk(cfg, w) && QueueOk(w) && RfqOk(w.db)
  }

  lemma InitWorldInv(cfg: Config)
    ensures WorldInv(cfg, InitWorld())
  {
    InitInv(cfg);
  }

  lemma WorldRunStep(cfg: Config, worlds: seq<World>, steps: seq<WStep>, i: nat)
    requires IsWorldRun(cfg, worlds, steps) && i < |steps|
    ensures |worlds| == |steps| + 1 && CanDo(cfg, worlds[i], steps[i])
    ensures worlds[i + 1] == After(cfg, worlds[i], steps[i])
  {
    hide CanDo, After;
  }

  lemma StepKeepsWorld(cfg: Config, w: World, step: WStep)
    requires ValidConfig(cfg) && CanDo(cfg, w, step) && WorldInv(cfg, w)
    ensures WorldInv(cfg, After(cfg, w, step))
  {
    StepKeepsPipeline(cfg, w, step);
    StepKeepsQueue(cfg, w, step);
    StepKeepsRfq(w, step);
    hide ValidConfig, PipelineOk, QueueOk, RfqOk, DbAfter, ComAfter, PersistsAfter, PollsAfter;
  }

  lemma {:induction false} WorldRunInv(cfg: Config, worlds: seq<World>, steps: seq<WStep>, i: nat)
    requires ValidConfig(cfg) && IsWorldRun(cfg, worlds, steps) && i < |worlds|
    ensures WorldInv(cfg, worlds[i])
    decreases i
  {
    assert worlds[0] == InitWorld() && |worlds| == |steps| + 1;
    hide *;
    if i == 0 {
      InitWorldInv(cfg);
    } else {
      WorldRunInv(cfg, worlds, steps, i - 1);
      WorldRunStep(cfg, worlds, steps, i - 1);
      StepKeepsWorld(cfg, worlds[i - 1], steps[i - 1]);
    }
  }

  /** Up to world `t` no RFQ row comes late for this id. */
  ghost predicate NoLateRow(worlds: seq<World>, steps: seq<WStep>, t: nat, id: IntentId) {
    |worlds| == |steps| + 1 && t < |worlds| && forall i :: 0 <= i < t ==> !LateRow(worlds[i], steps[i], id)
  }

  lemma ClearStep(cfg: Config, worlds: seq<World>, steps: seq<WStep>, i: nat, id: IntentId)
    requires ValidConfig(cfg) && IsWorldRun(cfg, worlds, steps) && i < |steps|
    requires |worlds| == |steps| + 1 && IdClear(worlds[i], id) && !LateRow(worlds[i], steps[i], id)
    ensures IdClear(worlds[i + 1], id)
  {
    WorldRunInv(cfg, worlds, steps, i);
    assert PipelineOk(cfg, worlds[i]) && QueueOk(worlds[i]);
    hide *;
    WorldRunStep(cfg, worlds, steps, i);
    StepKeepsClear(cfg, worlds[i], steps[i], id);
  }

  lemma {:induction false} RunClear(cfg: Config, worlds: seq<World>, steps: seq<WStep>, t: nat, id: IntentId)
    requires ValidConfig(cfg) && IsWorldRun(cfg, worlds, steps) && NoLateRow(worlds, steps, t, id)
    ensures IdClear(worlds[t], id)
    decreases t
  {
    assert worlds[0] == InitWorld() && |worlds| == |steps| + 1 && IdClear(InitWorld(), id);
    assert t > 0 ==> NoLateRow(worlds, steps, t - 1, id) && !LateRow(worlds[t - 1], steps[t - 1], id);
    hide *;
    if t > 0 {
      RunClear(cfg, worlds, steps, t - 1, id);
      ClearStep(cfg, worlds, steps, t - 1, id);
    }
  }

  // ---- Exactly-once queueing ----

  function JobsFor(db: Db, b: string, i: nat): (r: set<nat>) {
    set k: nat | k < |db.jobs| && db.jobs[k].batchId == b && db.jobs[k].index == i
  }

  lemma AtMostOneJob(db: Db, b: string, i: nat)
    requires JobsOk(db)
    ensures |JobsFor(db, b, i)| <= 1
    ensures |JobsFor(db, b, i)| == 1 <==> HasJob(db, b, i)
  {
    hide JobKey;
    var s := JobsFor(db, b, i);
    if HasJob(db, b, i) {
      var k :| 0 <= k < |db.jobs| && db.jobs[k].batchId == b && db.jobs[k].index == i;
      forall l | l in s
        ensures l == k
      {
        assert JobOk(db, db.jobs[k]) && JobOk(db, db.jobs[l]);
      }
      assert s == {k};
    } else {
      assert s == {};
    }
  }

  /**
   In every run, whatever crashes and overlaps, a match has at most one job, and
   once its batch has left `pending` it has one or belongs to the RFQ lifecycle;
   `rfq_routed` means that all matches do, `queued` that some match has a job.
   */
  lemma QueuedAtMostOnce(cfg: Config, worlds: seq<World>, steps: seq<WStep>, t: nat, b: string, i: nat)
    requires ValidConfig(cfg) && IsWorldRun(cfg, worlds, steps) && t < |worlds|
    ensures |JobsFor(worlds[t].db, b, i)| <= 1
    ensures b in worlds[t].db.batches && worlds[t].db.batches[b].status != Pending
            && i < |worlds[t].db.batches[b].matches| ==>
              RfqRoutedMatch(worlds[t].db, worlds[t].db.batches[b].matches[i]) || |JobsFor(worlds[t].db, b, i)| == 1
    ensures b in worlds[t].db.batches && worlds[t].db.batches[b].status == RfqRouted
            && i < |worlds[t].db.batches[b].matches| ==>
              RfqRoutedMatch(worlds[t].db, worlds[t].db.batches[b].matches[i])
    ensures b in worlds[t].db.batches && worlds[t].db.batches[b].status == Queued ==>
              exists j: nat :: j < |worlds[t].db.batches[b].matches| && |JobsFor(worlds[t].db, b, j)| == 1
  {
    WorldRunInv(cfg, worlds, steps, t);
    var db := worlds[t].db;
    hide ValidConfig, IsWorldRun, PipelineOk, RfqOk, PollsOk, JobsOk;
    AtMostOneJob(db, b, i);
    if b in db.batches && db.batches[b].status != Pending {
      assert DoneOk(db, b);
      var ms := db.batches[b].matches;
      if i < |ms| {
        assert Handled(db, b, ms[i], i);
      }
      if db.batches[b].status == Queued {
        var j: nat :| j < |ms| && HasJob(db, b, j);
        AtMostOneJob(db, b, j);
      }
    }
    hide HasJob, JobsFor, BatchesDone;
  }

  /** A match that has a job is not RFQ-routed, unless the row of one of its own two ids came late. */
  lemma QueuedIsDirect(cfg: Config, worlds: seq<World>, steps: seq<WStep>, t: nat, b: string, i: nat)
    requires ValidConfig(cfg) && IsWorldRun(cfg, worlds, steps) && t < |worlds|
    requires b in worlds[t].db.batches && i < |worlds[t].db.batches[b].matches| && HasJob(worlds[t].db, b, i)
    requires NoLateRow(worlds, steps, t, worlds[t].db.batches[b].matches[i].aId)
    requires NoLateRow(worlds, steps, t, worlds[t].db.batches[b].matches[i].bId)
    ensures !RfqRoutedMatch(worlds[t].db, worlds[t].db.batches[b].matches[i])
  {
    var w, m := worlds[t], worlds[t].db.batches[b].matches[i];
    WorldRunInv(cfg, worlds, steps, t);
    RunClear(cfg, worlds, steps, t, m.aId);
    RunClear(cfg, worlds, steps, t, m.bId);
    hide ValidConfig, IsWorldRun, PipelineOk, RfqOk, PollsOk, BatchesDone, PollClear, NoLateRow;
    var k :| 0 <= k < |w.db.jobs| && w.db.jobs[k].batchId == b && w.db.jobs[k].index == i;
    assert JobOk(w.db, w.db.jobs[k]);
    assert JobMentions(w.db.jobs[k], m.aId) && JobMentions(w.db.jobs[k], m.bId);
  }

  /**
   Exactly-once queueing: as long as no RFQ row comes late for one of its own two
   ids, an RFQ match never has a job and any other match has exactly one once its
   batch has left `pending`.
   */
  lemma ExactlyOnceQueueing(cfg: Config, worlds: seq<World>, steps: seq<WStep>, t: nat, b: string, i: nat)
    requires ValidConfig(cfg) && IsWorldRun(cfg, worlds, steps) && t < |worlds|
    requires b in worlds[t].db.batches && i < |worlds[t].db.batches[b].matches|
    requires NoLateRow(worlds, steps, t, worlds[t].db.batches[b].matches[i].aId)
    requires NoLateRow(worlds, steps, t, worlds[t].db.batches[b].matches[i].bId)
    ensures RfqRoutedMatch(worlds[t].db, worlds[t].db.batches[b].matches[i]) ==> |JobsFor(worlds[t].db, b, i)| == 0
    ensures worlds[t].db.batches[b].status != Pending ==>
              |JobsFor(worlds[t].db, b, i)| == if RfqRoutedMatch(worlds[t].db, worlds[t].db.batches[b].matches[i])
                then 0 else 1
  {
    QueuedAtMostOnce(cfg, worlds, steps, t, b, i);
    WorldRunInv(cfg, worlds, steps, t);
    assert JobsOk(worlds[t].db);
    hide ValidConfig, IsWorldRun, WorldInv, NoLateRow, JobsOk;
    AtMostOneJob(worlds[t].db, b, i);
    if HasJob(worlds[t].db, b, i) {
      QueuedIsDirect(cfg, worlds, steps, t, b, i);
    }
    hide HasJob, JobsFor, RfqRoutedMatch;
  }

  // ---- The two settlement paths ----

  /** Every settlement row rests on its intent, quote, acceptance, executed fill and confirmed match. */
  lemma RfqAdmission(cfg: Config, worlds: seq<World>, steps: seq<WStep>, t: nat, s: SettlementId)
    requires ValidConfig(cfg) && IsWorldRun(cfg, worlds, steps) && t < |worlds| && s in worlds[t].db.settlements
    ensures SettlementOk(worlds[t].db, s)
  {
    WorldRunInv(cfg, worlds, steps, t);
    hide ValidConfig, IsWorldRun, PipelineOk, QueueOk, SettlementOk;
  }

  lemma StepKeepsRow(cfg: Config, w: World, step: WStep, id: Hash)
    requires CanDo(cfg, w, step) && id in w.db.intents
    ensures id in After(cfg, w, step).db.intents
  {
    hide DbAfter, ComAfter, PersistsAfter, PollsAfter, MpcGrows, BatchesGrow, FillsGrow, SessionsGrow, CanStep;
    StepGrows(w, step);
  }

  /** A row of `intents` is there for the rest of the run. */
  lemma {:induction false} RowStays(cfg: Config, worlds: seq<World>, steps: seq<WStep>, i: nat, t: nat, id: Hash)
    requires IsWorldRun(cfg, worlds, steps) && |worlds| == |steps| + 1 && i <= t < |worlds|
    requires id in worlds[i].db.intents
    ensures id in worlds[t].db.intents
    decreases t
  {
    hide *;
    if i < t {
      RowStays(cfg, worlds, steps, i, t - 1, id);
      WorldRunStep(cfg, worlds, steps, t - 1);
      StepKeepsRow(cfg, worlds[t - 1], steps[t - 1], id);
    }
  }

  lemma LateRowInserts(cfg: Config, w: World, step: WStep, id: Hash)
    requires CanDo(cfg, w, step) && LateRow(w, step, id)
    ensures id in After(cfg, w, step).db.intents
  {
    hide KeyTaken;
  }

  /**
   The exact condition: an id that has a settlement job has an RFQ row too if and
   only if that row was inserted after the committee had the id.
   */
  lemma QueuedRowExactly(cfg: Config, worlds: seq<World>, steps: seq<WStep>, t: nat, k: nat, id: Hash)
    requires ValidConfig(cfg) && IsWorldRun(cfg, worlds, steps) && t < |worlds|
    requires k < |worlds[t].db.jobs| && JobMentions(worlds[t].db.jobs[k], id)
    ensures |worlds| == |steps| + 1
    ensures id in worlds[t].db.intents <==> exists i :: 0 <= i < t && LateRow(worlds[i], steps[i], id)
  {
    assert |worlds| == |steps| + 1;
    hide ValidConfig, IsWorldRun, LateRow, PollClear, After, CanDo;
    if NoLateRow(worlds, steps, t, id) {
      RunClear(cfg, worlds, steps, t, id);
    }
    if i :| 0 <= i < t && LateRow(worlds[i], steps[i], id) {
      WorldRunStep(cfg, worlds, steps, i);
      LateRowInserts(cfg, worlds[i], steps[i], id);
      RowStays(cfg, worlds, steps, i + 1, t, id);
    }
  }

  /** An id that has both a settlement job and an admitted RFQ settlement got its RFQ row after the committee had it. */
  lemma PathsExclude(cfg: Config, worlds: seq<World>, steps: seq<WStep>, t: nat, k: nat, s: SettlementId)
    requires ValidConfig(cfg) && IsWorldRun(cfg, worlds, steps) && t < |worlds|
    requires k < |worlds[t].db.jobs| && s in worlds[t].db.settlements && JobMentions(worlds[t].db.jobs[k], s.intentHash)
    ensures |worlds| == |steps| + 1 && exists i :: 0 <= i < t && LateRow(worlds[i], steps[i], s.intentHash)
  {
    RfqAdmission(cfg, worlds, steps, t, s);
    assert s.intentHash in worlds[t].db.intents;
    hide *;
    QueuedRowExactly(cfg, worlds, steps, t, k, s.intentHash);
  }

  /**
   The rule for callers who use this id: either it is an RFQ hash, never submitted
   directly and never posted under another body's key, or it is never posted.
   */
  ghost predicate Disciplined(rfq: bool, w: World, step: WStep, id: IntentId) {
    && (step.Post? && step.h == id ==>
         rfq && forall h :: h in w.db.intents && w.db.intents[h].idempotencyKey == step.key ==> h == id)
    && (step.Direct? && step.x.intentId == id ==> !rfq)
  }

  /** An RFQ hash is at the committee only after it was posted, and then it has its row. */
  ghost predicate SourceOk(rfq: bool, w: World, id: IntentId) {
    (id in w.posted ==> id in w.db.intents) && (id in w.com.intentToSession && rfq ==> id in w.posted)
  }

  lemma SubmittedKeys(cfg: Config, com: State, step: Step, id: IntentId)
    requires CanStep(cfg, com, step) && id in Next(cfg, com, step).intentToSession
    ensures id in com.intentToSession || (step.Submit? && id == step.x.intentId)
  {
    if !step.Submit? {
      OtherStepIntents(cfg, com, step);
      hide Next;
    } else {
      hide PutIntent, FirstOpen;
    }
  }

  lemma PostedHasRow(w: World, step: WStep, rfq: bool, id: IntentId)
    requires PollCan(w, step) && HandlerCan(w, step) && SourceOk(rfq, w, id) && Disciplined(rfq, w, step, id)
    requires id in w.posted || (step.Post? && id == step.h)
    ensures id in DbAfter(w, step).intents
  {
    if id in w.db.intents {
      StepGrows(w, step);
      hide DbAfter;
    } else {
      assert !KeyTaken(w.db, step.key);
    }
  }

  lemma StepKeepsSource(cfg: Config, w: World, step: WStep, rfq: bool, id: IntentId)
    requires CanDo(cfg, w, step) && SourceOk(rfq, w, id) && Disciplined(rfq, w, step, id)
    ensures SourceOk(rfq, After(cfg, w, step), id)
  {
    var w' := After(cfg, w, step);
    hide DbAfter, Next, CanStep, PollCan, PersistsAfter, PollsAfter;
    if id in w'.posted {
      PostedHasRow(w, step, rfq, id);
    }
    if id in w'.com.intentToSession && CommitteeStep(step).Some? {
      SubmittedKeys(cfg, w.com, CommitteeStep(step).value, id);
    }
  }

  lemma {:induction false} RunSource(cfg: Config, worlds: seq<World>, steps: seq<WStep>, rfq: bool, i: nat,
                                     id: IntentId)
    requires IsWorldRun(cfg, worlds, steps) && i < |worlds|
    requires forall k :: 0 <= k < |steps| ==> Disciplined(rfq, worlds[k], steps[k], id)
    ensures SourceOk(rfq, worlds[i], id)
    decreases i
  {
    assert worlds[0] == InitWorld() && |worlds| == |steps| + 1 && SourceOk(rfq, InitWorld(), id);
    hide *;
    if i > 0 {
      RunSource(cfg, worlds, steps, rfq, i - 1, id);
      WorldRunStep(cfg, worlds, steps, i - 1);
      StepKeepsSource(cfg, worlds[i - 1], steps[i - 1], rfq, id);
    }
  }

  /** Callers that keep the rule for an id never cause a late row for it. */
  lemma DisciplineSuffices(cfg: Config, worlds: seq<World>, steps: seq<WStep>, rfq: bool, id: IntentId)
    requires IsWorldRun(cfg, worlds, steps)
    requires forall k :: 0 <= k < |steps| ==> Disciplined(rfq, worlds[k], steps[k], id)
    ensures |worlds| == |steps| + 1 && forall i :: 0 <= i < |steps| ==> !LateRow(worlds[i], steps[i], id)
  {
    forall i | 0 <= i < |steps|
      ensures !LateRow(worlds[i], steps[i], id)
    {
      RunSource(cfg, worlds, steps, rfq, i, id);
      assert Disciplined(rfq, worlds[i], steps[i], id);
      hide IsWorldRun;
    }
    assert |worlds| == |steps| + 1;
    hide IsWorldRun, LateRow;
  }

  /** An intent whose callers keep the rule is settled by one path at most, whatever others do. */
  lemma OnePathPerIntent(cfg: Config, worlds: seq<World>, steps: seq<WStep>, rfq: bool, t: nat, k: nat, s: SettlementId)
    requires ValidConfig(cfg) && IsWorldRun(cfg, worlds, steps) && t < |worlds|
    requires forall i :: 0 <= i < |steps| ==> Disciplined(rfq, worlds[i], steps[i], s.intentHash)
    requires k < |worlds[t].db.jobs| && s in worlds[t].db.settlements
    ensures !JobMentions(worlds[t].db.jobs[k], s.intentHash)
  {
    hide *;
    DisciplineSuffices(cfg, worlds, steps, rfq, s.intentHash);
    if JobMentions(worlds[t].db.jobs[k], s.intentHash) {
      PathsExclude(cfg, worlds, steps, t, k, s);
    }
  }

  // ---- What happens when the rule is broken ----

  /** An intent posted under `key`, quoted and accepted. */
  function PostAndAccept(db: Db, id: Hash, key: string, user: string, q: QuoteId, quoteHash: string): Db {
    AcceptQuote(InsertQuote(InsertIntent(db, id, key, user), q, id, quoteHash), q, id, user)
  }

  function FillAndExecute(db: Db, f: string, q: QuoteId, receipt: string): Db {
    ExecuteFill(InsertFill(db, f, q, receipt), f)
  }

  lemma PostedAndAccepted(db: Db, id: Hash, key: string, user: string, q: QuoteId, quoteHash: string)
    requires id !in db.intents && !KeyTaken(db, key) && q !in db.quotes && q !in db.acceptances
    requires !QuoteHashTaken(db, quoteHash)
    ensures PostAndAccept(db, id, key, user, q, quoteHash) ==
            db.(intents := db.intents[id := IntentRow(key, user, None)],
              quotes := db.quotes[q := QuoteRow(id, quoteHash)],
                acceptances := db.acceptances[q := id])
  {
    hide KeyTaken;
    assert !QuoteHashTaken(InsertIntent(db, id, key, user), quoteHash);
    hide QuoteHashTaken;
  }

  lemma FilledAndExecuted(db: Db, f: string, q: QuoteId, receipt: string)
    requires q in db.quotes && !FillKnown(db, f)
    ensures var db' := FillAndExecute(db, f, q, receipt);
            && db' == db.(fills := db'.fills) && FillKnown(db', f)
            && LatestFill(db'.fills, q) == Some(Fill(f, q, receipt, true))
  {
    var db' := FillAndExecute(db, f, q, receipt);
    var n := |db.fills|;
    assert InsertFill(db, f, q, receipt).fills[n] == Fill(f, q, receipt, false);
    assert db'.fills[n] == Fill(f, q, receipt, true) && |db'.fills| == n + 1;
  }

  predicate IsRfqStep(step: WStep) {
    step.Post? || step.Quote? || step.Accept? || step.NewFill? || step.Execute? || step.Settle?
  }

  function RfqAfter(db: Db, step: WStep): Db
    requires IsRfqStep(step)
  {
    match step
    case Post(h, key, user) => InsertIntent(db, h, key, user)
    case Quote(q, h, quoteHash) => InsertQuote(db, q, h, quoteHash)
    case Accept(q, h, user) => AcceptQuote(db, q, h, user)
    case NewFill(f, q, receipt) => InsertFill(db, f, q, receipt)
    case Execute(f) => ExecuteFill(db, f)
    case Settle(r) => SettleRfq(db, r)
  }

  function RfqRun(db: Db, path: seq<WStep>): Db
    requires forall i :: 0 <= i < |path| ==> IsRfqStep(path[i])
    decreases |path|
  {
    if path == [] then db else RfqRun(RfqAfter(db, path[0]), path[1..])
  }

  lemma RfqStepsAlwaysEnabled(cfg: Config, w: World, step: WStep)
    requires IsRfqStep(step)
    ensures CanDo(cfg, w, step) && After(cfg, w, step).com == w.com && After(cfg, w, step).db == RfqAfter(w.db, step)
  {
    hide InsertIntent, InsertQuote, AcceptQuote, InsertFill, ExecuteFill, SettleRfq;
  }

  lemma EmptyRun(cfg: Config)
    ensures IsWorldRun(cfg, [InitWorld()], [])
  {
  }

  /** One more step at the end of a run. */
  lemma ExtendRun(cfg: Config, worlds: seq<World>, steps: seq<WStep>, step: WStep) returns (ws: seq<World>)
    requires IsWorldRun(cfg, worlds, steps) && CanDo(cfg, worlds[|steps|], step)
    ensures IsWorldRun(cfg, ws, steps + [step]) && ws == worlds + [After(cfg, worlds[|steps|], step)]
  {
    ws := worlds + [After(cfg, worlds[|steps|], step)];
    hide CanDo, After, InitWorld;
    forall i | 0 <= i < |steps| + 1
      ensures CanDo(cfg, ws[i], (steps + [step])[i]) && ws[i + 1] == After(cfg, ws[i], (steps + [step])[i])
    {
      if i < |steps| {
        assert ws[i] == worlds[i] && ws[i + 1] == worlds[i + 1];
      }
    }
  }

  /** The RFQ handlers can go on at the end of any run. */
  lemma {:induction false} ExtendRfq(cfg: Config, worlds: seq<World>, steps: seq<WStep>, path: seq<WStep>)
    returns (ws: seq<World>)
    requires IsWorldRun(cfg, worlds, steps) && forall i :: 0 <= i < |path| ==> IsRfqStep(path[i])
    ensures IsWorldRun(cfg, ws, steps + path) && |ws| == |steps| + |path| + 1 && |worlds| == |steps| + 1
    ensures ws[..|steps| + 1] == worlds
    ensures ws[|steps| + |path|].db == RfqRun(worlds[|steps|].db, path)
    decreases |path|
  {
    assert |worlds| == |steps| + 1;
    hide IsWorldRun, After, CanDo, RfqAfter, IsRfqStep;
    if path == [] {
      ws := worlds;
      assert steps + path == steps;
    } else {
      RfqStepsAlwaysEnabled(cfg, worlds[|steps|], path[0]);
      var next := ExtendRun(cfg, worlds, steps, path[0]);
      ws := ExtendRfq(cfg, next, steps + [path[0]], path[1..]);
      assert (steps + [path[0]]) + path[1..] == steps + path;
      assert ws[..|steps| + 1] == next[..|steps| + 1] == worlds;
    }
  }

  /** The whole RFQ lifecycle of one intent. */
  function RfqPath(id: Hash, key: string, user: string, q: QuoteId, quoteHash: string, f: string, receipt: string,
                   nullifier: string): seq<WStep> {
    [Post(id, key, user), Quote(q, id, quoteHash), Accept(q, id, user), NewFill(f, q, receipt), Execute(f),
     Settle(SettleRequest(SettlementId(id, q, nullifier), user, Some(f), Some(receipt), true, false))]
  }

  lemma RfqRunSix(db: Db, a: WStep, b: WStep, c: WStep, d: WStep, e: WStep, f: WStep)
    requires IsRfqStep(a) && IsRfqStep(b) && IsRfqStep(c) && IsRfqStep(d) && IsRfqStep(e) && IsRfqStep(f)
    ensures RfqRun(db, [a, b, c, d, e, f]) ==
            RfqAfter(RfqAfter(RfqAfter(RfqAfter(RfqAfter(RfqAfter(db, a), b), c), d), e), f)
  {
    hide IsRfqStep, RfqAfter;
    var path := [a, b, c, d, e, f];
    assert path[1..] == [b, c, d, e, f] && [b, c, d, e, f][1..] == [c, d, e, f] && [c, d, e, f][1..] == [d, e, f];
    assert [d, e, f][1..] == [e, f] && [e, f][1..] == [f] && [f][1..] == [];
    var d1 := RfqAfter(db, a);
    var d2 := RfqAfter(d1, b);
    var d3 := RfqAfter(d2, c);
    assert RfqRun(db, path) == RfqRun(d1, [b, c, d, e, f]);
    assert RfqRun(d1, [b, c, d, e, f]) == RfqRun(d2, [c, d, e, f]);
    assert RfqRun(d2, [c, d, e, f]) == RfqRun(d3, [d, e, f]);
    var d4 := RfqAfter(d3, d);
    var d5 := RfqAfter(d4, e);
    assert RfqRun(d3, [d, e, f]) == RfqRun(d4, [e, f]);
    assert RfqRun(d4, [e, f]) == RfqRun(d5, [f]);
    assert RfqRun(d5, [f]) == RfqRun(RfqAfter(d5, f), []);
  }

  lemma RfqPathRun(db: Db, id: Hash, key: string, user: string, q: QuoteId, quoteHash: string, f: string,
                   receipt: string, nullifier: string)
    ensures RfqRun(db, RfqPath(id, key, user, q, quoteHash, f, receipt, nullifier)) ==
            SettleRfq(FillAndExecute(PostAndAccept(db, id, key, user, q, quoteHash), f, q, receipt),
                      SettleRequest(SettlementId(id, q, nullifier), user, Some(f), Some(receipt), true, false))
  {
    var r := SettleRequest(SettlementId(id, q, nullifier), user, Some(f), Some(receipt), true, false);
    hide RfqRun, InsertIntent, InsertQuote, AcceptQuote, InsertFill, ExecuteFill, SettleRfq;
    RfqRunSix(db, Post(id, key, user), Quote(q, id, quoteHash), Accept(q, id, user), NewFill(f, q, receipt),
              Execute(f), Settle(r));
    var posted := RfqAfter(db, Post(id, key, user));
    assert posted == InsertIntent(db, id, key, user);
    var quoted := RfqAfter(posted, Quote(q, id, quoteHash));
    assert quoted == InsertQuote(posted, q, id, quoteHash);
    var accepted := RfqAfter(quoted, Accept(q, id, user));
    assert accepted == PostAndAccept(db, id, key, user, q, quoteHash);
    var filled := RfqAfter(accepted, NewFill(f, q, receipt));
    assert RfqAfter(filled, Execute(f)) == FillAndExecute(accepted, f, q, receipt);
  }

  /** An intent without a row goes through the lifecycle; jobs are not looked at. */
  lemma LifecycleSettles(db: Db, id: Hash, key: string, user: string, q: QuoteId, quoteHash: string, f: string,
                         receipt: string, nullifier: string)
    requires id !in db.intents && !KeyTaken(db, key) && q !in db.quotes && q !in db.acceptances
    requires !QuoteHashTaken(db, quoteHash) && !FillKnown(db, f)
    ensures var request := SettleRequest(SettlementId(id, q, nullifier), user, Some(f), Some(receipt), true, false);
            var db' := SettleRfq(FillAndExecute(PostAndAccept(db, id, key, user, q, quoteHash), f, q, receipt),
              request);
            request.id in db'.settlements && db'.jobs == db.jobs
  {
    PostedAndAccepted(db, id, key, user, q, quoteHash);
    var accepted := PostAndAccept(db, id, key, user, q, quoteHash);
    assert !FillKnown(accepted, f);
    FilledAndExecuted(accepted, f, q, receipt);
    hide PostAndAccept, FillAndExecute, KeyTaken, QuoteHashTaken, FillKnown, LatestFill;
    assert Admits(FillAndExecute(accepted, f, q, receipt),
           SettleRequest(SettlementId(id, q, nullifier), user, Some(f), Some(receipt), true, false));
    hide Admits;
  }

  /**
   A late row is enough to break the exclusion: every run that ends with a job
   for an id without a row goes on to one where the id has both.
   */
  lemma LateRowBreaks(cfg: Config, worlds: seq<World>, steps: seq<WStep>, k: nat, id: Hash, key: string, user: string,
                      q: QuoteId, quoteHash: string, f: string, receipt: string,
                        nullifier: string) returns (ws: seq<World>)
    requires ValidConfig(cfg) && IsWorldRun(cfg, worlds, steps)
    requires k < |worlds[|steps|].db.jobs| && JobMentions(worlds[|steps|].db.jobs[k], id)
    requires id !in worlds[|steps|].db.intents
    requires !KeyTaken(worlds[|steps|].db, key) && q !in worlds[|steps|].db.quotes
    requires !QuoteHashTaken(worlds[|steps|].db, quoteHash) && !FillKnown(worlds[|steps|].db, f)
    ensures IsWorldRun(cfg, ws, steps + RfqPath(id, key, user, q, quoteHash, f, receipt, nullifier))
    ensures |worlds| == |steps| + 1 && |ws| == |steps| + 7 && ws[..|steps| + 1] == worlds
    ensures k < |ws[|steps| + 6].db.jobs| && JobMentions(ws[|steps| + 6].db.jobs[k], id)
    ensures SettlementId(id, q, nullifier) in ws[|steps| + 6].db.settlements
  {
    assert |worlds| == |steps| + 1;
    WorldRunInv(cfg, worlds, steps, |steps|);
    var db := worlds[|steps|].db;
    assert q !in db.acceptances;
    var path := RfqPath(id, key, user, q, quoteHash, f, receipt, nullifier);
    assert |path| == 6 && forall i :: 0 <= i < 6 ==> IsRfqStep(path[i]);
    hide *;
    LifecycleSettles(db, id, key, user, q, quoteHash, f, receipt, nullifier);
    RfqPathRun(db, id, key, user, q, quoteHash, f, receipt, nullifier);
    ws := ExtendRfq(cfg, worlds, steps, path);
  }

  lemma SubmitAddsKey(cfg: Config, com: State, x: MpcIntent, newId: SessionId)
    requires CanStep(cfg, com, Submit(x, newId)) && x.intentId != "" && |x.encryptedShares| == |cfg.nodes|
    ensures x.intentId in Next(cfg, com, Submit(x, newId)).intentToSession
  {
    hide FirstOpen, PutIntent, CreateSession;
  }

  /**
   Reusing an idempotency key for another body leaves that intent at the
   committee without a row: the settler takes it for a direct one.
   */
  lemma KeyReuseLeavesNoRow(cfg: Config, w: World, key: string, user: string, x: MpcIntent, newId: SessionId)
    requires KeyTaken(w.db, key) && x.intentId !in w.db.intents && x.intentId != ""
    requires |x.encryptedShares| == |cfg.nodes|
    requires CanStep(cfg, w.com, Submit(x, newId))
    ensures CanDo(cfg, w, Post(x.intentId, key, user))
    ensures var w1 := After(cfg, w, Post(x.intentId, key, user));
            CanDo(cfg, w1, Forward(x, newId)) && Clear(After(cfg, w1, Forward(x, newId)), x.intentId)
  {
    SubmitAddsKey(cfg, w.com, x, newId);
    hide CanStep, Next, KeyTaken;
  }
}
