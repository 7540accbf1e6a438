/**
 What the RFQ handlers guarantee about every settlement row, and that the two
 settlement paths exclude each other (apps/api/src/routes.ts, apps/api/src/db.ts,
 apps/mpc-committee/src/settler.ts).
 */
module RfqProofs {
  import opened Collections
  import opened Session
  import opened Protocol
  import opened ProtocolProofs
  import opened Tables
  import opened JobKeys
  import opened Runs
  import opened Settlement
  import opened SettlementProofs
  import M = Matcher

  // ---- RFQ admission ----

  ghost predicate HasExecutedFill(db: Db, q: QuoteId) {
    exists k :: 0 <= k < |db.fills| && db.fills[k].quoteId == q && db.fills[k].executed
  }

  /** The row's intent, its quote, the acceptance, an executed fill and, on the MPC path, the confirmed match. */
  ghost predicate SettlementOk(db: Db, id: SettlementId) {
    && id in db.settlements && Owns(db, db.settlements[id].user, id.intentHash)
    && id.quoteId in db.quotes && db.quotes[id.quoteId].intentHash == id.intentHash
    && id.quoteId in db.acceptances && db.acceptances[id.quoteId] == id.intentHash
    && HasExecutedFill(db, id.quoteId)
    && (db.settlements[id].viaMpc ==> id.intentHash in db.mpc && db.mpc[id.intentHash].matchedWith.Some?)
  }

  ghost predicate AcceptancesOk(db: Db) {
    forall q :: q in db.acceptances ==> q in db.quotes && db.acceptances[q] == db.quotes[q].intentHash
  }

  ghost predicate RfqOk(db: Db) {
    AcceptancesOk(db) && forall id :: id in db.settlements ==> SettlementOk(db, id)
  }

  lemma SettlementStays(db: Db, db': Db, id: SettlementId)
    requires Grows(db, db') && SettlementOk(db, id) && id in db'.settlements
    requires db'.settlements[id] == db.settlements[id]
    ensures SettlementOk(db', id)
  {
    var k :| 0 <= k < |db.fills| && db.fills[k].quoteId == id.quoteId && db.fills[k].executed;
    assert db'.fills[k].quoteId == id.quoteId && db'.fills[k].executed;
    hide BatchesGrow;
  }

  lemma RfqStays(db: Db, db': Db)
    requires Grows(db, db') && RfqOk(db) && db'.settlements == db.settlements && db'.acceptances == db.acceptances
    ensures RfqOk(db')
  {
    forall id | id in db'.settlements
      ensures SettlementOk(db', id)
    {
      SettlementStays(db, db', id);
    }
    hide SettlementOk;
  }

  lemma AcceptKeepsRfq(db: Db, q: QuoteId, h: Hash, user: string)
    requires RfqOk(db)
    ensures RfqOk(AcceptQuote(db, q, h, user))
  {
    var db' := AcceptQuote(db, q, h, user);
    AcceptGrows(db, q, h, user);
    forall id | id in db'.settlements
      ensures SettlementOk(db', id)
    {
      SettlementStays(db, db', id);
    }
    hide SettlementOk, Grows, Owns;
  }

  lemma AdmittedOk(db: Db, r: SettleRequest)
    requires RfqOk(db) && Admits(db, r) && r.id in SettleRfq(db, r).settlements
    ensures SettlementOk(SettleRfq(db, r), r.id)
  {
    var fill := LatestFill(db.fills, r.id.quoteId);
    var k :| 0 <= k < |db.fills| && db.fills[k] == fill.value;
    var db' := SettleRfq(db, r);
    assert db'.fills[k].quoteId == r.id.quoteId && db'.fills[k].executed;
    if r.id in db.settlements {
      assert SettlementOk(db, r.id);
    }
    hide LatestFill, FillKnown;
  }

  lemma SettleKeepsRfq(db: Db, r: SettleRequest)
    requires RfqOk(db)
    ensures RfqOk(SettleRfq(db, r))
  {
    var db' := SettleRfq(db, r);
    SettleGrows(db, r);
    if Admits(db, r) && r.id in db'.settlements {
      AdmittedOk(db, r);
    }
    hide Admits, FillKnown, Grows;
    forall id | id in db'.settlements
      ensures SettlementOk(db', id)
    {
      if id != r.id || db' == db {
        SettlementStays(db, db', id);
      }
    }
    hide SettlementOk;
  }

  lemma StepKeepsRfq(w: World, step: WStep)
    requires PollCan(w, step) && HandlerCan(w, step) && RfqOk(w.db)
    ensures RfqOk(DbAfter(w, step))
  {
    hide RfqOk, AcceptQuote, SettleRfq;
    if step.Accept? {
      AcceptKeepsRfq(w.db, step.q, step.h, step.user);
    } else if step.Settle? {
      SettleKeepsRfq(w.db, step.r);
    } else {
      StepGrows(w, step);
      Untouched(w, step);
      hide DbAfter, Grows, PollCan, HandlerCan;
      RfqStays(w.db, DbAfter(w, step));
    }
  }

  // ---- The committee's side ----

  /** The committee knows every id that is in one of its sessions. */
  ghost predicate Known(com: State) {
    forall s, id :: s in com.sessions && id in com.sessions[s].intents ==> id in com.intentToSession
  }

  lemma SubmitKnown(com: State, x: MpcIntent, newId: SessionId)
    requires Known(com)
    ensures Known(AddIntent(com, x, newId)) && com.intentToSession.Keys <= AddIntent(com, x, newId).intentToSession.Keys
  {
    hide StoreShares, FirstOpen;
  }

  lemma SameSetsKnown(com: State, com': State)
    requires Known(com) && SameIntentSets(com, com')
    ensures Known(com') && com'.intentToSession == com.intentToSession
  {
  }

  lemma CommitteeKnown(cfg: Config, com: State, step: Step)
    requires CanStep(cfg, com, step) && Known(com)
    ensures Known(Next(cfg, com, step)) && com.intentToSession.Keys <= Next(cfg, com, step).intentToSession.Keys
  {
    hide Known, AddIntent, SameIntentSets;
    if step.Submit? {
      SubmitKnown(com, step.x, step.newId);
    } else {
      hide Next;
      OtherStepIntents(cfg, com, step);
      SameSetsKnown(com, Next(cfg, com, step));
    }
  }

  ghost predicate BatchFrom(com: State, b: string, row: BatchRow) {
    && row.sessionId in com.sessions && com.sessions[row.sessionId].signedBatch.Some?
    && com.sessions[row.sessionId].signedBatch.value.batchId == b
    && com.sessions[row.sessionId].signedBatch.value.matches == row.matches
  }

  ghost predicate BatchesFrom(com: State, db: Db) {
    forall b :: b in db.batches ==> BatchFrom(com, b, db.batches[b])
  }

  ghost predicate PipelineOk(cfg: Config, w: World) {
    Inv(cfg, w.com) && Known(w.com) && BatchesFrom(w.com, w.db)
  }

  /** A signed batch is never replaced. */
  lemma SignedStays(cfg: Config, com: State, com': State, sid: SessionId)
    requires Inv(cfg, com) && Frozen(com, com') && sid in com.sessions && com.sessions[sid].signedBatch.Some?
    ensures sid in com'.sessions && com'.sessions[sid].signedBatch == com.sessions[sid].signedBatch
  {
    hide MatchesOk, NoRepeats, NoDecrypted, Quorum, RoundsOk, StartedOk, OneOpen, OrderOk;
    assert SessionOk(cfg, sid, com.sessions[sid]);
  }

  lemma BatchesStay(cfg: Config, com: State, com': State, db: Db)
    requires Inv(cfg, com) && Frozen(com, com') && BatchesFrom(com, db)
    ensures BatchesFrom(com', db)
  {
    hide Inv, Frozen;
    forall b | b in db.batches
      ensures BatchFrom(com', b, db.batches[b])
    {
      assert BatchFrom(com, b, db.batches[b]);
      SignedStays(cfg, com, com', db.batches[b].sessionId);
    }
  }

  lemma ComStepKeeps(cfg: Config, w: World, step: WStep)
    requires ValidConfig(cfg) && CanDo(cfg, w, step) && PipelineOk(cfg, w)
    ensures Inv(cfg, ComAfter(cfg, w, step)) && Known(ComAfter(cfg, w, step)) && Frozen(w.com, ComAfter(cfg, w, step))
    ensures w.com.intentToSession.Keys <= ComAfter(cfg, w, step).intentToSession.Keys
    ensures BatchesFrom(ComAfter(cfg, w, step), w.db)
  {
    Stutter(w.com);
    hide ValidConfig, Inv, Known, Frozen, BatchesFrom, Next, Enabled, PollCan, HandlerCan;
    if CommitteeStep(step).Some? {
      var s := CommitteeStep(step).value;
      assert CanStep(cfg, w.com, s);
      StepKeeps(cfg, w.com, s);
      CommitteeKnown(cfg, w.com, s);
    }
    BatchesStay(cfg, w.com, ComAfter(cfg, w, step), w.db);
  }

  lemma BatchesLeft(com: State, db: Db, db': Db)
    requires BatchesFrom(com, db)
    requires forall b :: b in db'.batches ==>
               b in db.batches && db'.batches[b].(status := Pending) == db.batches[b].(status := Pending)
    ensures BatchesFrom(com, db')
  {
    forall b | b in db'.batches
      ensures BatchFrom(com, b, db'.batches[b])
    {
      assert BatchFrom(com, b, db.batches[b]);
    }
  }

  lemma OtherStepsLeaveBatches(w: World, step: WStep)
    requires PollCan(w, step) && HandlerCan(w, step) && !step.PersistStart?
    ensures forall b :: b in DbAfter(w, step).batches ==>
              b in w.db.batches && DbAfter(w, step).batches[b].(status := Pending) ==
                w.db.batches[b].(status := Pending)
  {
    Untouched(w, step);
    if step.PollFinish? {
      var p := w.polls[step.k];
      assert DbAfter(w, step) == SetBatchStatus(w.db, p.batchId, if p.queued > 0 then Queued else RfqRouted);
    }
    hide DbAfter, PollCan, HandlerCan;
  }

  lemma StepKeepsPipeline(cfg: Config, w: World, step: WStep)
    requires ValidConfig(cfg) && CanDo(cfg, w, step) && PipelineOk(cfg, w)
    ensures PipelineOk(cfg, After(cfg, w, step)) && Frozen(w.com, After(cfg, w, step).com)
    ensures w.com.intentToSession.Keys <= After(cfg, w, step).com.intentToSession.Keys
  {
    ComStepKeeps(cfg, w, step);
    hide ValidConfig, Known, Frozen, Next, Enabled, CanStep;
    if step.PersistStart? {
      assert SessionOk(cfg, step.sid, w.com.sessions[step.sid]);
      hide SessionsGrow;
    } else {
      OtherStepsLeaveBatches(w, step);
      hide DbAfter, ComAfter, BatchesFrom, Inv, PollsAfter, PersistsAfter;
      BatchesLeft(ComAfter(cfg, w, step), w.db, DbAfter(w, step));
    }
  }

  // ---- The two paths ----

  /** The committee knows the id and no RFQ intent has it. */
  ghost predicate Clear(w: World, id: IntentId) {
    id in w.com.intentToSession && id !in w.db.intents
  }

  /** The step inserts an RFQ row for this id although the committee already has it. */
  predicate LateRow(w: World, step: WStep, id: IntentId) {
    step.Post? && step.h == id && id !in w.db.intents && !KeyTaken(w.db, step.key) && id in w.com.intentToSession
  }

  lemma IntentsAfter(w: World, step: WStep, id: IntentId)
    requires PollCan(w, step) && HandlerCan(w, step) && id !in w.db.intents && id in DbAfter(w, step).intents
    ensures step.Post? && step.h == id && !KeyTaken(w.db, step.key)
  {
    Untouched(w, step);
    hide KeyTaken;
  }

  /** An id of the committee keeps its side, RFQ or direct, unless its own row comes late. */
  lemma SideStays(cfg: Config, w: World, step: WStep, id: IntentId)
    requires ValidConfig(cfg) && CanDo(cfg, w, step) && PipelineOk(cfg, w) && !LateRow(w, step, id)
    requires id in w.com.intentToSession
    ensures id in After(cfg, w, step).com.intentToSession
    ensures id in w.db.intents <==> id in After(cfg, w, step).db.intents
  {
    ComStepKeeps(cfg, w, step);
    StepGrows(w, step);
    if id !in w.db.intents && id in DbAfter(w, step).intents {
      IntentsAfter(w, step, id);
    }
    hide ValidConfig, PipelineOk, DbAfter, ComAfter, MpcGrows, BatchesGrow, FillsGrow, SessionsGrow, PollCan,
         HandlerCan, CanStep;
  }

  ghost predicate KnownMatches(com: State, ms: seq<M.Match>) {
    forall i :: 0 <= i < |ms| ==> ms[i].aId in com.intentToSession && ms[i].bId in com.intentToSession
  }

  lemma BatchKnown(cfg: Config, w: World, b: string)
    requires PipelineOk(cfg, w) && b in w.db.batches
    ensures KnownMatches(w.com, w.db.batches[b].matches)
  {
    var row := w.db.batches[b];
    assert BatchFrom(w.com, b, row);
    assert SessionOk(cfg, row.sessionId, w.com.sessions[row.sessionId]);
    hide Quorum, NoDecrypted, NoRepeats, RoundsOk, StartedOk, OneOpen, OrderOk, BatchesFrom;
  }

  predicate JobMentions(j: Job, id: IntentId) {
    j.aId == id || j.bId == id
  }

  /** A poll that found no row for this id is right about it. */
  ghost predicate PollClear(w: World, p: Poll, id: IntentId) {
    && (p.sawA == Some(false) ==> p.next < |p.matches| && (p.matches[p.next].aId == id ==> Clear(w, id)))
    && (p.sawB == Some(false) ==> p.next < |p.matches| && (p.matches[p.next].bId == id ==> Clear(w, id)))
    && (p.inserting ==> p.sawA == Some(false) && p.sawB == Some(false))
  }

  /** If the id has a job or is about to get one, then no RFQ intent has it. */
  ghost predicate IdClear(w: World, id: IntentId) {
    && (forall k :: 0 <= k < |w.db.jobs| && JobMentions(w.db.jobs[k], id) ==> Clear(w, id))
    && forall k :: 0 <= k < |w.polls| ==> PollClear(w, w.polls[k], id)
  }

  lemma ReadClear(cfg: Config, w: World, p: Poll, second: bool, id: IntentId)
    requires PipelineOk(cfg, w) && PollOk(w.db, p) && p.next < |p.matches| && !p.inserting && PollClear(w, p, id)
    ensures PollClear(w, ReadSide(w.db, p, second), id)
  {
    BatchKnown(cfg, w, p.batchId);
    hide PipelineOk, HandledBelow, CountOk;
  }

  lemma GoOnClear(w: World, p: Poll, id: IntentId)
    requires p.next < |p.matches| && PollClear(w, p, id)
    ensures p.sawA.Some? && p.sawB.Some? ==> PollClear(w, Decide(w.db, p), id)
    ensures PollClear(w, AfterInsert(w.db, p), id)
  {
    hide KeyQueued, JobKey;
  }

  lemma EndsClear(w: World, p: Poll, b: string, ms: seq<M.Match>, id: IntentId)
    ensures PollClear(w, NewPoll(b, ms), id)
    ensures PollClear(w, p, id) ==> PollClear(w, p.(live := false), id)
  {
  }

  lemma NextPollClear(cfg: Config, w: World, step: WStep, k: nat, id: IntentId)
    requires PollCan(w, step) && PipelineOk(cfg, w) && PollsOk(w.db, w.polls) && IdClear(w, id)
    requires k < |PollsAfter(w, step)|
    ensures PollClear(w, PollsAfter(w, step)[k], id)
  {
    if k < |w.polls| {
      assert PollClear(w, w.polls[k], id);
      PollAt(w.db, w.polls, k);
    }
    hide PipelineOk, PollsOk, IdClear, PollOk, PollClear, NewPoll, ReadSide, Decide, AfterInsert;
    if step.PollStart? && k == |w.polls| {
      EndsClear(w, PollsAfter(w, step)[k], step.batchId, w.db.batches[step.batchId].matches, id);
    } else if step.PollFinish? && step.k == k {
      EndsClear(w, w.polls[k], "", [], id);
    } else if step.PollRead? && step.k == k {
      ReadClear(cfg, w, w.polls[k], step.second, id);
    } else if (step.PollDecide? || step.PollInsert?) && step.k == k {
      GoOnClear(w, w.polls[k], id);
    }
  }

  /** Only the settler's insert adds a job, and it is the one of the poll's current match. */
  lemma NewJobs(w: World, step: WStep, k: nat)
    requires PollCan(w, step) && HandlerCan(w, step) && k < |DbAfter(w, step).jobs|
    ensures k <= |w.db.jobs|
    ensures k < |w.db.jobs| ==> DbAfter(w, step).jobs[k] == w.db.jobs[k]
    ensures k == |w.db.jobs| ==>
              && step.PollInsert?
              && DbAfter(w, step).jobs[k].aId == w.polls[step.k].matches[w.polls[step.k].next].aId
              && DbAfter(w, step).jobs[k].bId == w.polls[step.k].matches[w.polls[step.k].next].bId
  {
    Untouched(w, step);
    if step.PollInsert? {
      assert DbAfter(w, step) == InsertNext(w.db, w.polls[step.k]);
    }
    hide DbAfter, KeyQueued, JobKey;
  }

  lemma NextJobClear(w: World, step: WStep, k: nat, id: IntentId)
    requires PollCan(w, step) && HandlerCan(w, step) && IdClear(w, id) && k < |DbAfter(w, step).jobs|
    requires JobMentions(DbAfter(w, step).jobs[k], id)
    ensures Clear(w, id)
  {
    NewJobs(w, step, k);
    if k == |w.db.jobs| {
      assert PollClear(w, w.polls[step.k], id);
    } else {
      assert JobMentions(w.db.jobs[k], id);
    }
    hide DbAfter;
  }

  lemma StepKeepsClear(cfg: Config, w: World, step: WStep, id: IntentId)
    requires ValidConfig(cfg) && CanDo(cfg, w, step) && PipelineOk(cfg, w) && QueueOk(w) && IdClear(w, id)
    requires !LateRow(w, step, id)
    ensures IdClear(After(cfg, w, step), id)
  {
    var w' := After(cfg, w, step);
    if Clear(w, id) {
      SideStays(cfg, w, step, id);
    }
    assert Clear(w, id) ==> Clear(w', id);
    assert PollCan(w, step) && HandlerCan(w, step) && w'.db == DbAfter(w, step) && w'.polls == PollsAfter(w, step);
    assert PollsOk(w.db, w.polls);
    hide ValidConfig, CanDo, PipelineOk, QueueOk, PollsOk, LateRow, After, DbAfter, PollsAfter, PollCan, HandlerCan,
         Clear, JobMentions;
    forall k | 0 <= k < |w'.db.jobs| && JobMentions(w'.db.jobs[k], id)
      ensures Clear(w', id)
    {
      NextJobClear(w, step, k, id);
    }
    forall k | 0 <= k < |w'.polls|
      ensures PollClear(w', w'.polls[k], id)
    {
      NextPollClear(cfg, w, step, k, id);
    }
  }
}
