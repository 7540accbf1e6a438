/** What every step of the settlement pipeline keeps. */
module SettlementProofs {
  import opened Collections
  import opened Session
  import opened Tables
  import opened JobKeys
  import opened Settlement
  import M = Matcher

  // ---- Nothing is removed ----

  lemma GrowsSelf(db: Db)
    ensures Grows(db, db)
  {
  }

  lemma InsertIntentGrows(db: Db, h: Hash, key: string, user: string)
    ensures Grows(db, InsertIntent(db, h, key, user))
  {
    GrowsSelf(db);
    hide SessionsGrow, MpcGrows, BatchesGrow, FillsGrow, Extends, KeyTaken;
  }

  lemma LinkGrows(db: Db, h: Hash, sid: SessionId)
    ensures Grows(db, LinkSession(db, h, sid))
  {
    GrowsSelf(db);
    hide SessionsGrow, MpcGrows, BatchesGrow, FillsGrow, Extends;
  }

  lemma UpsertGrows(db: Db, id: IntentId, sid: SessionId)
    ensures Grows(db, UpsertMpc(db, id, sid))
  {
    GrowsSelf(db);
    hide SessionsGrow, IntentsGrow, BatchesGrow, FillsGrow, Extends;
  }

  lemma InsertBatchGrows(db: Db, b: SignedBatch)
    ensures Grows(db, BeginPersist(db, b))
  {
    GrowsSelf(db);
    hide SessionsGrow, IntentsGrow, MpcGrows, FillsGrow, Extends;
  }

  lemma SessionRowGrows(db: Db, sid: SessionId, b: SignedBatch)
    ensures Grows(db, EnsureSession(db, sid)) && Grows(db, CloseSession(db, b))
  {
    GrowsSelf(db);
    hide IntentsGrow, MpcGrows, BatchesGrow, FillsGrow, Extends;
  }

  lemma SignatureGrows(db: Db, batchId: string, node: NodeId)
    ensures Grows(db, InsertSignature(db, batchId, node))
  {
    GrowsSelf(db);
    hide SessionsGrow, IntentsGrow, MpcGrows, BatchesGrow, FillsGrow, Extends;
  }

  lemma MarkGrows(db: Db, p: Persist)
    requires p.done < 2 * |p.batch.matches|
    ensures Grows(db, MarkNext(db, p))
  {
    GrowsSelf(db);
    hide SessionsGrow, IntentsGrow, BatchesGrow, FillsGrow, Extends, UpdateTarget, UpdatePartner;
  }

  lemma InsertJobGrows(db: Db, p: Poll)
    requires p.next < |p.matches|
    ensures Grows(db, InsertNext(db, p))
  {
    GrowsSelf(db);
    hide SessionsGrow, IntentsGrow, MpcGrows, BatchesGrow, FillsGrow, Extends, KeyQueued, JobKey;
  }

  lemma StatusGrows(db: Db, b: string, status: BatchStatus)
    ensures Grows(db, SetBatchStatus(db, b, status))
  {
    GrowsSelf(db);
    hide SessionsGrow, IntentsGrow, MpcGrows, FillsGrow, Extends;
  }

  lemma QuoteGrows(db: Db, q: QuoteId, h: Hash, quoteHash: string)
    ensures Grows(db, InsertQuote(db, q, h, quoteHash))
  {
    GrowsSelf(db);
    hide SessionsGrow, IntentsGrow, MpcGrows, BatchesGrow, FillsGrow, QuoteHashTaken;
  }

  lemma AcceptGrows(db: Db, q: QuoteId, h: Hash, user: string)
    ensures Grows(db, AcceptQuote(db, q, h, user))
  {
    GrowsSelf(db);
    hide SessionsGrow, IntentsGrow, MpcGrows, BatchesGrow, FillsGrow, Owns;
  }

  lemma FillGrows(db: Db, f: string, q: QuoteId, receipt: string)
    ensures Grows(db, InsertFill(db, f, q, receipt)) && Grows(db, ExecuteFill(db, f))
  {
    GrowsSelf(db);
    hide SessionsGrow, IntentsGrow, MpcGrows, BatchesGrow, Extends, FillKnown;
  }

  lemma SettleGrows(db: Db, r: SettleRequest)
    ensures Grows(db, SettleRfq(db, r))
  {
    GrowsSelf(db);
    hide SessionsGrow, IntentsGrow, MpcGrows, BatchesGrow, FillsGrow, Extends, Admits, FillKnown;
  }

  /** No step removes a row or takes back a match, a job, an acceptance or an execution. */
  lemma StepGrows(w: World, step: WStep)
    requires PollCan(w, step) && HandlerCan(w, step)
    ensures Grows(w.db, DbAfter(w, step))
  {
    GrowsSelf(w.db);
    hide Grows, InsertIntent, EnsureSession, LinkSession, UpsertMpc, BeginPersist, InsertSignature, CloseSession,
      MarkNext, InsertNext, SetBatchStatus,
         InsertQuote, AcceptQuote, InsertFill, ExecuteFill, SettleRfq;
    match step
    case Post(h, key, user) => InsertIntentGrows(w.db, h, key, user);
    case OpenRow(sid) => SessionRowGrows(w.db, sid, SignedBatch("", sid, [], []));
    case Upsert(id, sid) => UpsertGrows(w.db, id, sid);
    case Link(h, sid) => LinkGrows(w.db, h, sid);
    case PersistStart(sid) => InsertBatchGrows(w.db, w.com.sessions[sid].signedBatch.value);
    case PersistSign(k) =>
      SignatureGrows(w.db, w.persists[k].batch.batchId, w.persists[k].batch.signers[w.persists[k].signed]);
    case PersistClose(k) => SessionRowGrows(w.db, "", w.persists[k].batch);
    case PersistUpdate(k) => MarkGrows(w.db, w.persists[k]);
    case PollInsert(k) => InsertJobGrows(w.db, w.polls[k]);
    case PollFinish(k) => StatusGrows(w.db, w.polls[k].batchId, if w.polls[k].queued > 0 then Queued else RfqRouted);
    case Quote(q, h, text) => QuoteGrows(w.db, q, h, text);
    case Accept(q, h, user) => AcceptGrows(w.db, q, h, user);
    case NewFill(f, q, receipt) => FillGrows(w.db, f, q, receipt);
    case Execute(f) => FillGrows(w.db, f, "", "");
    case Settle(r) => SettleGrows(w.db, r);
    case _ =>
  }

  /** Which tables a step leaves alone. */
  lemma Untouched(w: World, step: WStep)
    requires PollCan(w, step) && HandlerCan(w, step)
    ensures !step.Post? && !step.Link? ==> DbAfter(w, step).intents == w.db.intents
    ensures !step.Upsert? && !step.PersistUpdate? ==> DbAfter(w, step).mpc == w.db.mpc
    ensures !step.PersistStart? && !step.PollFinish? ==> DbAfter(w, step).batches == w.db.batches
    ensures !step.PollInsert? ==> DbAfter(w, step).jobs == w.db.jobs
    ensures !step.Accept? ==> DbAfter(w, step).acceptances == w.db.acceptances
    ensures !step.Settle? ==> DbAfter(w, step).settlements == w.db.settlements
  {
    hide UpdateTarget, UpdatePartner, Admits, KeyTaken, QuoteHashTaken, Owns, FillKnown, KeyQueued, JobKey;
  }

  // ---- Jobs and polls ----

  ghost predicate HasJob(db: Db, b: string, i: nat) {
    exists k :: 0 <= k < |db.jobs| && db.jobs[k].batchId == b && db.jobs[k].index == i
  }

  /** The match is settled by the RFQ lifecycle or has its job. */
  ghost predicate Handled(db: Db, b: string, m: M.Match, i: nat) {
    RfqRoutedMatch(db, m) || HasJob(db, b, i)
  }

  ghost predicate JobOk(db: Db, j: Job) {
    && j.key == JobKey(j.batchId, j.index)
    && j.batchId in db.batches && j.index < |db.batches[j.batchId].matches|
    && j.aId == db.batches[j.batchId].matches[j.index].aId && j.bId == db.batches[j.batchId].matches[j.index].bId
  }

  ghost predicate JobsOk(db: Db) {
    && (forall k :: 0 <= k < |db.jobs| ==> JobOk(db, db.jobs[k]))
    && forall k, l :: 0 <= k < l < |db.jobs| ==> db.jobs[k].key != db.jobs[l].key
  }

  ghost predicate HandledBelow(db: Db, b: string, ms: seq<M.Match>, n: nat) {
    n <= |ms| && forall i :: 0 <= i < n ==> Handled(db, b, ms[i], i)
  }

  /** Nothing counted means that all matches passed were RFQ ones, anything counted that one of them has a job. */
  ghost predicate CountOk(db: Db, b: string, ms: seq<M.Match>, n: nat, queued: nat) {
    && n <= |ms| && (queued == 0 ==> forall i :: 0 <= i < n ==> RfqRoutedMatch(db, ms[i]))
    && (queued > 0 ==> exists i: nat :: i < n && HasJob(db, b, i))
  }

  ghost predicate PollOk(db: Db, p: Poll) {
    && p.batchId in db.batches && p.matches == db.batches[p.batchId].matches
    && HandledBelow(db, p.batchId, p.matches, p.next) && CountOk(db, p.batchId, p.matches, p.next, p.queued)
    && (p.sawA == Some(true) || p.sawB == Some(true) ==> p.next < |p.matches| && RfqRoutedMatch(db, p.matches[p.next]))
  }

  ghost predicate PollsOk(db: Db, polls: seq<Poll>) {
    forall k :: 0 <= k < |polls| ==> PollOk(db, polls[k])
  }

  /** Out of `pending` all matches are handled, and the status says whether there was a job to queue. */
  ghost predicate DoneOk(db: Db, b: string) {
    && b in db.batches
    && var row := db.batches[b];
       row.status != Pending ==>
         && HandledBelow(db, b, row.matches, |row.matches|)
         && CountOk(db, b, row.matches, |row.matches|, if row.status == Queued then 1 else 0)
  }

  ghost predicate BatchesDone(db: Db) {
    forall b :: b in db.batches ==> DoneOk(db, b)
  }

  lemma JobStaysThere(db: Db, db': Db, b: string, i: nat)
    requires Grows(db, db') && HasJob(db, b, i)
    ensures HasJob(db', b, i)
  {
    var k :| 0 <= k < |db.jobs| && db.jobs[k].batchId == b && db.jobs[k].index == i;
    assert db'.jobs[k] == db.jobs[k];
  }

  lemma RoutedStays(db: Db, db': Db, m: M.Match)
    requires Grows(db, db') && RfqRoutedMatch(db, m)
    ensures RfqRoutedMatch(db', m)
  {
  }

  lemma HandledStays(db: Db, db': Db, b: string, ms: seq<M.Match>, n: nat)
    requires Grows(db, db') && HandledBelow(db, b, ms, n)
    ensures HandledBelow(db', b, ms, n)
  {
    hide Grows, HasJob, RfqRoutedMatch;
    forall i | 0 <= i < n
      ensures Handled(db', b, ms[i], i)
    {
      assert Handled(db, b, ms[i], i);
      if HasJob(db, b, i) {
        JobStaysThere(db, db', b, i);
      } else {
        RoutedStays(db, db', ms[i]);
      }
    }
  }

  lemma CountStays(db: Db, db': Db, b: string, ms: seq<M.Match>, n: nat, queued: nat)
    requires Grows(db, db') && CountOk(db, b, ms, n, queued)
    ensures CountOk(db', b, ms, n, queued)
  {
    hide Grows, HasJob, RfqRoutedMatch;
    if queued > 0 {
      var i: nat :| i < n && HasJob(db, b, i);
      JobStaysThere(db, db', b, i);
    } else {
      forall i | 0 <= i < n
        ensures RfqRoutedMatch(db', ms[i])
      {
        RoutedStays(db, db', ms[i]);
      }
    }
  }

  lemma PollStays(db: Db, db': Db, p: Poll)
    requires Grows(db, db') && PollOk(db, p)
    ensures PollOk(db', p)
  {
    HandledStays(db, db', p.batchId, p.matches, p.next);
    CountStays(db, db', p.batchId, p.matches, p.next, p.queued);
    hide HandledBelow, CountOk;
  }

  lemma PollsStay(db: Db, db': Db, polls: seq<Poll>)
    requires Grows(db, db') && PollsOk(db, polls)
    ensures PollsOk(db', polls)
  {
    hide Grows, PollOk;
    forall k | 0 <= k < |polls|
      ensures PollOk(db', polls[k])
    {
      PollStays(db, db', polls[k]);
    }
  }

  lemma JobStays(db: Db, db': Db, j: Job)
    requires Grows(db, db') && JobOk(db, j)
    ensures JobOk(db', j)
  {
    hide JobKey;
  }

  lemma JobsStay(db: Db, db': Db)
    requires Grows(db, db') && JobsOk(db) && db'.jobs == db.jobs
    ensures JobsOk(db')
  {
    hide Grows, JobOk;
    forall k | 0 <= k < |db.jobs|
      ensures JobOk(db', db'.jobs[k])
    {
      JobStays(db, db', db.jobs[k]);
    }
  }

  lemma DoneStays(db: Db, db': Db, b: string)
    requires Grows(db, db') && DoneOk(db, b) && b in db'.batches && db'.batches[b].status == db.batches[b].status
    ensures DoneOk(db', b)
  {
    var row := db.batches[b];
    if row.status != Pending {
      HandledStays(db, db', b, row.matches, |row.matches|);
      CountStays(db, db', b, row.matches, |row.matches|, if row.status == Queued then 1 else 0);
    }
    hide HandledBelow, CountOk;
  }

  /** Statuses are left alone; new batches are pending. */
  lemma DonesStay(db: Db, db': Db)
    requires Grows(db, db') && BatchesDone(db)
    requires forall b :: b in db'.batches ==>
               if b in db.batches then db'.batches[b].status == db.batches[b].status
                 else db'.batches[b].status == Pending
    ensures BatchesDone(db')
  {
    forall b | b in db'.batches
      ensures DoneOk(db', b)
    {
      if b in db.batches {
        DoneStays(db, db', b);
      }
    }
  }

  /** A job with this key is the job of this match. */
  lemma KeyMeansJob(db: Db, b: string, i: nat)
    requires JobsOk(db) && KeyQueued(db, JobKey(b, i))
    ensures HasJob(db, b, i)
  {
    hide JobKey;
    var k :| 0 <= k < |db.jobs| && db.jobs[k].key == JobKey(b, i);
    assert JobOk(db, db.jobs[k]);
    JobKeyInjective(db.jobs[k].batchId, db.jobs[k].index, b, i);
  }

  lemma HandledNext(db: Db, b: string, ms: seq<M.Match>, n: nat)
    requires HandledBelow(db, b, ms, n) && n < |ms| && Handled(db, b, ms[n], n)
    ensures HandledBelow(db, b, ms, n + 1)
  {
    hide Handled;
  }

  lemma CountNext(db: Db, b: string, ms: seq<M.Match>, n: nat, queued: nat, more: nat)
    requires CountOk(db, b, ms, n, queued) && n < |ms|
    requires if more == 0 then RfqRoutedMatch(db, ms[n]) else HasJob(db, b, n)
    ensures CountOk(db, b, ms, n + 1, queued + more)
  {
    hide HasJob, RfqRoutedMatch;
    if queued + more > 0 {
      var i: nat :| i <= n && HasJob(db, b, i);
      assert i < n + 1;
    }
  }

  lemma AdvanceOk(db: Db, p: Poll, queued: nat)
    requires PollOk(db, p) && p.next < |p.matches|
    requires if queued == 0 then RfqRoutedMatch(db, p.matches[p.next]) else HasJob(db, p.batchId, p.next)
    ensures PollOk(db, Advance(p, queued))
  {
    HandledNext(db, p.batchId, p.matches, p.next);
    CountNext(db, p.batchId, p.matches, p.next, p.queued, queued);
    hide HandledBelow, Handled, CountOk;
  }

  lemma DecideOk(db: Db, p: Poll)
    requires JobsOk(db) && PollOk(db, p) && p.next < |p.matches| && p.sawA.Some? && p.sawB.Some?
    ensures PollOk(db, Decide(db, p))
  {
    hide HandledBelow, CountOk, JobKey, HasJob, JobsOk;
    if p.sawA.value || p.sawB.value {
      AdvanceOk(db, p, 0);
    } else if KeyQueued(db, JobKey(p.batchId, p.next)) {
      KeyMeansJob(db, p.batchId, p.next);
      AdvanceOk(db, p, 1);
    }
  }

  /** The insert adds one job under a key that was free. */
  lemma InsertOk(db: Db, p: Poll)
    requires JobsOk(db) && PollOk(db, p) && p.next < |p.matches|
    ensures JobsOk(InsertNext(db, p)) && PollOk(InsertNext(db, p), AfterInsert(db, p))
  {
    InsertJobGrows(db, p);
    var db' := InsertNext(db, p);
    PollStays(db, db', p);
    if KeyQueued(db, JobKey(p.batchId, p.next)) {
      assert db' == db;
    } else {
      var n := |db.jobs|;
      assert db'.jobs[n].batchId == p.batchId && db'.jobs[n].index == p.next;
      assert HasJob(db', p.batchId, p.next);
      AdvanceOk(db', p, 1);
      hide HandledBelow, CountOk, JobKey, Grows;
      forall k | 0 <= k < |db'.jobs|
        ensures JobOk(db', db'.jobs[k])
      {
        if k < n {
          assert JobOk(db, db.jobs[k]);
        }
      }
    }
  }

  ghost predicate QueueOk(w: World) {
    JobsOk(w.db) && PollsOk(w.db, w.polls) && BatchesDone(w.db)
  }

  /** A step that changes neither jobs nor polls nor any batch's status. */
  lemma QueueStays(w: World, w': World)
    requires QueueOk(w) && Grows(w.db, w'.db) && w'.db.jobs == w.db.jobs && w'.polls == w.polls
    requires forall b :: b in w'.db.batches ==>
               if b in w.db.batches then w'.db.batches[b].status == w.db.batches[b].status
                 else w'.db.batches[b].status == Pending
    ensures QueueOk(w')
  {
    hide Grows, JobsOk, PollsOk, BatchesDone;
    JobsStay(w.db, w'.db);
    PollsStay(w.db, w'.db, w.polls);
    DonesStay(w.db, w'.db);
  }

  predicate IsPollStep(step: WStep) {
    step.PollStart? || step.PollRead? || step.PollDecide? || step.PollInsert? || step.PollFinish?
  }

  lemma OtherStepsLeaveQueue(w: World, step: WStep)
    requires PollCan(w, step) && HandlerCan(w, step) && !IsPollStep(step)
    ensures DbAfter(w, step).jobs == w.db.jobs
    ensures forall b :: b in DbAfter(w, step).batches ==>
              if b in w.db.batches then DbAfter(w, step).batches[b].status == w.db.batches[b].status
              else DbAfter(w, step).batches[b].status == Pending
  {
    Untouched(w, step);
    if !step.PersistStart? {
      hide DbAfter;
    }
  }

  /** One poll is replaced, added or left; the tables are not touched. */
  lemma PollReplaced(db: Db, polls: seq<Poll>, k: nat, p: Poll)
    requires PollsOk(db, polls) && PollOk(db, p) && k <= |polls|
    ensures PollsOk(db, if k < |polls| then polls[k := p] else polls + [p])
  {
    hide PollOk;
  }

  lemma PollStepKeepsQueue(cfg: Config, w: World, step: WStep)
    requires CanDo(cfg, w, step) && QueueOk(w) && IsPollStep(step)
    ensures QueueOk(After(cfg, w, step))
  {
    hide JobsOk, BatchesDone, HandledBelow, CountOk, PollsOk, JobKey;
    match step {
      case PollStart(b) =>
        NewPollOk(w.db, b);
        PollReplaced(w.db, w.polls, |w.polls|, NewPoll(b, w.db.batches[b].matches));
      case PollRead(k, second) =>
        PollAt(w.db, w.polls, k);
        assert PollOk(w.db, ReadSide(w.db, w.polls[k], second));
        PollReplaced(w.db, w.polls, k, ReadSide(w.db, w.polls[k], second));
      case PollDecide(k) =>
        PollAt(w.db, w.polls, k);
        DecideOk(w.db, w.polls[k]);
        PollReplaced(w.db, w.polls, k, Decide(w.db, w.polls[k]));
      case PollInsert(k) =>
        PollInsertKeeps(w, k);
      case PollFinish(k) =>
        PollFinishKeeps(w, k);
    }
    hide DbAfter, Decide;
  }

  lemma PollAt(db: Db, polls: seq<Poll>, k: nat)
    requires PollsOk(db, polls) && k < |polls|
    ensures PollOk(db, polls[k])
  {
  }

  lemma NewPollOk(db: Db, b: string)
    requires b in db.batches
    ensures PollOk(db, NewPoll(b, db.batches[b].matches))
  {
  }

  lemma PollInsertKeeps(w: World, k: nat)
    requires QueueOk(w) && PollCan(w, PollInsert(k))
    ensures var db' := InsertNext(w.db, w.polls[k]);
            JobsOk(db') && PollsOk(db', w.polls[k := AfterInsert(w.db, w.polls[k])]) && BatchesDone(db')
  {
    var p := w.polls[k];
    var db' := InsertNext(w.db, p);
    assert PollOk(w.db, p);
    InsertOk(w.db, p);
    InsertJobGrows(w.db, p);
    hide JobsOk, PollOk, Grows, AfterInsert;
    PollsStay(w.db, db', w.polls);
    DonesStay(w.db, db');
    hide InsertNext, BatchesDone;
  }

  lemma PollFinishKeeps(w: World, k: nat)
    requires QueueOk(w) && PollCan(w, PollFinish(k))
    ensures var p := w.polls[k];
            var db' := SetBatchStatus(w.db, p.batchId, if p.queued > 0 then Queued else RfqRouted);
            JobsOk(db') && PollsOk(db', w.polls[k := p.(live := false)]) && BatchesDone(db')
  {
    var p := w.polls[k];
    var status := if p.queued > 0 then Queued else RfqRouted;
    var db' := SetBatchStatus(w.db, p.batchId, status);
    assert PollOk(w.db, p);
    StatusGrows(w.db, p.batchId, status);
    JobsStay(w.db, db');
    PollsStay(w.db, db', w.polls);
    HandledStays(w.db, db', p.batchId, p.matches, p.next);
    CountStays(w.db, db', p.batchId, p.matches, p.next, p.queued);
    assert CountOk(db', p.batchId, p.matches, p.next, if status == Queued then 1 else 0);
    hide JobsOk, Grows, HandledBelow, CountOk;
    assert PollOk(db', p.(live := false));
    forall b | b in db'.batches
      ensures DoneOk(db', b)
    {
      if b != p.batchId {
        DoneStays(w.db, db', b);
      }
    }
  }

  lemma StepKeepsQueue(cfg: Config, w: World, step: WStep)
    requires CanDo(cfg, w, step) && QueueOk(w)
    ensures QueueOk(After(cfg, w, step))
  {
    hide QueueOk;
    if IsPollStep(step) {
      PollStepKeepsQueue(cfg, w, step);
    } else {
      StepGrows(w, step);
      OtherStepsLeaveQueue(w, step);
      assert PollsAfter(w, step) == w.polls;
      hide DbAfter, PollsAfter, PersistsAfter, ComAfter, CanDo, Grows, PollCan, HandlerCan;
      QueueStays(w, After(cfg, w, step));
    }
  }

  // ---- Statements that fail ----

  /**
   A poll whose key was taken in the meantime ends there and adds no job; otherwise
   its job is added and it goes on to the next match.
   */
  lemma InsertExactly(db: Db, p: Poll)
    requires p.next < |p.matches| && p.live
    ensures (exists k :: 0 <= k < |db.jobs| && db.jobs[k].key == JobKey(p.batchId, p.next)) ==>
              InsertNext(db, p) == db && !AfterInsert(db, p).live
    ensures (forall k :: 0 <= k < |db.jobs| ==> db.jobs[k].key != JobKey(p.batchId, p.next)) ==>
              && |InsertNext(db, p).jobs| == |db.jobs| + 1 && db.jobs < InsertNext(db, p).jobs
              && AfterInsert(db, p).live && AfterInsert(db, p).next == p.next + 1
              && AfterInsert(db, p).queued == p.queued + 1
  {
    hide JobKey;
  }

  /**
   An update whose partner has no row fails and ends the call; one whose own row is
   missing is passed over; any other records the partner.
   */
  lemma UpdateExactly(db: Db, p: Persist)
    requires p.done < 2 * |p.batch.matches| && p.live
    ensures var m := p.batch.matches[p.done / 2];
            var id, partner := if p.done % 2 == 0 then m.aId else m.bId, if p.done % 2 == 0 then m.bId else m.aId;
            && (id in db.mpc && partner !in db.mpc ==> MarkNext(db, p) == db && !PersistAfter(db, p).live)
            && (id !in db.mpc ==> MarkNext(db, p) == db && PersistAfter(db, p).live && !PersistAfter(db, p).rowsPresent)
            && (id in db.mpc && partner in db.mpc ==>
                  && PersistAfter(db, p) == p.(done := p.done + 1)
                  && id in MarkNext(db, p).mpc && MarkNext(db, p).mpc[id].matchedWith == Some(partner)
                  && MarkNext(db, p).mpc[id].session == db.mpc[id].session
                  && (forall other :: other in db.mpc && other != id ==>
                        other in MarkNext(db, p).mpc && MarkNext(db, p).mpc[other] == db.mpc[other])
                  && MarkNext(db, p) == db.(mpc := MarkNext(db, p).mpc))
  {
  }
}
