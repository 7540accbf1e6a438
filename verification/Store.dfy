/**
 The handlers over the tables as they run, statement by statement: persisting a
 signed batch (apps/mpc-committee/src/persist.ts), queueing its settlement jobs
 (apps/mpc-committee/src/settler.ts) and the RFQ handlers (apps/api/src/routes.ts,
 apps/api/src/db.ts). Each is proved to take the steps of the pipeline.
 */
module Store {
  import opened Collections
  import opened Session
  import opened Protocol
  import opened ProtocolProofs
  import opened Runs
  import opened Tables
  import opened JobKeys
  import opened Settlement
  import opened SettlementProofs
  import opened RfqProofs
  import opened Storage
  import opened Admission
  import M = Matcher
  import T = MatcherTheorems

  // ---- Uninterrupted calls as sequences of steps ----

  datatype PersistRun = PersistRun(db: Db, call: Persist)

  /** A persist call from where it stands to its end or its first failure: signature rows, session, match updates. */
  function PersistToEnd(db: Db, p: Persist): PersistRun
    decreases |p.batch.signers| - p.signed, !p.closed, 2 * |p.batch.matches| - p.done, p.live
  {
    if !p.live then PersistRun(db, p)
    else if p.signed < |p.batch.signers| then
      PersistToEnd(InsertSignature(db, p.batch.batchId, p.batch.signers[p.signed]), p.(signed := p.signed + 1))
    else if !p.closed then PersistToEnd(CloseSession(db, p.batch), p.(closed := true))
    else if p.done < 2 * |p.batch.matches| then PersistToEnd(MarkNext(db, p), PersistAfter(db, p))
    else PersistRun(db, p)
  }

  /** The whole call; nothing else happens if the first insert fails. */
  function PersistWhole(db: Db, b: SignedBatch): Option<PersistRun> {
    if InsertBatch(db, b).None? then None else Some(PersistToEnd(InsertBatch(db, b).value, NewPersist(b)))
  }

  ghost predicate Updating(p: Persist) {
    p.live && p.closed && p.signed == |p.batch.signers|
  }

  lemma OneUpdate(db: Db, p: Persist, id: IntentId, partner: IntentId)
    requires Updating(p) && p.done < 2 * |p.batch.matches|
    requires id == UpdateTarget(p.batch.matches, p.done) && partner == UpdatePartner(p.batch.matches, p.done)
    ensures MarkMatched(db, id, partner).None? ==> PersistToEnd(db, p) == PersistRun(db, p.(live := false))
    ensures MarkMatched(db, id, partner).Some? ==>
              var next := PersistAfter(db, p);
              && Updating(next) && next.done == p.done + 1 && next.batch == p.batch
              && PersistToEnd(db, p) == PersistToEnd(MarkMatched(db, id, partner).value, next)
  {
    hide MarkMatched, UpdateTarget, UpdatePartner;
  }

  lemma AtEnd(db: Db, p: Persist)
    requires Updating(p) && p.done == 2 * |p.batch.matches|
    ensures PersistToEnd(db, p) == PersistRun(db, p)
  {
  }

  ghost predicate RowsPresent(db: Db, ms: seq<M.Match>) {
    forall i :: 0 <= i < |ms| ==> ms[i].aId in db.mpc && ms[i].bId in db.mpc
  }

  ghost predicate RecordedBelow(db: Db, ms: seq<M.Match>, n: nat) {
    n <= 2 * |ms| && forall j :: 0 <= j < n ==> Recorded(db, UpdateTarget(ms, j), UpdatePartner(ms, j))
  }

  lemma MarkKeepsRecorded(db: Db, p: Persist)
    requires T.IdsDisjoint(p.batch.matches) && RowsPresent(db, p.batch.matches) && p.done < 2 * |p.batch.matches|
    requires RecordedBelow(db, p.batch.matches, p.done)
    ensures RowsPresent(MarkNext(db, p), p.batch.matches) && RecordedBelow(MarkNext(db, p), p.batch.matches, p.done + 1)
    ensures MarkMatched(db, UpdateTarget(p.batch.matches, p.done), UpdatePartner(p.batch.matches, p.done)).Some?
    ensures PersistAfter(db, p) == p.(done := p.done + 1)
  {
    var ms, n := p.batch.matches, p.done;
    TargetHasRow(db, ms, n);
    forall j | 0 <= j <= n
      ensures Recorded(MarkNext(db, p), UpdateTarget(ms, j), UpdatePartner(ms, j))
    {
      SameBatchSamePartner(p, j, n);
      if j < n {
        assert Recorded(db, UpdateTarget(ms, j), UpdatePartner(ms, j));
      }
    }
    hide UpdateTarget, UpdatePartner, T.IdsDisjoint, Recorded;
  }

  lemma TargetHasRow(db: Db, ms: seq<M.Match>, j: nat)
    requires RowsPresent(db, ms) && j < 2 * |ms|
    ensures UpdateTarget(ms, j) in db.mpc && UpdatePartner(ms, j) in db.mpc
  {
  }

  lemma {:induction false} UpdatesComplete(db: Db, p: Persist)
    requires Updating(p) && p.rowsPresent && T.IdsDisjoint(p.batch.matches) && RowsPresent(db, p.batch.matches)
    requires RecordedBelow(db, p.batch.matches, p.done)
    ensures var r := PersistToEnd(db, p);
            && r.call == p.(done := 2 * |p.batch.matches|)
            && RecordedBelow(r.db, p.batch.matches, 2 * |p.batch.matches|)
            && r.db.sessions == db.sessions && r.db.signatures == db.signatures
    decreases 2 * |p.batch.matches| - p.done
  {
    assert p.done <= 2 * |p.batch.matches|;
    hide T.IdsDisjoint, PersistAfter, RowsPresent, RecordedBelow, UpdateTarget, UpdatePartner;
    if p.done < 2 * |p.batch.matches| {
      MarkKeepsRecorded(db, p);
      UpdatesComplete(MarkNext(db, p), PersistAfter(db, p));
    }
  }

  function SignRows(db: Db, b: SignedBatch, n: nat): Db
    requires n <= |b.signers|
  {
    if n == 0 then db else InsertSignature(SignRows(db, b, n - 1), b.batchId, b.signers[n - 1])
  }

  lemma {:induction false} SignRowsAre(db: Db, b: SignedBatch, n: nat)
    requires n <= |b.signers|
    ensures SignRows(db, b, n) == db.(signatures := SignRows(db, b, n).signatures)
    ensures forall k :: 0 <= k < n ==> (b.batchId, b.signers[k]) in SignRows(db, b, n).signatures
    ensures forall row :: row in SignRows(db, b, n).signatures ==>
              row in db.signatures || (row.0 == b.batchId && row.1 in b.signers)
  {
    if n > 0 {
      SignRowsAre(db, b, n - 1);
    }
  }

  lemma {:induction false} SigningPhase(db: Db, b: SignedBatch, n: nat)
    requires n <= |b.signers|
    ensures PersistToEnd(db, NewPersist(b)) == PersistToEnd(SignRows(db, b, n), NewPersist(b).(signed := n))
  {
    if n > 0 {
      SigningPhase(db, b, n - 1);
    }
  }

  lemma CloseAfterSigning(db: Db, b: SignedBatch)
    ensures PersistToEnd(db, NewPersist(b)) ==
            PersistToEnd(CloseSession(SignRows(db, b, |b.signers|), b),
              NewPersist(b).(signed := |b.signers|, closed := true))
  {
    SigningPhase(db, b, |b.signers|);
    hide CloseSession, SignRows;
  }

  /**
   With its session's row and every match row there, an undisturbed call on
   disjoint matches gets through: the batch, a signature row per signer, the
   closed session, and each match recorded in both directions.
   */
  lemma PersistCompletes(db: Db, b: SignedBatch)
    requires T.IdsDisjoint(b.matches) && RowsPresent(db, b.matches) && b.sessionId in db.sessions
    ensures PersistWhole(db, b).Some?
    ensures var r := PersistWhole(db, b).value;
            && r.call == Persist(b, |b.signers|, true, 2 * |b.matches|, true, true)
            && RecordedBelow(r.db, b.matches, 2 * |b.matches|)
            && b.sessionId in r.db.sessions && r.db.sessions[b.sessionId] == SessionRow(true, |b.matches|)
            && (forall k :: 0 <= k < |b.signers| ==> (b.batchId, b.signers[k]) in r.db.signatures)
            && forall row :: row in r.db.signatures ==>
                 row in db.signatures || (row.0 == b.batchId && row.1 in b.signers)
  {
    var inserted := InsertBatch(db, b).value;
    SignRowsAre(inserted, b, |b.signers|);
    var signed := SignRows(inserted, b, |b.signers|);
    var closed := CloseSession(signed, b);
    assert RowsPresent(closed, b.matches) && RecordedBelow(closed, b.matches, 0);
    assert closed.sessions[b.sessionId] == SessionRow(true, |b.matches|) && closed.signatures == signed.signatures;
    CloseAfterSigning(inserted, b);
    hide PersistToEnd, T.IdsDisjoint, RowsPresent, RecordedBelow, SignRows;
    UpdatesComplete(closed, NewPersist(b).(signed := |b.signers|, closed := true));
  }

  /** Without its session's row a new batch is not stored, whatever else is there. */
  lemma PersistNeedsSessionRow(db: Db, b: SignedBatch)
    ensures PersistWhole(db, b).None? <==> b.batchId !in db.batches && b.sessionId !in db.sessions
  {
    hide PersistToEnd;
  }

  datatype PollRun = PollRun(db: Db, poll: Poll)

  /** One match of a poll: both reads, the decision and, if it comes to that, the insert. */
  function PollMatch(db: Db, p: Poll): PollRun
    requires p.next < |p.matches|
  {
    var decided := Decide(db, ReadSide(db, ReadSide(db, p, false), true));
    if decided.inserting then PollRun(InsertNext(db, decided), AfterInsert(db, decided)) else PollRun(db, decided)
  }

  function PollMatches(db: Db, p: Poll, n: nat): (r: PollRun)
    requires n <= |p.matches| && p.next == 0 && !p.inserting
    ensures r.poll.next == n && r.poll.matches == p.matches && r.poll.batchId == p.batchId
  {
    if n == 0 then PollRun(db, p)
    else
      var before := PollMatches(db, p, n - 1);
      PollMatch(before.db, before.poll)
  }

  function QueueBatch(db: Db, batchId: string, matches: seq<M.Match>): Db {
    var r := PollMatches(db, NewPoll(batchId, matches), |matches|);
    SetBatchStatus(r.db, batchId, if r.poll.queued > 0 then Queued else RfqRouted)
  }

  /** What one match comes to: skipped, found in the queue or put there. */
  lemma PollMatchIs(db: Db, p: Poll)
    requires p.next < |p.matches| && p.live
    ensures PollMatch(db, p) ==
            if RfqRoutedMatch(db, p.matches[p.next]) then PollRun(db, Advance(p, 0))
              else PollRun(InsertNext(db, p), Advance(p, 1))
  {
    hide KeyQueued, JobKey;
  }

  lemma NoMatchYet(db: Db, batchId: string, matches: seq<M.Match>)
    ensures PollMatches(db, NewPoll(batchId, matches), 0) == PollRun(db, NewPoll(batchId, matches))
  {
  }

  lemma OneMatchMore(db: Db, batchId: string, matches: seq<M.Match>, i: nat)
    requires i < |matches| && PollMatches(db, NewPoll(batchId, matches), i).poll.live
    ensures var before, after := PollMatches(db, NewPoll(batchId, matches), i),
            PollMatches(db, NewPoll(batchId, matches), i + 1);
            && after.poll.live
            && after.poll.queued == before.poll.queued + (if RfqRoutedMatch(before.db, matches[i]) then 0 else 1)
            && after.db == if RfqRoutedMatch(before.db, matches[i])
                 || InsertJob(before.db, batchId, i, matches[i]).None? then before.db
                           else InsertJob(before.db, batchId, i, matches[i]).value
  {
    var before := PollMatches(db, NewPoll(batchId, matches), i);
    PollMatchIs(before.db, before.poll);
    hide PollMatch, InsertJob, RfqRoutedMatch;
  }

  lemma PollMatchKeeps(db: Db, p: Poll)
    requires JobsOk(db) && PollOk(db, p) && p.next < |p.matches| && p.live && db.batches[p.batchId].status == Pending
    ensures var r := PollMatch(db, p);
            JobsOk(r.db) && PollOk(r.db, r.poll) && r.poll.live && r.db.batches == db.batches
              && r.db.intents == db.intents
  {
    PollMatchIs(db, p);
    hide PollMatch, JobKey, HandledBelow, CountOk, HasJob;
    if RfqRoutedMatch(db, p.matches[p.next]) {
      AdvanceOk(db, p, 0);
    } else if KeyQueued(db, JobKey(p.batchId, p.next)) {
      KeyMeansJob(db, p.batchId, p.next);
      AdvanceOk(db, p, 1);
      hide JobsOk, PollOk;
    } else {
      InsertOk(db, p);
      hide JobsOk, PollOk;
    }
  }

  lemma {:induction false} PollMatchesKeep(db: Db, b: string, n: nat)
    requires JobsOk(db) && b in db.batches && db.batches[b].status == Pending && n <= |db.batches[b].matches|
    ensures var r := PollMatches(db, NewPoll(b, db.batches[b].matches), n);
            JobsOk(r.db) && PollOk(r.db, r.poll) && r.poll.live && r.db.batches == db.batches
              && r.db.intents == db.intents
    decreases n
  {
    hide JobsOk, PollOk, PollMatch;
    NewPollOk(db, b);
    if n > 0 {
      PollMatchesKeep(db, b, n - 1);
      var before := PollMatches(db, NewPoll(b, db.batches[b].matches), n - 1);
      PollMatchKeeps(before.db, before.poll);
    }
  }

  lemma GrowsTransitive(a: Db, b: Db, c: Db)
    requires Grows(a, b) && Grows(b, c)
    ensures Grows(a, c)
  {
  }

  lemma {:induction false} PollMatchesGrow(db: Db, p: Poll, n: nat)
    requires n <= |p.matches| && p.next == 0 && !p.inserting
    ensures Grows(db, PollMatches(db, p, n).db)
    decreases n
  {
    GrowsSelf(db);
    hide Grows, InsertNext;
    if n > 0 {
      PollMatchesGrow(db, p, n - 1);
      var before := PollMatches(db, p, n - 1);
      var decided := Decide(before.db, ReadSide(before.db, ReadSide(before.db, before.poll, false), true));
      GrowsSelf(before.db);
      if decided.inserting {
        InsertJobGrows(before.db, decided);
      }
      GrowsTransitive(db, before.db, PollMatch(before.db, before.poll).db);
    }
  }

  /**
   An undisturbed call leaves every match of the batch with its job or with the
   RFQ lifecycle, takes the batch out of `pending` and touches no other batch.
   */
  lemma QueueBatchHandles(db: Db, b: string)
    requires JobsOk(db) && b in db.batches && db.batches[b].status == Pending
    ensures var db', ms := QueueBatch(db, b, db.batches[b].matches), db.batches[b].matches;
            && JobsOk(db') && Grows(db, db') && HandledBelow(db', b, ms, |ms|)
            && b in db'.batches && db'.batches[b].status != Pending && db'.batches[b].matches == ms
            && db'.batches == db.batches[b := db'.batches[b]]
  {
    var ms := db.batches[b].matches;
    PollMatchesKeep(db, b, |ms|);
    PollMatchesGrow(db, NewPoll(b, ms), |ms|);
    var r := PollMatches(db, NewPoll(b, ms), |ms|);
    assert HandledBelow(r.db, b, ms, |ms|);
    var status := if r.poll.queued > 0 then Queued else RfqRouted;
    var db' := SetBatchStatus(r.db, b, status);
    StatusGrows(r.db, b, status);
    hide PollMatches, JobsOk, PollOk, HandledBelow, Grows;
    JobsStay(r.db, db');
    HandledStays(r.db, db', b, ms, |ms|);
    GrowsTransitive(db, r.db, db');
  }

  // ---- The snapshot of a poll ----

  const POLL_LIMIT: nat := 50

  /** The first pending batches of the list, at most `limit`. */
  function OldestPending(db: Db, byAge: seq<string>, limit: nat): (r: seq<string>)
    ensures |r| <= limit
    ensures forall k :: 0 <= k < |r| ==> r[k] in byAge && r[k] in db.batches && db.batches[r[k]].status == Pending
  {
    if byAge == [] then []
    else
      var front, last := OldestPending(db, byAge[..|byAge| - 1], limit), byAge[|byAge| - 1];
      if |front| < limit && last in db.batches && db.batches[last].status == Pending then front + [last] else front
  }

  lemma {:induction false} OldestAreDistinct(db: Db, byAge: seq<string>, limit: nat)
    requires NoRepeats(byAge)
    ensures NoRepeats(OldestPending(db, byAge, limit))
  {
    if byAge != [] {
      LastIsNew(byAge);
      var front, last := OldestPending(db, byAge[..|byAge| - 1], limit), byAge[|byAge| - 1];
      hide NoRepeats;
      OldestAreDistinct(db, byAge[..|byAge| - 1], limit);
      assert last !in front;
      AppendNoRepeat(front, last);
    }
  }

  /** The pending ones among the first `n` of the list. */
  function PendingBelow(db: Db, byAge: seq<string>, n: nat): set<nat> {
    set k: nat | k < n && k < |byAge| && byAge[k] in db.batches && db.batches[byAge[k]].status == Pending
  }

  lemma PendingStep(db: Db, byAge: seq<string>, n: nat)
    requires n < |byAge|
    ensures |PendingBelow(db, byAge, n + 1)| ==
            |PendingBelow(db, byAge, n)|
            + (if byAge[n] in db.batches && db.batches[byAge[n]].status == Pending then 1 else 0)
  {
    var now, before := PendingBelow(db, byAge, n + 1), PendingBelow(db, byAge, n);
    assert now == if byAge[n] in db.batches && db.batches[byAge[n]].status == Pending then before + {n} else before;
  }

  lemma PendingInFront(db: Db, byAge: seq<string>, n: nat)
    requires n <= |byAge|
    ensures forall k: nat :: k <= n ==> PendingBelow(db, byAge[..n], k) == PendingBelow(db, byAge, k)
  {
    forall k: nat | k <= n
      ensures PendingBelow(db, byAge[..n], k) == PendingBelow(db, byAge, k)
    {
      assert forall j: nat :: j < k ==> byAge[..n][j] == byAge[j];
    }
  }

  /** As many as there are pending ones, up to the limit. */
  lemma {:induction false} OldestSize(db: Db, byAge: seq<string>, limit: nat)
    ensures |OldestPending(db, byAge, limit)| ==
            var pending := |PendingBelow(db, byAge, |byAge|)|; if pending < limit then pending else limit
  {
    if byAge == [] {
      assert PendingBelow(db, byAge, 0) == {};
    } else {
      var n := |byAge| - 1;
      OldestSize(db, byAge[..n], limit);
      PendingInFront(db, byAge, n);
      PendingStep(db, byAge, n);
      hide PendingBelow;
    }
  }

  /**
   The oldest first: a pending batch is taken, at the place that the number of
   older pending ones gives it, if and only if that place is below the limit.
   */
  lemma {:induction false} OldestExactly(db: Db, byAge: seq<string>, limit: nat, k: nat)
    requires NoRepeats(byAge) && k < |byAge| && byAge[k] in db.batches && db.batches[byAge[k]].status == Pending
    ensures var r, older := OldestPending(db, byAge, limit), |PendingBelow(db, byAge, k)|;
            && (byAge[k] in r <==> older < limit)
            && (older < limit ==> older < |r| && r[older] == byAge[k])
  {
    var n := |byAge| - 1;
    var front := byAge[..n];
    PendingInFront(db, byAge, n);
    LastIsNew(byAge);
    hide PendingBelow;
    if k < n {
      OldestExactly(db, front, limit, k);
      assert byAge[k] != byAge[n];
    } else {
      OldestSize(db, front, limit);
    }
  }

  // ---- The store ----

  datatype Outcome = Done | Rejected(code: int)

  class Store {
    var sessions: map<SessionId, SessionRow>
    var intents: map<Hash, IntentRow>
    var mpc: map<IntentId, MpcRow>
    var batches: map<string, BatchRow>
    var signatures: set<(string, NodeId)>
    var jobs: seq<Job>
    var quotes: map<QuoteId, QuoteRow>
    var acceptances: map<QuoteId, Hash>
    var fills: seq<Fill>
    var settlements: map<SettlementId, SettlementRow>

    function View(): Db
      reads this
    {
      Db(sessions, intents, mpc, batches, signatures, jobs, quotes, acceptances, fills, settlements)
    }

    constructor ()
      ensures View() == EmptyDb()
    {
      sessions, intents, mpc, batches, signatures, jobs := map[], map[], map[], map[], {}, [];
      quotes, acceptances, fills, settlements := map[], map[], [], map[];
    }

    // ---- Persisting a signed batch ----

    /** The update of one side; a missing partner row fails the statement. */
    method UpdateMatched(id: IntentId, partner: IntentId) returns (ok: bool)
      modifies this
      ensures ok <==> MarkMatched(old(View()), id, partner).Some?
      ensures View() == if ok then MarkMatched(old(View()), id, partner).value else old(View())
    {
      if id in mpc {
        if partner !in mpc {
          return false;
        }
        mpc := mpc[id := mpc[id].(matchedWith := Some(partner))];
      }
      ok := true;
    }

    method PersistSignedBatch(batch: SignedBatch) returns (ok: bool)
      modifies this
      ensures var r := PersistWhole(old(View()), batch);
              && (r.None? ==> !ok && View() == old(View()))
              && (r.Some? ==> View() == r.value.db && (ok <==> r.value.call.live))
    {
      if batch.batchId !in batches {
        if batch.sessionId !in sessions {
          return false;
        }
        batches := batches[batch.batchId := BatchRow(batch.sessionId, batch.matches, Pending)];
      }
      ghost var inserted := View();
      for i := 0 to |batch.signers|
        invariant View() == SignRows(inserted, batch, i)
      {
        signatures := signatures + {(batch.batchId, batch.signers[i])};
      }
      if batch.sessionId in sessions {
        sessions := sessions[batch.sessionId := SessionRow(true, |batch.matches|)];
      }
      CloseAfterSigning(inserted, batch);
      ok := UpdateMatches(batch);
    }

    /** The two updates of every match, in order. */
    method UpdateMatches(batch: SignedBatch) returns (ok: bool)
      modifies this
      ensures var r := PersistToEnd(old(View()), NewPersist(batch).(signed := |batch.signers|, closed := true));
              View() == r.db && (ok <==> r.call.live)
    {
      ghost var call := NewPersist(batch).(signed := |batch.signers|, closed := true);
      ghost var whole := PersistToEnd(View(), call);
      hide MarkMatched, PersistToEnd, PersistAfter;
      for i := 0 to |batch.matches|
        invariant Updating(call) && call.batch == batch && call.done == 2 * i
        invariant PersistToEnd(View(), call) == whole
      {
        var m := batch.matches[i];
        ghost var next := PersistAfter(View(), call);
        OneUpdate(View(), call, m.aId, m.bId);
        ok := UpdateMatched(m.aId, m.bId);
        if !ok {
          return;
        }
        call := next;
        next := PersistAfter(View(), call);
        OneUpdate(View(), call, m.bId, m.aId);
        ok := UpdateMatched(m.bId, m.aId);
        if !ok {
          return;
        }
        call := next;
      }
      AtEnd(View(), call);
      ok := true;
    }

    // ---- Queueing settlement jobs ----

    /** Looks the key up first and inserts a job only if there is none. */
    method Enqueue(batchId: string, index: nat, m: M.Match)
      modifies this
      ensures View() == if InsertJob(old(View()), batchId, index, m).Some?
              then InsertJob(old(View()), batchId, index, m).value else old(View())
    {
      var key := JobKey(batchId, index);
      if !KeyQueued(View(), key) {
        jobs := jobs + [Job(key, batchId, index, m.aId, m.bId)];
      }
    }

    method QueueSettlementJobs(batchId: string, matches: seq<M.Match>) returns (queued: nat, skipped: nat)
      modifies this
      ensures queued + skipped == |matches|
      ensures View() == QueueBatch(old(View()), batchId, matches)
    {
      queued, skipped := 0, 0;
      ghost var db := View();
      NoMatchYet(db, batchId, matches);
      hide InsertJob, JobKey, PollMatches, SetBatchStatus;
      for i := 0 to |matches|
        invariant queued + skipped == i
        invariant var r := PollMatches(db, NewPoll(batchId, matches), i);
                  View() == r.db && queued == r.poll.queued && r.poll.live
      {
        OneMatchMore(db, batchId, matches, i);
        if matches[i].aId in intents || matches[i].bId in intents {
          skipped := skipped + 1;
        } else {
          Enqueue(batchId, i, matches[i]);
          queued := queued + 1;
        }
      }
      UpdateStatus(batchId, if queued > 0 then Queued else RfqRouted);
    }

    method UpdateStatus(batchId: string, status: BatchStatus)
      modifies this
      ensures View() == SetBatchStatus(old(View()), batchId, status)
    {
      if batchId in batches {
        batches := batches[batchId := batches[batchId].(status := status)];
      }
    }

    method QueueSnapshot(snapshot: seq<string>)
      requires JobsOk(View()) && NoRepeats(snapshot)
      requires forall k :: 0 <= k < |snapshot| ==> snapshot[k] in batches && batches[snapshot[k]].status == Pending
      modifies this
      ensures JobsOk(View()) && Grows(old(View()), View())
      ensures forall k :: 0 <= k < |snapshot| ==>
                && snapshot[k] in batches && batches[snapshot[k]].status != Pending
                && HandledBelow(View(), snapshot[k], batches[snapshot[k]].matches, |batches[snapshot[k]].matches|)
      ensures forall b :: b in old(batches) && b !in snapshot ==> b in batches && batches[b] == old(batches[b])
    {
      GrowsSelf(View());
      hide JobsOk, Grows, HandledBelow, QueueBatch;
      for i := 0 to |snapshot|
        invariant JobsOk(View()) && Grows(old(View()), View())
        invariant forall k :: i <= k < |snapshot| ==> snapshot[k] in batches && batches[snapshot[k]].status == Pending
        invariant forall k :: 0 <= k < i ==>
                    && snapshot[k] in batches && batches[snapshot[k]].status != Pending
                    && HandledBelow(View(), snapshot[k], batches[snapshot[k]].matches, |batches[snapshot[k]].matches|)
        invariant forall b :: b in old(batches) && b !in snapshot ==> b in batches && batches[b] == old(batches[b])
      {
        ghost var db := View();
        QueueBatchHandles(db, snapshot[i]);
        var _, _ := QueueSettlementJobs(snapshot[i], batches[snapshot[i]].matches);
        GrowsTransitive(old(View()), db, View());
        forall k | 0 <= k < i
          ensures HandledBelow(View(), snapshot[k], db.batches[snapshot[k]].matches, |db.batches[snapshot[k]].matches|)
        {
          HandledStays(db, View(), snapshot[k], db.batches[snapshot[k]].matches, |db.batches[snapshot[k]].matches|);
        }
      }
    }

    /** One poll over the oldest pending batches, at most fifty; `byAge` lists the batches by their time of creation. */
    method SettleOnce(byAge: seq<string>) returns (n: nat)
      requires JobsOk(View()) && NoRepeats(byAge)
      modifies this
      ensures var pending := |PendingBelow(old(View()), byAge, |byAge|)|; n == if pending < 50 then pending else 50
      ensures forall k: nat :: k < |byAge| && byAge[k] in old(batches) && old(batches)[byAge[k]].status == Pending ==>
                && byAge[k] in batches
                && (batches[byAge[k]].status != Pending <==> |PendingBelow(old(View()), byAge, k)| < 50)
      ensures JobsOk(View()) && Grows(old(View()), View())
      ensures var snapshot := OldestPending(old(View()), byAge, POLL_LIMIT);
              && (forall k :: 0 <= k < |snapshot| ==>
                    && snapshot[k] in batches && batches[snapshot[k]].status != Pending
                    && HandledBelow(View(), snapshot[k], batches[snapshot[k]].matches, |batches[snapshot[k]].matches|))
              && forall b :: b in old(batches) && b !in snapshot ==> b in batches && batches[b] == old(batches[b])
    {
      hide JobsOk, Grows, HandledBelow;
      var snapshot: seq<string> := [];
      for i := 0 to |byAge|
        invariant snapshot == OldestPending(View(), byAge[..i], POLL_LIMIT) && View() == old(View())
      {
        assert byAge[..i + 1][..i] == byAge[..i];
        if |snapshot| < POLL_LIMIT && byAge[i] in batches && batches[byAge[i]].status == Pending {
          snapshot := snapshot + [byAge[i]];
        }
      }
      assert byAge[..|byAge|] == byAge;
      OldestAreDistinct(View(), byAge, POLL_LIMIT);
      OldestSize(View(), byAge, POLL_LIMIT);
      forall k: nat | k < |byAge| && byAge[k] in batches && batches[byAge[k]].status == Pending
        ensures byAge[k] in snapshot <==> |PendingBelow(View(), byAge, k)| < 50
      {
        OldestExactly(View(), byAge, POLL_LIMIT, k);
      }
      hide PendingBelow, OldestPending;
      QueueSnapshot(snapshot);
      n := |snapshot|;
    }

    // ---- The RFQ handlers ----

    method HandleAccept(q: QuoteId, h: Hash, user: string) returns (outcome: Outcome)
      modifies this
      ensures View() == AcceptQuote(old(View()), q, h, user)
      ensures outcome == Done <==>
                && h in old(intents) && (old(intents)[h].user == "" || old(intents)[h].user == user)
                && q in old(quotes) && old(quotes)[q].intentHash == h && q !in old(acceptances)
      ensures acceptances == if outcome == Done then old(acceptances)[q := h] else old(acceptances)
      ensures RfqOk(old(View())) ==> RfqOk(View())
    {
      if RfqOk(View()) {
        AcceptKeepsRfq(View(), q, h, user);
      }
      hide RfqOk;
      if h !in intents {
        return Rejected(404);
      }
      if intents[h].user != "" && intents[h].user != user {
        return Rejected(403);
      }
      if q !in quotes {
        return Rejected(404);
      }
      if quotes[q].intentHash != h {
        return Rejected(409);
      }
      if q in acceptances {
        return Rejected(409);
      }
      acceptances := acceptances[q := h];
      outcome := Done;
    }

    method HandleExecute(fillId: string) returns (outcome: Outcome)
      modifies this
      ensures View() == ExecuteFill(old(View()), fillId)
      ensures outcome == Done <==> FillKnown(old(View()), fillId)
    {
      var updated, found := [], false;
      for k := 0 to |fills|
        invariant |updated| == k && View() == old(View())
        invariant forall i :: 0 <= i < k ==>
                    updated[i] == if fills[i].fillId == fillId then fills[i].(executed := true) else fills[i]
        invariant found <==> exists i :: 0 <= i < k && fills[i].fillId == fillId
      {
        if fills[k].fillId == fillId {
          updated := updated + [fills[k].(executed := true)];
          found := true;
        } else {
          updated := updated + [fills[k]];
        }
      }
      assert updated == Executed(fills, fillId);
      fills := updated;
      outcome := if found then Done else Rejected(404);
    }

    /** The newest fill of a quote, looked for from the end. */
    method FindLatestFill(q: QuoteId) returns (fill: Option<Fill>)
      ensures fill == LatestFill(fills, q)
    {
      var k := |fills|;
      assert fills[..k] == fills;
      while k > 0
        invariant 0 <= k <= |fills| && LatestFill(fills, q) == LatestFill(fills[..k], q)
      {
        k := k - 1;
        assert fills[..k + 1][..k] == fills[..k];
        if fills[k].quoteId == q {
          return Some(fills[k]);
        }
      }
      fill := None;
    }

    /** The checks in the handler's order. */
    method CheckSettle(r: SettleRequest) returns (outcome: Outcome)
      ensures outcome == Done <==> Admits(View(), r)
      ensures outcome == Done <==> Qualifies(View(), r)
    {
      AdmitsExactly(View(), r);
      hide LatestFill, Qualifies;
      if r.id.intentHash !in intents {
        return Rejected(404);
      }
      if intents[r.id.intentHash].user != "" && intents[r.id.intentHash].user != r.user {
        return Rejected(403);
      }
      if r.id.quoteId !in quotes {
        return Rejected(404);
      }
      if quotes[r.id.quoteId].intentHash != r.id.intentHash || r.id.quoteId !in acceptances {
        return Rejected(409);
      }
      var fill := FindLatestFill(r.id.quoteId);
      if fill.None? || !fill.value.executed
         || (r.receipt.Some? && r.receipt.value != "" && fill.value.receipt != r.receipt.value) {
        return Rejected(409);
      }
      if !r.proofReady || r.spent {
        return Rejected(409);
      }
      if CarriesSession(intents[r.id.intentHash])
         && (r.id.intentHash !in mpc || mpc[r.id.intentHash].matchedWith.None?) {
        return Rejected(409);
      }
      outcome := Done;
    }

    /** The checks, then the insert, which may still fail on the fill's foreign key. */
    method HandleSettle(r: SettleRequest) returns (outcome: Outcome)
      modifies this
      ensures View() == SettleRfq(old(View()), r)
      ensures outcome == Done <==> Qualifies(old(View()), r) && FillExists(old(View()), r)
      ensures outcome == Done ==> r.proofReady && !r.spent && r.id in settlements && settlements[r.id].user == r.user
      ensures RfqOk(old(View())) ==> RfqOk(View())
    {
      if RfqOk(View()) {
        SettleKeepsRfq(View(), r);
      }
      assert r.fillId.Some? ==> (FillKnown(View(), r.fillId.value) <==> FillExists(View(), r));
      outcome := CheckSettle(r);
      if outcome != Done {
        return;
      }
      assert r.id.intentHash in intents && r.proofReady && !r.spent;
      hide RfqOk, FillKnown, Admits, Qualifies;
      if r.fillId.Some? && !FillKnown(View(), r.fillId.value) {
        return Rejected(500);
      }
      var viaMpc := CarriesSession(intents[r.id.intentHash]) || (r.id in settlements && settlements[r.id].viaMpc);
      settlements := settlements[r.id := SettlementRow(r.user, viaMpc)];
    }
  }
}
