/**
 Persisted matches: in every interleaving of persist calls `matched_with` pairs
 intents symmetrically and never an intent with itself
 (apps/mpc-committee/src/persist.ts).
 */
module Storage {
  import opened Collections
  import opened Session
  import opened Protocol
  import opened Tables
  import opened Runs
  import opened Settlement
  import opened SettlementProofs
  import opened RfqProofs
  import opened SettlementTheorems
  import T = MatcherTheorems

  /** The call stores the batch that its session signed. */
  ghost predicate PersistOk(com: State, p: Persist) {
    && p.batch.sessionId in com.sessions && com.sessions[p.batch.sessionId].signedBatch == Some(p.batch)
    && p.done <= 2 * |p.batch.matches| && p.signed <= |p.batch.signers|
  }

  ghost predicate PersistsOk(w: World) {
    forall k :: 0 <= k < |w.persists| ==> PersistOk(w.com, w.persists[k])
  }

  function Target(p: Persist, j: nat): IntentId
    requires j < 2 * |p.batch.matches|
  {
    UpdateTarget(p.batch.matches, j)
  }

  function Partner(p: Persist, j: nat): IntentId
    requires j < 2 * |p.batch.matches|
  {
    UpdatePartner(p.batch.matches, j)
  }

  /** The j-th update of the call has been carried out and says so. */
  ghost predicate Wrote(p: Persist, j: nat, a: IntentId, b: IntentId) {
    j < p.done && j < 2 * |p.batch.matches| && Target(p, j) == a && Partner(p, j) == b
  }

  ghost predicate SomeoneWrote(persists: seq<Persist>, a: IntentId, b: IntentId) {
    exists k, j :: 0 <= k < |persists| && Wrote(persists[k], j, a, b)
  }

  /** Whatever `matched_with` says was written by some call, and the partner has a row. */
  ghost predicate WrittenOk(w: World) {
    forall a :: a in w.db.mpc && w.db.mpc[a].matchedWith.Some? ==>
      w.db.mpc[a].matchedWith.value in w.db.mpc && SomeoneWrote(w.persists, a, w.db.mpc[a].matchedWith.value)
  }

  ghost predicate Recorded(db: Db, a: IntentId, b: IntentId) {
    a in db.mpc && db.mpc[a].matchedWith == Some(b)
  }

  /** What a call wrote for this id, having met all rows so far, is still there. */
  ghost predicate AppliedOk(w: World, a: IntentId) {
    forall k, j, b :: 0 <= k < |w.persists| && w.persists[k].rowsPresent && Wrote(w.persists[k], j, a, b) ==>
      Recorded(w.db, a, b)
  }

  // ---- One partner per id ----

  function Mate(j: nat): nat {
    if j % 2 == 0 then j + 1 else j - 1
  }

  lemma MateSwaps(p: Persist, j: nat)
    requires j < 2 * |p.batch.matches|
    ensures Mate(j) < 2 * |p.batch.matches| && Target(p, Mate(j)) == Partner(p, j)
    ensures Partner(p, Mate(j)) == Target(p, j)
  {
    assert Mate(j) / 2 == j / 2;
  }

  lemma SameBatchSamePartner(p: Persist, j: nat, l: nat)
    requires T.IdsDisjoint(p.batch.matches) && j < 2 * |p.batch.matches| && l < 2 * |p.batch.matches|
    ensures Target(p, j) != Partner(p, j)
    ensures Target(p, j) == Target(p, l) ==> Partner(p, j) == Partner(p, l)
  {
    var ms, id := p.batch.matches, Target(p, j);
    if Target(p, l) == id {
      assert T.Mentions(ms[j / 2], id) && T.Mentions(ms[l / 2], id);
      assert j / 2 == l / 2;
    }
  }

  lemma PersistMatches(cfg: Config, com: State, p: Persist, j: nat)
    requires Inv(cfg, com) && PersistOk(com, p) && j < 2 * |p.batch.matches|
    ensures T.IdsDisjoint(p.batch.matches) && Target(p, j) in com.sessions[p.batch.sessionId].intents
  {
    assert SessionOk(cfg, p.batch.sessionId, com.sessions[p.batch.sessionId]);
    hide Quorum, NoDecrypted, NoRepeats, RoundsOk, StartedOk, OneOpen, OrderOk, T.IdsDisjoint;
  }

  lemma PartnerDiffers(cfg: Config, com: State, p: Persist, j: nat)
    requires Inv(cfg, com) && PersistOk(com, p) && j < 2 * |p.batch.matches|
    ensures Target(p, j) != Partner(p, j)
  {
    PersistMatches(cfg, com, p, j);
    SameBatchSamePartner(p, j, j);
    hide *;
  }

  /** An id that is in one session only has the same partner in every update of every batch. */
  lemma PartnerUnique(cfg: Config, com: State, p: Persist, j: nat, q: Persist, l: nat)
    requires Inv(cfg, com) && PersistOk(com, p) && PersistOk(com, q)
    requires j < 2 * |p.batch.matches| && l < 2 * |q.batch.matches| && Owned(com, Target(p, j))
    ensures Target(p, j) == Target(q, l) ==> Partner(p, j) == Partner(q, l)
  {
    PersistMatches(cfg, com, p, j);
    PersistMatches(cfg, com, q, l);
    hide Inv, T.IdsDisjoint, UpdateTarget, UpdatePartner;
    if Target(p, j) == Target(q, l) {
      assert p.batch.sessionId == q.batch.sessionId;
      SameBatchSamePartner(p, j, l);
    }
  }

  // ---- Steps ----

  lemma PersistOkStays(cfg: Config, com: State, com': State, p: Persist)
    requires Inv(cfg, com) && Frozen(com, com') && PersistOk(com, p)
    ensures PersistOk(com', p)
  {
    hide Inv, Frozen;
    SignedStays(cfg, com, com', p.batch.sessionId);
  }

  /** Rows may be added or get another session; what was matched stays as it is. */
  ghost predicate MatchedSame(db: Db, db': Db) {
    && (forall a :: a in db.mpc ==> a in db'.mpc && db'.mpc[a].matchedWith == db.mpc[a].matchedWith)
    && forall a :: a in db'.mpc && a !in db.mpc ==> db'.mpc[a].matchedWith.None?
  }

  lemma OtherStepsLeaveMatched(w: World, step: WStep)
    requires PollCan(w, step) && HandlerCan(w, step) && !step.PersistUpdate?
    ensures MatchedSame(w.db, DbAfter(w, step))
  {
    Untouched(w, step);
    if step.Upsert? {
      assert DbAfter(w, step) == UpsertMpc(w.db, step.id, step.sid);
    }
    hide DbAfter, PollCan, HandlerCan;
  }

  /** The calls so far have written what they had written; calls may be added. */
  ghost predicate SameWrites(calls: seq<Persist>, calls': seq<Persist>) {
    && |calls| <= |calls'|
    && (forall k :: 0 <= k < |calls| ==>
          && calls'[k].batch == calls[k].batch && calls'[k].done == calls[k].done
          && calls'[k].rowsPresent == calls[k].rowsPresent)
    && forall k :: |calls| <= k < |calls'| ==> calls'[k].done == 0
  }

  lemma OtherStepsLeaveWrites(w: World, step: WStep)
    requires HandlerCan(w, step) && !step.PersistUpdate?
    ensures SameWrites(w.persists, PersistsAfter(w, step))
  {
  }

  lemma SameWrote(p: Persist, q: Persist, j: nat, a: IntentId, b: IntentId)
    requires q.batch == p.batch && q.done == p.done
    ensures Wrote(p, j, a, b) <==> Wrote(q, j, a, b)
  {
  }

  lemma MoreCalls(calls: seq<Persist>, calls': seq<Persist>, x: IntentId, y: IntentId)
    requires SameWrites(calls, calls') && SomeoneWrote(calls, x, y)
    ensures SomeoneWrote(calls', x, y)
  {
    hide Wrote;
    var k, j :| 0 <= k < |calls| && Wrote(calls[k], j, x, y);
    SameWrote(calls[k], calls'[k], j, x, y);
  }

  lemma OthersKeepWritten(w: World, w': World)
    requires WrittenOk(w) && MatchedSame(w.db, w'.db) && SameWrites(w.persists, w'.persists)
    ensures WrittenOk(w')
  {
    hide SameWrites, SomeoneWrote;
    forall a | a in w'.db.mpc && w'.db.mpc[a].matchedWith.Some?
      ensures w'.db.mpc[a].matchedWith.value in w'.db.mpc
      ensures SomeoneWrote(w'.persists, a, w'.db.mpc[a].matchedWith.value)
    {
      MoreCalls(w.persists, w'.persists, a, w.db.mpc[a].matchedWith.value);
    }
  }

  lemma OthersKeepApplied(w: World, w': World, a: IntentId)
    requires AppliedOk(w, a) && MatchedSame(w.db, w'.db) && SameWrites(w.persists, w'.persists)
    ensures AppliedOk(w', a)
  {
    forall k, j, b | 0 <= k < |w'.persists| && w'.persists[k].rowsPresent && Wrote(w'.persists[k], j, a, b)
      ensures Recorded(w'.db, a, b)
    {
      SameWrote(w.persists[k], w'.persists[k], j, a, b);
      assert Recorded(w.db, a, b);
    }
  }

  lemma UpdateKeepsWritten(w: World, k: nat)
    requires WrittenOk(w) && HandlerCan(w, PersistUpdate(k))
    ensures WrittenOk(w.(db := MarkNext(w.db, w.persists[k]),
            persists := w.persists[k := PersistAfter(w.db, w.persists[k])]))
  {
    var p := w.persists[k];
    var db', p' := MarkNext(w.db, p), PersistAfter(w.db, p);
    var calls := w.persists[k := p'];
    forall a | a in db'.mpc && db'.mpc[a].matchedWith.Some?
      ensures db'.mpc[a].matchedWith.value in db'.mpc && SomeoneWrote(calls, a, db'.mpc[a].matchedWith.value)
    {
      var b := db'.mpc[a].matchedWith.value;
      if w.db.mpc[a].matchedWith == Some(b) {
        var c, j :| 0 <= c < |w.persists| && Wrote(w.persists[c], j, a, b);
        assert Wrote(calls[c], j, a, b);
      } else {
        assert Wrote(calls[k], p.done, a, b);
      }
    }
  }

  lemma UpdateKeepsEntry(cfg: Config, w: World, n: nat, k: nat, j: nat, a: IntentId, b: IntentId)
    requires Inv(cfg, w.com) && Owned(w.com, a) && PersistsOk(w) && AppliedOk(w, a) && HandlerCan(w, PersistUpdate(n))
    requires k < |w.persists| && j < 2 * |w.persists[k].batch.matches|
    requires var p := if k == n then PersistAfter(w.db, w.persists[n])
             else w.persists[k]; p.rowsPresent && Wrote(p, j, a, b)
    ensures Recorded(MarkNext(w.db, w.persists[n]), a, b)
  {
    var p := w.persists[n];
    assert PersistOk(w.com, p) && PersistOk(w.com, w.persists[k]);
    PartnerUnique(cfg, w.com, w.persists[k], j, p, p.done);
    hide Inv, Owned, UpdateTarget, UpdatePartner, PersistOk;
    if k != n || j < p.done {
      assert Wrote(w.persists[k], j, a, b);
      assert Recorded(w.db, a, b);
    }
  }

  lemma UpdateKeepsApplied(cfg: Config, w: World, n: nat, a: IntentId)
    requires Inv(cfg, w.com) && Owned(w.com, a) && PersistsOk(w) && AppliedOk(w, a) && HandlerCan(w, PersistUpdate(n))
    ensures AppliedOk(w.(db := MarkNext(w.db, w.persists[n]),
            persists := w.persists[n := PersistAfter(w.db, w.persists[n])]), a)
  {
    var w' := w.(db := MarkNext(w.db, w.persists[n]), persists := w.persists[n := PersistAfter(w.db, w.persists[n])]);
    hide Inv, Owned, MarkNext;
    forall k, j, b | 0 <= k < |w'.persists| && w'.persists[k].rowsPresent && Wrote(w'.persists[k], j, a, b)
      ensures Recorded(w'.db, a, b)
    {
      UpdateKeepsEntry(cfg, w, n, k, j, a, b);
    }
  }

  lemma StepKeepsWritten(cfg: Config, w: World, step: WStep)
    requires ValidConfig(cfg) && CanDo(cfg, w, step) && PipelineOk(cfg, w) && PersistsOk(w) && WrittenOk(w)
    ensures PersistsOk(After(cfg, w, step)) && WrittenOk(After(cfg, w, step))
  {
    var w' := After(cfg, w, step);
    StepKeepsPipeline(cfg, w, step);
    assert Inv(cfg, w.com) && Frozen(w.com, w'.com) && HandlerCan(w, step);
    assert w'.db == DbAfter(w, step) && w'.persists == PersistsAfter(w, step);
    PersistsStay(cfg, w, step, w');
    if step.PersistUpdate? {
      UpdateKeepsWritten(w, step.k);
      assert w'.db == MarkNext(w.db, w.persists[step.k]);
    } else {
      OtherStepsLeaveMatched(w, step);
      OtherStepsLeaveWrites(w, step);
      OthersKeepWritten(w, w');
    }
    hide *;
  }

  lemma StepKeepsApplied(cfg: Config, w: World, step: WStep, a: IntentId)
    requires CanDo(cfg, w, step) && PipelineOk(cfg, w) && PersistsOk(w) && AppliedOk(w, a) && Owned(w.com, a)
    ensures AppliedOk(After(cfg, w, step), a)
  {
    var w' := After(cfg, w, step);
    assert Inv(cfg, w.com) && HandlerCan(w, step) && PollCan(w, step);
    assert w'.db == DbAfter(w, step) && w'.persists == PersistsAfter(w, step);
    if step.PersistUpdate? {
      UpdateKeepsApplied(cfg, w, step.k, a);
      assert w'.db == MarkNext(w.db, w.persists[step.k]);
    } else {
      OtherStepsLeaveMatched(w, step);
      OtherStepsLeaveWrites(w, step);
      OthersKeepApplied(w, w', a);
    }
    hide *;
  }

  lemma BatchNamesSession(cfg: Config, com: State, sid: SessionId)
    requires Inv(cfg, com) && sid in com.sessions && com.sessions[sid].signedBatch.Some?
    ensures com.sessions[sid].signedBatch.value.sessionId == sid
  {
    assert SessionOk(cfg, sid, com.sessions[sid]);
    hide Quorum, NoDecrypted, NoRepeats, RoundsOk, StartedOk, OneOpen, OrderOk, MatchesOk;
  }

  lemma PersistsStay(cfg: Config, w: World, step: WStep, w': World)
    requires Inv(cfg, w.com) && Frozen(w.com, w'.com) && PersistsOk(w) && HandlerCan(w, step)
    requires w'.persists == PersistsAfter(w, step)
    ensures PersistsOk(w')
  {
    hide Inv, Frozen, MarkMatched, InsertBatch, UpdateTarget, UpdatePartner;
    forall k | 0 <= k < |w'.persists|
      ensures PersistOk(w'.com, w'.persists[k])
    {
      if k < |w.persists| {
        assert PersistOk(w.com, w.persists[k]);
        PersistOkStays(cfg, w.com, w'.com, w.persists[k]);
      } else {
        BatchNamesSession(cfg, w.com, step.sid);
        SignedStays(cfg, w.com, w'.com, step.sid);
      }
    }
  }

  // ---- Runs ----

  ghost predicate StoresOk(w: World) {
    PersistsOk(w) && WrittenOk(w)
  }

  lemma {:induction false} RunWritten(cfg: Config, worlds: seq<World>, steps: seq<WStep>, i: nat)
    requires ValidConfig(cfg) && IsWorldRun(cfg, worlds, steps) && i < |worlds|
    ensures StoresOk(worlds[i])
    decreases i
  {
    assert worlds[0] == InitWorld() && |worlds| == |steps| + 1 && StoresOk(InitWorld());
    if i > 0 {
      RunWritten(cfg, worlds, steps, i - 1);
      WorldRunInv(cfg, worlds, steps, i - 1);
      assert PersistsOk(worlds[i - 1]) && WrittenOk(worlds[i - 1]) && PipelineOk(cfg, worlds[i - 1]);
      hide IsWorldRun, ValidConfig, WorldInv, PersistsOk, WrittenOk, PipelineOk, After, CanDo;
      WorldRunStep(cfg, worlds, steps, i - 1);
      StepKeepsWritten(cfg, worlds[i - 1], steps[i - 1]);
    }
  }

  /** The id is not submitted to the committee again once its session has closed. */
  ghost predicate StaysPut(worlds: seq<World>, steps: seq<WStep>, id: IntentId) {
    && |worlds| == |steps| + 1
    && forall i :: 0 <= i < |steps| && CommitteeStep(steps[i]).Some? ==>
         !Reenters(worlds[i].com, CommitteeStep(steps[i]).value, id)
  }

  lemma StepKeepsOwned(cfg: Config, w: World, step: WStep, id: IntentId)
    requires CanDo(cfg, w, step) && Owned(w.com, id)
    requires CommitteeStep(step).Some? ==> !Reenters(w.com, CommitteeStep(step).value, id)
    ensures Owned(After(cfg, w, step).com, id)
  {
    hide Owned, Reenters, Next, CanStep, DbAfter, PollsAfter, PersistsAfter;
    if CommitteeStep(step).Some? {
      StepOwned(cfg, w.com, CommitteeStep(step).value, id);
    }
  }

  lemma StorageStep(cfg: Config, worlds: seq<World>, steps: seq<WStep>, i: nat, id: IntentId)
    requires ValidConfig(cfg) && IsWorldRun(cfg, worlds, steps) && StaysPut(worlds, steps, id) && i < |steps|
    requires |worlds| == |steps| + 1 && AppliedOk(worlds[i], id) && Owned(worlds[i].com, id)
    ensures AppliedOk(worlds[i + 1], id) && Owned(worlds[i + 1].com, id)
  {
    assert CommitteeStep(steps[i]).Some? ==> !Reenters(worlds[i].com, CommitteeStep(steps[i]).value, id);
    WorldRunInv(cfg, worlds, steps, i);
    RunWritten(cfg, worlds, steps, i);
    assert PipelineOk(cfg, worlds[i]) && PersistsOk(worlds[i]);
    hide *;
    WorldRunStep(cfg, worlds, steps, i);
    StepKeepsOwned(cfg, worlds[i], steps[i], id);
    StepKeepsApplied(cfg, worlds[i], steps[i], id);
  }

  lemma InitStorage(id: IntentId)
    ensures AppliedOk(InitWorld(), id) && Owned(InitWorld().com, id)
  {
  }

  lemma {:induction false} RunStorage(cfg: Config, worlds: seq<World>, steps: seq<WStep>, i: nat, id: IntentId)
    requires ValidConfig(cfg) && IsWorldRun(cfg, worlds, steps) && StaysPut(worlds, steps, id) && i < |worlds|
    ensures AppliedOk(worlds[i], id) && Owned(worlds[i].com, id)
    decreases i
  {
    assert worlds[0] == InitWorld() && |worlds| == |steps| + 1;
    hide *;
    if i == 0 {
      InitStorage(id);
    } else {
      RunStorage(cfg, worlds, steps, i - 1, id);
      StorageStep(cfg, worlds, steps, i - 1, id);
    }
  }

  /** Every persist call has made all its updates and found all their rows. */
  ghost predicate AllPersisted(w: World) {
    forall k :: 0 <= k < |w.persists| ==>
      w.persists[k].rowsPresent && w.persists[k].done == 2 * |w.persists[k].batch.matches|
  }

  lemma PairedBack(cfg: Config, w: World, a: IntentId, b: IntentId)
    requires Inv(cfg, w.com) && Owned(w.com, b) && StoresOk(w) && AppliedOk(w, b) && Recorded(w.db, a, b)
    ensures a != b && b in w.db.mpc
    ensures w.db.mpc[b].matchedWith.None? || w.db.mpc[b].matchedWith == Some(a)
    ensures AllPersisted(w) ==> w.db.mpc[b].matchedWith == Some(a)
  {
    var k, j :| 0 <= k < |w.persists| && Wrote(w.persists[k], j, a, b);
    var p := w.persists[k];
    assert PersistOk(w.com, p);
    MateSwaps(p, j);
    PartnerDiffers(cfg, w.com, p, j);
    hide Inv, Owned, UpdateTarget, UpdatePartner;
    if AllPersisted(w) {
      assert Wrote(p, Mate(j), b, a);
      assert Recorded(w.db, b, a);
    }
    if w.db.mpc[b].matchedWith.Some? {
      var c := w.db.mpc[b].matchedWith.value;
      assert SomeoneWrote(w.persists, b, c);
      var l, m :| 0 <= l < |w.persists| && Wrote(w.persists[l], m, b, c);
      assert PersistOk(w.com, w.persists[l]);
      PartnerUnique(cfg, w.com, w.persists[l], m, p, Mate(j));
    }
  }

  /**
   `matched_with` never pairs an intent with itself and never contradicts a
   partner that stays put, in any state of any run; once every persist call is
   through and met its rows, it is an involution over all batches.
   */
  lemma MatchedWithIsInvolution(cfg: Config, worlds: seq<World>, steps: seq<WStep>, t: nat, a: IntentId, b: IntentId)
    requires ValidConfig(cfg) && IsWorldRun(cfg, worlds, steps) && StaysPut(worlds, steps, b) && t < |worlds|
    requires Recorded(worlds[t].db, a, b)
    ensures a != b && b in worlds[t].db.mpc
    ensures worlds[t].db.mpc[b].matchedWith.None? || worlds[t].db.mpc[b].matchedWith == Some(a)
    ensures AllPersisted(worlds[t]) ==> worlds[t].db.mpc[b].matchedWith == Some(a)
  {
    RunStorage(cfg, worlds, steps, t, b);
    RunWritten(cfg, worlds, steps, t);
    WorldRunInv(cfg, worlds, steps, t);
    assert Inv(cfg, worlds[t].com);
    hide *;
    PairedBack(cfg, worlds[t], a, b);
  }

  /**
   A call that is through and met its rows has recorded each match of ids that stay put in
   both directions, for good.
   */
  lemma PersistedInFull(cfg: Config, worlds: seq<World>, steps: seq<WStep>, t: nat, k: nat, i: nat)
    requires ValidConfig(cfg) && IsWorldRun(cfg, worlds, steps) && t < |worlds|
    requires k < |worlds[t].persists| && worlds[t].persists[k].rowsPresent
    requires i < |worlds[t].persists[k].batch.matches|
    requires worlds[t].persists[k].done == 2 * |worlds[t].persists[k].batch.matches|
    requires StaysPut(worlds, steps, worlds[t].persists[k].batch.matches[i].aId)
    requires StaysPut(worlds, steps, worlds[t].persists[k].batch.matches[i].bId)
    ensures var m := worlds[t].persists[k].batch.matches[i];
            Recorded(worlds[t].db, m.aId, m.bId) && Recorded(worlds[t].db, m.bId, m.aId)
  {
    var p := worlds[t].persists[k];
    var m := p.batch.matches[i];
    RunStorage(cfg, worlds, steps, t, m.aId);
    RunStorage(cfg, worlds, steps, t, m.bId);
    hide ValidConfig, IsWorldRun, StaysPut, Owned;
    assert Wrote(p, 2 * i, m.aId, m.bId) && Wrote(p, 2 * i + 1, m.bId, m.aId);
  }

  // ---- Every call has stored its batch ----

  ghost predicate BatchesStored(w: World) {
    forall k :: 0 <= k < |w.persists| ==> w.persists[k].batch.batchId in w.db.batches
  }

  lemma StepStores(w: World, step: WStep, w': World)
    requires PollCan(w, step) && HandlerCan(w, step) && BatchesStored(w)
    requires w'.db == DbAfter(w, step) && w'.persists == PersistsAfter(w, step)
    ensures BatchesStored(w')
  {
    StepGrows(w, step);
    if step.PersistStart? {
      assert w'.db == BeginPersist(w.db, w.com.sessions[step.sid].signedBatch.value);
    }
    hide DbAfter, MpcGrows, IntentsGrow, FillsGrow, SessionsGrow, MarkMatched, UpdateTarget, UpdatePartner;
  }

  /** In every run, a persist call that goes on has its batch in the table: the first insert did not fail. */
  lemma {:induction false} CallsHaveBatches(cfg: Config, worlds: seq<World>, steps: seq<WStep>, t: nat)
    requires IsWorldRun(cfg, worlds, steps) && t < |worlds|
    ensures BatchesStored(worlds[t])
    decreases t
  {
    assert |worlds| == |steps| + 1 && worlds[0].persists == [];
    hide IsWorldRun;
    if t > 0 {
      CallsHaveBatches(cfg, worlds, steps, t - 1);
      WorldRunStep(cfg, worlds, steps, t - 1);
      hide DbAfter, ComAfter, PollsAfter, PersistsAfter, BatchesStored, CanStep;
      StepStores(worlds[t - 1], steps[t - 1], worlds[t]);
    }
  }

  // ---- Jobs ----

  lemma JobOrigin(cfg: Config, w: World, k: nat)
    requires PipelineOk(cfg, w) && JobsOk(w.db) && k < |w.db.jobs|
    ensures var j := w.db.jobs[k];
            && j.batchId in w.db.batches && BatchFrom(w.com, j.batchId, w.db.batches[j.batchId])
            && T.IdsDisjoint(w.db.batches[j.batchId].matches) && j.index < |w.db.batches[j.batchId].matches|
            && (forall id :: JobMentions(j, id) ==> T.Mentions(w.db.batches[j.batchId].matches[j.index], id))
            && (forall id :: JobMentions(j, id) ==> id in w.com.sessions[w.db.batches[j.batchId].sessionId].intents)
  {
    var j := w.db.jobs[k];
    assert JobOk(w.db, j);
    var row := w.db.batches[j.batchId];
    assert BatchFrom(w.com, j.batchId, row);
    assert SessionOk(cfg, row.sessionId, w.com.sessions[row.sessionId]);
    hide Quorum, NoDecrypted, NoRepeats, RoundsOk, StartedOk, OneOpen, OrderOk, BatchesFrom, T.IdsDisjoint;
  }

  /** An id that stays put is in at most one settlement job of any run. */
  lemma OneJobPerId(cfg: Config, worlds: seq<World>, steps: seq<WStep>, t: nat, k: nat, l: nat, id: IntentId)
    requires ValidConfig(cfg) && IsWorldRun(cfg, worlds, steps) && StaysPut(worlds, steps, id) && t < |worlds|
    requires k < |worlds[t].db.jobs| && l < |worlds[t].db.jobs|
    requires JobMentions(worlds[t].db.jobs[k], id) && JobMentions(worlds[t].db.jobs[l], id)
    ensures k == l
  {
    WorldRunInv(cfg, worlds, steps, t);
    RunStorage(cfg, worlds, steps, t, id);
    assert PipelineOk(cfg, worlds[t]) && JobsOk(worlds[t].db);
    hide ValidConfig, IsWorldRun, StaysPut, WorldInv, PipelineOk, AppliedOk, JobMentions, T.Mentions;
    SameJob(cfg, worlds[t], k, l, id);
  }

  lemma SameJob(cfg: Config, w: World, k: nat, l: nat, id: IntentId)
    requires PipelineOk(cfg, w) && JobsOk(w.db) && Owned(w.com, id) && k < |w.db.jobs| && l < |w.db.jobs|
    requires JobMentions(w.db.jobs[k], id) && JobMentions(w.db.jobs[l], id)
    ensures k == l
  {
    JobOrigin(cfg, w, k);
    JobOrigin(cfg, w, l);
    var a, b := w.db.jobs[k], w.db.jobs[l];
    hide PipelineOk, JobMentions, T.Mentions;
    assert w.db.batches[a.batchId].sessionId == w.db.batches[b.batchId].sessionId;
    assert a.batchId == b.batchId;
    assert a.index == b.index;
    assert JobOk(w.db, a) && JobOk(w.db, b);
  }
}
