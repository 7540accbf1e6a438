/**
 The references between the tables that db/migrations declares hold in every
 state of every run: a statement that would break one changes nothing.
 */
module Integrity {
  import opened Session
  import opened Tables
  import opened Settlement
  import opened SettlementProofs
  import opened SettlementTheorems
  import opened Storage
  import opened Admission

  ghost predicate LinksRefer(db: Db) {
    forall h :: h in db.intents && db.intents[h].mpcSession.Some? ==> db.intents[h].mpcSession.value in db.sessions
  }

  ghost predicate MpcRowsRefer(db: Db) {
    forall id :: id in db.mpc ==>
      db.mpc[id].session in db.sessions && (db.mpc[id].matchedWith.Some? ==> db.mpc[id].matchedWith.value in db.mpc)
  }

  ghost predicate BatchesRefer(db: Db) {
    && (forall b :: b in db.batches ==> db.batches[b].sessionId in db.sessions)
    && forall s :: s in db.signatures ==> s.0 in db.batches
  }

  /** A quote is of an intent; an acceptance and a fill are of a quote, the acceptance of the same intent. */
  ghost predicate QuotesRefer(db: Db) {
    && (forall q :: q in db.quotes ==> db.quotes[q].intentHash in db.intents)
    && (forall q :: q in db.acceptances ==> q in db.quotes && db.acceptances[q] == db.quotes[q].intentHash)
    && forall k :: 0 <= k < |db.fills| ==> db.fills[k].quoteId in db.quotes
  }

  ghost predicate SettlementsRefer(db: Db) {
    forall s :: s in db.settlements ==> s.intentHash in db.intents && s.quoteId in db.quotes
  }

  ghost predicate ReferencesHold(db: Db) {
    LinksRefer(db) && MpcRowsRefer(db) && BatchesRefer(db) && QuotesRefer(db) && SettlementsRefer(db)
  }

  // ---- One step ----

  lemma StepKeepsLinks(w: World, step: WStep)
    requires PollCan(w, step) && HandlerCan(w, step) && LinksRefer(w.db)
    ensures LinksRefer(DbAfter(w, step))
  {
    Untouched(w, step);
    StepGrows(w, step);
    if step.Post? {
      assert DbAfter(w, step) == InsertIntent(w.db, step.h, step.key, step.user);
    } else if step.Link? {
      assert DbAfter(w, step) == LinkSession(w.db, step.h, step.sid);
    }
    hide DbAfter, MpcGrows, BatchesGrow, FillsGrow, KeyTaken;
  }

  lemma StepKeepsMpcRows(w: World, step: WStep)
    requires PollCan(w, step) && HandlerCan(w, step) && MpcRowsRefer(w.db)
    ensures MpcRowsRefer(DbAfter(w, step))
  {
    Untouched(w, step);
    StepGrows(w, step);
    if step.Upsert? {
      assert DbAfter(w, step) == UpsertMpc(w.db, step.id, step.sid);
    } else if step.PersistUpdate? {
      assert DbAfter(w, step) == MarkNext(w.db, w.persists[step.k]);
    }
    hide DbAfter, IntentsGrow, BatchesGrow, FillsGrow, UpdateTarget, UpdatePartner;
  }

  lemma SignaturesFrame(w: World, step: WStep)
    requires PollCan(w, step) && HandlerCan(w, step) && !step.PersistSign?
    ensures DbAfter(w, step).signatures == w.db.signatures
  {
    hide UpdateTarget, UpdatePartner, Admits, KeyTaken, QuoteHashTaken, Owns, FillKnown, KeyQueued;
  }

  lemma StepKeepsBatches(w: World, step: WStep)
    requires PollCan(w, step) && HandlerCan(w, step) && BatchesRefer(w.db) && BatchesStored(w)
    ensures BatchesRefer(DbAfter(w, step))
  {
    Untouched(w, step);
    StepGrows(w, step);
    if step.PersistSign? {
      assert DbAfter(w, step).signatures ==
             w.db.signatures + {(w.persists[step.k].batch.batchId,
               w.persists[step.k].batch.signers[w.persists[step.k].signed])};
    } else {
      SignaturesFrame(w, step);
    }
    if step.PersistStart? {
      assert DbAfter(w, step) == BeginPersist(w.db, w.com.sessions[step.sid].signedBatch.value);
    } else if step.PollFinish? {
      assert DbAfter(w, step).batches.Keys == w.db.batches.Keys;
    }
    hide DbAfter, IntentsGrow, MpcGrows, FillsGrow;
  }

  lemma StepKeepsAcceptances(w: World, step: WStep)
    requires PollCan(w, step) && HandlerCan(w, step) && QuotesRefer(w.db)
    ensures forall q :: q in DbAfter(w, step).acceptances ==>
              q in DbAfter(w, step).quotes && DbAfter(w, step).acceptances[q] == DbAfter(w, step).quotes[q].intentHash
  {
    Untouched(w, step);
    StepGrows(w, step);
    if step.Accept? {
      assert DbAfter(w, step) == AcceptQuote(w.db, step.q, step.h, step.user);
    }
    hide DbAfter, IntentsGrow, MpcGrows, FillsGrow, BatchesGrow, SessionsGrow, Owns;
  }

  // ---- Runs ----

  lemma SettlementsReferInRuns(cfg: Config, worlds: seq<World>, steps: seq<WStep>, t: nat)
    requires ValidConfig(cfg) && IsWorldRun(cfg, worlds, steps) && t < |worlds|
    ensures SettlementsRefer(worlds[t].db)
  {
    hide ValidConfig, IsWorldRun;
    forall s | s in worlds[t].db.settlements
      ensures s.intentHash in worlds[t].db.intents && s.quoteId in worlds[t].db.quotes
    {
      RfqAdmission(cfg, worlds, steps, t, s);
    }
  }

  /** In every state of every run, every reference from one table to another finds its row. */
  lemma {:induction false} RunsKeepReferences(cfg: Config, worlds: seq<World>, steps: seq<WStep>, t: nat)
    requires ValidConfig(cfg) && IsWorldRun(cfg, worlds, steps) && t < |worlds|
    ensures ReferencesHold(worlds[t].db)
    decreases t
  {
    assert |worlds| == |steps| + 1 && worlds[0].db == EmptyDb();
    hide ValidConfig, IsWorldRun, After, CanDo, SettlementsRefer, DbAfter, PollCan, HandlerCan;
    SettlementsReferInRuns(cfg, worlds, steps, t);
    if t > 0 {
      RunsKeepReferences(cfg, worlds, steps, t - 1);
      WorldRunStep(cfg, worlds, steps, t - 1);
      DbOfStep(cfg, worlds[t - 1], steps[t - 1]);
      StepKeepsReferences(cfg, worlds, steps, t - 1);
    }
  }

  lemma StepKeepsReferences(cfg: Config, worlds: seq<World>, steps: seq<WStep>, t: nat)
    requires IsWorldRun(cfg, worlds, steps) && t < |steps| && |worlds| == |steps| + 1
    requires PollCan(worlds[t], steps[t]) && HandlerCan(worlds[t], steps[t])
    requires worlds[t + 1].db == DbAfter(worlds[t], steps[t])
    requires ReferencesHold(worlds[t].db)
    ensures var db := worlds[t + 1].db; LinksRefer(db) && MpcRowsRefer(db) && BatchesRefer(db) && QuotesRefer(db)
  {
    hide IsWorldRun, DbAfter, PollCan, HandlerCan, LinksRefer, MpcRowsRefer, BatchesRefer, BatchesStored, FillAsked;
    hide SettlementsRefer;
    CallsHaveBatches(cfg, worlds, steps, t);
    QuotesBelong(cfg, worlds, steps, t + 1);
    FillsBelong(cfg, worlds, steps, t + 1);
    FillsRefer(worlds[t + 1].db, steps, t + 1);
    hide FillsOk;
    StepKeepsLinks(worlds[t], steps[t]);
    StepKeepsMpcRows(worlds[t], steps[t]);
    StepKeepsBatches(worlds[t], steps[t]);
    StepKeepsAcceptances(worlds[t], steps[t]);
  }

  lemma FillsRefer(db: Db, steps: seq<WStep>, t: nat)
    requires FillsOk(db, steps, t)
    ensures forall k :: 0 <= k < |db.fills| ==> db.fills[k].quoteId in db.quotes
  {
    forall k | 0 <= k < |db.fills|
      ensures db.fills[k].quoteId in db.quotes
    {
      assert FillAsked(db, db.fills[k], steps, t);
    }
  }
}
