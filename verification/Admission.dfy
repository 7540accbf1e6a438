/**
 What the RFQ handlers ask for, said of the rows and the request themselves, and
 what follows over whole runs: who owns an intent, that fills are executed only
 on request, and that the MPC gate closes once an intent is linked
 (apps/api/src/routes.ts, apps/api/src/db.ts).
 */
module Admission {
  import opened Collections
  import opened Session
  import opened Tables
  import opened Runs
  import opened Settlement
  import opened SettlementProofs
  import opened RfqProofs
  import opened SettlementTheorems

  // ---- One request ----

  /** Position `k` holds the newest fill of the quote: no later one is of that quote. */
  predicate NewestAt(fills: seq<Fill>, q: QuoteId, k: nat) {
    k < |fills| && fills[k].quoteId == q && forall l :: k < l < |fills| ==> fills[l].quoteId != q
  }

  lemma {:induction false} LatestFillExactly(fills: seq<Fill>, q: QuoteId)
    ensures LatestFill(fills, q).None? <==> forall k :: 0 <= k < |fills| ==> fills[k].quoteId != q
    ensures forall k: nat :: NewestAt(fills, q, k) ==> LatestFill(fills, q) == Some(fills[k])
    ensures LatestFill(fills, q).Some? ==> exists k: nat :: NewestAt(fills, q, k)
  {
    if fills != [] {
      var n := |fills| - 1;
      var front := fills[..n];
      LatestFillExactly(front, q);
      if fills[n].quoteId == q {
        assert NewestAt(fills, q, n);
      } else {
        assert forall k: nat :: NewestAt(fills, q, k) <==> NewestAt(front, q, k);
      }
    }
  }

  /**
   The request in its own terms: the caller owns the intent, the quote is one of
   it and accepted, its newest fill is executed and is the one of the receipt, the
   fill named exists, the proof is ready, the nullifier unspent, and an intent
   with a session has its match.
   */
  ghost predicate Qualifies(db: Db, r: SettleRequest) {
    var h, q := r.id.intentHash, r.id.quoteId;
    && h in db.intents && (db.intents[h].user == "" || db.intents[h].user == r.user)
    && q in db.quotes && db.quotes[q].intentHash == h && q in db.acceptances
    && (exists k: nat :: NewestAt(db.fills, q, k) && db.fills[k].executed
          && (r.receipt == None || r.receipt == Some("") || r.receipt == Some(db.fills[k].receipt)))
    && r.proofReady && !r.spent
    && (db.intents[h].mpcSession == None || db.intents[h].mpcSession == Some("")
        || (h in db.mpc && db.mpc[h].matchedWith.Some?))
  }

  ghost predicate FillExists(db: Db, r: SettleRequest) {
    r.fillId == None || exists k :: 0 <= k < |db.fills| && Some(db.fills[k].fillId) == r.fillId
  }

  lemma AdmitsExactly(db: Db, r: SettleRequest)
    ensures Admits(db, r) <==> Qualifies(db, r)
  {
    LatestFillExactly(db.fills, r.id.quoteId);
    var latest := LatestFill(db.fills, r.id.quoteId);
    if latest.Some? {
      var k: nat :| NewestAt(db.fills, r.id.quoteId, k);
      assert latest == Some(db.fills[k]);
      assert forall l: nat :: NewestAt(db.fills, r.id.quoteId, l) ==> l == k;
    }
    hide LatestFill, NewestAt;
  }

  /**
   A settlement is recorded, for the caller and with the session it went through,
   if and only if the request qualifies and its fill exists; nothing else changes.
   */
  lemma SettlesExactly(db: Db, r: SettleRequest)
    ensures !(Qualifies(db, r) && FillExists(db, r)) ==> SettleRfq(db, r) == db
    ensures Qualifies(db, r) && FillExists(db, r) ==>
              var db' := SettleRfq(db, r);
              && r.id in db'.settlements && db'.settlements[r.id].user == r.user
              && (db'.settlements[r.id].viaMpc <==>
                    || (db.intents[r.id.intentHash].mpcSession != None
                      && db.intents[r.id.intentHash].mpcSession != Some(""))
                    || (r.id in db.settlements && db.settlements[r.id].viaMpc))
              && (forall s :: s in db.settlements && s != r.id ==>
                   s in db'.settlements && db'.settlements[s] == db.settlements[s])
              && db' == db.(settlements := db'.settlements)
  {
    AdmitsExactly(db, r);
    assert r.fillId.Some? ==> (FillKnown(db, r.fillId.value) <==> FillExists(db, r));
    hide Admits, NewestAt, FillKnown;
  }

  /** A quote is accepted if and only if the caller owns its intent, it is one of that intent and was not accepted. */
  lemma AcceptsExactly(db: Db, q: QuoteId, h: Hash, user: string)
    ensures AcceptQuote(db, q, h, user) ==
            if && h in db.intents && (db.intents[h].user == "" || db.intents[h].user == user)
               && q in db.quotes && db.quotes[q].intentHash == h && q !in db.acceptances
            then db.(acceptances := db.acceptances[q := h]) else db
  {
  }

  // ---- Runs: what a settle step needs ----

  lemma SettleStep(cfg: Config, worlds: seq<World>, steps: seq<WStep>, i: nat)
    requires IsWorldRun(cfg, worlds, steps) && i < |steps| && steps[i].Settle?
    ensures |worlds| == |steps| + 1 && worlds[i + 1].db == SettleRfq(worlds[i].db, steps[i].r)
  {
    hide IsWorldRun, SettleRfq;
    WorldRunStep(cfg, worlds, steps, i);
  }

  /** In every run, a step that changes the settlements is a request that qualifies at that moment. */
  lemma SettledQualified(cfg: Config, worlds: seq<World>, steps: seq<WStep>, i: nat)
    requires IsWorldRun(cfg, worlds, steps) && i < |steps| && |worlds| == |steps| + 1
    requires worlds[i + 1].db.settlements != worlds[i].db.settlements
    ensures steps[i].Settle? && Qualifies(worlds[i].db, steps[i].r) && FillExists(worlds[i].db, steps[i].r)
    ensures steps[i].r.proofReady && !steps[i].r.spent
  {
    WorldRunStep(cfg, worlds, steps, i);
    Untouched(worlds[i], steps[i]);
    hide IsWorldRun, DbAfter, Qualifies, FillExists, ComAfter, PersistsAfter, PollsAfter;
    if steps[i].Settle? {
      SettleStep(cfg, worlds, steps, i);
      SettlesExactly(worlds[i].db, steps[i].r);
      assert Qualifies(worlds[i].db, steps[i].r);
      QualifiedProof(worlds[i].db, steps[i].r);
    }
  }

  lemma QualifiedProof(db: Db, r: SettleRequest)
    requires Qualifies(db, r)
    ensures r.proofReady && !r.spent
  {
  }

  // ---- Runs: where an intent's row comes from ----

  /** Some earlier step posted this hash under this key for this user. */
  ghost predicate Posted(steps: seq<WStep>, t: nat, h: Hash, key: string, user: string) {
    exists i :: 0 <= i < t && i < |steps| && steps[i] == Post(h, key, user)
  }

  ghost predicate RowsPosted(db: Db, steps: seq<WStep>, t: nat) {
    forall h :: h in db.intents ==> Posted(steps, t, h, db.intents[h].idempotencyKey, db.intents[h].user)
  }

  lemma NewRow(w: World, step: WStep, h: Hash)
    requires PollCan(w, step) && HandlerCan(w, step) && h in DbAfter(w, step).intents
    ensures var row := DbAfter(w, step).intents[h];
            || (h in w.db.intents && row.idempotencyKey == w.db.intents[h].idempotencyKey
              && row.user == w.db.intents[h].user)
            || step == Post(h, row.idempotencyKey, row.user)
  {
    Untouched(w, step);
    hide KeyTaken;
  }

  lemma {:induction false} RunRowsPosted(cfg: Config, worlds: seq<World>, steps: seq<WStep>, t: nat)
    requires IsWorldRun(cfg, worlds, steps) && t < |worlds|
    ensures RowsPosted(worlds[t].db, steps, t)
    decreases t
  {
    assert |worlds| == |steps| + 1 && worlds[0].db.intents == map[];
    hide IsWorldRun, After, CanDo;
    if t > 0 {
      RunRowsPosted(cfg, worlds, steps, t - 1);
      WorldRunStep(cfg, worlds, steps, t - 1);
      DbOfStep(cfg, worlds[t - 1], steps[t - 1]);
      hide DbAfter, PollCan, HandlerCan;
      forall h | h in worlds[t].db.intents
        ensures Posted(steps, t, h, worlds[t].db.intents[h].idempotencyKey, worlds[t].db.intents[h].user)
      {
        NewRow(worlds[t - 1], steps[t - 1], h);
      }
    }
  }

  lemma DbOfStep(cfg: Config, w: World, step: WStep)
    requires CanDo(cfg, w, step)
    ensures PollCan(w, step) && HandlerCan(w, step) && After(cfg, w, step).db == DbAfter(w, step)
  {
    hide DbAfter, ComAfter, PersistsAfter, PollsAfter, PollCan, HandlerCan, CanStep;
  }

  /**
   In every run, a settled intent was posted by some user, and unless that user is
   nameless it is the one recorded with the settlement.
   */
  lemma OwnerSettles(cfg: Config, worlds: seq<World>, steps: seq<WStep>, t: nat, s: SettlementId)
    requires ValidConfig(cfg) && IsWorldRun(cfg, worlds, steps) && t < |worlds| && s in worlds[t].db.settlements
    ensures exists key, user :: Posted(steps, t, s.intentHash, key, user)
                                && (user == "" || worlds[t].db.settlements[s].user == user)
  {
    RfqAdmission(cfg, worlds, steps, t, s);
    RunRowsPosted(cfg, worlds, steps, t);
    hide ValidConfig, IsWorldRun, Posted, HasExecutedFill;
    var row := worlds[t].db.intents[s.intentHash];
    assert Posted(steps, t, s.intentHash, row.idempotencyKey, row.user);
  }

  // ---- Runs: executed fills ----

  ghost predicate FillsAsked(db: Db, steps: seq<WStep>, t: nat) {
    forall k :: 0 <= k < |db.fills| && db.fills[k].executed ==>
      exists i :: 0 <= i < t && i < |steps| && steps[i] == Execute(db.fills[k].fillId)
  }

  lemma NewFills(w: World, step: WStep, k: nat)
    requires PollCan(w, step) && HandlerCan(w, step) && k < |DbAfter(w, step).fills|
    requires DbAfter(w, step).fills[k].executed
    ensures var f := DbAfter(w, step).fills[k];
            (k < |w.db.fills| && w.db.fills[k].executed && f.fillId == w.db.fills[k].fillId)
              || step == Execute(f.fillId)
  {
    if !step.NewFill? && !step.Execute? {
      FillsFrame(w, step);
    }
    hide FillKnown;
  }

  lemma FillsFrame(w: World, step: WStep)
    requires PollCan(w, step) && HandlerCan(w, step) && !step.NewFill? && !step.Execute?
    ensures DbAfter(w, step).fills == w.db.fills
  {
    hide UpdateTarget, UpdatePartner, Admits, KeyTaken, QuoteHashTaken, Owns, FillKnown, KeyQueued;
  }

  /** In every run, a fill is executed only after a request to execute that fill. */
  lemma {:induction false} ExecutedOnRequest(cfg: Config, worlds: seq<World>, steps: seq<WStep>, t: nat)
    requires IsWorldRun(cfg, worlds, steps) && t < |worlds|
    ensures FillsAsked(worlds[t].db, steps, t)
    decreases t
  {
    assert |worlds| == |steps| + 1 && worlds[0].db.fills == [];
    hide IsWorldRun, After, CanDo;
    if t > 0 {
      ExecutedOnRequest(cfg, worlds, steps, t - 1);
      WorldRunStep(cfg, worlds, steps, t - 1);
      DbOfStep(cfg, worlds[t - 1], steps[t - 1]);
      hide DbAfter, PollCan, HandlerCan;
      forall k | 0 <= k < |worlds[t].db.fills| && worlds[t].db.fills[k].executed
        ensures exists i :: 0 <= i < t && i < |steps| && steps[i] == Execute(worlds[t].db.fills[k].fillId)
      {
        NewFills(worlds[t - 1], steps[t - 1], k);
        if steps[t - 1] != Execute(worlds[t].db.fills[k].fillId) {
          assert worlds[t - 1].db.fills[k].executed;
        }
      }
    }
  }

  // ---- Runs: where fills come from ----

  /** The fill is of a known quote and was asked for with this id, quote and receipt. */
  ghost predicate FillAsked(db: Db, f: Fill, steps: seq<WStep>, t: nat) {
    && f.quoteId in db.quotes
    && exists i :: 0 <= i < t && i < |steps| && steps[i] == NewFill(f.fillId, f.quoteId, f.receipt)
  }

  /** Fills have different ids, and each was asked for. */
  ghost predicate FillsOk(db: Db, steps: seq<WStep>, t: nat) {
    && (forall k :: 0 <= k < |db.fills| ==> FillAsked(db, db.fills[k], steps, t))
    && forall k, l :: 0 <= k < l < |db.fills| ==> db.fills[k].fillId != db.fills[l].fillId
  }

  /** A fill after a step was there before, under its number, or the step asked for it. */
  lemma FillsAfter(w: World, step: WStep, k: nat)
    requires PollCan(w, step) && HandlerCan(w, step) && k < |DbAfter(w, step).fills|
    ensures |DbAfter(w, step).fills| <= |w.db.fills| + 1
    ensures var f := DbAfter(w, step).fills[k];
            && (k < |w.db.fills| ==> f.fillId == w.db.fills[k].fillId && f.quoteId == w.db.fills[k].quoteId
                                     && f.receipt == w.db.fills[k].receipt)
            && (k == |w.db.fills| ==>
                  && step == NewFill(f.fillId, f.quoteId, f.receipt) && f.quoteId in w.db.quotes
                  && forall l :: 0 <= l < k ==> w.db.fills[l].fillId != f.fillId)
  {
    if !step.NewFill? && !step.Execute? {
      FillsFrame(w, step);
    }
  }

  /** In every run, fills have different ids, and each was asked for with its quote and receipt. */
  lemma {:induction false} FillsBelong(cfg: Config, worlds: seq<World>, steps: seq<WStep>, t: nat)
    requires IsWorldRun(cfg, worlds, steps) && t < |worlds|
    ensures FillsOk(worlds[t].db, steps, t)
    decreases t
  {
    assert |worlds| == |steps| + 1 && worlds[0].db.fills == [];
    hide IsWorldRun, After, CanDo;
    if t > 0 {
      FillsBelong(cfg, worlds, steps, t - 1);
      WorldRunStep(cfg, worlds, steps, t - 1);
      DbOfStep(cfg, worlds[t - 1], steps[t - 1]);
      StepGrows(worlds[t - 1], steps[t - 1]);
      hide DbAfter, PollCan, HandlerCan, MpcGrows, BatchesGrow, FillsGrow, SessionsGrow, IntentsGrow;
      var fills := worlds[t].db.fills;
      forall k | 0 <= k < |fills|
        ensures FillAsked(worlds[t].db, fills[k], steps, t)
        ensures forall l :: 0 <= l < k ==> fills[l].fillId != fills[k].fillId
      {
        FillsAfter(worlds[t - 1], steps[t - 1], k);
        if k < |worlds[t - 1].db.fills| {
          assert FillAsked(worlds[t - 1].db, worlds[t - 1].db.fills[k], steps, t - 1);
        }
        forall l | 0 <= l < k
          ensures fills[l].fillId != fills[k].fillId
        {
          FillsAfter(worlds[t - 1], steps[t - 1], l);
        }
      }
    }
  }

  // ---- Runs: the MPC gate ----

  /** The intent has a row that carries a session. */
  predicate Carries(db: Db, h: Hash) {
    h in db.intents && db.intents[h].mpcSession != None && db.intents[h].mpcSession != Some("")
  }

  /**
   Linking an intent that has a row to a session that has a row makes it carry that
   session; any other link does nothing.
   */
  lemma LinkCarries(cfg: Config, w: World, h: Hash, sid: SessionId)
    requires CanDo(cfg, w, Link(h, sid))
    ensures h in w.db.intents && sid in w.db.sessions ==>
              var db' := After(cfg, w, Link(h, sid)).db;
              && h in db'.intents && db'.intents[h].mpcSession == Some(sid)
              && db'.intents[h].user == w.db.intents[h].user && (sid != "" ==> Carries(db', h))
    ensures !(h in w.db.intents && sid in w.db.sessions) ==> After(cfg, w, Link(h, sid)).db == w.db
  {
  }

  lemma CarriesStep(w: World, step: WStep, h: Hash)
    requires PollCan(w, step) && HandlerCan(w, step) && Carries(w.db, h)
    requires step.Link? ==> step.sid != ""
    ensures Carries(DbAfter(w, step), h)
  {
    Untouched(w, step);
    hide KeyTaken;
  }

  /** Sessions are not nameless. */
  ghost predicate NamedSessions(steps: seq<WStep>) {
    forall i :: 0 <= i < |steps| && steps[i].Link? ==> steps[i].sid != ""
  }

  lemma {:induction false} CarriesStays(cfg: Config, worlds: seq<World>, steps: seq<WStep>, i: nat, t: nat, h: Hash)
    requires IsWorldRun(cfg, worlds, steps) && |worlds| == |steps| + 1 && i <= t < |worlds|
    requires NamedSessions(steps) && Carries(worlds[i].db, h)
    ensures Carries(worlds[t].db, h)
    decreases t
  {
    hide IsWorldRun, After, CanDo, Carries;
    if i < t {
      CarriesStays(cfg, worlds, steps, i, t - 1, h);
      WorldRunStep(cfg, worlds, steps, t - 1);
      DbOfStep(cfg, worlds[t - 1], steps[t - 1]);
      CarriesStep(worlds[t - 1], steps[t - 1], h);
    }
  }

  /**
   The gate closes: once an intent has been linked, no later request settles it
   unless its match is confirmed.
   */
  lemma GateCloses(cfg: Config, worlds: seq<World>, steps: seq<WStep>, i: nat, t: nat, h: Hash, sid: SessionId)
    requires IsWorldRun(cfg, worlds, steps) && |worlds| == |steps| + 1 && i < t < |steps| && NamedSessions(steps)
    requires steps[i] == Link(h, sid) && h in worlds[i].db.intents && sid in worlds[i].db.sessions
    requires steps[t].Settle? && steps[t].r.id.intentHash == h
    requires worlds[t + 1].db.settlements != worlds[t].db.settlements
    ensures h in worlds[t].db.mpc && worlds[t].db.mpc[h].matchedWith.Some?
  {
    hide IsWorldRun, After, CanDo;
    assert sid != "";
    WorldRunStep(cfg, worlds, steps, i);
    LinkCarries(cfg, worlds[i], h, sid);
    CarriesStays(cfg, worlds, steps, i + 1, t, h);
    SettledQualified(cfg, worlds, steps, t);
  }

  // ---- Runs: quotes ----

  /** Every quote is of an intent that has a row, and no two have the same hash. */
  ghost predicate QuotesOk(db: Db) {
    && (forall q :: q in db.quotes ==> db.quotes[q].intentHash in db.intents)
    && forall q, r :: q in db.quotes && r in db.quotes && db.quotes[q].quoteHash == db.quotes[r].quoteHash ==> q == r
  }

  lemma QuotesFrame(w: World, step: WStep)
    requires PollCan(w, step) && HandlerCan(w, step) && !step.Quote?
    ensures DbAfter(w, step).quotes == w.db.quotes
  {
    hide UpdateTarget, UpdatePartner, Admits, KeyTaken, QuoteHashTaken, Owns, FillKnown, KeyQueued;
  }

  lemma StepKeepsQuotes(w: World, step: WStep)
    requires PollCan(w, step) && HandlerCan(w, step) && QuotesOk(w.db)
    ensures QuotesOk(DbAfter(w, step))
  {
    if step.Quote? {
      assert DbAfter(w, step) == InsertQuote(w.db, step.q, step.h, step.quoteHash);
    } else {
      QuotesFrame(w, step);
      StepGrows(w, step);
    }
    hide DbAfter, MpcGrows, BatchesGrow, FillsGrow, SessionsGrow;
  }

  lemma {:induction false} QuotesBelong(cfg: Config, worlds: seq<World>, steps: seq<WStep>, t: nat)
    requires IsWorldRun(cfg, worlds, steps) && t < |worlds|
    ensures QuotesOk(worlds[t].db)
    decreases t
  {
    assert |worlds| == |steps| + 1 && worlds[0].db.quotes == map[];
    hide IsWorldRun, After, CanDo;
    if t > 0 {
      QuotesBelong(cfg, worlds, steps, t - 1);
      WorldRunStep(cfg, worlds, steps, t - 1);
      DbOfStep(cfg, worlds[t - 1], steps[t - 1]);
      StepKeepsQuotes(worlds[t - 1], steps[t - 1]);
    }
  }

  // ---- Rows of mpc_intents ----

  /** With the session's row, an upsert leaves the intent with a row of that session, unmatched only if it is new. */
  lemma UpsertExactly(cfg: Config, w: World, id: IntentId, sid: SessionId)
    requires CanDo(cfg, w, Upsert(id, sid))
    ensures sid in w.db.sessions ==>
              var db' := After(cfg, w, Upsert(id, sid)).db;
              && id in db'.mpc && db'.mpc[id].session == sid
              && db'.mpc[id].matchedWith == (if id in w.db.mpc then w.db.mpc[id].matchedWith else None)
              && forall other :: other in w.db.mpc && other != id ==>
                   other in db'.mpc && db'.mpc[other] == w.db.mpc[other]
    ensures sid !in w.db.sessions ==> After(cfg, w, Upsert(id, sid)).db == w.db
  {
  }
}
