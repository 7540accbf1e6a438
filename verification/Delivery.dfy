/**
 From the secret amounts to settlement: in every run of the whole pipeline with
 honest clients and nodes, each settlement job stands for a match of the true
 amounts (apps/mpc-committee/src/remote-coordinator.ts, settler.ts).
 */
module Delivery {
  import opened Session
  import opened Protocol
  import opened ProtocolProofs
  import opened Runs
  import opened Refinement
  import opened Tables
  import opened Settlement
  import opened SettlementProofs
  import opened RfqProofs
  import opened SettlementTheorems
  import M = Matcher
  import T = MatcherTheorems

  /** Clients split honestly and nodes answer with their own shares; the other steps are not restricted. */
  ghost predicate HonestPipeline(cfg: Config, secrets: Secrets, worlds: seq<World>, steps: seq<WStep>)
    requires cfg.p > 0
  {
    && |worlds| == |steps| + 1
    && forall i :: 0 <= i < |steps| && CommitteeStep(steps[i]).Some? ==>
         HonestStep(cfg, secrets, worlds[i].com, CommitteeStep(steps[i]).value)
  }

  lemma StepStaysHonest(cfg: Config, secrets: Secrets, w: World, step: WStep)
    requires ValidConfig(cfg) && InField(cfg, secrets) && Inv(cfg, w.com) && CanDo(cfg, w, step)
    requires Honest(cfg, secrets, w.com)
    requires CommitteeStep(step).Some? ==> HonestStep(cfg, secrets, w.com, CommitteeStep(step).value)
    ensures Honest(cfg, secrets, After(cfg, w, step).com)
  {
    hide ValidConfig, InField, Inv, Honest, HonestStep, Next, CanStep, DbAfter, PersistsAfter, PollsAfter;
    if CommitteeStep(step).Some? {
      StepHonest(cfg, secrets, w.com, CommitteeStep(step).value);
    }
  }

  lemma HonestAt(cfg: Config, secrets: Secrets, worlds: seq<World>, steps: seq<WStep>, i: nat)
    requires cfg.p > 0 && HonestPipeline(cfg, secrets, worlds, steps) && i < |steps|
    ensures |worlds| == |steps| + 1
    ensures CommitteeStep(steps[i]).Some? ==> HonestStep(cfg, secrets, worlds[i].com, CommitteeStep(steps[i]).value)
  {
    hide HonestStep;
  }

  lemma InvAt(cfg: Config, worlds: seq<World>, steps: seq<WStep>, i: nat)
    requires ValidConfig(cfg) && IsWorldRun(cfg, worlds, steps) && i < |worlds|
    ensures PipelineOk(cfg, worlds[i]) && Inv(cfg, worlds[i].com) && JobsOk(worlds[i].db)
  {
    hide ValidConfig, IsWorldRun, Inv, JobsOk;
    WorldRunInv(cfg, worlds, steps, i);
  }

  lemma StartOfRun(cfg: Config, worlds: seq<World>, steps: seq<WStep>)
    requires IsWorldRun(cfg, worlds, steps)
    ensures |worlds| == |steps| + 1 && worlds[0] == InitWorld() && InitWorld().com == Init()
  {
  }

  lemma {:induction false} PipelineStaysHonest(cfg: Config, secrets: Secrets, worlds: seq<World>, steps: seq<WStep>,
                                               i: nat)
    requires ValidConfig(cfg) && InField(cfg, secrets) && IsWorldRun(cfg, worlds, steps) && i < |worlds|
    requires HonestPipeline(cfg, secrets, worlds, steps)
    ensures Honest(cfg, secrets, worlds[i].com)
    decreases i
  {
    hide *;
    InitHonest(cfg, secrets);
    StartOfRun(cfg, worlds, steps);
    if i > 0 {
      PipelineStaysHonest(cfg, secrets, worlds, steps, i - 1);
      InvAt(cfg, worlds, steps, i - 1);
      WorldRunStep(cfg, worlds, steps, i - 1);
      HonestAt(cfg, secrets, worlds, steps, i - 1);
      StepStaysHonest(cfg, secrets, worlds[i - 1], steps[i - 1]);
    }
  }

  /** The job stands for match `index` of these matches. */
  predicate StandsFor(j: Job, ms: seq<M.Match>) {
    j.index < |ms| && j.aId == ms[j.index].aId && j.bId == ms[j.index].bId
  }

  /** The session whose batch the job belongs to. */
  ghost predicate JobOf(w: World, j: Job, sid: SessionId) {
    j.batchId in w.db.batches && w.db.batches[j.batchId].sessionId == sid && sid in w.com.sessions
  }

  lemma JobFromBatch(cfg: Config, w: World, k: nat)
    requires PipelineOk(cfg, w) && JobsOk(w.db) && k < |w.db.jobs|
    ensures var j := w.db.jobs[k];
            && j.batchId in w.db.batches
            && var sid := w.db.batches[j.batchId].sessionId;
               && JobOf(w, j, sid) && w.com.sessions[sid].signedBatch.Some?
               && StandsFor(j, w.com.sessions[sid].signedBatch.value.matches)
  {
    hide Inv, Known;
    var j := w.db.jobs[k];
    assert JobOk(w.db, j);
    assert BatchFrom(w.com, j.batchId, w.db.batches[j.batchId]);
  }

  /** In an honest state a signed batch is the plain matcher's. */
  lemma SignedIsTrue(cfg: Config, secrets: Secrets, com: State, sid: SessionId)
    requires cfg.p > 0 && Honest(cfg, secrets, com) && sid in com.sessions && com.sessions[sid].signedBatch.Some?
    ensures var s := com.sessions[sid];
            WellFormed(s) && s.signedBatch.value.matches == M.MatchesOf(TrueIntents(s, secrets), cfg.sort)
  {
    hide M.MatchesOf, TrueIntents, WellFormed, HonestShares;
    assert HonestSession(cfg, secrets, com.sessions[sid]);
  }

  ghost predicate PlainNames(s: SessionState) {
    forall id :: id in s.intents ==> M.BAR !in s.intents[id].inputAsset && M.BAR !in s.intents[id].outputAsset
  }

  lemma TrueAreGenuine(cfg: Config, secrets: Secrets, s: SessionState, i: nat)
    requires ValidConfig(cfg) && WellFormed(s) && PlainNames(s)
    requires i < |M.MatchesOf(TrueIntents(s, secrets), cfg.sort)|
    ensures T.Genuine(M.MatchesOf(TrueIntents(s, secrets), cfg.sort)[i], TrueIntents(s, secrets))
  {
    var xs := TrueIntents(s, secrets);
    forall x | x in xs
      ensures M.BAR !in x.inputAsset && M.BAR !in x.outputAsset
    {
      var k :| 0 <= k < |xs| && xs[k] == x;
      assert s.order[k] in s.order;
    }
    assert T.PlainAssets(xs) && M.Ascending(cfg.sort);
    hide *;
    T.MatchesGenuine(xs, cfg.sort, i);
  }

  /**
   In every run of the pipeline with honest clients and nodes, under any
   interleaving, crash or overlap: each settlement job names the two sides of its
   match in what the plain matcher returns for its session's true amounts, and
   under plain asset names that is a match of two complementary intents for the
   smaller amount.
   */
  lemma JobsAreTrue(cfg: Config, secrets: Secrets, worlds: seq<World>, steps: seq<WStep>, t: nat, k: nat)
    requires ValidConfig(cfg) && InField(cfg, secrets) && IsWorldRun(cfg, worlds, steps) && t < |worlds|
    requires HonestPipeline(cfg, secrets, worlds, steps) && k < |worlds[t].db.jobs|
    ensures var w, j := worlds[t], worlds[t].db.jobs[k];
            && j.batchId in w.db.batches
            && var sid := w.db.batches[j.batchId].sessionId;
               && JobOf(w, j, sid) && WellFormed(w.com.sessions[sid])
               && var xs := TrueIntents(w.com.sessions[sid], secrets);
                  && StandsFor(j, M.MatchesOf(xs, cfg.sort))
                  && (PlainNames(w.com.sessions[sid]) ==> T.Genuine(M.MatchesOf(xs, cfg.sort)[j.index], xs))
  {
    var w, j := worlds[t], worlds[t].db.jobs[k];
    hide ValidConfig, InField, IsWorldRun, HonestPipeline, Honest, PipelineOk, JobsOk, M.MatchesOf, TrueIntents,
         WellFormed;
    hide PlainNames, T.Genuine, Inv;
    ConfigPrime(cfg);
    InvAt(cfg, worlds, steps, t);
    PipelineStaysHonest(cfg, secrets, worlds, steps, t);
    JobFromBatch(cfg, w, k);
    var sid := w.db.batches[j.batchId].sessionId;
    SignedIsTrue(cfg, secrets, w.com, sid);
    if PlainNames(w.com.sessions[sid]) {
      TrueAreGenuine(cfg, secrets, w.com.sessions[sid], j.index);
    }
  }
}
