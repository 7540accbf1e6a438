/**
 Who signed a batch: in every run, a signed session was signed at one step, and
 its signers are exactly the nodes whose signatures came in at that step
 (apps/mpc-committee/src/remote-coordinator.ts, coordinator.ts).
 */
module Signing {
  import opened Collections
  import opened Session
  import opened Protocol
  import opened SessionProofs
  import opened ProtocolProofs
  import opened Runs
  import opened Timers
  import Field
  import M = Matcher

  /** The batch holds what the round waited with and exactly the nodes that signed, at least the threshold of them. */
  ghost predicate SignedRemotely(cfg: Config, st: State, step: Step, sid: SessionId, batch: SignedBatch) {
    && step.SignReplies? && step.r in st.rounds && step.r < |st.started| && st.started[step.r] == sid
    && st.rounds[step.r].AwaitSign? && batch.batchId == st.rounds[step.r].batchId
    && batch.matches == st.rounds[step.r].matches && |step.signed| == |cfg.nodes|
    && |set j: nat | j < |step.signed| && step.signed[j]| >= Threshold(|cfg.nodes|)
    && (forall n :: n in batch.signers ==> n in cfg.nodes) && NoRepeats(batch.signers)
    && forall k :: 0 <= k < |cfg.nodes| ==> (cfg.nodes[k] in batch.signers <==> step.signed[k])
  }

  /** In one process every node signs. */
  ghost predicate SignedLocally(cfg: Config, step: Step, sid: SessionId, batch: SignedBatch) {
    (step == LocalMatch(sid, batch.batchId) || step == LocalTick(batch.batchId)) && batch.signers == cfg.nodes
  }

  ghost predicate IsSigned(st: State, sid: SessionId) {
    sid in st.sessions && st.sessions[sid].status == Signed
  }

  lemma RepliesSign(cfg: Config, st: State, r: nat, signed: seq<bool>, sid: SessionId)
    requires ValidConfig(cfg) && Inv(cfg, st) && CanStep(cfg, st, SignReplies(r, signed))
    requires IsSigned(Next(cfg, st, SignReplies(r, signed)), sid) && !IsSigned(st, sid)
    ensures var st' := Next(cfg, st, SignReplies(r, signed));
            st'.sessions[sid].signedBatch.Some?
            && SignedRemotely(cfg, st, SignReplies(r, signed), sid, st'.sessions[sid].signedBatch.value)
  {
    hide Inv, WellFormed, Field.Prime, AfterSign, ValidConfig;
    var s := st.sessions[st.started[r]];
    SignedExactly(cfg, s, st.rounds[r].batchId, st.rounds[r].matches, signed);
  }

  lemma InProcessSigners(cfg: Config, s: SessionState, b: string)
    requires Field.Prime(cfg.p) && WellFormed(s) && InProcess(cfg, s, b).status == Signed && s.status != Signed
    ensures InProcess(cfg, s, b).signedBatch.Some?
    ensures InProcess(cfg, s, b).signedBatch.value.batchId == b
    ensures InProcess(cfg, s, b).signedBatch.value.signers == cfg.nodes
  {
    hide DecryptAll, Rebuild, ClearNodes, M.MatchesOf, Field.Prime, WellFormed;
  }

  lemma LocalSigns(cfg: Config, st: State, t: SessionId, b: string, sid: SessionId)
    requires ValidConfig(cfg) && Inv(cfg, st) && CanStep(cfg, st, LocalMatch(t, b))
    requires IsSigned(Next(cfg, st, LocalMatch(t, b)), sid) && !IsSigned(st, sid)
    ensures var st' := Next(cfg, st, LocalMatch(t, b));
            st'.sessions[sid].signedBatch.Some?
            && SignedLocally(cfg, LocalMatch(t, b), sid, st'.sessions[sid].signedBatch.value)
  {
    hide Inv, WellFormed, Field.Prime, InProcess, ValidConfig;
    LocalRound(cfg, st, t, b);
    InProcessSigners(cfg, st.sessions[t].(status := Matching), b);
  }

  lemma LocalTickSigns(cfg: Config, st: State, b: string, sid: SessionId)
    requires ValidConfig(cfg) && Inv(cfg, st) && CanStep(cfg, st, LocalTick(b))
    requires IsSigned(Next(cfg, st, LocalTick(b)), sid) && !IsSigned(st, sid)
    ensures var st' := Next(cfg, st, LocalTick(b));
            st'.sessions[sid].signedBatch.Some?
            && SignedLocally(cfg, LocalTick(b), sid, st'.sessions[sid].signedBatch.value)
  {
    hide Inv, WellFormed, Field.Prime, InProcess, ValidConfig, Next;
    LocalTickExactly(cfg, st, sid, b);
    if t :| t in st.sessions && st.sessions[t].status == Open && |st.sessions[t].intents| >= 2 {
      LocalTickExactly(cfg, st, t, b);
      LocalRound(cfg, st, t, b);
      InProcessSigners(cfg, st.sessions[t].(status := Matching), b);
    }
  }

  /** The remaining steps sign nothing. */
  lemma OthersDoNotSign(cfg: Config, st: State, step: Step, sid: SessionId)
    requires Inv(cfg, st) && CanStep(cfg, st, step) && IsSigned(Next(cfg, st, step), sid)
    requires !step.SignReplies? && !step.LocalMatch? && !step.LocalTick?
    ensures IsSigned(st, sid)
  {
    hide Inv, WellFormed, Field.Prime, AfterDecrypt, PutIntent, FirstOpen, AddIntent, VisitRemote, VisitLocal,
         OpenSessions;
    match step
    case Submit(x, newId) =>
      AddedTo(st, x, newId);
      StillOpen(st, x, newId);
    case TimerTick =>
      TickSignsNothing(cfg, st, sid);
    case ResumeTick(k, b) =>
      ResumeExactly(cfg, st, k, b);
    case DecryptReplies(r, replies, b) =>
      DecryptSignsNothing(cfg, st, r, replies);
    case _ =>
  }

  lemma StillOpen(st: State, x: MpcIntent, newId: SessionId)
    ensures PutIntent(NewSession(newId), x).status == Open
    ensures FirstOpen(st.order, st.sessions).Some? ==>
              PutIntent(st.sessions[FirstOpen(st.order, st.sessions).value], x).status == Open
  {
    hide StoreShares;
  }

  lemma TickSignsNothing(cfg: Config, st: State, sid: SessionId)
    requires Inv(cfg, st) && CanStep(cfg, st, TimerTick) && IsSigned(Next(cfg, st, TimerTick), sid)
    ensures IsSigned(st, sid)
  {
    hide Inv, WellFormed, Field.Prime, Next;
    TimerTickExactly(cfg, st, sid);
    if t :| t in st.sessions && st.sessions[t].status == Open && |st.sessions[t].intents| >= 2 {
      TimerTickExactly(cfg, st, t);
    }
  }

  lemma DecryptSignsNothing(cfg: Config, st: State, r: nat, replies: seq<Option<seq<Answer>>>)
    requires Inv(cfg, st) && Field.Prime(cfg.p) && r in st.rounds && r < |st.started| && |replies| == |cfg.nodes|
    ensures st.started[r] in st.sessions && WellFormed(st.sessions[st.started[r]])
    ensures AfterDecrypt(cfg, st.sessions[st.started[r]], replies).session.status != Signed
  {
    var s := st.sessions[st.started[r]];
    assert SessionOk(cfg, st.started[r], s) && s.status == Matching;
    hide StoreReplies, Rebuild, ClearNodes, M.MatchesOf, Field.Prime, Responding, Inv;
  }

  lemma SigningStep(cfg: Config, st: State, step: Step, sid: SessionId)
    requires ValidConfig(cfg) && Inv(cfg, st) && CanStep(cfg, st, step)
    requires IsSigned(Next(cfg, st, step), sid) && !IsSigned(st, sid)
    ensures var st' := Next(cfg, st, step);
            && st'.sessions[sid].signedBatch.Some?
            && var batch := st'.sessions[sid].signedBatch.value;
               SignedRemotely(cfg, st, step, sid, batch) || SignedLocally(cfg, step, sid, batch)
  {
    hide ValidConfig, Inv, CanStep, Next, SignedRemotely, SignedLocally;
    match step
    case SignReplies(r, signed) => RepliesSign(cfg, st, r, signed, sid);
    case LocalMatch(t, b) => LocalSigns(cfg, st, t, b, sid);
    case LocalTick(b) => LocalTickSigns(cfg, st, b, sid);
    case _ => OthersDoNotSign(cfg, st, step, sid);
  }

  /** Some earlier step signed this batch. */
  ghost predicate SignedBefore(cfg: Config, states: seq<State>, steps: seq<Step>, i: nat, sid: SessionId,
                               batch: SignedBatch) {
    && |states| == |steps| + 1 && i < |states|
    && exists k :: 0 <= k < i && (SignedRemotely(cfg, states[k], steps[k], sid, batch)
                                  || SignedLocally(cfg, steps[k], sid, batch))
  }

  lemma BatchKept(cfg: Config, states: seq<State>, steps: seq<Step>, i: nat, sid: SessionId)
    requires ValidConfig(cfg) && IsRun(cfg, states, steps) && i < |steps| && |states| == |steps| + 1
    requires IsSigned(states[i], sid)
    ensures sid in states[i + 1].sessions
    ensures states[i + 1].sessions[sid].signedBatch == states[i].sessions[sid].signedBatch
  {
    hide IsRun, ValidConfig;
    StepFrozen(cfg, states, steps, i);
  }

  /**
   In every run, every signed batch was signed at one step of it, by exactly the
   nodes that replied there, or by all nodes where they share a process.
   */
  lemma {:induction false} SignedAtAStep(cfg: Config, states: seq<State>, steps: seq<Step>, i: nat, sid: SessionId)
    requires ValidConfig(cfg) && IsRun(cfg, states, steps) && i < |states| && IsSigned(states[i], sid)
    ensures states[i].sessions[sid].signedBatch.Some?
    ensures SignedBefore(cfg, states, steps, i, sid, states[i].sessions[sid].signedBatch.value)
    decreases i
  {
    hide ValidConfig, IsRun, Inv, CanStep, Next, Init, SignedRemotely, SignedLocally;
    RunStart(cfg, states, steps);
    if i == 0 {
      NothingAtFirst(sid);
    } else {
      RunInv(cfg, states, steps, i - 1);
      RunStep(cfg, states, steps, i - 1);
      if IsSigned(states[i - 1], sid) {
        SignedAtAStep(cfg, states, steps, i - 1, sid);
        BatchKept(cfg, states, steps, i - 1, sid);
      } else {
        SigningStep(cfg, states[i - 1], steps[i - 1], sid);
      }
    }
  }

  // ---- Which sessions are matched at all ----

  /** A session that is no longer open has two or more intents. */
  ghost predicate ClosedAreLarge(st: State) {
    forall sid :: sid in st.sessions && st.sessions[sid].status != Open ==> |st.sessions[sid].intents| >= 2
  }

  lemma ClosingStep(cfg: Config, st: State, step: Step, sid: SessionId)
    requires ValidConfig(cfg) && Inv(cfg, st) && CanStep(cfg, st, step)
    requires sid in Next(cfg, st, step).sessions && Next(cfg, st, step).sessions[sid].status != Open
    requires sid in st.sessions ==> st.sessions[sid].status == Open
    ensures |Next(cfg, st, step).sessions[sid].intents| >= 2
  {
    hide ValidConfig, Inv, CanStep, Next;
    match step
    case Submit(x, newId) => StepClosesNothing(cfg, st, step, sid);
    case ManualMatch(t) => ManualMatchExactly(cfg, st, t);
    case LocalMatch(t, b) => LocalMatchExactly(cfg, st, t, b);
    case TimerTick => TickCloses(cfg, st, sid);
    case LocalTick(b) => LocalTickCloses(cfg, st, sid, b);
    case ResumeTick(k, b) => ResumeExactly(cfg, st, k, b);
    case DecryptReplies(r, replies, b) => StepClosesNothing(cfg, st, step, sid);
    case SignReplies(r, signed) => StepClosesNothing(cfg, st, step, sid);
    case ReplaceCipher(node, id, cipher) => StepClosesNothing(cfg, st, step, sid);
  }

  /** Submissions and deliveries leave a session open; replies are for one that is not open. */
  lemma StepClosesNothing(cfg: Config, st: State, step: Step, sid: SessionId)
    requires Inv(cfg, st) && CanStep(cfg, st, step)
    requires step.Submit? || step.DecryptReplies? || step.SignReplies? || step.ReplaceCipher?
    requires sid in Next(cfg, st, step).sessions && (sid in st.sessions ==> st.sessions[sid].status == Open)
    ensures Next(cfg, st, step).sessions[sid].status == Open
  {
    hide Inv, WellFormed, Field.Prime, AfterDecrypt, AfterSign, PutIntent, FirstOpen, AddIntent;
    match step
    case Submit(x, newId) =>
      AddedTo(st, x, newId);
      StillOpen(st, x, newId);
    case DecryptReplies(r, replies, b) => RoundIsClosed(cfg, st, r);
    case SignReplies(r, signed) => RoundIsClosed(cfg, st, r);
    case _ =>
  }

  lemma RoundIsClosed(cfg: Config, st: State, r: nat)
    requires Inv(cfg, st) && r in st.rounds
    ensures r < |st.started| && st.started[r] in st.sessions && st.sessions[st.started[r]].status == Matching
  {
  }

  lemma TickCloses(cfg: Config, st: State, sid: SessionId)
    requires Inv(cfg, st) && CanStep(cfg, st, TimerTick) && (sid in st.sessions ==> st.sessions[sid].status == Open)
    requires sid in Next(cfg, st, TimerTick).sessions && Next(cfg, st, TimerTick).sessions[sid].status != Open
    ensures |Next(cfg, st, TimerTick).sessions[sid].intents| >= 2
  {
    hide Inv, WellFormed, Field.Prime, Next;
    TimerTickExactly(cfg, st, sid);
    if t :| t in st.sessions && st.sessions[t].status == Open && |st.sessions[t].intents| >= 2 {
      TimerTickExactly(cfg, st, t);
    }
  }

  lemma LocalTickCloses(cfg: Config, st: State, sid: SessionId, b: string)
    requires ValidConfig(cfg) && Inv(cfg, st) && CanStep(cfg, st, LocalTick(b))
    requires sid in st.sessions ==> st.sessions[sid].status == Open
    requires sid in Next(cfg, st, LocalTick(b)).sessions && Next(cfg, st, LocalTick(b)).sessions[sid].status != Open
    ensures |Next(cfg, st, LocalTick(b)).sessions[sid].intents| >= 2
  {
    hide Inv, WellFormed, Field.Prime, Next, ValidConfig, InProcess;
    LocalTickExactly(cfg, st, sid, b);
    if t :| t in st.sessions && st.sessions[t].status == Open && |st.sessions[t].intents| >= 2 {
      LocalTickExactly(cfg, st, t, b);
    }
  }

  /** In every run, no round was ever started for a session with fewer than two intents. */
  lemma {:induction false} RoundsNeedTwo(cfg: Config, states: seq<State>, steps: seq<Step>, i: nat)
    requires ValidConfig(cfg) && IsRun(cfg, states, steps) && i < |states|
    ensures ClosedAreLarge(states[i])
    decreases i
  {
    RunStart(cfg, states, steps);
    hide ValidConfig, IsRun, Inv, CanStep, Next, Enabled, Frozen, Init, ClosedAreLarge;
    if i == 0 {
      NoneAtFirst();
    } else {
      RoundsNeedTwo(cfg, states, steps, i - 1);
      RunInv(cfg, states, steps, i - 1);
      RunStep(cfg, states, steps, i - 1);
      StepFrozen(cfg, states, steps, i - 1);
      StillLarge(cfg, states[i - 1], steps[i - 1]);
    }
  }

  lemma NoneAtFirst()
    ensures ClosedAreLarge(Init())
    ensures Init().rounds == map[]
  {
  }

  lemma StillLarge(cfg: Config, st: State, step: Step)
    requires ValidConfig(cfg) && Inv(cfg, st) && CanStep(cfg, st, step)
    requires Frozen(st, Next(cfg, st, step)) && ClosedAreLarge(st)
    ensures ClosedAreLarge(Next(cfg, st, step))
  {
    var st' := Next(cfg, st, step);
    hide ValidConfig, Inv, CanStep, Next;
    forall sid | sid in st'.sessions && st'.sessions[sid].status != Open
      ensures |st'.sessions[sid].intents| >= 2
    {
      if sid !in st.sessions || st.sessions[sid].status == Open {
        ClosingStep(cfg, st, step, sid);
      }
    }
  }

  // ---- Where a batch id comes from ----

  /** The replies of this round came with this batch id. */
  ghost predicate IdGiven(steps: seq<Step>, i: nat, r: nat, batchId: string) {
    exists k :: 0 <= k < i && k < |steps| && steps[k].DecryptReplies? && steps[k].r == r && steps[k].batchId == batchId
  }

  lemma WaitsWith(cfg: Config, st: State, step: Step, r: nat)
    requires Inv(cfg, st) && CanStep(cfg, st, step)
    requires r in Next(cfg, st, step).rounds && Next(cfg, st, step).rounds[r].AwaitSign?
    ensures || (r in st.rounds && st.rounds[r] == Next(cfg, st, step).rounds[r])
            || (step.DecryptReplies? && step.r == r && step.batchId == Next(cfg, st, step).rounds[r].batchId)
  {
    hide Inv, WellFormed, Field.Prime, AfterDecrypt, AfterSign, PutIntent, FirstOpen, AddIntent, VisitRemote,
      VisitLocal,
         OpenSessions, InProcess;
    match step
    case Submit(x, newId) => AddedTo(st, x, newId);
    case TimerTick => RemoteKeepsWaits(st, OpenSessions(st.order, st.sessions), r);
    case LocalTick(b) => LocalKeepsWaits(cfg, st, OpenSessions(st.order, st.sessions), b);
    case ResumeTick(k, b) => ResumeExactly(cfg, st, k, b);
    case _ =>
  }

  lemma {:induction false} RemoteKeepsWaits(st: State, snapshot: seq<SessionId>, r: nat)
    ensures r in VisitRemote(st, snapshot).rounds && VisitRemote(st, snapshot).rounds[r].AwaitSign? ==>
              r in st.rounds && st.rounds[r] == VisitRemote(st, snapshot).rounds[r]
  {
    if snapshot != [] && !LargeEnough(st, snapshot[0]) {
      RemoteKeepsWaits(st, snapshot[1..], r);
    }
  }

  lemma {:induction false} LocalKeepsWaits(cfg: Config, st: State, snapshot: seq<SessionId>, b: string)
    requires Field.Prime(cfg.p) && forall sid :: sid in st.sessions ==> WellFormed(st.sessions[sid])
    ensures VisitLocal(cfg, st, snapshot, b).rounds == st.rounds
  {
    hide WellFormed, Field.Prime, InProcess;
    if snapshot != [] && !LargeEnough(st, snapshot[0]) {
      LocalKeepsWaits(cfg, st, snapshot[1..], b);
    }
  }

  /** In every run, a round waits for signatures under the batch id made when its shares came in. */
  lemma {:induction false} WaitingIdGiven(cfg: Config, states: seq<State>, steps: seq<Step>, i: nat, r: nat)
    requires ValidConfig(cfg) && IsRun(cfg, states, steps) && i < |states|
    requires r in states[i].rounds && states[i].rounds[r].AwaitSign?
    ensures IdGiven(steps, i, r, states[i].rounds[r].batchId)
    decreases i
  {
    RunStart(cfg, states, steps);
    hide ValidConfig, IsRun, Inv, CanStep, Next, Enabled, Init, ClosedAreLarge;
    if i == 0 {
      NoneAtFirst();
    } else {
      RunInv(cfg, states, steps, i - 1);
      RunStep(cfg, states, steps, i - 1);
      WaitsWith(cfg, states[i - 1], steps[i - 1], r);
      if r in states[i - 1].rounds && states[i - 1].rounds[r] == states[i].rounds[r] {
        WaitingIdGiven(cfg, states, steps, i - 1, r);
      }
    }
  }

  lemma NothingAtFirst(sid: SessionId)
    ensures !IsSigned(Init(), sid)
  {
  }
}
