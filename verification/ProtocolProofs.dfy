/**
 Every reachable state of the committee service satisfies the invariant, in
 every interleaving: at most one session is open, no session starts two
 rounds, a session's intents are frozen once it leaves `Open`, a batch is
 stored exactly when the session is signed and then nothing decrypted is left.
 */
module ProtocolProofs {
  import opened Collections
  import opened Session
  import opened Protocol
  import opened SessionProofs
  import Field
  import T = MatcherTheorems

  // ---- Changing one session ----

  lemma SessionsKept(cfg: Config, st: State, st': State, sid: SessionId, s: SessionState)
    requires AllSessionsOk(cfg, st) && SessionOk(cfg, sid, s) && st'.sessions == st.sessions[sid := s]
    ensures AllSessionsOk(cfg, st')
  {
    hide SessionOk;
  }

  /** The session was open before if it is now, and what was settled in it stays. */
  ghost predicate MovesOn(s: SessionState, s': SessionState) {
    && (s'.status == Open ==> s.status == Open)
    && (s.status != Open ==>
          && s'.intents == s.intents && s'.order == s.order
          && (s.status != Matching ==> s'.status == s.status && s'.signedBatch == s.signedBatch))
  }

  lemma FrozenUpdate(st: State, st': State, sid: SessionId, s: SessionState)
    requires sid in st.sessions && st'.sessions == st.sessions[sid := s] && st.started <= st'.started
    requires MovesOn(st.sessions[sid], s)
    ensures Frozen(st, st')
  {
  }

  lemma OrderUpdate(st: State, st': State, sid: SessionId, s: SessionState)
    requires sid in st.sessions && st'.sessions == st.sessions[sid := s] && st'.order == st.order && OrderOk(st)
    ensures OrderOk(st')
  {
    hide NoRepeats;
  }

  lemma OneOpenUpdate(st: State, st': State, sid: SessionId, s: SessionState)
    requires sid in st.sessions && st'.sessions == st.sessions[sid := s] && OneOpen(st)
    requires s.status == Open ==> st.sessions[sid].status == Open
    ensures OneOpen(st')
  {
  }

  lemma StartedUpdate(st: State, st': State, sid: SessionId, s: SessionState)
    requires sid in st.sessions && st'.sessions == st.sessions[sid := s] && st'.started == st.started && StartedOk(st)
    requires s.status == Open <==> st.sessions[sid].status == Open
    ensures StartedOk(st')
  {
    hide NoRepeats;
  }

  lemma AppendNoRepeat<T>(s: seq<T>, x: T)
    requires NoRepeats(s) && x !in s
    ensures NoRepeats(s + [x])
  {
  }

  lemma RoundsUpdate(st: State, st': State, sid: SessionId, s: SessionState)
    requires sid in st.sessions && st'.sessions == st.sessions[sid := s] && RoundsOk(st)
    requires st'.started == st.started && st'.rounds == st.rounds
    requires s.status == st.sessions[sid].status && (s.status != Open ==> s.intents == st.sessions[sid].intents)
    ensures RoundsOk(st')
  {
    hide T.IdsDisjoint;
  }

  /** The session keeps its status, and its intents unless it is open. */
  lemma ReplaceKeeps(cfg: Config, st: State, sid: SessionId, s: SessionState)
    requires Inv(cfg, st) && sid in st.sessions && SessionOk(cfg, sid, s)
    requires s.status == st.sessions[sid].status && s.signedBatch == st.sessions[sid].signedBatch
    requires s.status != Open ==> s.intents == st.sessions[sid].intents && s.order == st.sessions[sid].order
    ensures Inv(cfg, st.(sessions := st.sessions[sid := s])) && Frozen(st, st.(sessions := st.sessions[sid := s]))
  {
    hide SessionOk, AllSessionsOk, OrderOk, OneOpen, StartedOk, RoundsOk, TicksOk, Frozen;
    var st' := st.(sessions := st.sessions[sid := s]);
    SessionsKept(cfg, st, st', sid, s);
    OrderUpdate(st, st', sid, s);
    OneOpenUpdate(st, st', sid, s);
    StartedUpdate(st, st', sid, s);
    RoundsUpdate(st, st', sid, s);
    TicksSame(st, st');
    FrozenUpdate(st, st', sid, s);
  }

  lemma TicksSame(st: State, st': State)
    requires TicksOk(st) && st'.ticks == st.ticks
    ensures TicksOk(st')
  {
  }

  /** A new open session, when none is open. */
  lemma CreateKeeps(cfg: Config, st: State, id: SessionId)
    requires Inv(cfg, st) && id !in st.sessions
    requires forall s :: s in st.sessions ==> st.sessions[s].status != Open
    ensures Inv(cfg, CreateSession(st, id)) && Frozen(st, CreateSession(st, id))
  {
    var st' := CreateSession(st, id);
    assert SessionOk(cfg, id, NewSession(id));
    SessionsKept(cfg, st, st', id, NewSession(id));
    CreateParts(st, id);
    hide SessionOk, AllSessionsOk, OrderOk, OneOpen, StartedOk, RoundsOk, Frozen;
  }

  lemma CreateParts(st: State, id: SessionId)
    requires OrderOk(st) && OneOpen(st) && StartedOk(st) && RoundsOk(st) && id !in st.sessions
    requires forall s :: s in st.sessions ==> st.sessions[s].status != Open
    ensures var st' := CreateSession(st, id);
            OrderOk(st') && OneOpen(st') && StartedOk(st') && RoundsOk(st') && Frozen(st, st')
  {
    var st' := CreateSession(st, id);
    CreateOrder(st, id);
    assert StartedOk(st') by { hide NoRepeats, OrderOk, RoundsOk; }
    assert RoundsOk(st') by { hide NoRepeats, OrderOk, T.IdsDisjoint; }
    hide NoRepeats, MatchesOk, OrderOk, StartedOk, RoundsOk;
  }

  lemma CreateOrder(st: State, id: SessionId)
    requires OrderOk(st) && id !in st.sessions
    ensures OrderOk(CreateSession(st, id))
  {
    AppendNoRepeat(st.order, id);
    hide NoRepeats;
    assert forall sid :: sid in st.order + [id] <==> sid in st.order || sid == id;
  }

  ghost predicate Starts(st: State, st': State, sid: SessionId, s: SessionState, remote: bool) {
    && st'.order == st.order && st'.ticks == st.ticks
    && st'.sessions == st.sessions[sid := s] && st'.started == st.started + [sid]
    && st'.rounds == if remote then st.rounds[|st.started| := AwaitDecrypt] else st.rounds
  }

  lemma StartKeepsStarted(st: State, st': State, sid: SessionId, s: SessionState, remote: bool)
    requires StartedOk(st) && Starts(st, st', sid, s, remote)
    requires sid in st.sessions && st.sessions[sid].status == Open && s.status != Open
    ensures StartedOk(st')
  {
    AppendNoRepeat(st.started, sid);
    hide NoRepeats;
    assert forall x :: x in st'.started <==> x in st.started || x == sid;
  }

  lemma StartKeepsRounds(st: State, st': State, sid: SessionId, s: SessionState, remote: bool)
    requires RoundsOk(st) && Starts(st, st', sid, s, remote)
    requires sid in st.sessions && st.sessions[sid].status == Open && (remote ==> s.status == Matching)
    ensures RoundsOk(st')
  {
    hide MatchesOk;
    forall r | r in st'.rounds
      ensures r < |st'.started| && st'.started[r] in st'.sessions && st'.sessions[st'.started[r]].status == Matching
      ensures st'.rounds[r].AwaitSign? ==> MatchesOk(st'.sessions[st'.started[r]], st'.rounds[r].matches)
    {
      if r in st.rounds && (!remote || r != |st.started|) {
        assert st'.started[r] == st.started[r] && st.started[r] != sid;
      }
    }
  }

  /** An open session's round starts; the session ends up as `s`. */
  lemma StartKeeps(cfg: Config, st: State, st': State, sid: SessionId, s: SessionState, remote: bool)
    requires Inv(cfg, st) && sid in st.sessions && st.sessions[sid].status == Open && SessionOk(cfg, sid, s)
    requires s.status != Open && s.intents == st.sessions[sid].intents && s.order == st.sessions[sid].order
    requires remote ==> s.status == Matching
    requires Starts(st, st', sid, s, remote)
    ensures Inv(cfg, st') && Frozen(st, st')
  {
    SessionsKept(cfg, st, st', sid, s);
    StartKeepsStarted(st, st', sid, s, remote);
    StartKeepsRounds(st, st', sid, s, remote);
    OrderUpdate(st, st', sid, s);
    OneOpenUpdate(st, st', sid, s);
    TicksSame(st, st');
    FrozenUpdate(st, st', sid, s);
    hide SessionOk, AllSessionsOk, OrderOk, OneOpen, StartedOk, RoundsOk, TicksOk, Frozen;
  }

  /** A waiting round goes on: its session stays `Matching` or is finished. */
  lemma RoundKeeps(cfg: Config, st: State, r: nat, s: SessionState, phase: Option<Phase>)
    requires Inv(cfg, st) && r in st.rounds && r < |st.started| && SessionOk(cfg, st.started[r], s)
    requires s.intents == st.sessions[st.started[r]].intents && s.order == st.sessions[st.started[r]].order
    requires phase.Some? ==> s.status == Matching && (phase.value.AwaitSign? ==> MatchesOk(s, phase.value.matches))
    requires phase.None? ==> s.status == Signed || s.status == Failed
    ensures var st' := st.(sessions := st.sessions[st.started[r] := s],
                           rounds := if phase.Some? then st.rounds[r := phase.value] else st.rounds - {r});
            Inv(cfg, st') && Frozen(st, st')
  {
    var sid := st.started[r];
    var st' := st.(sessions := st.sessions[sid := s],
                   rounds := if phase.Some? then st.rounds[r := phase.value] else st.rounds - {r});
    assert sid in st.sessions && st.sessions[sid].status == Matching;
    SessionsKept(cfg, st, st', sid, s);
    RoundKeepsRounds(st, st', r, s, phase);
    hide SessionOk, AllSessionsOk, OrderOk, OneOpen, StartedOk, RoundsOk, TicksOk, Frozen;
    OrderUpdate(st, st', sid, s);
    OneOpenUpdate(st, st', sid, s);
    StartedUpdate(st, st', sid, s);
    TicksSame(st, st');
    FrozenUpdate(st, st', sid, s);
  }

  lemma RoundKeepsRounds(st: State, st': State, r: nat, s: SessionState, phase: Option<Phase>)
    requires StartedOk(st) && RoundsOk(st) && r in st.rounds && r < |st.started| && st'.started == st.started
    requires st'.sessions == st.sessions[st.started[r] := s]
    requires st'.rounds == if phase.Some? then st.rounds[r := phase.value] else st.rounds - {r}
    requires phase.Some? ==> s.status == Matching && (phase.value.AwaitSign? ==> MatchesOk(s, phase.value.matches))
    ensures RoundsOk(st')
  {
    hide MatchesOk;
    forall q | q in st'.rounds && q != r
      ensures st.started[q] != st.started[r]
    {
      assert q < |st.started|;
    }
  }

  lemma TicksKeep(cfg: Config, st: State, ticks: seq<Tick>)
    requires Inv(cfg, st) && forall k :: 0 <= k < |ticks| ==> ticks[k].rest == []
    ensures Inv(cfg, st.(ticks := ticks)) && Frozen(st, st.(ticks := ticks))
  {
    hide SessionOk, NoRepeats, MatchesOk;
  }

  lemma FrozenTransitive(a: State, b: State, c: State)
    requires Frozen(a, b) && Frozen(b, c)
    ensures Frozen(a, c)
  {
  }

  // ---- Open sessions ----

  lemma {:induction false} NoneOpen(order: seq<SessionId>, sessions: map<SessionId, SessionState>, sid: SessionId)
    requires FirstOpen(order, sessions).None? && sid in order && sid in sessions
    ensures sessions[sid].status != Open
  {
    var front, last := order[..|order| - 1], order[|order| - 1];
    assert order == front + [last];
    if sid in front {
      NoneOpen(front, sessions, sid);
    }
  }

  /** The snapshot of a tick holds at most one session. */
  lemma {:induction false} SnapshotAtMostOne(order: seq<SessionId>, sessions: map<SessionId, SessionState>)
    requires NoRepeats(order)
    requires forall s, t ::
               s in sessions && t in sessions && sessions[s].status == Open && sessions[t].status == Open ==> s == t
    ensures |OpenSessions(order, sessions)| <= 1
  {
    if order != [] {
      var front, last := order[..|order| - 1], order[|order| - 1];
      SnapshotAtMostOne(front, sessions);
      var open := OpenSessions(front, sessions);
      if |open| == 1 {
        assert open[0] in front;
        assert open[0] != last;
      }
    }
  }

  /** The intent goes into the open session or into a new one, and is linked to it. */
  lemma AddedTo(st: State, x: MpcIntent, newId: SessionId)
    ensures var found := FirstOpen(st.order, st.sessions);
            AddIntent(st, x, newId).sessions ==
            if found.Some? then st.sessions[found.value := PutIntent(st.sessions[found.value], x)]
            else st.sessions[newId := PutIntent(NewSession(newId), x)]
    ensures var found := FirstOpen(st.order, st.sessions);
            AddIntent(st, x, newId).intentToSession ==
              st.intentToSession[x.intentId := if found.Some? then found.value else newId]
    ensures AddIntent(st, x, newId).started == st.started && AddIntent(st, x, newId).rounds == st.rounds
    ensures AddIntent(st, x, newId).order ==
            if FirstOpen(st.order, st.sessions).Some? || newId in st.sessions then st.order else st.order + [newId]
    ensures AddIntent(st, x, newId).ticks == st.ticks
  {
    hide PutIntent, FirstOpen;
  }

  // ---- Each step ----

  lemma SubmitKeeps(cfg: Config, st: State, x: MpcIntent, newId: SessionId)
    requires Inv(cfg, st) && (FirstOpen(st.order, st.sessions).None? ==> newId !in st.sessions)
    ensures Inv(cfg, AddIntent(st, x, newId)) && Frozen(st, AddIntent(st, x, newId))
  {
    var found := FirstOpen(st.order, st.sessions);
    var st1 := if found.Some? then st else CreateSession(st, newId);
    var sid := if found.Some? then found.value else newId;
    if found.None? {
      forall s | s in st.sessions
        ensures st.sessions[s].status != Open
      {
        NoneOpen(st.order, st.sessions, s);
      }
      CreateKeeps(cfg, st, newId);
    }
    assert st1.sessions[sid].status == Open && SessionOk(cfg, sid, st1.sessions[sid]);
    PutIntentOk(cfg, sid, st1.sessions[sid], x);
    ReplaceKeeps(cfg, st1, sid, PutIntent(st1.sessions[sid], x));
    var st2 := st1.(sessions := st1.sessions[sid := PutIntent(st1.sessions[sid], x)]);
    LinkKeeps(cfg, st2, st2.intentToSession[x.intentId := sid]);
    if found.None? {
      FrozenTransitive(st, st1, AddIntent(st, x, newId));
    }
  }

  lemma LinkKeeps(cfg: Config, st: State, links: map<IntentId, SessionId>)
    requires Inv(cfg, st)
    ensures Inv(cfg, st.(intentToSession := links))
  {
    hide SessionOk, NoRepeats, MatchesOk;
  }

  lemma BeginKeeps(cfg: Config, st: State, sid: SessionId)
    requires Inv(cfg, st) && sid in st.sessions && st.sessions[sid].status == Open
    ensures Inv(cfg, BeginRemote(st, sid)) && Frozen(st, BeginRemote(st, sid))
  {
    var s := st.sessions[sid].(status := Matching);
    assert SessionOk(cfg, sid, s);
    hide SessionOk, Inv, Frozen;
    StartKeeps(cfg, st, BeginRemote(st, sid), sid, s, true);
  }

  lemma LocalKeeps(cfg: Config, st: State, sid: SessionId, batchId: string)
    requires ValidConfig(cfg) && Inv(cfg, st) && sid in st.sessions && st.sessions[sid].status == Open
    ensures WellFormed(st.sessions[sid])
    ensures Inv(cfg, RunLocal(cfg, st, sid, batchId)) && Frozen(st, RunLocal(cfg, st, sid, batchId))
  {
    var s := st.sessions[sid].(status := Matching);
    assert SessionOk(cfg, sid, s);
    InProcessOk(cfg, sid, s, batchId);
    hide InProcess, SessionOk, Inv, Frozen;
    StartKeeps(cfg, st, RunLocal(cfg, st, sid, batchId), sid, InProcess(cfg, s, batchId), false);
  }

  lemma ConfigPrime(cfg: Config)
    requires ValidConfig(cfg)
    ensures Field.Prime(cfg.p) && cfg.p > 0
  {
  }

  lemma AllWellFormed(cfg: Config, st: State)
    requires Inv(cfg, st)
    ensures forall sid :: sid in st.sessions ==> WellFormed(st.sessions[sid])
  {
  }

  lemma TickKeeps(cfg: Config, st: State)
    requires Inv(cfg, st)
    ensures var r := VisitRemote(st, OpenSessions(st.order, st.sessions)); Inv(cfg, r) && Frozen(st, r)
  {
    SnapshotAtMostOne(st.order, st.sessions);
    var snapshot := OpenSessions(st.order, st.sessions);
    hide Inv, OpenSessions, BeginRemote, Frozen;
    if snapshot != [] {
      assert snapshot[1..] == [];
      if LargeEnough(st, snapshot[0]) {
        BeginKeeps(cfg, st, snapshot[0]);
        var st1 := BeginRemote(st, snapshot[0]);
        AddTick(cfg, st1, Tick(Some(|st.started|), snapshot[1..]));
        FrozenTicks(st, st1, st1.ticks + [Tick(Some(|st.started|), snapshot[1..])]);
      }
    }
    Stutter(st);
  }

  lemma AddTick(cfg: Config, st: State, t: Tick)
    requires Inv(cfg, st) && t.rest == []
    ensures Inv(cfg, st.(ticks := st.ticks + [t]))
  {
    TicksKeep(cfg, st, st.ticks + [t]);
  }

  lemma LocalTickKeeps(cfg: Config, st: State, batchId: string)
    requires ValidConfig(cfg) && Inv(cfg, st)
    ensures forall sid :: sid in st.sessions ==> WellFormed(st.sessions[sid])
    ensures var r := VisitLocal(cfg, st, OpenSessions(st.order, st.sessions), batchId); Inv(cfg, r) && Frozen(st, r)
  {
    SnapshotAtMostOne(st.order, st.sessions);
    AllWellFormed(cfg, st);
    var snapshot := OpenSessions(st.order, st.sessions);
    hide Inv, OpenSessions, RunLocal, Frozen, ValidConfig, WellFormed;
    if snapshot != [] {
      assert snapshot[1..] == [];
      if LargeEnough(st, snapshot[0]) {
        LocalKeeps(cfg, st, snapshot[0], batchId);
        var st1 := RunLocal(cfg, st, snapshot[0], batchId);
        AddTick(cfg, st1, Tick(None, snapshot[1..]));
        FrozenTicks(st, st1, st1.ticks + [Tick(None, snapshot[1..])]);
      }
    }
    Stutter(st);
  }

  lemma FrozenTicks(st: State, st': State, ticks: seq<Tick>)
    requires Frozen(st, st')
    ensures Frozen(st, st'.(ticks := ticks))
  {
  }

  lemma ResumeKeeps(cfg: Config, st: State, k: nat, batchId: string)
    requires Field.Prime(cfg.p) && Inv(cfg, st) && Enabled(cfg, st, ResumeTick(k, batchId))
    requires forall sid :: sid in st.sessions ==> WellFormed(st.sessions[sid])
    ensures var r := Next(cfg, st, ResumeTick(k, batchId)); Inv(cfg, r) && Frozen(st, r)
  {
    assert st.ticks[k].rest == [];
    TicksKeep(cfg, st, st.ticks[..k] + st.ticks[k + 1..]);
    hide Inv, Frozen, WellFormed, Field.Prime;
  }

  lemma DecryptKeeps(cfg: Config, st: State, r: nat, replies: seq<Option<seq<Answer>>>, batchId: string)
    requires ValidConfig(cfg) && Inv(cfg, st) && Enabled(cfg, st, DecryptReplies(r, replies, batchId))
    requires forall sid :: sid in st.sessions ==> WellFormed(st.sessions[sid])
    ensures var n := Next(cfg, st, DecryptReplies(r, replies, batchId)); Inv(cfg, n) && Frozen(st, n)
  {
    var sid := st.started[r];
    assert SessionOk(cfg, sid, st.sessions[sid]) && st.sessions[sid].status == Matching;
    AfterDecryptOk(cfg, sid, st.sessions[sid], replies);
    var result := AfterDecrypt(cfg, st.sessions[sid], replies);
    hide AfterDecrypt, Inv, Frozen, SessionOk;
    if result.matches.Some? {
      SameIntents(st.sessions[sid], result.session, result.matches.value);
      RoundKeeps(cfg, st, r, result.session, Some(AwaitSign(batchId, result.matches.value)));
    } else {
      RoundKeeps(cfg, st, r, result.session, None);
    }
  }

  lemma SignKeeps(cfg: Config, st: State, r: nat, signed: seq<bool>)
    requires ValidConfig(cfg) && Inv(cfg, st) && Enabled(cfg, st, SignReplies(r, signed))
    requires forall sid :: sid in st.sessions ==> WellFormed(st.sessions[sid])
    ensures var n := Next(cfg, st, SignReplies(r, signed)); Inv(cfg, n) && Frozen(st, n)
  {
    var sid := st.started[r];
    assert SessionOk(cfg, sid, st.sessions[sid]) && st.sessions[sid].status == Matching;
    var phase := st.rounds[r];
    AfterSignOk(cfg, sid, st.sessions[sid], phase.batchId, phase.matches, signed);
    hide AfterSign, Inv, Frozen, SessionOk;
    RoundKeeps(cfg, st, r, AfterSign(cfg, st.sessions[sid], phase.batchId, phase.matches, signed), None);
  }

  lemma CipherReplaced(shares: ShareTable, node: NodeId, id: IntentId, cipher: Cipher)
    requires node in shares && id in shares[node]
    ensures var r: ShareTable := shares[node := shares[node][id := shares[node][id].(cipher := cipher)]];
            SameSlots(shares, r) && (NoDecrypted(shares) ==> NoDecrypted(r))
  {
  }

  lemma ReplacedOk(cfg: Config, sid: SessionId, s: SessionState, node: NodeId, id: IntentId, cipher: Cipher)
    requires SessionOk(cfg, sid, s) && node in s.shares && id in s.shares[node]
    ensures var shares: ShareTable := s.shares;
            SessionOk(cfg, sid, s.(shares := shares[node := shares[node][id := shares[node][id].(cipher := cipher)]]))
  {
    hide SlotsOk, SameSlots, NoDecrypted, Quorum, NoRepeats;
    var shares: ShareTable := s.shares;
    CipherReplaced(shares, node, id, cipher);
    SlotsStay(s, s.(shares := shares[node := shares[node][id := shares[node][id].(cipher := cipher)]]));
  }

  lemma ReplaceCipherKeeps(cfg: Config, st: State, sid: SessionId, node: NodeId, id: IntentId, cipher: Cipher)
    requires Inv(cfg, st) && sid in st.sessions
    requires node in st.sessions[sid].shares && id in st.sessions[sid].shares[node]
    ensures var shares := st.sessions[sid].shares;
            var s := st.sessions[sid].(shares :=
              shares[node := shares[node][id := shares[node][id].(cipher := cipher)]]);
            Inv(cfg, st.(sessions := st.sessions[sid := s])) && Frozen(st, st.(sessions := st.sessions[sid := s]))
  {
    var shares: ShareTable := st.sessions[sid].shares;
    var s := st.sessions[sid].(shares := shares[node := shares[node][id := shares[node][id].(cipher := cipher)]]);
    assert SessionOk(cfg, sid, st.sessions[sid]);
    hide Inv, SessionOk, Frozen;
    ReplacedOk(cfg, sid, st.sessions[sid], node, id, cipher);
    ReplaceKeeps(cfg, st, sid, s);
  }

  lemma CipherStepKeeps(cfg: Config, st: State, node: NodeId, id: IntentId, cipher: Cipher)
    requires Field.Prime(cfg.p) && Inv(cfg, st) && forall sid :: sid in st.sessions ==> WellFormed(st.sessions[sid])
    ensures var r := Next(cfg, st, ReplaceCipher(node, id, cipher)); Inv(cfg, r) && Frozen(st, r)
  {
    Stutter(st);
    hide Inv, Frozen, WellFormed, Field.Prime;
    if id in st.intentToSession && st.intentToSession[id] in st.sessions {
      var sid := st.intentToSession[id];
      if node in st.sessions[sid].shares && id in st.sessions[sid].shares[node] {
        ReplaceCipherKeeps(cfg, st, sid, node, id, cipher);
      }
    }
  }

  lemma Stutter(st: State)
    ensures Frozen(st, st)
  {
  }

  /** Every step keeps the invariant and undoes nothing that is settled. */
  lemma StepKeeps(cfg: Config, st: State, step: Step)
    requires ValidConfig(cfg) && Inv(cfg, st) && Enabled(cfg, st, step)
    ensures forall sid :: sid in st.sessions ==> WellFormed(st.sessions[sid])
    ensures Inv(cfg, Next(cfg, st, step)) && Frozen(st, Next(cfg, st, step))
  {
    AllWellFormed(cfg, st);
    Stutter(st);
    hide Inv, Frozen, ValidConfig, AddIntent, BeginRemote, RunLocal, VisitRemote, VisitLocal, AfterDecrypt, AfterSign,
         OpenSessions, FirstOpen;
    match step
    case Submit(x, newId) =>
      SubmitKeeps(cfg, st, x, newId);
    case ManualMatch(sid) =>
      if LargeEnough(st, sid) && st.sessions[sid].status == Open {
        BeginKeeps(cfg, st, sid);
      }
    case TimerTick =>
      TickKeeps(cfg, st);
    case ResumeTick(k, batchId) =>
      ResumeKeeps(cfg, st, k, batchId);
    case DecryptReplies(r, replies, batchId) =>
      DecryptKeeps(cfg, st, r, replies, batchId);
    case SignReplies(r, signed) =>
      SignKeeps(cfg, st, r, signed);
    case LocalMatch(sid, batchId) =>
      if LargeEnough(st, sid) && st.sessions[sid].status == Open {
        LocalKeeps(cfg, st, sid, batchId);
      }
    case LocalTick(batchId) =>
      LocalTickKeeps(cfg, st, batchId);
    case ReplaceCipher(node, id, cipher) =>
      CipherStepKeeps(cfg, st, node, id, cipher);
  }
}
