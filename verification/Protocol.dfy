/**
 The committee service as interleaved atomic steps: submissions, manual
 matches, timer ticks that may overlap, node replies that arrive or not, and
 signatures (state.ts, coordinator-server.ts, server.ts, remote-coordinator.ts
 under apps/mpc-committee/src). A step is everything a handler does up to its
 next wait.
 */
module Protocol {
  import opened Collections
  import opened Session
  import T = MatcherTheorems
  import Field
  import M = Matcher

  /** What a started remote round is waiting for. */
  datatype Phase = AwaitDecrypt | AwaitSign(batchId: string, matches: seq<M.Match>)

  /**
   A timer tick between two sessions of its snapshot. A remote one goes on once
   round `after` is over; a local one has no round to wait for.
   */
  datatype Tick = Tick(after: Option<nat>, rest: seq<SessionId>)

  /**
   `order` and `sessions` are the session map, `started` lists every round begun
   so far by its session, `rounds` the ones still waiting.
   */
  datatype State = State(
    order: seq<SessionId>, sessions: map<SessionId, SessionState>, intentToSession: map<IntentId, SessionId>,
    started: seq<SessionId>, rounds: map<nat, Phase>, ticks: seq<Tick>)

  datatype Step =
    | Submit(x: MpcIntent, newId: SessionId)
    | ManualMatch(sid: SessionId)
    | TimerTick
    | ResumeTick(k: nat, batchId: string)
    | DecryptReplies(r: nat, replies: seq<Option<seq<Answer>>>, batchId: string)
    | SignReplies(r: nat, signed: seq<bool>)
    | LocalMatch(sid: SessionId, batchId: string)
    | LocalTick(batchId: string)
    | ReplaceCipher(node: NodeId, id: IntentId, cipher: Cipher)

  function Init(): State {
    State([], map[], map[], [], map[], [])
  }

  // ---- Sessions ----

  function FirstOpen(order: seq<SessionId>, sessions: map<SessionId, SessionState>): (r: Option<SessionId>)
    ensures r.Some? ==> r.value in sessions && sessions[r.value].status == Open
  {
    if order == [] then None
    else
      var front, last := FirstOpen(order[..|order| - 1], sessions), order[|order| - 1];
      if front.Some? then front
      else if last in sessions && sessions[last].status == Open then Some(last)
      else None
  }

  function OpenSessions(order: seq<SessionId>, sessions: map<SessionId, SessionState>): (r: seq<SessionId>)
    ensures forall i :: 0 <= i < |r| ==> r[i] in sessions && sessions[r[i]].status == Open && r[i] in order
  {
    if order == [] then []
    else
      var last := order[|order| - 1];
      OpenSessions(order[..|order| - 1], sessions)
      + (if last in sessions && sessions[last].status == Open then [last] else [])
  }

  function CreateSession(st: State, id: SessionId): State {
    st.(order := if id in st.sessions then st.order else st.order + [id],
        sessions := st.sessions[id := NewSession(id)])
  }

  function AddIntent(st: State, x: MpcIntent, newId: SessionId): State {
    var found := FirstOpen(st.order, st.sessions);
    var st1 := if found.Some? then st else CreateSession(st, newId);
    var sid := if found.Some? then found.value else newId;
    st1.(sessions := st1.sessions[sid := PutIntent(st1.sessions[sid], x)],
         intentToSession := st1.intentToSession[x.intentId := sid])
  }

  // ---- Starting rounds ----

  function BeginRemote(st: State, sid: SessionId): State
    requires sid in st.sessions
  {
    st.(sessions := st.sessions[sid := st.sessions[sid].(status := Matching)],
        started := st.started + [sid],
        rounds := st.rounds[|st.started| := AwaitDecrypt])
  }

  ghost function RunLocal(cfg: Config, st: State, sid: SessionId, batchId: string): State
    requires Field.Prime(cfg.p) && sid in st.sessions && WellFormed(st.sessions[sid])
  {
    st.(sessions := st.sessions[sid := InProcess(cfg, st.sessions[sid].(status := Matching), batchId)],
        started := st.started + [sid])
  }

  predicate LargeEnough(st: State, sid: SessionId) {
    sid in st.sessions && |st.sessions[sid].intents| >= 2
  }

  /** The timer's loop: sessions with fewer than two intents are skipped, status is not looked at. */
  function VisitRemote(st: State, snapshot: seq<SessionId>): State {
    if snapshot == [] then st
    else if !LargeEnough(st, snapshot[0]) then VisitRemote(st, snapshot[1..])
    else
      var st1 := BeginRemote(st, snapshot[0]);
      st1.(ticks := st1.ticks + [Tick(Some(|st.started|), snapshot[1..])])
  }

  ghost function VisitLocal(cfg: Config, st: State, snapshot: seq<SessionId>, batchId: string): State
    requires Field.Prime(cfg.p) && forall sid :: sid in st.sessions ==> WellFormed(st.sessions[sid])
  {
    if snapshot == [] then st
    else if !LargeEnough(st, snapshot[0]) then VisitLocal(cfg, st, snapshot[1..], batchId)
    else
      var st1 := RunLocal(cfg, st, snapshot[0], batchId);
      st1.(ticks := st1.ticks + [Tick(None, snapshot[1..])])
  }

  // ---- Steps ----

  /**
   When a step can happen. A new session gets an unused id, replies come for a
   round that waits for them, one slot per node, and a tick goes on only after
   its round.
   */
  ghost predicate Enabled(cfg: Config, st: State, step: Step) {
    match step
    case Submit(x, newId) => FirstOpen(st.order, st.sessions).None? ==> newId !in st.sessions
    case ResumeTick(k, _) => k < |st.ticks| && (st.ticks[k].after.Some? ==> st.ticks[k].after.value !in st.rounds)
    case DecryptReplies(r, replies, _) =>
      && r in st.rounds && st.rounds[r].AwaitDecrypt? && |replies| == |cfg.nodes|
      && r < |st.started| && st.started[r] in st.sessions
    case SignReplies(r, signed) =>
      && r in st.rounds && st.rounds[r].AwaitSign? && |signed| == |cfg.nodes|
      && r < |st.started| && st.started[r] in st.sessions
    case _ => true
  }

  ghost function Next(cfg: Config, st: State, step: Step): State
    requires Field.Prime(cfg.p) && Enabled(cfg, st, step)
    requires forall sid :: sid in st.sessions ==> WellFormed(st.sessions[sid])
  {
    match step
    case Submit(x, newId) =>
      if x.intentId == "" || |x.encryptedShares| != |cfg.nodes| then st else AddIntent(st, x, newId)
    case ManualMatch(sid) =>
      if LargeEnough(st, sid) && st.sessions[sid].status == Open then BeginRemote(st, sid) else st
    case TimerTick => VisitRemote(st, OpenSessions(st.order, st.sessions))
    case ResumeTick(k, batchId) =>
      var st1 := st.(ticks := st.ticks[..k] + st.ticks[k + 1..]);
      if st.ticks[k].after.Some? then VisitRemote(st1, st.ticks[k].rest)
        else VisitLocal(cfg, st1, st.ticks[k].rest, batchId)
    case DecryptReplies(r, replies, batchId) =>
      var sid := st.started[r];
      var result := AfterDecrypt(cfg, st.sessions[sid], replies);
      st.(sessions := st.sessions[sid := result.session],
          rounds := if result.matches.None? then st.rounds - {r}
            else st.rounds[r := AwaitSign(batchId, result.matches.value)])
    case SignReplies(r, signed) =>
      var sid := st.started[r];
      st.(sessions := st.sessions[sid :=
        AfterSign(cfg, st.sessions[sid], st.rounds[r].batchId, st.rounds[r].matches, signed)],
          rounds := st.rounds - {r})
    case LocalMatch(sid, batchId) =>
      if LargeEnough(st, sid) && st.sessions[sid].status == Open then RunLocal(cfg, st, sid, batchId) else st
    case LocalTick(batchId) => VisitLocal(cfg, st, OpenSessions(st.order, st.sessions), batchId)
    case ReplaceCipher(node, id, cipher) =>
      if id in st.intentToSession && st.intentToSession[id] in st.sessions
      then
        var sid := st.intentToSession[id];
        var shares := st.sessions[sid].shares;
        if node in shares && id in shares[node]
        then st.(sessions := st.sessions[sid :=
          st.sessions[sid].(shares := shares[node := shares[node][id := shares[node][id].(cipher := cipher)]])])
        else st
      else st
  }

  // ---- Invariant ----

  ghost predicate NoDecrypted(shares: ShareTable) {
    forall node, id :: node in shares && id in shares[node] ==> shares[node][id].decrypted.None?
  }

  ghost predicate NoRepeats<T>(s: seq<T>) {
    forall i, j :: 0 <= i < j < |s| ==> s[i] != s[j]
  }

  /** A quorum: different committee nodes, at least the threshold. */
  ghost predicate Quorum(cfg: Config, signers: seq<NodeId>) {
    NoRepeats(signers) && (forall n :: n in signers ==> n in cfg.nodes) && |signers| >= Threshold(|cfg.nodes|)
  }

  /** The matches use only intents of the session, each at most once. */
  ghost predicate MatchesOk(s: SessionState, ms: seq<M.Match>) {
    && T.IdsDisjoint(ms)
    && forall k :: 0 <= k < |ms| ==> ms[k].aId in s.intents && ms[k].bId in s.intents
  }

  /** A node's entries are numbered without gaps or repeats. */
  ghost predicate InOrder(entries: NodeShares) {
    && (forall id :: id in entries ==> entries[id].position < |entries|)
    && forall a, b :: a in entries && b in entries && entries[a].position == entries[b].position ==> a == b
  }

  /** Every node's entries are in order and belong to intents of the session. */
  ghost predicate SlotsOk(s: SessionState) {
    forall node :: node in s.shares ==> InOrder(s.shares[node]) && s.shares[node].Keys <= s.intents.Keys
  }

  ghost predicate SessionOk(cfg: Config, sid: SessionId, s: SessionState) {
    && s.sessionId == sid && WellFormed(s) && NoRepeats(s.order) && SlotsOk(s)
    && (s.status != Failed ==> NoDecrypted(s.shares))
    && (s.signedBatch.Some? <==> s.status == Signed)
    && (s.status == Signed ==>
          && s.signedBatch.value.sessionId == sid
          && Quorum(cfg, s.signedBatch.value.signers) && MatchesOk(s, s.signedBatch.value.matches))
  }

  ghost predicate AllSessionsOk(cfg: Config, st: State) {
    forall sid :: sid in st.sessions ==> SessionOk(cfg, sid, st.sessions[sid])
  }

  ghost predicate OrderOk(st: State) {
    NoRepeats(st.order) && forall sid :: sid in st.order <==> sid in st.sessions
  }

  ghost predicate OneOpen(st: State) {
    forall s, t ::
      s in st.sessions && t in st.sessions && st.sessions[s].status == Open && st.sessions[t].status == Open ==> s == t
  }

  /** Rounds were started for different sessions, exactly the ones no longer open. */
  ghost predicate StartedOk(st: State) {
    && NoRepeats(st.started)
    && forall sid :: sid in st.started <==> sid in st.sessions && st.sessions[sid].status != Open
  }

  ghost predicate RoundsOk(st: State) {
    forall r :: r in st.rounds ==>
      && r < |st.started| && st.started[r] in st.sessions && st.sessions[st.started[r]].status == Matching
      && (st.rounds[r].AwaitSign? ==> MatchesOk(st.sessions[st.started[r]], st.rounds[r].matches))
  }

  /** No tick has a session left to visit. */
  ghost predicate TicksOk(st: State) {
    forall k :: 0 <= k < |st.ticks| ==> st.ticks[k].rest == []
  }

  ghost predicate Inv(cfg: Config, st: State) {
    AllSessionsOk(cfg, st) && OrderOk(st) && OneOpen(st) && StartedOk(st) && RoundsOk(st) && TicksOk(st)
  }

  /** What no later step undoes. */
  ghost predicate Frozen(st: State, st': State) {
    && st.started <= st'.started
    && forall sid :: sid in st.sessions ==>
         && sid in st'.sessions
         && var s, s' := st.sessions[sid], st'.sessions[sid];
            (s.status != Open ==>
               && s'.status != Open && s'.intents == s.intents && s'.order == s.order
               && (s.status != Matching ==> s'.status == s.status && s'.signedBatch == s.signedBatch))
  }
}
