/**
 What the timers and the small handlers do, said of the sessions themselves:
 which sessions are found open, that a tick starts the round of the open session
 that is large enough and nothing else, and what a share delivery changes
 (state.ts, coordinator-server.ts, server.ts under apps/mpc-committee/src).
 */
module Timers {
  import opened Collections
  import opened Session
  import opened Protocol
  import opened SessionProofs
  import opened ProtocolProofs
  import opened Runs
  import Field

  predicate IsOpen(sessions: map<SessionId, SessionState>, sid: SessionId) {
    sid in sessions && sessions[sid].status == Open
  }

  // ---- Looking for open sessions ----

  /** The first open session of the list, if there is one. */
  lemma {:induction false} FirstOpenExactly(order: seq<SessionId>, sessions: map<SessionId, SessionState>)
    ensures FirstOpen(order, sessions).None? ==> forall i :: 0 <= i < |order| ==> !IsOpen(sessions, order[i])
    ensures FirstOpen(order, sessions).Some? ==>
              exists i :: 0 <= i < |order| && FirstOpen(order, sessions) == Some(order[i]) && IsOpen(sessions, order[i])
                && forall h :: 0 <= h < i ==> !IsOpen(sessions, order[h])
  {
    if order != [] {
      var front, last := order[..|order| - 1], order[|order| - 1];
      FirstOpenExactly(front, sessions);
      if FirstOpen(front, sessions).Some? {
        var i :| 0 <= i < |front| && FirstOpen(front, sessions) == Some(front[i]) && IsOpen(sessions, front[i])
                 && forall h :: 0 <= h < i ==> !IsOpen(sessions, front[h]);
        assert order[i] == front[i];
        assert forall h :: 0 <= h < i ==> order[h] == front[h];
      } else if FirstOpen(order, sessions).Some? {
        assert FirstOpen(order, sessions) == Some(order[|order| - 1]);
        assert forall h :: 0 <= h < |front| ==> order[h] == front[h];
      }
    }
  }

  /** The open sessions of the list, all of them and no others. */
  lemma {:induction false} OpenSessionsExactly(order: seq<SessionId>, sessions: map<SessionId, SessionState>,
                                               sid: SessionId)
    ensures sid in OpenSessions(order, sessions) <==> sid in order && sid in sessions && sessions[sid].status == Open
  {
    if order != [] {
      var front, last := order[..|order| - 1], order[|order| - 1];
      OpenSessionsExactly(front, sessions, sid);
      assert order == front + [last];
    }
  }

  /** In the order of the list. */
  lemma {:induction false} OpenSessionsInOrder(order: seq<SessionId>, sessions: map<SessionId, SessionState>, i: nat)
    requires i < |order| && order[i] in sessions && sessions[order[i]].status == Open
    ensures var before := |OpenSessions(order[..i], sessions)|;
            before < |OpenSessions(order, sessions)| && OpenSessions(order, sessions)[before] == order[i]
  {
    var n := |order| - 1;
    if i < n {
      OpenSessionsInOrder(order[..n], sessions, i);
      assert order[..n][..i] == order[..i];
    }
  }

  // ---- Ticks ----

  lemma SnapshotIs(cfg: Config, st: State, sid: SessionId)
    requires Inv(cfg, st) && sid in st.sessions && st.sessions[sid].status == Open
    ensures OpenSessions(st.order, st.sessions) == [sid]
  {
    SnapshotAtMostOne(st.order, st.sessions);
    OpenSessionsExactly(st.order, st.sessions, sid);
    hide OpenSessions, AllSessionsOk, RoundsOk, StartedOk, TicksOk;
  }

  lemma SnapshotEmpty(st: State)
    requires forall sid :: sid in st.sessions ==> st.sessions[sid].status != Open
    ensures OpenSessions(st.order, st.sessions) == []
  {
    var open := OpenSessions(st.order, st.sessions);
    if open != [] {
      OpenSessionsExactly(st.order, st.sessions, open[0]);
    }
  }

  /** No session is open with two or more intents. */
  ghost predicate NothingToMatch(st: State) {
    forall sid :: sid in st.sessions && st.sessions[sid].status == Open ==> |st.sessions[sid].intents| < 2
  }

  /**
   A tick of the remote coordinator puts the open session with two or more
   intents into `Matching` and starts the wait for its shares; if there is no
   such session it changes nothing.
   */
  lemma TimerTickExactly(cfg: Config, st: State, sid: SessionId)
    requires Inv(cfg, st) && CanStep(cfg, st, TimerTick)
    ensures sid in st.sessions && st.sessions[sid].status == Open && |st.sessions[sid].intents| >= 2 ==>
              var st' := Next(cfg, st, TimerTick);
              && st'.sessions == st.sessions[sid := st.sessions[sid].(status := Matching)]
              && st'.started == st.started + [sid] && st'.rounds == st.rounds[|st.started| := AwaitDecrypt]
              && st'.order == st.order && st'.intentToSession == st.intentToSession
              && st'.ticks == st.ticks + [Tick(Some(|st.started|), [])]
    ensures NothingToMatch(st) ==> Next(cfg, st, TimerTick) == st
  {
    hide Inv, OpenSessions, WellFormed, Field.Prime;
    if sid in st.sessions && st.sessions[sid].status == Open && |st.sessions[sid].intents| >= 2 {
      SnapshotIs(cfg, st, sid);
      assert [sid][1..] == [];
    }
    if NothingToMatch(st) {
      SmallSnapshot(cfg, st);
    }
  }

  lemma SmallSnapshot(cfg: Config, st: State)
    requires Inv(cfg, st) && NothingToMatch(st)
    ensures VisitRemote(st, OpenSessions(st.order, st.sessions)) == st
    ensures OpenSessions(st.order, st.sessions) == []
            || (|OpenSessions(st.order, st.sessions)| == 1 && !LargeEnough(st, OpenSessions(st.order, st.sessions)[0]))
  {
    hide Inv, OpenSessions;
    if sid :| sid in st.sessions && st.sessions[sid].status == Open {
      SnapshotIs(cfg, st, sid);
      assert [sid][1..] == [];
    } else {
      SnapshotEmpty(st);
    }
  }

  /**
   A tick of the in-process server runs the round of that session to its end,
   signed or failed; if there is no such session it changes nothing.
   */
  lemma LocalTickExactly(cfg: Config, st: State, sid: SessionId, b: string)
    requires ValidConfig(cfg) && Inv(cfg, st) && CanStep(cfg, st, LocalTick(b))
    ensures sid in st.sessions && st.sessions[sid].status == Open && |st.sessions[sid].intents| >= 2 ==>
              var st' := Next(cfg, st, LocalTick(b));
              && sid in st'.sessions && (st'.sessions[sid].status == Signed || st'.sessions[sid].status == Failed)
              && WellFormed(st.sessions[sid].(status := Matching))
              && st'.sessions[sid].intents == st.sessions[sid].intents
              && st'.sessions == st.sessions[sid := InProcess(cfg, st.sessions[sid].(status := Matching), b)]
              && st'.started == st.started + [sid] && st'.rounds == st.rounds
    ensures NothingToMatch(st) ==> Next(cfg, st, LocalTick(b)) == st
  {
    hide Inv, OpenSessions, WellFormed, Field.Prime, ValidConfig, InProcess;
    if sid in st.sessions && st.sessions[sid].status == Open && |st.sessions[sid].intents| >= 2 {
      SnapshotIs(cfg, st, sid);
      assert [sid][1..] == [];
      LocalRound(cfg, st, sid, b);
    }
    if NothingToMatch(st) {
      SmallSnapshot(cfg, st);
      SmallVisit(cfg, st, OpenSessions(st.order, st.sessions), b);
    }
  }

  lemma SmallVisit(cfg: Config, st: State, snapshot: seq<SessionId>, b: string)
    requires Field.Prime(cfg.p) && forall sid :: sid in st.sessions ==> WellFormed(st.sessions[sid])
    requires snapshot == [] || (|snapshot| == 1 && !LargeEnough(st, snapshot[0]))
    ensures VisitLocal(cfg, st, snapshot, b) == st
  {
    hide WellFormed, Field.Prime, RunLocal;
    if snapshot != [] {
      assert snapshot[1..] == [];
    }
  }

  lemma LocalRound(cfg: Config, st: State, sid: SessionId, b: string)
    requires ValidConfig(cfg) && Inv(cfg, st) && sid in st.sessions && st.sessions[sid].status == Open
    ensures Field.Prime(cfg.p) && WellFormed(st.sessions[sid].(status := Matching))
    ensures var r := InProcess(cfg, st.sessions[sid].(status := Matching), b);
            (r.status == Signed || r.status == Failed) && r.intents == st.sessions[sid].intents
  {
    var s := st.sessions[sid].(status := Matching);
    assert SessionOk(cfg, sid, st.sessions[sid]);
    assert SessionOk(cfg, sid, s);
    ConfigPrime(cfg);
    hide InProcess, ValidConfig, Inv, Field.Prime;
    InProcessOk(cfg, sid, s, b);
  }

  /** A manual match starts the wait of an open session with two or more intents; otherwise it changes nothing. */
  lemma ManualMatchExactly(cfg: Config, st: State, sid: SessionId)
    requires CanStep(cfg, st, ManualMatch(sid))
    ensures sid in st.sessions && st.sessions[sid].status == Open && |st.sessions[sid].intents| >= 2 ==>
              var st' := Next(cfg, st, ManualMatch(sid));
              && st'.sessions == st.sessions[sid := st.sessions[sid].(status := Matching)]
              && st'.started == st.started + [sid] && st'.rounds == st.rounds[|st.started| := AwaitDecrypt]
              && st'.order == st.order && st'.intentToSession == st.intentToSession && st'.ticks == st.ticks
    ensures !(sid in st.sessions && st.sessions[sid].status == Open && |st.sessions[sid].intents| >= 2) ==>
              Next(cfg, st, ManualMatch(sid)) == st
  {
    hide WellFormed, Field.Prime;
  }

  /** The in-process match runs the round of such a session to its end; otherwise it changes nothing. */
  lemma LocalMatchExactly(cfg: Config, st: State, sid: SessionId, b: string)
    requires ValidConfig(cfg) && Inv(cfg, st) && CanStep(cfg, st, LocalMatch(sid, b))
    ensures sid in st.sessions && st.sessions[sid].status == Open && |st.sessions[sid].intents| >= 2 ==>
              var st' := Next(cfg, st, LocalMatch(sid, b));
              && sid in st'.sessions && (st'.sessions[sid].status == Signed || st'.sessions[sid].status == Failed)
              && st'.sessions[sid].intents == st.sessions[sid].intents
              && st'.sessions == st.sessions[sid := st'.sessions[sid]]
              && st'.started == st.started + [sid] && st'.rounds == st.rounds
    ensures !(sid in st.sessions && st.sessions[sid].status == Open && |st.sessions[sid].intents| >= 2) ==>
              Next(cfg, st, LocalMatch(sid, b)) == st
  {
    hide Inv, WellFormed, Field.Prime, ValidConfig, InProcess;
    if sid in st.sessions && st.sessions[sid].status == Open {
      LocalRound(cfg, st, sid, b);
    }
  }

  /** A tick that goes on has nothing left to visit: it only goes away. */
  lemma ResumeExactly(cfg: Config, st: State, k: nat, b: string)
    requires Inv(cfg, st) && CanStep(cfg, st, ResumeTick(k, b))
    ensures k < |st.ticks| && Next(cfg, st, ResumeTick(k, b)) == st.(ticks := st.ticks[..k] + st.ticks[k + 1..])
  {
    assert st.ticks[k].rest == [];
    hide Inv, WellFormed, Field.Prime;
  }

  // ---- Submissions ----

  /**
   An intent without an id or with the wrong number of shares changes nothing; any
   other goes into the open session, or else into a new one, in place of what was
   there under its id, and is linked to it.
   */
  lemma SubmitExactly(cfg: Config, st: State, x: MpcIntent, newId: SessionId)
    requires CanStep(cfg, st, Submit(x, newId))
    ensures x.intentId == "" || |x.encryptedShares| != |cfg.nodes| ==> Next(cfg, st, Submit(x, newId)) == st
    ensures x.intentId != "" && |x.encryptedShares| == |cfg.nodes| ==>
              var st' := Next(cfg, st, Submit(x, newId));
              && x.intentId in st'.intentToSession
              && var sid := st'.intentToSession[x.intentId];
                 && IsOpen(st'.sessions, sid) && (sid in st.sessions ==> IsOpen(st.sessions, sid))
                 && (sid !in st.sessions ==> sid == newId && forall t :: t in st.order ==> !IsOpen(st.sessions, t))
                 && x.intentId in st'.sessions[sid].intents && st'.sessions[sid].intents[x.intentId] == x
                 && (sid in st.sessions ==> st'.sessions[sid].intents == st.sessions[sid].intents[x.intentId := x])
                 && st'.sessions == st.sessions[sid := st'.sessions[sid]]
                 && st'.intentToSession == st.intentToSession[x.intentId := sid]
  {
    AddedTo(st, x, newId);
    FirstOpenExactly(st.order, st.sessions);
    PutIntents(NewSession(newId), x);
    if FirstOpen(st.order, st.sessions).Some? {
      PutIntents(st.sessions[FirstOpen(st.order, st.sessions).value], x);
    }
    hide WellFormed, Field.Prime, AddIntent, PutIntent, FirstOpen;
  }

  lemma PutIntents(s: SessionState, x: MpcIntent)
    ensures PutIntent(s, x).intents == s.intents[x.intentId := x] && PutIntent(s, x).status == s.status
    ensures PutIntent(s, x).order == if x.intentId in s.intents then s.order else s.order + [x.intentId]
  {
    hide StoreShares;
  }

  // ---- A share delivered to a node ----

  /** The slot is there and belongs to the session the intent is linked to. */
  predicate SlotFor(st: State, node: NodeId, id: IntentId) {
    && id in st.intentToSession && st.intentToSession[id] in st.sessions
    && node in st.sessions[st.intentToSession[id]].shares && id in st.sessions[st.intentToSession[id]].shares[node]
  }

  /** The delivery replaces the ciphertext of that one slot; without the slot it changes nothing. */
  lemma ShareDeliveryExactly(cfg: Config, st: State, node: NodeId, id: IntentId, cipher: Cipher)
    requires CanStep(cfg, st, ReplaceCipher(node, id, cipher))
    ensures !SlotFor(st, node, id) ==> Next(cfg, st, ReplaceCipher(node, id, cipher)) == st
    ensures SlotFor(st, node, id) ==>
              var st', sid := Next(cfg, st, ReplaceCipher(node, id, cipher)), st.intentToSession[id];
              && sid in st'.sessions && node in st'.sessions[sid].shares && id in st'.sessions[sid].shares[node]
              && st'.sessions[sid].shares[node][id].cipher == cipher
              && st'.sessions[sid].shares[node][id].decrypted == st.sessions[sid].shares[node][id].decrypted
              && (forall n, i :: n in st.sessions[sid].shares && i in st.sessions[sid].shares[n] ==>
                    || (n == node && i == id)
                    || (n in st'.sessions[sid].shares && i in st'.sessions[sid].shares[n]
                        && st'.sessions[sid].shares[n][i] == st.sessions[sid].shares[n][i]))
              && st'.sessions == st.sessions[sid := st'.sessions[sid]]
              && st'.sessions[sid] == st.sessions[sid].(shares := st'.sessions[sid].shares)
  {
    hide WellFormed, Field.Prime;
  }
}
