/**
 Runs that exist: for any two complementary intents, a round signs a match of
 them, a settlement job follows, and submitting them again puts them into a
 second batch (apps/mpc-committee/src, apps/api/src/routes.ts). They show that
 the conditions of the theorems about runs are needed.
 */
module Scenarios {
  import opened Collections
  import opened Session
  import opened Protocol
  import opened SessionProofs
  import opened ProtocolProofs
  import opened Runs
  import opened Failures
  import opened Tables
  import opened JobKeys
  import opened Settlement
  import opened RfqProofs
  import opened SettlementTheorems
  import Field
  import M = Matcher
  import T = MatcherTheorems

  /** An intent as a client makes it: a share sealed to each node, in order. */
  ghost predicate Deliverable(cfg: Config, x: MpcIntent) {
    && x.intentId != "" && |x.encryptedShares| == |cfg.nodes|
    && forall k :: 0 <= k < |cfg.nodes| ==>
         && x.encryptedShares[k].nodeId == cfg.nodes[k]
         && x.encryptedShares[k].cipher.Sealed? && x.encryptedShares[k].cipher.recipient == cfg.nodes[k]
  }

  /** What the submit handler asks of an intent. */
  predicate Accepted(cfg: Config, x: MpcIntent) {
    x.intentId != "" && |x.encryptedShares| == |cfg.nodes|
  }

  /** Two intents that want what the other has, under plain asset names. */
  ghost predicate Opposite(x: MpcIntent, y: MpcIntent) {
    && x.intentId != y.intentId && x.inputAsset == y.outputAsset && x.outputAsset == y.inputAsset
    && M.BAR !in x.inputAsset && M.BAR !in x.outputAsset
  }

  // ---- A session of two ----

  ghost predicate OpensAll(shares: ShareTable) {
    forall node, id :: node in shares && id in shares[node] ==> Opens(node, shares[node][id])
  }

  lemma {:induction false} StoreOpens(shares: ShareTable, id: IntentId, es: seq<EncryptedShare>)
    requires OpensAll(shares)
    requires forall k :: 0 <= k < |es| ==> es[k].cipher.Sealed? && es[k].cipher.recipient == es[k].nodeId
    ensures OpensAll(StoreShares(shares, id, es))
  {
    hide SlotPosition;
    if es != [] {
      StoreOpens(shares, id, es[..|es| - 1]);
    }
  }

  lemma DeliveredSlots(cfg: Config, s: SessionState, x: MpcIntent)
    requires Deliverable(cfg, x) && HasSlots(cfg, s) && OpensAll(s.shares) && NoDecrypted(s.shares)
    ensures HasSlots(cfg, PutIntent(s, x)) && OpensAll(PutIntent(s, x).shares) && NoDecrypted(PutIntent(s, x).shares)
  {
    forall n | n in cfg.nodes
      ensures exists k :: 0 <= k < |x.encryptedShares| && x.encryptedShares[k].nodeId == n
    {
      var k :| 0 <= k < |cfg.nodes| && cfg.nodes[k] == n;
      assert x.encryptedShares[k].nodeId == n;
    }
    PutKeepsSlots(cfg, s, x);
    StoreOpens(s.shares, x.intentId, x.encryptedShares);
    StoredUndecrypted(s.shares, x.intentId, x.encryptedShares);
    hide StoreShares, HasSlots, OpensAll, NoDecrypted, CoversNodes;
  }

  function OfTwo(x: MpcIntent, y: MpcIntent, sid: SessionId): SessionState {
    PutIntent(PutIntent(NewSession(sid), x), y)
  }

  lemma SessionOfTwo(cfg: Config, x: MpcIntent, y: MpcIntent, sid: SessionId)
    requires Deliverable(cfg, x) && Deliverable(cfg, y) && x.intentId != y.intentId
    ensures var s := OfTwo(x, y, sid);
            && s.sessionId == sid && s.status == Open && s.signedBatch.None?
            && s.order == [x.intentId, y.intentId] && s.intents == map[x.intentId := x, y.intentId := y]
            && HasSlots(cfg, s) && OpensAll(s.shares) && NoDecrypted(s.shares) && WellFormed(s)
  {
    var one := PutIntent(NewSession(sid), x);
    assert HasSlots(cfg, NewSession(sid)) && OpensAll(NewSession(sid).shares) && NoDecrypted(NewSession(sid).shares);
    DeliveredSlots(cfg, NewSession(sid), x);
    DeliveredSlots(cfg, one, y);
    hide StoreShares, HasSlots, OpensAll, NoDecrypted, Deliverable;
  }

  lemma TwoNodesHold(cfg: Config, s: SessionState, id: IntentId)
    requires |cfg.nodes| >= 2 && HasSlots(cfg, s) && id in s.intents
    ensures TwoHold(cfg, s, id)
  {
    assert cfg.nodes[0] in cfg.nodes && cfg.nodes[1] in cfg.nodes;
    assert cfg.nodes[0] in s.shares && id in s.shares[cfg.nodes[0]] && cfg.nodes[1] in s.shares
           && id in s.shares[cfg.nodes[1]];
  }

  predicate Joins(m: M.Match, x: IntentId, y: IntentId) {
    (m.aId == x && m.bId == y) || (m.aId == y && m.bId == x)
  }

  lemma TwoAreMatched(a: M.Intent, b: M.Intent, sort: M.Sorter)
    requires M.Ascending(sort) && a.id != b.id && T.Complementary(a, b) && M.BAR !in a.inputAsset
    requires M.BAR !in a.outputAsset
    ensures M.MatchesOf([a, b], sort) != [] && Joins(M.MatchesOf([a, b], sort)[0], a.id, b.id)
  {
    var xs := [a, b];
    assert T.Regular(xs, sort);
    T.NothingComplementaryLeft(xs, sort, a, b);
    var ms := M.MatchesOf(xs, sort);
    T.NoIdTwice(xs, sort);
    T.MatchIdsSubmitted(xs, sort, 0);
    hide M.MatchesOf, M.Ascending, T.Regular;
  }

  lemma ReadySigns(cfg: Config, s: SessionState, b: string)
    requires ValidConfig(cfg) && |cfg.nodes| >= 2 && WellFormed(s) && NoDecrypted(s.shares) && HasSlots(cfg, s)
    requires OpensAll(s.shares)
    ensures InProcess(cfg, s, b).status == Signed
  {
    forall id | id in s.intents
      ensures TwoHold(cfg, s, id)
    {
      TwoNodesHold(cfg, s, id);
    }
    assert AllOpen(s.shares, cfg.nodes, |cfg.nodes|);
    LocalSucceedsExactly(cfg, s, b);
    hide *;
  }

  lemma SignedWith(cfg: Config, s: SessionState, b: string)
    requires Field.Prime(cfg.p) && WellFormed(s) && InProcess(cfg, s, b).status == Signed
    ensures var rebuilt, r := Rebuild(s, DecryptAll(s.shares, cfg.nodes, |cfg.nodes|).shares, cfg, |s.order|),
            InProcess(cfg, s, b);
            rebuilt.Some? && r.signedBatch ==
              Some(SignedBatch(b, s.sessionId, M.MatchesOf(rebuilt.value, cfg.sort), cfg.nodes))
  {
    hide DecryptAll, Rebuild, ClearNodes, M.MatchesOf, Field.Prime, WellFormed;
  }

  lemma RebuiltTwo(cfg: Config, s: SessionState, shares: ShareTable, x: MpcIntent, y: MpcIntent)
    requires ValidConfig(cfg) && Opposite(x, y) && WellFormed(s) && s.order == [x.intentId, y.intentId]
    requires s.intents == map[x.intentId := x, y.intentId := y] && Rebuild(s, shares, cfg, |s.order|).Some?
    ensures var ms := M.MatchesOf(Rebuild(s, shares, cfg, |s.order|).value, cfg.sort);
            ms != [] && Joins(ms[0], x.intentId, y.intentId)
  {
    RebuiltIds(s, shares, cfg, |s.order|);
    assert M.Ascending(cfg.sort);
    hide ValidConfig, M.MatchesOf, M.Ascending, Rebuild, WellFormed;
    var xs := Rebuild(s, shares, cfg, |s.order|).value;
    assert xs == [xs[0], xs[1]];
    TwoAreMatched(xs[0], xs[1], cfg.sort);
  }

  /** The session and batch that the in-process round of two intents ends with. */
  ghost predicate SignedPair(s: SessionState, sid: SessionId, b: string, x: IntentId, y: IntentId) {
    && s.status == Signed && s.signedBatch.Some? && s.signedBatch.value.batchId == b
    && s.signedBatch.value.sessionId == sid
    && s.signedBatch.value.matches != [] && Joins(s.signedBatch.value.matches[0], x, y)
  }

  /** The in-process round of two opposite intents signs a match of them. */
  lemma TwoSigned(cfg: Config, x: MpcIntent, y: MpcIntent, sid: SessionId, b: string)
    requires ValidConfig(cfg) && |cfg.nodes| >= 2 && Deliverable(cfg, x) && Deliverable(cfg, y) && Opposite(x, y)
    ensures var s := OfTwo(x, y, sid).(status := Matching);
            WellFormed(s) && SignedPair(InProcess(cfg, s, b), sid, b, x.intentId, y.intentId)
  {
    SessionOfTwo(cfg, x, y, sid);
    var s := OfTwo(x, y, sid).(status := Matching);
    hide OfTwo, Deliverable;
    assert HasSlots(cfg, s) && WellFormed(s) && Field.Prime(cfg.p);
    hide HasSlots, ValidConfig, OpensAll, NoDecrypted, InProcess, Rebuild, DecryptAll, M.MatchesOf, WellFormed,
         Field.Prime;
    ReadySigns(cfg, s, b);
    SignedWith(cfg, s, b);
    RebuiltTwo(cfg, s, DecryptAll(s.shares, cfg.nodes, |cfg.nodes|).shares, x, y);
  }

  // ---- The three steps of the round ----

  lemma OnlyOpen(cfg: Config, com: State, sid: SessionId)
    requires Inv(cfg, com) && sid in com.sessions && com.sessions[sid].status == Open
    ensures FirstOpen(com.order, com.sessions) == Some(sid)
  {
    if FirstOpen(com.order, com.sessions).None? {
      NoneOpen(com.order, com.sessions, sid);
    }
    hide AllSessionsOk, RoundsOk, StartedOk, TicksOk;
  }

  lemma SubmitFirst(cfg: Config, com: State, x: MpcIntent, sid: SessionId)
    requires ValidConfig(cfg) && Inv(cfg, com) && FirstOpen(com.order, com.sessions).None? && sid !in com.sessions
    requires Accepted(cfg, x)
    ensures CanStep(cfg, com, Submit(x, sid))
    ensures var com' := Next(cfg, com, Submit(x, sid));
            && com'.sessions == com.sessions[sid := PutIntent(NewSession(sid), x)]
            && com'.intentToSession == com.intentToSession[x.intentId := sid]
            && com'.started == com.started && com'.rounds == com.rounds
  {
    AllWellFormed(cfg, com);
    assert Field.Prime(cfg.p);
    AddedTo(com, x, sid);
    hide ValidConfig, Inv, FirstOpen, PutIntent, WellFormed, Field.Prime, AddIntent, NewSession;
  }

  lemma SubmitSecond(cfg: Config, com: State, y: MpcIntent, sid: SessionId)
    requires ValidConfig(cfg) && Inv(cfg, com) && FirstOpen(com.order, com.sessions) == Some(sid) && Accepted(cfg, y)
    ensures sid in com.sessions && CanStep(cfg, com, Submit(y, sid))
    ensures var com' := Next(cfg, com, Submit(y, sid));
            && com'.sessions == com.sessions[sid := PutIntent(com.sessions[sid], y)]
            && com'.intentToSession == com.intentToSession[y.intentId := sid]
            && com'.started == com.started && com'.rounds == com.rounds
  {
    AllWellFormed(cfg, com);
    assert Field.Prime(cfg.p);
    AddedTo(com, y, sid);
    hide ValidConfig, Inv, PutIntent, WellFormed, Field.Prime, AddIntent;
  }

  lemma MatchHere(cfg: Config, com: State, sid: SessionId, b: string)
    requires ValidConfig(cfg) && Inv(cfg, com) && sid in com.sessions && com.sessions[sid].status == Open
    requires |com.sessions[sid].intents| >= 2
    ensures CanStep(cfg, com, LocalMatch(sid, b)) && WellFormed(com.sessions[sid].(status := Matching))
    ensures var com' := Next(cfg, com, LocalMatch(sid, b));
            && com'.sessions == com.sessions[sid := InProcess(cfg, com.sessions[sid].(status := Matching), b)]
            && com'.intentToSession == com.intentToSession
  {
    AllWellFormed(cfg, com);
    assert Field.Prime(cfg.p);
    hide ValidConfig, Inv, InProcess, Field.Prime;
  }

  /** What the committee comes to when two intents are submitted and matched. */
  ghost predicate RoundDone(cfg: Config, com: State, com': State, x: IntentId, y: IntentId, sid: SessionId, b: string) {
    && Inv(cfg, com') && FirstOpen(com'.order, com'.sessions).None? && Frozen(com, com')
    && sid in com'.sessions && SignedPair(com'.sessions[sid], sid, b, x, y)
    && com'.sessions.Keys == com.sessions.Keys + {sid}
    && com'.intentToSession == com.intentToSession[x := sid][y := sid]
  }

  /** No session is open: two opposite intents come in and are matched. */
  lemma RoundOfTwo(cfg: Config, com: State, x: MpcIntent, y: MpcIntent, sid: SessionId, b: string)
    requires ValidConfig(cfg) && |cfg.nodes| >= 2 && Deliverable(cfg, x) && Deliverable(cfg, y) && Opposite(x, y)
    requires Inv(cfg, com) && FirstOpen(com.order, com.sessions).None? && sid !in com.sessions
    ensures CanStep(cfg, com, Submit(x, sid))
    ensures var com1 := Next(cfg, com, Submit(x, sid));
            && CanStep(cfg, com1, Submit(y, sid))
            && var com2 := Next(cfg, com1, Submit(y, sid));
               && CanStep(cfg, com2, LocalMatch(sid, b))
               && RoundDone(cfg, com, Next(cfg, com2, LocalMatch(sid, b)), x.intentId, y.intentId, sid, b)
  {
    hide ValidConfig, Inv, Frozen, Deliverable, Accepted, Enabled, Next, PutIntent, InProcess, OfTwo, FirstOpen,
         WellFormed, Field.Prime;
    DeliverableAccepted(cfg, x);
    DeliverableAccepted(cfg, y);
    SubmitFirst(cfg, com, x, sid);
    StepAndKeep(cfg, com, Submit(x, sid));
    var com1 := Next(cfg, com, Submit(x, sid));
    PutOpen(NewSession(sid), x, y);
    OnlyOpen(cfg, com1, sid);
    SubmitSecond(cfg, com1, y, sid);
    StepAndKeep(cfg, com1, Submit(y, sid));
    var com2 := Next(cfg, com1, Submit(y, sid));
    OfTwoIs(x, y, sid);
    SessionOfTwo(cfg, x, y, sid);
    MatchHere(cfg, com2, sid, b);
    StepAndKeep(cfg, com2, LocalMatch(sid, b));
    TwoSigned(cfg, x, y, sid, b);
    var com3 := Next(cfg, com2, LocalMatch(sid, b));
    OnlyOpen(cfg, com2, sid);
    NoOpenLeft(cfg, com2, com3, sid);
    FrozenTransitive(com, com1, com2);
    FrozenTransitive(com, com2, com3);
  }

  lemma DeliverableAccepted(cfg: Config, x: MpcIntent)
    requires Deliverable(cfg, x)
    ensures Accepted(cfg, x)
  {
  }

  lemma StepAndKeep(cfg: Config, com: State, step: Step)
    requires ValidConfig(cfg) && Inv(cfg, com) && CanStep(cfg, com, step)
    ensures Inv(cfg, Next(cfg, com, step)) && Frozen(com, Next(cfg, com, step))
  {
    hide ValidConfig, Inv, Frozen, Next, Enabled, WellFormed;
    StepKeeps(cfg, com, step);
  }

  lemma PutOpen(s: SessionState, x: MpcIntent, y: MpcIntent)
    ensures PutIntent(s, x).status == s.status && PutIntent(PutIntent(s, x), y).status == s.status
  {
    hide StoreShares;
  }

  lemma OfTwoIs(x: MpcIntent, y: MpcIntent, sid: SessionId)
    ensures OfTwo(x, y, sid) == PutIntent(PutIntent(NewSession(sid), x), y)
    ensures x.intentId != y.intentId ==> |map[x.intentId := x, y.intentId := y]| == 2
  {
    hide PutIntent;
    if x.intentId != y.intentId {
      var m := map[x.intentId := x, y.intentId := y];
      assert m.Keys == {x.intentId, y.intentId};
      assert |m| == |m.Keys|;
    }
  }

  /** The one open session has been closed. */
  lemma NoOpenLeft(cfg: Config, com: State, com': State, sid: SessionId)
    requires Inv(cfg, com) && sid in com.sessions && com.sessions[sid].status == Open
    requires sid in com'.sessions && com'.sessions[sid].status != Open
    requires com'.sessions == com.sessions[sid := com'.sessions[sid]]
    ensures FirstOpen(com'.order, com'.sessions).None?
  {
    hide AllSessionsOk, RoundsOk, StartedOk, TicksOk;
  }

  // ---- Submitted again ----

  lemma ExtendStates(cfg: Config, states: seq<State>, steps: seq<Step>, step: Step) returns (ss: seq<State>)
    requires IsRun(cfg, states, steps) && CanStep(cfg, states[|steps|], step)
    ensures IsRun(cfg, ss, steps + [step]) && ss == states + [Next(cfg, states[|steps|], step)]
  {
    ss := states + [Next(cfg, states[|steps|], step)];
    hide CanStep, Next, Init;
    forall i | 0 <= i < |steps| + 1
      ensures CanStep(cfg, ss[i], (steps + [step])[i]) && ss[i + 1] == Next(cfg, ss[i], (steps + [step])[i])
    {
      if i < |steps| {
        assert ss[i] == states[i] && ss[i + 1] == states[i + 1];
      }
    }
  }

  /** The round of two at the end of a run. */
  lemma RunRound(cfg: Config, states: seq<State>, steps: seq<Step>, x: MpcIntent, y: MpcIntent, sid: SessionId,
                 b: string) returns (ss: seq<State>)
    requires ValidConfig(cfg) && |cfg.nodes| >= 2 && Deliverable(cfg, x) && Deliverable(cfg, y) && Opposite(x, y)
    requires IsRun(cfg, states, steps) && FirstOpen(states[|steps|].order, states[|steps|].sessions).None?
    requires sid !in states[|steps|].sessions
    ensures |states| == |steps| + 1 && IsRun(cfg, ss, steps + [Submit(x, sid), Submit(y, sid), LocalMatch(sid, b)])
    ensures |ss| == |steps| + 4 && ss[..|steps| + 1] == states
    ensures RoundDone(cfg, states[|steps|], ss[|steps| + 3], x.intentId, y.intentId, sid, b)
  {
    hide *;
    RunStart(cfg, states, steps);
    RunInv(cfg, states, steps, |steps|);
    RoundOfTwo(cfg, states[|steps|], x, y, sid, b);
    ss := ExtendStates(cfg, states, steps, Submit(x, sid));
    ss := ExtendStates(cfg, ss, steps + [Submit(x, sid)], Submit(y, sid));
    ss := ExtendStates(cfg, ss, steps + [Submit(x, sid)] + [Submit(y, sid)], LocalMatch(sid, b));
    assert steps + [Submit(x, sid)] + [Submit(y, sid)] + [LocalMatch(sid, b)] ==
           steps + [Submit(x, sid), Submit(y, sid), LocalMatch(sid, b)];
  }

  lemma StillSigned(com: State, com': State, sid: SessionId, b: string, x: IntentId, y: IntentId)
    requires Frozen(com, com') && sid in com.sessions && SignedPair(com.sessions[sid], sid, b, x, y)
    ensures sid in com'.sessions && SignedPair(com'.sessions[sid], sid, b, x, y)
  {
  }

  /**
   Nothing stops a client from submitting again: two opposite intents, submitted
   a second time after their session has closed, end up in two signed batches.
   */
  lemma ResubmittedInTwoBatches(cfg: Config, x: MpcIntent, y: MpcIntent, s1: SessionId, s2: SessionId, b1: string,
                                b2: string)
    returns (states: seq<State>, steps: seq<Step>)
    requires ValidConfig(cfg) && |cfg.nodes| >= 2 && Deliverable(cfg, x) && Deliverable(cfg, y) && Opposite(x, y)
    requires s1 != s2
    ensures IsRun(cfg, states, steps) && |states| == |steps| + 1
    ensures s1 in states[|steps|].sessions && SignedPair(states[|steps|].sessions[s1], s1, b1, x.intentId, y.intentId)
    ensures s2 in states[|steps|].sessions && SignedPair(states[|steps|].sessions[s2], s2, b2, x.intentId, y.intentId)
  {
    hide IsRun, Init, InitWorld, IsWorldRun, SignedPair, ValidConfig, Deliverable, Frozen, Inv, FirstOpen;
    AtTheStart(cfg, s1);
    AtTheStart(cfg, s2);
    var first := RunRound(cfg, [Init()], [], x, y, s1, b1);
    var once := [] + [Submit(x, s1), Submit(y, s1), LocalMatch(s1, b1)];
    assert first[..1] == [Init()];
    assert RoundDone(cfg, Init(), first[3], x.intentId, y.intentId, s1, b1);
    states := RunRound(cfg, first, once, x, y, s2, b2);
    steps := once + [Submit(x, s2), Submit(y, s2), LocalMatch(s2, b2)];
    StillSigned(first[3], states[6], s1, b1, x.intentId, y.intentId);
  }

  // ---- Misaddressed ----

  lemma BeginsHere(cfg: Config, com: State, sid: SessionId)
    requires ValidConfig(cfg) && Inv(cfg, com) && sid in com.sessions && com.sessions[sid].status == Open
    requires |com.sessions[sid].intents| >= 2
    ensures CanStep(cfg, com, ManualMatch(sid)) && Next(cfg, com, ManualMatch(sid)) == BeginRemote(com, sid)
  {
    AllWellFormed(cfg, com);
    ConfigPrime(cfg);
    hide ValidConfig, Inv, WellFormed, Field.Prime;
  }

  lemma OfTwoFacts(x: MpcIntent, y: MpcIntent, sid: SessionId)
    requires x.intentId != y.intentId
    ensures var one, s := PutIntent(NewSession(sid), x), OfTwo(x, y, sid);
            && s == PutIntent(one, y) && s.status == Open && |s.intents| == 2
            && x.intentId in one.intents && y.intentId !in one.intents && x.intentId in s.intents
            && WellFormed(one) && SlotsOk(one) && NoDecrypted(one.shares) && WellFormed(s) && SlotsOk(s)
            && NoDecrypted(s.shares)
  {
    var empty := NewSession(sid);
    assert WellFormed(empty) && SlotsOk(empty) && NoDecrypted(empty.shares);
    PutFacts(empty, x);
    PutKeepsOrder(empty, x);
    var one := PutIntent(empty, x);
    assert one.intents == map[x.intentId := x] && one.status == Open;
    PutFacts(one, y);
    PutKeepsOrder(one, y);
    PutOpen(empty, x, y);
    OfTwoIs(x, y, sid);
    assert one.intents[y.intentId := y] == map[x.intentId := x, y.intentId := y];
    hide PutIntent, WellFormed, SlotsOk, NoDecrypted, OfTwo;
  }

  lemma MisaddressedStuck(cfg: Config, x: MpcIntent, y: MpcIntent, sid: SessionId)
    requires ValidConfig(cfg) && x.intentId != y.intentId && !NamesTwo(cfg, x)
    ensures var s := OfTwo(x, y, sid).(status := Matching);
            Field.Prime(cfg.p) && WellFormed(s) && !CanGoOn(cfg, s)
  {
    OfTwoFacts(x, y, sid);
    ConfigPrime(cfg);
    var empty, one, s := NewSession(sid), PutIntent(NewSession(sid), x), OfTwo(x, y, sid);
    assert SlotsOk(empty);
    var s' := s.(status := Matching);
    assert WellFormed(s');
    hide ValidConfig, PutIntent, OfTwo, SlotsOk, NoDecrypted, CanGoOn, NamesTwo, WellFormed, Field.Prime;
    NewHolders(cfg, empty, x);
    NewHolders(cfg, one, y);
    assert TwoHold(cfg, s', x.intentId) <==> TwoHold(cfg, s, x.intentId);
    GoesOnExactly(cfg, s');
  }

  /** The state of a committee that waits for the shares of one session. */
  ghost predicate Waiting(st: State, sid: SessionId, s: SessionState) {
    && sid in st.sessions && st.sessions[sid] == s && st.started == [sid] && st.rounds == map[0 := AwaitDecrypt]
  }

  /** Two accepted intents and a manual match, from the initial state. */
  lemma TwoAwaited(cfg: Config, x: MpcIntent, y: MpcIntent, sid: SessionId)
    returns (states: seq<State>, steps: seq<Step>)
    requires ValidConfig(cfg) && Accepted(cfg, x) && Accepted(cfg, y) && x.intentId != y.intentId
    ensures IsRun(cfg, states, steps) && |states| == |steps| + 1
    ensures steps == [Submit(x, sid), Submit(y, sid), ManualMatch(sid)]
    ensures Waiting(states[3], sid, OfTwo(x, y, sid).(status := Matching))
  {
    hide ValidConfig, Inv, Frozen, Enabled, Next, PutIntent, OfTwo, FirstOpen, WellFormed, Field.Prime, IsRun,
         InitWorld, IsWorldRun, CanStep;
    var init := Init();
    AtTheStart(cfg, sid);
    assert init.started == [] && init.rounds == map[];
    SubmitFirst(cfg, init, x, sid);
    StepAndKeep(cfg, init, Submit(x, sid));
    states := ExtendStates(cfg, [init], [], Submit(x, sid));
    assert [] + [Submit(x, sid)] == [Submit(x, sid)];
    var com1 := states[1];
    PutOpen(NewSession(sid), x, y);
    OnlyOpen(cfg, com1, sid);
    SubmitSecond(cfg, com1, y, sid);
    StepAndKeep(cfg, com1, Submit(y, sid));
    states := ExtendStates(cfg, states, [Submit(x, sid)], Submit(y, sid));
    OfTwoFacts(x, y, sid);
    BeginsHere(cfg, states[2], sid);
    steps := [Submit(x, sid), Submit(y, sid)];
    assert [Submit(x, sid)] + [Submit(y, sid)] == steps;
    states := ExtendStates(cfg, states, steps, ManualMatch(sid));
    steps := steps + [ManualMatch(sid)];
  }

  lemma DecryptReplied(cfg: Config, st: State, sid: SessionId, s: SessionState, replies: seq<Option<seq<Answer>>>,
                       b: string)
    requires Field.Prime(cfg.p) && Waiting(st, sid, s) && WellFormed(s) && |replies| == |cfg.nodes|
    requires forall t :: t in st.sessions ==> WellFormed(st.sessions[t])
    ensures CanStep(cfg, st, DecryptReplies(0, replies, b))
    ensures Next(cfg, st, DecryptReplies(0, replies, b)).sessions ==
            st.sessions[sid := AfterDecrypt(cfg, s, replies).session]
  {
    hide AfterDecrypt, WellFormed, Field.Prime;
  }

  /**
   The handler accepts an intent whose shares do not name two nodes, and from
   then on the round of its session fails, whatever the nodes reply: a run from
   the initial state.
   */
  lemma MisaddressedReached(cfg: Config, x: MpcIntent, y: MpcIntent, sid: SessionId)
    returns (states: seq<State>, steps: seq<Step>)
    requires ValidConfig(cfg) && Accepted(cfg, x) && Accepted(cfg, y) && x.intentId != y.intentId && !NamesTwo(cfg, x)
    ensures IsRun(cfg, states, steps) && |states| == |steps| + 1
    ensures steps == [Submit(x, sid), Submit(y, sid), ManualMatch(sid)] && sid in states[3].sessions
    ensures x.intentId in states[3].sessions[sid].intents && states[3].sessions[sid].status == Matching
    ensures forall replies, b :: |replies| == |cfg.nodes| ==>
              && CanStep(cfg, states[3], DecryptReplies(0, replies, b))
              && sid in Next(cfg, states[3], DecryptReplies(0, replies, b)).sessions
              && Next(cfg, states[3], DecryptReplies(0, replies, b)).sessions[sid].status == Failed
  {
    hide ValidConfig, OfTwo, IsRun, NamesTwo, CanGoOn, WellFormed, AfterDecrypt, Next, CanStep, Field.Prime, Inv;
    states, steps := TwoAwaited(cfg, x, y, sid);
    var s := OfTwo(x, y, sid).(status := Matching);
    OfTwoFacts(x, y, sid);
    MisaddressedStuck(cfg, x, y, sid);
    RunInv(cfg, states, steps, 3);
    AllWellFormed(cfg, states[3]);
    forall replies: seq<Option<seq<Answer>>>, b: string | |replies| == |cfg.nodes|
      ensures CanStep(cfg, states[3], DecryptReplies(0, replies, b))
      ensures sid in Next(cfg, states[3], DecryptReplies(0, replies, b)).sessions
      ensures Next(cfg, states[3], DecryptReplies(0, replies, b)).sessions[sid].status == Failed
    {
      DecryptReplied(cfg, states[3], sid, s, replies, b);
      StuckFails(cfg, s, replies);
    }
  }

  // ---- From a direct submission to a job ----

  /** One more step that is not the committee's and posts nothing. */
  lemma GoOn(cfg: Config, worlds: seq<World>, steps: seq<WStep>, step: WStep) returns (ws: seq<World>, ss: seq<WStep>)
    requires IsWorldRun(cfg, worlds, steps) && PollCan(worlds[|steps|], step) && HandlerCan(worlds[|steps|], step)
    requires CommitteeStep(step).None? && !step.Post?
    ensures IsWorldRun(cfg, ws, ss) && ss == steps + [step] && |ws| == |ss| + 1 && |worlds| == |steps| + 1
    ensures ws[|ss|] == World(worlds[|steps|].com, DbAfter(worlds[|steps|], step), worlds[|steps|].posted,
                              PersistsAfter(worlds[|steps|], step), PollsAfter(worlds[|steps|], step))
  {
    assert |worlds| == |steps| + 1;
    hide IsWorldRun, DbAfter, PersistsAfter, PollsAfter;
    ws := ExtendRun(cfg, worlds, steps, step);
    ss := steps + [step];
  }

  /** One more step of the committee. */
  lemma CommitteeGoesOn(cfg: Config, worlds: seq<World>, steps: seq<WStep>, step: WStep)
    returns (ws: seq<World>, ss: seq<WStep>)
    requires IsWorldRun(cfg, worlds, steps)
    requires step.Direct? || (step.Com? && !step.step.Submit?)
             || (step.Forward? && step.x.intentId in worlds[|steps|].posted)
    requires CanStep(cfg, worlds[|steps|].com, CommitteeStep(step).value)
    ensures IsWorldRun(cfg, ws, ss) && ss == steps + [step] && |ws| == |ss| + 1 && |worlds| == |steps| + 1
    ensures ws[|ss|] == worlds[|steps|].(com := Next(cfg, worlds[|steps|].com, CommitteeStep(step).value))
  {
    assert |worlds| == |steps| + 1;
    hide IsWorldRun, CanStep, Next;
    ws := ExtendRun(cfg, worlds, steps, step);
    ss := steps + [step];
  }

  lemma AtTheStart(cfg: Config, sid: SessionId)
    ensures IsWorldRun(cfg, [InitWorld()], []) && IsRun(cfg, [Init()], []) && Inv(cfg, Init())
    ensures InitWorld().com == Init()
    ensures FirstOpen(Init().order, Init().sessions).None? && sid !in Init().sessions
  {
    EmptyRun(cfg);
    InitInv(cfg);
  }

  lemma DirectMeansSubmit(x: MpcIntent, sid: SessionId, b: string)
    ensures CommitteeStep(Direct(x, sid)) == Some(Submit(x, sid))
    ensures CommitteeStep(Forward(x, sid)) == Some(Submit(x, sid))
    ensures CommitteeStep(Com(LocalMatch(sid, b))) == Some(LocalMatch(sid, b))
  {
  }

  /** Two opposite intents submitted directly are matched and signed; nothing is stored yet. */
  lemma DirectPairSigned(cfg: Config, x: MpcIntent, y: MpcIntent, sid: SessionId, b: string)
    returns (ws: seq<World>, ss: seq<WStep>)
    requires ValidConfig(cfg) && |cfg.nodes| >= 2 && Deliverable(cfg, x) && Deliverable(cfg, y) && Opposite(x, y)
    ensures IsWorldRun(cfg, ws, ss) && |ws| == |ss| + 1
    ensures ws[|ss|] == InitWorld().(com := ws[|ss|].com)
    ensures RoundDone(cfg, Init(), ws[|ss|].com, x.intentId, y.intentId, sid, b)
  {
    hide *;
    AtTheStart(cfg, sid);
    RoundOfTwo(cfg, Init(), x, y, sid, b);
    DirectMeansSubmit(x, sid, b);
    DirectMeansSubmit(y, sid, b);
    ws, ss := CommitteeGoesOn(cfg, [InitWorld()], [], Direct(x, sid));
    ws, ss := CommitteeGoesOn(cfg, ws, ss, Direct(y, sid));
    ws, ss := CommitteeGoesOn(cfg, ws, ss, Com(LocalMatch(sid, b)));
  }

  /** A first batch is stored and polled; the other tables are as in `db`. */
  ghost predicate AboutToQueue(w: World, batch: SignedBatch, db: Db) {
    && w.db == db.(sessions := w.db.sessions,
                   batches := map[batch.batchId := BatchRow(batch.sessionId, batch.matches, Pending)])
    && w.polls == [NewPoll(batch.batchId, batch.matches)]
  }

  lemma StoreAndPoll(cfg: Config, worlds: seq<World>, steps: seq<WStep>, sid: SessionId, batch: SignedBatch)
    returns (ws: seq<World>, ss: seq<WStep>)
    requires IsWorldRun(cfg, worlds, steps) && worlds[|steps|].db.batches == map[] && worlds[|steps|].polls == []
    requires sid in worlds[|steps|].com.sessions && worlds[|steps|].com.sessions[sid].signedBatch == Some(batch)
    requires batch.sessionId == sid
    ensures IsWorldRun(cfg, ws, ss) && |ws| == |ss| + 1 && |worlds| == |steps| + 1 && steps <= ss
    ensures AboutToQueue(ws[|ss|], batch, worlds[|steps|].db)
  {
    hide IsWorldRun;
    ws, ss := GoOn(cfg, worlds, steps, OpenRow(sid));
    ws, ss := GoOn(cfg, ws, ss, PersistStart(sid));
    ws, ss := GoOn(cfg, ws, ss, PollStart(batch.batchId));
  }

  lemma QueueFirst(cfg: Config, worlds: seq<World>, steps: seq<WStep>, batch: SignedBatch, db: Db)
    returns (ws: seq<World>, ss: seq<WStep>)
    requires IsWorldRun(cfg, worlds, steps) && AboutToQueue(worlds[|steps|], batch, db) && db.jobs == []
    requires batch.matches != [] && !RfqRoutedMatch(db, batch.matches[0])
    ensures IsWorldRun(cfg, ws, ss) && |ws| == |ss| + 1 && steps <= ss
    ensures var db' := ws[|ss|].db;
            && |db'.jobs| == 1 && db'.jobs[0].aId == batch.matches[0].aId && db'.jobs[0].bId == batch.matches[0].bId
            && db'.intents == db.intents && db'.quotes == db.quotes && db'.fills == db.fills
  {
    hide IsWorldRun, JobKey;
    ws, ss := GoOn(cfg, worlds, steps, PollRead(0, false));
    ws, ss := GoOn(cfg, ws, ss, PollRead(0, true));
    ws, ss := GoOn(cfg, ws, ss, PollDecide(0));
    ws, ss := GoOn(cfg, ws, ss, PollInsert(0));
  }

  /** A signed pair without RFQ rows goes on to its job. */
  lemma SignedPairQueued(cfg: Config, worlds: seq<World>, steps: seq<WStep>, x: IntentId, y: IntentId, sid: SessionId,
                         b: string)
    returns (ws: seq<World>, ss: seq<WStep>)
    requires IsWorldRun(cfg, worlds, steps) && worlds[|steps|].polls == []
    requires worlds[|steps|].db.batches == map[] && worlds[|steps|].db.jobs == []
    requires sid in worlds[|steps|].com.sessions && SignedPair(worlds[|steps|].com.sessions[sid], sid, b, x, y)
    requires x !in worlds[|steps|].db.intents && y !in worlds[|steps|].db.intents
    ensures IsWorldRun(cfg, ws, ss) && |ws| == |ss| + 1 && |worlds| == |steps| + 1 && steps <= ss
    ensures var db, db' := worlds[|steps|].db, ws[|ss|].db;
            && |db'.jobs| == 1 && JobMentions(db'.jobs[0], x) && JobMentions(db'.jobs[0], y)
            && db'.intents == db.intents && db'.quotes == db.quotes && db'.fills == db.fills
  {
    assert |worlds| == |steps| + 1;
    hide IsWorldRun, AboutToQueue;
    var batch := worlds[|steps|].com.sessions[sid].signedBatch.value;
    ws, ss := StoreAndPoll(cfg, worlds, steps, sid, batch);
    ws, ss := QueueFirst(cfg, ws, ss, batch, worlds[|steps|].db);
  }

  /**
   Any two opposite intents submitted directly, under ids of the clients' own
   choice, can get a settlement job, with no RFQ row in sight.
   */
  lemma DirectJobReached(cfg: Config, x: MpcIntent, y: MpcIntent, sid: SessionId, b: string)
    returns (ws: seq<World>, ss: seq<WStep>)
    requires ValidConfig(cfg) && |cfg.nodes| >= 2 && Deliverable(cfg, x) && Deliverable(cfg, y) && Opposite(x, y)
    ensures IsWorldRun(cfg, ws, ss) && |ws| == |ss| + 1
    ensures var db := ws[|ss|].db;
            && |db.jobs| == 1 && JobMentions(db.jobs[0], x.intentId) && JobMentions(db.jobs[0], y.intentId)
            && db.intents == map[] && db.quotes == map[] && db.fills == []
  {
    hide IsWorldRun, ValidConfig, Deliverable, Inv, Frozen, FirstOpen, Init, SignedPair;
    ws, ss := DirectPairSigned(cfg, x, y, sid, b);
    ws, ss := SignedPairQueued(cfg, ws, ss, x.intentId, y.intentId, sid, b);
  }

  /** The exclusion does fail: such a run goes on until the first intent is settled as an RFQ one too. */
  lemma BothPathsReached(cfg: Config, x: MpcIntent, y: MpcIntent, sid: SessionId, b: string,
                         key: string, user: string, q: QuoteId, quoteHash: string, f: string, receipt: string,
                           nullifier: string)
    returns (ws: seq<World>, ss: seq<WStep>)
    requires ValidConfig(cfg) && |cfg.nodes| >= 2 && Deliverable(cfg, x) && Deliverable(cfg, y) && Opposite(x, y)
    ensures IsWorldRun(cfg, ws, ss) && |ws| == |ss| + 1
    ensures var db := ws[|ss|].db;
            |db.jobs| > 0 && JobMentions(db.jobs[0], x.intentId)
              && SettlementId(x.intentId, q, nullifier) in db.settlements
  {
    hide IsWorldRun, ValidConfig, Deliverable;
    ws, ss := DirectJobReached(cfg, x, y, sid, b);
    var db := ws[|ss|].db;
    assert !KeyTaken(db, key) && !QuoteHashTaken(db, quoteHash) && !FillKnown(db, f);
    ws := LateRowBreaks(cfg, ws, ss, 0, x.intentId, key, user, q, quoteHash, f, receipt, nullifier);
    ss := ss + RfqPath(x.intentId, key, user, q, quoteHash, f, receipt, nullifier);
  }

  // ---- A reused idempotency key ----

  /** A second intent is posted under a key that is taken: it gets no row, but counts as posted. */
  lemma PostTwice(cfg: Config, h: Hash, id: Hash, key: string, user: string) returns (ws: seq<World>, ss: seq<WStep>)
    requires h != id
    ensures IsWorldRun(cfg, ws, ss) && |ws| == |ss| + 1 && ss == [Post(h, key, user), Post(id, key, user)]
    ensures ws[|ss|] == InitWorld().(db := EmptyDb().(intents := map[h := IntentRow(key, user, None)]),
            posted := {h, id})
  {
    EmptyRun(cfg);
    var first, second := Post(h, key, user), Post(id, key, user);
    RfqStepsAlwaysEnabled(cfg, InitWorld(), first);
    ws := ExtendRun(cfg, [InitWorld()], [], first);
    var one := InitWorld().(db := EmptyDb().(intents := map[h := IntentRow(key, user, None)]), posted := {h});
    assert ws[1] == one;
    assert KeyTaken(one.db, key);
    RfqStepsAlwaysEnabled(cfg, one, second);
    assert [] + [first] == [first];
    hide IsWorldRun, KeyTaken;
    ws := ExtendRun(cfg, ws, [first], second);
    ss := [first] + [second];
  }

  /** The intent without a row is forwarded and matched with a direct one. */
  lemma ForwardedPairSigned(cfg: Config, worlds: seq<World>, steps: seq<WStep>, x: MpcIntent, y: MpcIntent,
                            sid: SessionId, b: string)
    returns (ws: seq<World>, ss: seq<WStep>)
    requires ValidConfig(cfg) && |cfg.nodes| >= 2 && Deliverable(cfg, x) && Deliverable(cfg, y) && Opposite(x, y)
    requires IsWorldRun(cfg, worlds, steps) && worlds[|steps|].com == Init() && x.intentId in worlds[|steps|].posted
    ensures IsWorldRun(cfg, ws, ss) && |ws| == |ss| + 1 && |worlds| == |steps| + 1 && steps <= ss
    ensures ws[|ss|] == worlds[|steps|].(com := ws[|ss|].com)
    ensures RoundDone(cfg, Init(), ws[|ss|].com, x.intentId, y.intentId, sid, b)
  {
    hide *;
    AtTheStart(cfg, sid);
    RoundOfTwo(cfg, Init(), x, y, sid, b);
    DirectMeansSubmit(x, sid, b);
    DirectMeansSubmit(y, sid, b);
    ws, ss := CommitteeGoesOn(cfg, worlds, steps, Forward(x, sid));
    ws, ss := CommitteeGoesOn(cfg, ws, ss, Direct(y, sid));
    ws, ss := CommitteeGoesOn(cfg, ws, ss, Com(LocalMatch(sid, b)));
  }

  /**
   A reused key does lead there: an intent posted under another's key gets no row,
   is forwarded, matched, signed and queued like a direct one, and then, posted
   again under a key of its own, is settled as an RFQ intent too.
   */
  lemma KeyReuseReached(cfg: Config, h: Hash, x: MpcIntent, y: MpcIntent, sid: SessionId, b: string, key: string,
                        ownKey: string,
                        user: string, q: QuoteId, quoteHash: string, f: string, receipt: string, nullifier: string)
    returns (ws: seq<World>, ss: seq<WStep>)
    requires ValidConfig(cfg) && |cfg.nodes| >= 2 && Deliverable(cfg, x) && Deliverable(cfg, y) && Opposite(x, y)
    requires h != x.intentId && h != y.intentId && ownKey != key
    ensures IsWorldRun(cfg, ws, ss) && |ws| == |ss| + 1
    ensures |ss| > 2 && ss[0] == Post(h, key, user) && ss[1] == Post(x.intentId, key, user)
    ensures var db := ws[|ss|].db;
            |db.jobs| > 0 && JobMentions(db.jobs[0], x.intentId)
              && SettlementId(x.intentId, q, nullifier) in db.settlements
  {
    hide IsWorldRun, ValidConfig, Deliverable, Inv, Frozen, FirstOpen, Init, SignedPair;
    ws, ss := PostTwice(cfg, h, x.intentId, key, user);
    ws, ss := ForwardedPairSigned(cfg, ws, ss, x, y, sid, b);
    ws, ss := SignedPairQueued(cfg, ws, ss, x.intentId, y.intentId, sid, b);
    var db := ws[|ss|].db;
    assert !KeyTaken(db, ownKey) && !QuoteHashTaken(db, quoteHash) && !FillKnown(db, f);
    ws := LateRowBreaks(cfg, ws, ss, 0, x.intentId, ownKey, user, q, quoteHash, f, receipt, nullifier);
    ss := ss + RfqPath(x.intentId, ownKey, user, q, quoteHash, f, receipt, nullifier);
  }
}
