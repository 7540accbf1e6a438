/**
 The committee's state object and its handlers as they run, changing fields in
 place (state.ts, coordinator-server.ts, server.ts, remote-coordinator.ts under
 apps/mpc-committee/src). Every handler is proved to take exactly one protocol
 step, so the invariant and the theorems about runs hold of it.
 */
module Committee {
  import opened Collections
  import opened Session
  import opened Protocol
  import opened SessionProofs
  import opened ProtocolProofs
  import opened Runs
  import opened Timers
  import Field
  import M = Matcher
  import S = Shamir

  // ---- The loops of a round ----

  method StoreAnswers(entries: NodeShares, answers: seq<Answer>) returns (r: NodeShares)
    ensures r == ApplyAnswers(entries, answers)
  {
    r := entries;
    for i := 0 to |answers|
      invariant r == ApplyAnswers(entries, answers[..i])
    {
      assert answers[..i + 1][..i] == answers[..i];
      if answers[i].intentId in r {
        r := r[answers[i].intentId := r[answers[i].intentId].(decrypted := answers[i].share)];
      }
    }
    assert answers[..|answers|] == answers;
  }

  method StoreDecrypted(shares: ShareTable, nodes: seq<NodeId>, replies: seq<Option<seq<Answer>>>)
    returns (r: ShareTable)
    requires |nodes| == |replies|
    ensures r == StoreReplies(shares, nodes, replies, |nodes|)
  {
    r := shares;
    for i := 0 to |nodes|
      invariant r == StoreReplies(shares, nodes, replies, i)
    {
      if replies[i].Some? && nodes[i] in r {
        var entries := StoreAnswers(r[nodes[i]], replies[i].value);
        r := r[nodes[i] := entries];
      }
    }
  }

  method CountResponses<T>(replies: seq<Option<T>>) returns (n: nat)
    ensures n == Responding(replies)
  {
    n := 0;
    for i := 0 to |replies|
      invariant n == Responding(replies[..i])
    {
      assert replies[..i + 1][..i] == replies[..i];
      if replies[i].Some? {
        n := n + 1;
      }
    }
    assert replies[..|replies|] == replies;
  }

  lemma {:induction false} TwoAreEnough(shares: ShareTable, nodes: seq<NodeId>, id: IntentId, n: nat, m: nat)
    requires n <= m <= |nodes| && |Available(shares, nodes, id, n)| >= 2
    ensures Available(shares, nodes, id, m) == Available(shares, nodes, id, n)
    decreases m
  {
    if n < m {
      TwoAreEnough(shares, nodes, id, n, m - 1);
    }
  }

  /** Reads the nodes in order and stops at the second share. */
  method PickShares(shares: ShareTable, nodes: seq<NodeId>, id: IntentId) returns (r: seq<S.Share>)
    ensures r == Available(shares, nodes, id, |nodes|)
  {
    r := [];
    for i := 0 to |nodes|
      invariant |r| < 2 && r == Available(shares, nodes, id, i)
    {
      var d := Decrypted(shares, nodes[i], id);
      if d.Some? {
        r := r + [d.value];
      }
      if |r| >= 2 {
        TwoAreEnough(shares, nodes, id, i + 1, |nodes|);
        return;
      }
    }
  }

  lemma {:induction false} RebuildStaysNone(s: SessionState, shares: ShareTable, cfg: Config, n: nat, m: nat)
    requires Field.Prime(cfg.p) && WellFormed(s) && n <= m <= |s.order| && Rebuild(s, shares, cfg, n).None?
    ensures Rebuild(s, shares, cfg, m).None?
    decreases m
  {
    hide S.Reconstructed, Available, Field.Prime;
    if n < m {
      RebuildStaysNone(s, shares, cfg, n, m - 1);
    }
  }

  /** Reconstructs every amount from two shares, giving up at the first intent that has fewer. */
  method RebuildAmounts(s: SessionState, shares: ShareTable, cfg: Config) returns (r: Option<seq<M.Intent>>)
    requires Field.Prime(cfg.p) && WellFormed(s)
    ensures r == Rebuild(s, shares, cfg, |s.order|)
  {
    hide S.Reconstructed, Available, Field.Prime;
    var xs: seq<M.Intent> := [];
    for i := 0 to |s.order|
      invariant Rebuild(s, shares, cfg, i) == Some(xs)
    {
      var id := s.order[i];
      assert id in s.order;
      var picked := PickShares(shares, cfg.nodes, id);
      if |picked| < 2 {
        RebuildStaysNone(s, shares, cfg, i + 1, |s.order|);
        return None;
      }
      var amount := S.ShamirReconstruct(picked, cfg.p);
      xs := xs + [M.Intent(id, amount, s.intents[id].inputAsset, s.intents[id].outputAsset)];
    }
    r := Some(xs);
  }

  method ClearDecrypted(shares: ShareTable, nodes: seq<NodeId>) returns (r: ShareTable)
    ensures r == ClearNodes(shares, nodes, |nodes|)
  {
    r := shares;
    for i := 0 to |nodes|
      invariant r == ClearNodes(shares, nodes, i)
    {
      if nodes[i] in r {
        r := r[nodes[i] := ClearNode(r[nodes[i]])];
      }
    }
  }

  method CollectSigners(nodes: seq<NodeId>, replies: seq<bool>) returns (r: seq<NodeId>)
    requires |nodes| == |replies|
    ensures r == Signers(nodes, replies, |nodes|)
  {
    r := [];
    for i := 0 to |nodes|
      invariant r == Signers(nodes, replies, i)
    {
      if replies[i] {
        r := r + [nodes[i]];
      }
    }
  }

  lemma {:induction false} FailureStays(shares: ShareTable, nodes: seq<NodeId>, n: nat, m: nat)
    requires n <= m <= |nodes| && !DecryptAll(shares, nodes, n).ok
    ensures DecryptAll(shares, nodes, m) == DecryptAll(shares, nodes, n)
    decreases m
  {
    if n < m {
      FailureStays(shares, nodes, n, m - 1);
    }
  }

  /** Every place has its entry. */
  lemma EntryAt(entries: NodeShares, i: nat)
    requires InOrder(entries) && i < |entries|
    ensures exists id :: id in entries && entries[id].position == i
  {
    assert |entries| == |entries.Keys|;
    if forall id :: id in entries ==> entries[id].position != i {
      var place: IntentId -> nat := id => if id in entries then entries[id].position else 0;
      InjectionSize(entries.Keys, Below(|entries|) - {i}, place);
    }
  }

  /** The entries before place `i` are opened. */
  ghost predicate OpenedBelow(node: NodeId, entries: NodeShares, r: NodeShares, i: nat) {
    && r.Keys == entries.Keys
    && forall id :: id in entries ==>
         if entries[id].position < i
         then Opens(node, entries[id]) && r[id] == entries[id].(decrypted := Some(entries[id].cipher.share))
         else r[id] == entries[id]
  }

  lemma OpenedUpTo(node: NodeId, entries: NodeShares, r: NodeShares, bad: IntentId)
    requires bad in entries && !Opens(node, entries[bad]) && OpenedBelow(node, entries, r, entries[bad].position)
    ensures r == DecryptNode(node, entries) && !CanDecrypt(node, entries)
  {
    forall id | id in entries
      ensures Reached(node, entries, id) <==> entries[id].position < entries[bad].position
    {
      if entries[id].position < entries[bad].position {
        forall other | other in entries && !Opens(node, entries[other])
          ensures entries[id].position < entries[other].position
        {
        }
      }
    }
    hide Reached;
  }

  lemma AllOpened(node: NodeId, entries: NodeShares, r: NodeShares)
    requires InOrder(entries) && OpenedBelow(node, entries, r, |entries|)
    ensures r == DecryptNode(node, entries) && CanDecrypt(node, entries)
  {
  }

  /** A node opens its entries in order; the first that cannot be opened ends the loop. */
  method DecryptEntries(node: NodeId, entries: NodeShares) returns (r: NodeShares, ok: bool)
    requires InOrder(entries)
    ensures r == DecryptNode(node, entries) && (ok <==> CanDecrypt(node, entries))
  {
    hide DecryptNode, CanDecrypt;
    r := entries;
    for i := 0 to |entries|
      invariant OpenedBelow(node, entries, r, i)
    {
      EntryAt(entries, i);
      var id :| id in entries && entries[id].position == i;
      if !Opens(node, entries[id]) {
        OpenedUpTo(node, entries, r, id);
        return r, false;
      }
      r := r[id := entries[id].(decrypted := Some(entries[id].cipher.share))];
    }
    AllOpened(node, entries, r);
    ok := true;
  }

  ghost predicate AllInOrder(shares: ShareTable) {
    forall node :: node in shares ==> InOrder(shares[node])
  }

  lemma OrderOfTable(shares: ShareTable, table: ShareTable, node: NodeId)
    requires AllInOrder(shares) && SameSlots(shares, table) && node in table
    ensures InOrder(table[node])
  {
    InOrderStays(shares[node], table[node]);
  }

  /** Node after node, up to the first that cannot open an entry. */
  method DecryptInProcess(shares: ShareTable, nodes: seq<NodeId>) returns (r: Decrypting)
    requires AllInOrder(shares)
    ensures r == DecryptAll(shares, nodes, |nodes|)
  {
    hide DecryptNode, CanDecrypt, AllInOrder, InOrder, SameSlots;
    var table := shares;
    for i := 0 to |nodes|
      invariant DecryptAll(shares, nodes, i) == Decrypting(table, true)
    {
      if nodes[i] in table {
        DecryptKeepsSlots(shares, nodes, i);
        OrderOfTable(shares, table, nodes[i]);
        var entries, ok := DecryptEntries(nodes[i], table[nodes[i]]);
        table := table[nodes[i] := entries];
        if !ok {
          FailureStays(shares, nodes, i + 1, |nodes|);
          return Decrypting(table, false);
        }
      }
    }
    r := Decrypting(table, true);
  }

  /** From the decrypt replies to the signing request. */
  method FinishDecrypt(cfg: Config, s: SessionState, replies: seq<Option<seq<Answer>>>) returns (r: RoundResult)
    requires Field.Prime(cfg.p) && |replies| == |cfg.nodes| && WellFormed(s)
    ensures r == AfterDecrypt(cfg, s, replies)
  {
    hide StoreReplies, Rebuild, ClearNodes, M.MatchesOf, Field.Prime, Responding, WellFormed;
    var responding := CountResponses(replies);
    if responding < Threshold(|cfg.nodes|) {
      return RoundResult(s.(status := Failed), None);
    }
    var shares := StoreDecrypted(s.shares, cfg.nodes, replies);
    var rebuilt := RebuildAmounts(s, shares, cfg);
    if rebuilt.None? {
      return RoundResult(s.(status := Failed, shares := shares), None);
    }
    var cleared := ClearDecrypted(shares, cfg.nodes);
    var matches := M.MatchIntents(rebuilt.value, cfg.sort);
    r := RoundResult(s.(shares := cleared), Some(matches));
  }

  method FinishSign(cfg: Config, s: SessionState, batchId: string, matches: seq<M.Match>, replies: seq<bool>)
    returns (r: SessionState)
    requires |replies| == |cfg.nodes|
    ensures r == AfterSign(cfg, s, batchId, matches, replies)
  {
    var signers := CollectSigners(cfg.nodes, replies);
    if |signers| < Threshold(|cfg.nodes|) {
      return s.(status := Failed);
    }
    r := s.(status := Signed, signedBatch := Some(SignedBatch(batchId, s.sessionId, matches, signers)));
  }

  method RunInProcess(cfg: Config, s: SessionState, batchId: string) returns (r: SessionState)
    requires Field.Prime(cfg.p) && WellFormed(s) && SlotsOk(s)
    ensures r == InProcess(cfg, s, batchId)
  {
    assert AllInOrder(s.shares);
    hide DecryptAll, Rebuild, ClearNodes, M.MatchesOf, Field.Prime, WellFormed;
    var d := DecryptInProcess(s.shares, cfg.nodes);
    if !d.ok {
      return s.(status := Failed, shares := d.shares);
    }
    var rebuilt := RebuildAmounts(s, d.shares, cfg);
    if rebuilt.None? {
      return s.(status := Failed, shares := d.shares);
    }
    var cleared := ClearDecrypted(d.shares, cfg.nodes);
    var matches := M.MatchIntents(rebuilt.value, cfg.sort);
    r := s.(status := Signed, shares := cleared,
            signedBatch := Some(SignedBatch(batchId, s.sessionId, matches, cfg.nodes)));
  }

  // ---- The state object ----

  lemma {:induction false} FirstOpenFound(order: seq<SessionId>, sessions: map<SessionId, SessionState>, n: nat, m: nat)
    requires n <= m <= |order| && FirstOpen(order[..n], sessions).Some?
    ensures FirstOpen(order[..m], sessions) == FirstOpen(order[..n], sessions)
    decreases m
  {
    if n < m {
      FirstOpenFound(order, sessions, n, m - 1);
      assert order[..m][..m - 1] == order[..m - 1];
    }
  }

  ghost predicate Takes(cfg: Config, st: State, step: Step, st': State) {
    CanStep(cfg, st, step) && st' == Next(cfg, st, step)
  }

  lemma CanTake(cfg: Config, st: State, step: Step)
    requires ValidConfig(cfg) && Inv(cfg, st) && Enabled(cfg, st, step)
    ensures CanStep(cfg, st, step)
    ensures Inv(cfg, Next(cfg, st, step)) && Frozen(st, Next(cfg, st, step))
  {
    assert Field.Prime(cfg.p);
    hide ValidConfig, Inv, Enabled, Next, Frozen, WellFormed, Field.Prime;
    StepKeeps(cfg, st, step);
  }

  lemma AllSlotsOk(cfg: Config, st: State)
    requires Inv(cfg, st)
    ensures forall sid :: sid in st.sessions ==> SlotsOk(st.sessions[sid])
  {
    hide SlotsOk;
  }

  lemma KeepsSlotsOk(s: SessionState)
    requires SlotsOk(s)
    ensures SlotsOk(s.(status := Matching))
  {
    hide InOrder;
  }

  lemma RoundSession(cfg: Config, st: State, r: nat)
    requires Inv(cfg, st) && r in st.rounds
    ensures r < |st.started| && st.started[r] in st.sessions && WellFormed(st.sessions[st.started[r]])
  {
    hide MatchesOk, NoRepeats, NoDecrypted, Quorum;
    assert SessionOk(cfg, st.started[r], st.sessions[st.started[r]]);
  }

  lemma DecryptStep(cfg: Config, st: State, r: nat, replies: seq<Option<seq<Answer>>>, batchId: string)
    requires CanStep(cfg, st, DecryptReplies(r, replies, batchId))
    ensures r in st.rounds && r < |st.started| && st.started[r] in st.sessions && WellFormed(st.sessions[st.started[r]])
    ensures var result := AfterDecrypt(cfg, st.sessions[st.started[r]], replies);
            Next(cfg, st, DecryptReplies(r, replies, batchId)) == State(
              st.order, st.sessions[st.started[r] := result.session], st.intentToSession, st.started,
              if result.matches.None? then st.rounds - {r}
                else st.rounds[r := AwaitSign(batchId, result.matches.value)], st.ticks)
  {
    hide AfterDecrypt, WellFormed, Field.Prime;
  }

  lemma TickStep(cfg: Config, st: State, batchId: string)
    requires CanStep(cfg, st, LocalTick(batchId))
    ensures Next(cfg, st, LocalTick(batchId)) == VisitLocal(cfg, st, OpenSessions(st.order, st.sessions), batchId)
  {
    hide VisitLocal, OpenSessions, WellFormed, Field.Prime;
  }

  lemma SignStep(cfg: Config, st: State, r: nat, signed: seq<bool>)
    requires CanStep(cfg, st, SignReplies(r, signed))
    ensures r in st.rounds && st.rounds[r].AwaitSign? && r < |st.started| && st.started[r] in st.sessions
    ensures var s := AfterSign(cfg, st.sessions[st.started[r]], st.rounds[r].batchId, st.rounds[r].matches, signed);
            Next(cfg, st, SignReplies(r, signed)) ==
            State(st.order, st.sessions[st.started[r] := s], st.intentToSession, st.started, st.rounds - {r}, st.ticks)
  {
    hide AfterSign, WellFormed, Field.Prime;
  }

  /** Every encrypted share goes under its node, whose map is made when it is missing. */
  method StoreAllShares(table: ShareTable, id: IntentId, es: seq<EncryptedShare>) returns (shares: ShareTable)
    ensures shares == StoreShares(table, id, es)
  {
    shares := table;
    for i := 0 to |es|
      invariant shares == StoreShares(table, id, es[..i])
    {
      var e := es[i];
      assert es[..i + 1][..i] == es[..i];
      if e.nodeId !in shares {
        shares := shares[e.nodeId := map[]];
      }
      shares := shares[e.nodeId := shares[e.nodeId][id :=
        ShareEntry(e.cipher, None, SlotPosition(shares[e.nodeId], id))]];
    }
    assert es[..|es|] == es;
  }

  class CommitteeState {
    const cfg: Config
    var order: seq<SessionId>
    var sessions: map<SessionId, SessionState>
    var intentToSession: map<IntentId, SessionId>
    var started: seq<SessionId>
    var rounds: map<nat, Phase>
    var ticks: seq<Tick>

    ghost function View(): State
      reads this
    {
      State(order, sessions, intentToSession, started, rounds, ticks)
    }

    ghost predicate Valid()
      reads this
    {
      ValidConfig(cfg) && Inv(cfg, View())
    }

    constructor (cfg: Config)
      requires ValidConfig(cfg)
      ensures this.cfg == cfg && Valid() && View() == Init()
    {
      this.cfg := cfg;
      order, sessions, intentToSession := [], map[], map[];
      started, rounds, ticks := [], map[], [];
      new;
      hide ValidConfig;
    }

    method NewSessionNamed(id: SessionId)
      modifies this
      ensures View() == Protocol.CreateSession(old(View()), id)
    {
      if id !in sessions {
        order := order + [id];
      }
      sessions := sessions[id := NewSession(id)];
    }

    method GetOrCreateOpenSession(newId: SessionId) returns (sid: SessionId)
      modifies this
      ensures var found := FirstOpen(old(order), old(sessions));
              if found.Some? then sid == found.value && View() == old(View())
              else sid == newId && View() == Protocol.CreateSession(old(View()), newId)
    {
      for i := 0 to |order|
        invariant View() == old(View())
        invariant FirstOpen(order[..i], sessions).None?
      {
        assert order[..i + 1][..i] == order[..i];
        if order[i] in sessions && sessions[order[i]].status == Open {
          FirstOpenFound(order, sessions, i + 1, |order|);
          assert order[..|order|] == order;
          return order[i];
        }
      }
      assert order[..|order|] == order;
      NewSessionNamed(newId);
      sid := newId;
    }

    method GetOpenSessions() returns (open: seq<SessionId>)
      ensures open == OpenSessions(order, sessions)
    {
      open := [];
      for i := 0 to |order|
        invariant open == OpenSessions(order[..i], sessions)
      {
        assert order[..i + 1][..i] == order[..i];
        if order[i] in sessions && sessions[order[i]].status == Open {
          open := open + [order[i]];
        }
      }
      assert order[..|order|] == order;
    }

    method AddIntent(x: MpcIntent, newId: SessionId) returns (sid: SessionId)
      modifies this
      ensures View() == Protocol.AddIntent(old(View()), x, newId)
      ensures x.intentId in intentToSession && intentToSession[x.intentId] == sid
    {
      hide FirstOpen, StoreShares;
      sid := GetOrCreateOpenSession(newId);
      var s := sessions[sid];
      var shares := StoreAllShares(s.shares, x.intentId, x.encryptedShares);
      sessions := sessions[sid := s.(
        order := if x.intentId in s.intents then s.order else s.order + [x.intentId],
        intents := s.intents[x.intentId := x], shares := shares)];
      intentToSession := intentToSession[x.intentId := sid];
    }

    // ---- Handlers: each takes one protocol step ----

    method HandleSubmit(x: MpcIntent, newId: SessionId) returns (accepted: bool)
      requires Valid() && (FirstOpen(order, sessions).None? ==> newId !in sessions)
      modifies this
      ensures accepted <==> x.intentId != "" && |x.encryptedShares| == |cfg.nodes|
      ensures Valid() && Frozen(old(View()), View()) && Takes(cfg, old(View()), Submit(x, newId), View())
    {
      CanTake(cfg, View(), Submit(x, newId));
      hide ValidConfig, Inv, Frozen, FirstOpen, CanStep, Protocol.AddIntent;
      if x.intentId == "" || |x.encryptedShares| != |cfg.nodes| {
        return false;
      }
      var _ := AddIntent(x, newId);
      accepted := true;
    }

    method BeginRound(sid: SessionId)
      requires sid in sessions
      modifies this
      ensures View() == BeginRemote(old(View()), sid)
    {
      sessions := sessions[sid := sessions[sid].(status := Matching)];
      rounds := rounds[|started| := AwaitDecrypt];
      started := started + [sid];
    }

    method HandleMatch(sid: SessionId) returns (begun: bool)
      requires Valid()
      modifies this
      ensures begun <==> old(sid in sessions && sessions[sid].status == Open && |sessions[sid].intents| >= 2)
      ensures begun ==> sid in sessions && sessions[sid].status == Matching
      ensures Valid() && Frozen(old(View()), View()) && Takes(cfg, old(View()), ManualMatch(sid), View())
    {
      CanTake(cfg, View(), ManualMatch(sid));
      hide ValidConfig, Inv, Frozen, CanStep, BeginRemote;
      if sid !in sessions || sessions[sid].status != Open || |sessions[sid].intents| < 2 {
        return false;
      }
      BeginRound(sid);
      begun := true;
    }

    /** The timer's loop up to its first wait. */
    method VisitSnapshot(snapshot: seq<SessionId>)
      modifies this
      ensures View() == VisitRemote(old(View()), snapshot)
    {
      hide BeginRemote;
      assert snapshot[0..] == snapshot;
      for i := 0 to |snapshot|
        invariant View() == old(View())
        invariant VisitRemote(View(), snapshot) == VisitRemote(View(), snapshot[i..])
      {
        assert snapshot[i..][1..] == snapshot[i + 1..];
        if snapshot[i] in sessions && |sessions[snapshot[i]].intents| >= 2 {
          var r := |started|;
          BeginRound(snapshot[i]);
          ticks := ticks + [Tick(Some(r), snapshot[i + 1..])];
          return;
        }
      }
    }

    method HandleTimer()
      requires Valid()
      modifies this
      ensures Valid() && Frozen(old(View()), View()) && Takes(cfg, old(View()), TimerTick, View())
    {
      CanTake(cfg, View(), TimerTick);
      hide ValidConfig, Inv, Frozen, CanStep, VisitRemote, OpenSessions;
      var open := GetOpenSessions();
      VisitSnapshot(open);
    }

    method HandleResume(k: nat, batchId: string)
      requires Valid() && k < |ticks| && (ticks[k].after.Some? ==> ticks[k].after.value !in rounds)
      modifies this
      ensures Valid() && Frozen(old(View()), View()) && Takes(cfg, old(View()), ResumeTick(k, batchId), View())
    {
      CanTake(cfg, View(), ResumeTick(k, batchId));
      AllWellFormed(cfg, View());
      AllSlotsOk(cfg, View());
      assert Field.Prime(cfg.p);
      hide ValidConfig, Inv, Frozen, CanStep, VisitRemote, VisitLocal, WellFormed, SlotsOk, Field.Prime;
      var tick := ticks[k];
      ticks := ticks[..k] + ticks[k + 1..];
      if tick.after.Some? {
        VisitSnapshot(tick.rest);
      } else {
        VisitSnapshotHere(tick.rest, batchId);
      }
    }

    method HandleDecryptReplies(r: nat, replies: seq<Option<seq<Answer>>>, batchId: string)
      requires Valid() && r in rounds && rounds[r].AwaitDecrypt? && |replies| == |cfg.nodes|
      modifies this
      ensures Valid() && Frozen(old(View()), View())
      ensures Takes(cfg, old(View()), DecryptReplies(r, replies, batchId), View())
    {
      hide ValidConfig, Inv, Frozen, CanStep, AfterDecrypt, WellFormed, Field.Prime, Next;
      RoundSession(cfg, View(), r);
      CanTake(cfg, View(), DecryptReplies(r, replies, batchId));
      DecryptStep(cfg, View(), r, replies, batchId);
      ConfigPrime(cfg);
      var sid := started[r];
      var result := FinishDecrypt(cfg, sessions[sid], replies);
      sessions := sessions[sid := result.session];
      if result.matches.Some? {
        rounds := rounds[r := AwaitSign(batchId, result.matches.value)];
      } else {
        rounds := rounds - {r};
      }
    }

    method HandleSignReplies(r: nat, signed: seq<bool>)
      requires Valid() && r in rounds && rounds[r].AwaitSign? && |signed| == |cfg.nodes|
      modifies this
      ensures Valid() && Frozen(old(View()), View()) && Takes(cfg, old(View()), SignReplies(r, signed), View())
    {
      hide ValidConfig, Inv, Frozen, CanStep, AfterSign, WellFormed, Next;
      RoundSession(cfg, View(), r);
      CanTake(cfg, View(), SignReplies(r, signed));
      SignStep(cfg, View(), r, signed);
      var sid := started[r];
      var s := FinishSign(cfg, sessions[sid], rounds[r].batchId, rounds[r].matches, signed);
      sessions := sessions[sid := s];
      rounds := rounds - {r};
    }

    method RunRoundHere(sid: SessionId, batchId: string)
      requires Field.Prime(cfg.p) && sid in sessions && WellFormed(sessions[sid]) && SlotsOk(sessions[sid])
      modifies this
      ensures View() == RunLocal(cfg, old(View()), sid, batchId)
    {
      hide InProcess, Field.Prime;
      KeepsSlotsOk(sessions[sid]);
      var s := RunInProcess(cfg, sessions[sid].(status := Matching), batchId);
      sessions := sessions[sid := s];
      started := started + [sid];
    }

    method HandleLocalMatch(sid: SessionId, batchId: string) returns (ran: bool)
      requires Valid()
      modifies this
      ensures ran <==> old(sid in sessions && sessions[sid].status == Open && |sessions[sid].intents| >= 2)
      ensures Valid() && Frozen(old(View()), View()) && Takes(cfg, old(View()), LocalMatch(sid, batchId), View())
    {
      CanTake(cfg, View(), LocalMatch(sid, batchId));
      AllWellFormed(cfg, View());
      AllSlotsOk(cfg, View());
      assert Field.Prime(cfg.p);
      hide ValidConfig, Inv, Frozen, CanStep, RunLocal, WellFormed, SlotsOk, Field.Prime;
      if sid !in sessions || sessions[sid].status != Open || |sessions[sid].intents| < 2 {
        return false;
      }
      RunRoundHere(sid, batchId);
      ran := true;
    }

    method VisitSnapshotHere(snapshot: seq<SessionId>, batchId: string)
      requires Field.Prime(cfg.p)
      requires forall sid :: sid in sessions ==> WellFormed(sessions[sid]) && SlotsOk(sessions[sid])
      modifies this
      ensures View() == VisitLocal(cfg, old(View()), snapshot, batchId)
    {
      hide RunLocal, WellFormed, SlotsOk, Field.Prime;
      assert snapshot[0..] == snapshot;
      for i := 0 to |snapshot|
        invariant View() == old(View())
        invariant VisitLocal(cfg, View(), snapshot, batchId) == VisitLocal(cfg, View(), snapshot[i..], batchId)
      {
        assert snapshot[i..][1..] == snapshot[i + 1..];
        if snapshot[i] in sessions && |sessions[snapshot[i]].intents| >= 2 {
          RunRoundHere(snapshot[i], batchId);
          ticks := ticks + [Tick(None, snapshot[i + 1..])];
          return;
        }
      }
    }

    method HandleLocalTimer(batchId: string)
      requires Valid()
      modifies this
      ensures Valid() && Frozen(old(View()), View()) && Takes(cfg, old(View()), LocalTick(batchId), View())
    {
      CanTake(cfg, View(), LocalTick(batchId));
      AllWellFormed(cfg, View());
      AllSlotsOk(cfg, View());
      TickStep(cfg, View(), batchId);
      assert Field.Prime(cfg.p);
      hide ValidConfig, Inv, Frozen, CanStep, VisitLocal, OpenSessions, WellFormed, SlotsOk, Field.Prime, Next;
      var open := GetOpenSessions();
      VisitSnapshotHere(open, batchId);
    }

    method HandleShare(node: NodeId, id: IntentId, cipher: Cipher) returns (stored: bool)
      requires Valid()
      modifies this
      ensures stored <==> SlotFor(old(View()), node, id)
      ensures !stored ==> View() == old(View())
      ensures Valid() && Frozen(old(View()), View()) && Takes(cfg, old(View()), ReplaceCipher(node, id, cipher), View())
    {
      hide ValidConfig, Inv, Frozen, CanStep, WellFormed;
      CanTake(cfg, View(), ReplaceCipher(node, id, cipher));
      if id !in intentToSession || intentToSession[id] !in sessions {
        return false;
      }
      var sid := intentToSession[id];
      var shares: ShareTable := sessions[sid].shares;
      if node !in shares || id !in shares[node] {
        return false;
      }
      sessions := sessions[sid := sessions[sid].(shares :=
        shares[node := shares[node][id := shares[node][id].(cipher := cipher)]])];
      stored := true;
    }
  }
}
