/**
 Whole runs of the committee service: the invariant in every state, what stays
 fixed between any two states, and what follows about quorums and batches.
 */
module Runs {
  import opened Collections
  import opened Session
  import opened Protocol
  import opened SessionProofs
  import opened ProtocolProofs
  import Field
  import M = Matcher
  import S = Shamir
  import T = MatcherTheorems

  ghost predicate CanStep(cfg: Config, st: State, step: Step) {
    && Field.Prime(cfg.p) && Enabled(cfg, st, step)
    && forall sid :: sid in st.sessions ==> WellFormed(st.sessions[sid])
  }

  /** A finite run from the initial state, under any interleaving of steps. */
  ghost predicate IsRun(cfg: Config, states: seq<State>, steps: seq<Step>) {
    && |states| == |steps| + 1 && states[0] == Init()
    && forall i :: 0 <= i < |steps| ==>
         CanStep(cfg, states[i], steps[i]) && states[i + 1] == Next(cfg, states[i], steps[i])
  }

  lemma InitInv(cfg: Config)
    ensures Inv(cfg, Init())
  {
  }

  lemma RunStep(cfg: Config, states: seq<State>, steps: seq<Step>, i: nat)
    requires IsRun(cfg, states, steps) && i < |steps|
    ensures |states| == |steps| + 1 && CanStep(cfg, states[i], steps[i])
    ensures states[i + 1] == Next(cfg, states[i], steps[i])
    ensures Enabled(cfg, states[i], steps[i])
  {
    hide Next, Enabled;
  }

  lemma RunStart(cfg: Config, states: seq<State>, steps: seq<Step>)
    requires IsRun(cfg, states, steps)
    ensures |states| == |steps| + 1 && states[0] == Init()
  {
  }

  lemma {:induction false} RunInv(cfg: Config, states: seq<State>, steps: seq<Step>, i: nat)
    requires ValidConfig(cfg) && IsRun(cfg, states, steps) && i < |states|
    ensures Inv(cfg, states[i])
    decreases i
  {
    hide *;
    RunStart(cfg, states, steps);
    if i == 0 {
      InitInv(cfg);
    } else {
      RunInv(cfg, states, steps, i - 1);
      RunStep(cfg, states, steps, i - 1);
      StepKeeps(cfg, states[i - 1], steps[i - 1]);
    }
  }

  lemma StepFrozen(cfg: Config, states: seq<State>, steps: seq<Step>, i: nat)
    requires ValidConfig(cfg) && IsRun(cfg, states, steps) && i < |steps|
    ensures |states| == |steps| + 1 && Frozen(states[i], states[i + 1])
  {
    assert |states| == |steps| + 1;
    hide *;
    RunInv(cfg, states, steps, i);
    RunStep(cfg, states, steps, i);
    StepKeeps(cfg, states[i], steps[i]);
  }

  lemma {:induction false} RunFrozen(cfg: Config, states: seq<State>, steps: seq<Step>, i: nat, j: nat)
    requires ValidConfig(cfg) && IsRun(cfg, states, steps) && i <= j < |states|
    ensures Frozen(states[i], states[j])
    decreases j
  {
    hide *;
    RunStart(cfg, states, steps);
    if i == j {
      Stutter(states[i]);
    } else {
      RunFrozen(cfg, states, steps, i, j - 1);
      StepFrozen(cfg, states, steps, j - 1);
      FrozenTransitive(states[i], states[j - 1], states[j]);
    }
  }

  /**
   One round per session, in every run: at any moment at most one session is
   open and no session has two rounds behind it; once a session has left `Open`
   its intents never change; a batch is there exactly when the session is
   signed, and a signed session holds no decrypted share.
   */
  lemma OneRoundPerSession(cfg: Config, states: seq<State>, steps: seq<Step>, i: nat, j: nat, s: SessionId,
                           t: SessionId)
    requires ValidConfig(cfg) && IsRun(cfg, states, steps) && i <= j < |states|
    requires s in states[i].sessions && t in states[i].sessions
    ensures states[i].sessions[s].status == Open && states[i].sessions[t].status == Open ==> s == t
    ensures NoRepeats(states[j].started) && states[i].started <= states[j].started
    ensures s in states[j].sessions
    ensures states[i].sessions[s].status != Open ==>
              && states[j].sessions[s].status != Open
              && states[j].sessions[s].intents == states[i].sessions[s].intents
              && states[j].sessions[s].order == states[i].sessions[s].order
    ensures states[i].sessions[s].signedBatch.Some? <==> states[i].sessions[s].status == Signed
    ensures states[i].sessions[s].status == Signed ==>
              NoDecrypted(states[i].sessions[s].shares)
                && states[j].sessions[s].signedBatch == states[i].sessions[s].signedBatch
  {
    RunInv(cfg, states, steps, i);
    RunInv(cfg, states, steps, j);
    RunFrozen(cfg, states, steps, i, j);
    hide ValidConfig, IsRun, NoRepeats, NoDecrypted, Quorum, MatchesOk;
    assert SessionOk(cfg, s, states[i].sessions[s]);
  }

  // ---- Quorums ----

  function ToSet<T>(s: seq<T>): set<T> {
    set x | x in s
  }

  lemma {:induction false} DistinctSize<T>(s: seq<T>)
    requires NoRepeats(s)
    ensures |ToSet(s)| == |s|
  {
    if s == [] {
      assert ToSet(s) == {};
    } else {
      var front, last := s[..|s| - 1], s[|s| - 1];
      DistinctSize(front);
      assert s == front + [last];
      assert ToSet(s) == ToSet(front) + {last};
    }
  }

  lemma OverlapSize<T>(a: set<T>, b: set<T>, all: set<T>)
    requires a <= all && b <= all
    ensures |a * b| >= |a| + |b| - |all|
  {
    assert |a + b| == |a| + |b| - |a * b|;
    SubsetSize(a + b, all);
  }

  lemma SubsetSize<T>(a: set<T>, b: set<T>)
    requires a <= b
    ensures |a| <= |b|
  {
    assert b == a + (b - a);
  }

  lemma QuorumsMeet(cfg: Config, a: seq<NodeId>, b: seq<NodeId>)
    requires ValidConfig(cfg) && |cfg.nodes| > 0 && Quorum(cfg, a) && Quorum(cfg, b)
    ensures 3 * |ToSet(a) * ToSet(b)| >= |cfg.nodes|
    ensures exists n :: n in a && n in b
  {
    assert NoRepeats(cfg.nodes);
    DistinctSize(cfg.nodes);
    DistinctSize(a);
    DistinctSize(b);
    OverlapSize(ToSet(a), ToSet(b), ToSet(cfg.nodes));
    ThresholdIsAllButAThird(|cfg.nodes|);
    var both := ToSet(a) * ToSet(b);
    assert both != {};
    var n := Pick(both);
  }

  /** Any two batches signed at any time in a run share at least a third of the nodes, hence one. */
  lemma QuorumIntersection(cfg: Config, states: seq<State>, steps: seq<Step>, i: nat, j: nat, s: SessionId,
                           t: SessionId)
    requires ValidConfig(cfg) && |cfg.nodes| > 0 && IsRun(cfg, states, steps) && i < |states| && j < |states|
    requires s in states[i].sessions && states[i].sessions[s].status == Signed
    requires t in states[j].sessions && states[j].sessions[t].status == Signed
    ensures states[i].sessions[s].signedBatch.Some? && states[j].sessions[t].signedBatch.Some?
    ensures var a, b := states[i].sessions[s].signedBatch.value.signers,
            states[j].sessions[t].signedBatch.value.signers;
            3 * |ToSet(a) * ToSet(b)| >= |cfg.nodes| && exists n :: n in a && n in b
  {
    RunInv(cfg, states, steps, i);
    RunInv(cfg, states, steps, j);
    assert SessionOk(cfg, s, states[i].sessions[s]) && SessionOk(cfg, t, states[j].sessions[t]);
    hide ValidConfig, IsRun, Quorum, Inv, NoDecrypted, MatchesOk;
    QuorumsMeet(cfg, states[i].sessions[s].signedBatch.value.signers, states[j].sessions[t].signedBatch.value.signers);
  }

  // ---- The verifier's view of a batch ----

  /** A signature as the verifier sees it: the key it claims and whether it checks out for this batch. */
  datatype Signature = Signature(pubkey: string, valid: bool)

  /** The verifier walks the signatures, rejecting outsiders, repeated keys and signatures that do not check out. */
  function SeenKeys(sigs: seq<Signature>, committee: seq<string>): Option<set<string>> {
    if sigs == [] then Some({})
    else
      var seen, last := SeenKeys(sigs[..|sigs| - 1], committee), sigs[|sigs| - 1];
      if seen.None? || last.pubkey !in committee || last.pubkey in seen.value || !last.valid then None
      else Some(seen.value + {last.pubkey})
  }

  predicate Verifies(sigs: seq<Signature>, committee: seq<string>) {
    var seen := SeenKeys(sigs, committee);
    seen.Some? && |seen.value| >= Threshold(|committee|)
  }

  function KeysIn(sigs: seq<Signature>): (r: seq<string>)
    ensures |r| == |sigs| && forall i :: 0 <= i < |r| ==> r[i] == sigs[i].pubkey
  {
    seq(|sigs|, i requires 0 <= i < |sigs| => sigs[i].pubkey)
  }

  ghost predicate AllValid(sigs: seq<Signature>) {
    forall i :: 0 <= i < |sigs| ==> sigs[i].valid
  }

  lemma LastIsNew<T>(s: seq<T>)
    requires s != []
    ensures NoRepeats(s) <==> NoRepeats(s[..|s| - 1]) && s[|s| - 1] !in s[..|s| - 1]
  {
    var front, n := s[..|s| - 1], |s| - 1;
    if s[n] in front {
      var k :| 0 <= k < n && front[k] == s[n];
      assert s[k] == s[n];
    }
  }

  lemma {:induction false} SeenExactly(sigs: seq<Signature>, committee: seq<string>)
    ensures SeenKeys(sigs, committee).Some? <==>
              AllValid(sigs) && NoRepeats(KeysIn(sigs)) && forall k :: k in KeysIn(sigs) ==> k in committee
    ensures SeenKeys(sigs, committee).Some? ==> SeenKeys(sigs, committee).value == ToSet(KeysIn(sigs))
  {
    if sigs != [] {
      var front, keys, last := sigs[..|sigs| - 1], KeysIn(sigs), sigs[|sigs| - 1];
      SeenExactly(front, committee);
      LastIsNew(keys);
      LastKey(sigs);
      hide NoRepeats, ToSet, AllValid, KeysIn;
      assert forall k :: k in keys <==> k in KeysIn(front) || k == last.pubkey;
    }
  }

  lemma LastKey(sigs: seq<Signature>)
    requires sigs != []
    ensures var front, last := sigs[..|sigs| - 1], sigs[|sigs| - 1];
            && KeysIn(front) == KeysIn(sigs)[..|sigs| - 1] && KeysIn(sigs) == KeysIn(front) + [last.pubkey]
            && ToSet(KeysIn(sigs)) == ToSet(KeysIn(front)) + {last.pubkey}
            && (forall k :: k in ToSet(KeysIn(front)) <==> k in KeysIn(front))
            && (AllValid(sigs) <==> AllValid(front) && last.valid)
  {
    var front, last := sigs[..|sigs| - 1], sigs[|sigs| - 1];
    assert KeysIn(sigs) == KeysIn(front) + [last.pubkey];
    assert sigs == front + [last];
  }

  /** What a batch needs to pass: valid signatures under different committee keys, at least the threshold. */
  lemma VerifiesExactly(sigs: seq<Signature>, committee: seq<string>)
    ensures Verifies(sigs, committee) <==>
              && (forall i :: 0 <= i < |sigs| ==> sigs[i].valid && sigs[i].pubkey in committee)
              && (forall i, j :: 0 <= i < j < |sigs| ==> sigs[i].pubkey != sigs[j].pubkey)
              && 3 * |sigs| >= 2 * |committee|
  {
    SeenExactly(sigs, committee);
    ThresholdIsAllButAThird(|committee|);
    var keys := KeysIn(sigs);
    if NoRepeats(keys) {
      DistinctSize(keys);
    }
    assert (forall k :: k in keys ==> k in committee) <==> forall i :: 0 <= i < |sigs| ==> keys[i] in committee;
    assert NoRepeats(keys) <==> forall i, j :: 0 <= i < j < |sigs| ==> sigs[i].pubkey != sigs[j].pubkey;
    hide NoRepeats, SeenKeys, KeysIn;
  }

  function KeysOfNodes(nodes: seq<NodeId>, key: NodeId -> string): (r: seq<string>)
    ensures |r| == |nodes| && forall i :: 0 <= i < |r| ==> r[i] == key(nodes[i])
  {
    seq(|nodes|, i requires 0 <= i < |nodes| => key(nodes[i]))
  }

  /** The signatures a round collects: each node signs with its own key. */
  function SignaturesOf(signers: seq<NodeId>, key: NodeId -> string): (r: seq<Signature>)
    ensures |r| == |signers| && forall i :: 0 <= i < |r| ==> r[i] == Signature(key(signers[i]), true)
  {
    seq(|signers|, i requires 0 <= i < |signers| => Signature(key(signers[i]), true))
  }

  /**
   Where nodes have keys of their own, the verifier accepts exactly the signer lists that
   the round calls a quorum.
   */
  lemma VerifierAcceptsQuorums(cfg: Config, key: NodeId -> string, signers: seq<NodeId>)
    requires forall m, n :: key(m) == key(n) ==> m == n
    ensures Verifies(SignaturesOf(signers, key), KeysOfNodes(cfg.nodes, key)) <==> Quorum(cfg, signers)
  {
    var sigs, committee := SignaturesOf(signers, key), KeysOfNodes(cfg.nodes, key);
    VerifiesExactly(sigs, committee);
    ThresholdIsAllButAThird(|cfg.nodes|);
    hide Verifies;
    var keys := KeysIn(sigs);
    assert NoRepeats(keys) <==> NoRepeats(signers);
    forall n | n in signers
      ensures key(n) in committee <==> n in cfg.nodes
      ensures key(n) in keys
    {
      var i :| 0 <= i < |signers| && signers[i] == n;
      assert keys[i] == key(n);
      if key(n) in committee {
        var j :| 0 <= j < |committee| && committee[j] == key(n);
        assert cfg.nodes[j] == n;
      }
      if n in cfg.nodes {
        var j :| 0 <= j < |cfg.nodes| && cfg.nodes[j] == n;
        assert committee[j] == key(n);
      }
    }
    forall k | k in keys
      ensures exists n :: n in signers && key(n) == k
    {
      var i :| 0 <= i < |keys| && keys[i] == k;
      assert signers[i] in signers;
    }
    hide NoRepeats, Threshold;
  }

  // ---- Fault tolerance ----

  /** The answer of a node that holds its share of every intent of the session. */
  ghost predicate FullAnswer(s: SessionState, answers: seq<Answer>) {
    && (forall id :: id in s.intents ==> exists k :: 0 <= k < |answers| && answers[k].intentId == id)
    && forall k :: 0 <= k < |answers| ==> answers[k].share.Some?
  }

  ghost predicate HasSlots(cfg: Config, s: SessionState) {
    forall n, id :: n in cfg.nodes && id in s.intents ==> n in s.shares && id in s.shares[n]
  }

  lemma {:induction false} AnswersFill(entries: NodeShares, answers: seq<Answer>, id: IntentId)
    requires id in entries && forall k :: 0 <= k < |answers| ==> answers[k].share.Some?
    ensures id in ApplyAnswers(entries, answers)
    ensures (exists k :: 0 <= k < |answers| && answers[k].intentId == id) ==>
              ApplyAnswers(entries, answers)[id].decrypted.Some?
    ensures entries[id].decrypted.Some? ==> ApplyAnswers(entries, answers)[id].decrypted.Some?
  {
    if answers != [] {
      var front := answers[..|answers| - 1];
      AnswersFill(entries, front, id);
      if k :| 0 <= k < |answers| && answers[k].intentId == id && k < |front| {
        assert front[k].intentId == id;
      }
    }
  }

  lemma {:induction false} StoredFor(cfg: Config, s: SessionState, replies: seq<Option<seq<Answer>>>, n: nat, k: nat,
                                     id: IntentId)
    requires ValidConfig(cfg) && |replies| == |cfg.nodes| && k < n <= |cfg.nodes| && HasSlots(cfg, s) && id in s.intents
    requires replies[k].Some? && FullAnswer(s, replies[k].value)
    ensures Decrypted(StoreReplies(s.shares, cfg.nodes, replies, n), cfg.nodes[k], id).Some?
  {
    var node := cfg.nodes[k];
    if k == n - 1 {
      RepliesElsewhere(s.shares, cfg.nodes, replies, k, node);
      assert node !in cfg.nodes[..k];
      AnswersFill(s.shares[node], replies[k].value, id);
    } else {
      StoredFor(cfg, s, replies, n - 1, k, id);
      assert cfg.nodes[n - 1] != node;
    }
  }

  /** With `n` nodes read, as many of the first two shares as have answered. */
  lemma {:induction false} EnoughShares(shares: ShareTable, nodes: seq<NodeId>, replies: seq<Option<seq<Answer>>>,
                                        id: IntentId, n: nat)
    requires n <= |nodes| == |replies|
    requires forall k :: 0 <= k < n && replies[k].Some? ==> Decrypted(shares, nodes[k], id).Some?
    ensures |Available(shares, nodes, id, n)| >= 2 || |Available(shares, nodes, id, n)| >= Responding(replies[..n])
  {
    if n > 0 {
      EnoughShares(shares, nodes, replies, id, n - 1);
      assert replies[..n][..n - 1] == replies[..n - 1];
    }
  }

  lemma {:induction false} RebuildSucceeds(s: SessionState, shares: ShareTable, cfg: Config, n: nat)
    requires Field.Prime(cfg.p) && n <= |s.order| && WellFormed(s)
    requires forall id :: id in s.intents ==> |Available(shares, cfg.nodes, id, |cfg.nodes|)| >= 2
    ensures Rebuild(s, shares, cfg, n).Some?
  {
    hide S.Reconstructed, Available, Field.Prime;
    if n > 0 {
      RebuildSucceeds(s, shares, cfg, n - 1);
      assert s.order[n - 1] in s.order;
    }
  }

  lemma {:induction false} MissingCount<T>(replies: seq<Option<T>>, missing: set<nat>)
    requires forall k :: 0 <= k < |replies| && replies[k].None? ==> k in missing
    ensures Responding(replies) >= |replies| - |missing|
    decreases |replies|
  {
    if replies != [] {
      var n := |replies| - 1;
      var front := replies[..n];
      if replies[n].None? {
        assert |missing - {n}| == |missing| - 1;
        MissingCount(front, missing - {n});
      } else {
        MissingCount(front, missing);
      }
    }
  }

  lemma {:induction false} SignerCount(nodes: seq<NodeId>, signed: seq<bool>, n: nat, missing: set<nat>)
    requires n <= |nodes| == |signed| && forall k :: 0 <= k < n && !signed[k] ==> k in missing
    ensures |Signers(nodes, signed, n)| >= n - |missing|
  {
    if n > 0 {
      if !signed[n - 1] {
        assert |missing - {n - 1}| == |missing| - 1;
        SignerCount(nodes, signed, n - 1, missing - {n - 1});
      } else {
        SignerCount(nodes, signed, n - 1, missing);
      }
    }
  }

  /**
   If at most a third of two or more nodes fail to answer and at most a third
   fail to sign, the round of a session whose answering nodes hold their shares
   ends signed.
   */
  lemma FaultTolerance(cfg: Config, s: SessionState, replies: seq<Option<seq<Answer>>>, signed: seq<bool>,
                       silent: set<nat>, unsigned: set<nat>, batchId: string)
    requires ValidConfig(cfg) && |cfg.nodes| >= 2 && |replies| == |signed| == |cfg.nodes| && WellFormed(s)
    requires HasSlots(cfg, s)
    requires |silent| <= |cfg.nodes| / 3 && |unsigned| <= |cfg.nodes| / 3
    requires forall k :: 0 <= k < |replies| && replies[k].None? ==> k in silent
    requires forall k :: 0 <= k < |signed| && !signed[k] ==> k in unsigned
    requires forall k :: 0 <= k < |replies| && replies[k].Some? ==> FullAnswer(s, replies[k].value)
    ensures var d := AfterDecrypt(cfg, s, replies);
            d.matches.Some? && AfterSign(cfg, d.session, batchId, d.matches.value, signed).status == Signed
  {
    ThresholdIsAllButAThird(|cfg.nodes|);
    MissingCount(replies, silent);
    SignerCount(cfg.nodes, signed, |cfg.nodes|, unsigned);
    var shares := StoreReplies(s.shares, cfg.nodes, replies, |cfg.nodes|);
    assert Field.Prime(cfg.p);
    forall id | id in s.intents
      ensures |Available(shares, cfg.nodes, id, |cfg.nodes|)| >= 2
    {
      forall k | 0 <= k < |replies| && replies[k].Some?
        ensures Decrypted(shares, cfg.nodes[k], id).Some?
      {
        StoredFor(cfg, s, replies, |cfg.nodes|, k, id);
      }
      assert replies[..|replies|] == replies;
      EnoughShares(shares, cfg.nodes, replies, id, |cfg.nodes|);
    }
    RebuildSucceeds(s, shares, cfg, |s.order|);
    hide StoreReplies, Rebuild, ClearNodes, M.MatchesOf, Signers, ValidConfig, HasSlots, FullAnswer;
  }

  /** A committee of one can never sign: two shares are always needed. */
  lemma OneNodeNeverSigns(cfg: Config, s: SessionState, replies: seq<Option<seq<Answer>>>)
    requires Field.Prime(cfg.p) && |cfg.nodes| == 1 && |replies| == 1 && WellFormed(s) && s.order != []
    ensures AfterDecrypt(cfg, s, replies).matches.None?
  {
    var shares := StoreReplies(s.shares, cfg.nodes, replies, 1);
    var n := |s.order|;
    assert s.order[n - 1] in s.order;
    assert Available(shares, cfg.nodes, s.order[n - 1], 0) == [];
    assert |Available(shares, cfg.nodes, s.order[n - 1], 1)| <= 1;
  }

  // ---- Ids that stay in one session ----

  /** The step submits the id again after its session has been closed; a retry while it is open is harmless. */
  predicate Reenters(st: State, step: Step, id: IntentId) {
    && step.Submit? && step.x.intentId == id && id in st.intentToSession
    && FirstOpen(st.order, st.sessions) != Some(st.intentToSession[id])
  }

  /** The id is in the session it is linked to and in no other. */
  ghost predicate Owned(st: State, id: IntentId) {
    forall s :: s in st.sessions && id in st.sessions[s].intents ==>
      id in st.intentToSession && st.intentToSession[id] == s
  }

  /** No intent is added anywhere. */
  ghost predicate SameIntentSets(st: State, st': State) {
    && st'.intentToSession == st.intentToSession && st'.sessions.Keys == st.sessions.Keys
    && forall s :: s in st.sessions ==>
         st'.sessions[s].intents == st.sessions[s].intents && SameSlots(st.sessions[s].shares, st'.sessions[s].shares)
  }

  lemma InProcessIntents(cfg: Config, s: SessionState, batchId: string)
    requires Field.Prime(cfg.p) && WellFormed(s)
    ensures InProcess(cfg, s, batchId).intents == s.intents && SameSlots(s.shares, InProcess(cfg, s, batchId).shares)
  {
    var shares := DecryptAll(s.shares, cfg.nodes, |cfg.nodes|).shares;
    DecryptKeepsSlots(s.shares, cfg.nodes, |cfg.nodes|);
    ClearKeepsSlots(shares, cfg.nodes, |cfg.nodes|);
    SlotsTransitive(s.shares, shares, ClearNodes(shares, cfg.nodes, |cfg.nodes|));
    hide DecryptAll, Rebuild, ClearNodes, M.MatchesOf, Field.Prime, WellFormed, SameSlots;
  }

  lemma DecryptIntents(cfg: Config, s: SessionState, replies: seq<Option<seq<Answer>>>)
    requires Field.Prime(cfg.p) && WellFormed(s) && |replies| == |cfg.nodes|
    ensures AfterDecrypt(cfg, s, replies).session.intents == s.intents
    ensures SameSlots(s.shares, AfterDecrypt(cfg, s, replies).session.shares)
  {
    var shares := StoreReplies(s.shares, cfg.nodes, replies, |cfg.nodes|);
    RepliesKeepSlots(s.shares, cfg.nodes, replies, |cfg.nodes|);
    ClearKeepsSlots(shares, cfg.nodes, |cfg.nodes|);
    SlotsTransitive(s.shares, shares, ClearNodes(shares, cfg.nodes, |cfg.nodes|));
    assert SameSlots(s.shares, s.shares);
    hide StoreReplies, Rebuild, ClearNodes, M.MatchesOf, Field.Prime, WellFormed, Responding, SameSlots;
  }

  lemma {:induction false} RemoteVisitIntents(st: State, snapshot: seq<SessionId>)
    ensures SameIntentSets(st, VisitRemote(st, snapshot))
  {
    if snapshot != [] && !LargeEnough(st, snapshot[0]) {
      RemoteVisitIntents(st, snapshot[1..]);
    }
  }

  lemma RunLocalIntents(cfg: Config, st: State, sid: SessionId, batchId: string)
    requires Field.Prime(cfg.p) && sid in st.sessions && WellFormed(st.sessions[sid])
    ensures SameIntentSets(st, RunLocal(cfg, st, sid, batchId))
  {
    InProcessIntents(cfg, st.sessions[sid].(status := Matching), batchId);
    hide InProcess;
  }

  lemma {:induction false} LocalVisitIntents(cfg: Config, st: State, snapshot: seq<SessionId>, batchId: string)
    requires Field.Prime(cfg.p) && forall sid :: sid in st.sessions ==> WellFormed(st.sessions[sid])
    ensures SameIntentSets(st, VisitLocal(cfg, st, snapshot, batchId))
  {
    hide RunLocal, WellFormed, Field.Prime;
    if snapshot != [] {
      if LargeEnough(st, snapshot[0]) {
        RunLocalIntents(cfg, st, snapshot[0], batchId);
      } else {
        LocalVisitIntents(cfg, st, snapshot[1..], batchId);
      }
    }
  }

  /** Only one session is replaced, by one with the same intents and slots. */
  lemma OneReplaced(st: State, st': State, sid: SessionId, s: SessionState)
    requires sid in st.sessions && st'.sessions == st.sessions[sid := s] && st'.intentToSession == st.intentToSession
    requires s.intents == st.sessions[sid].intents && SameSlots(st.sessions[sid].shares, s.shares)
    ensures SameIntentSets(st, st')
  {
  }

  lemma NoneReplaced(st: State)
    ensures SameIntentSets(st, st)
  {
  }

  lemma CipherIntents(cfg: Config, st: State, node: NodeId, id: IntentId, cipher: Cipher)
    requires CanStep(cfg, st, ReplaceCipher(node, id, cipher))
    ensures SameIntentSets(st, Next(cfg, st, ReplaceCipher(node, id, cipher)))
  {
    NoneReplaced(st);
    hide SameIntentSets, Field.Prime, WellFormed;
    var st' := Next(cfg, st, ReplaceCipher(node, id, cipher));
    if st' != st {
      var sid := st.intentToSession[id];
      OneReplaced(st, st', sid, st'.sessions[sid]);
    }
  }

  lemma OtherStepIntents(cfg: Config, st: State, step: Step)
    requires CanStep(cfg, st, step) && !step.Submit?
    ensures SameIntentSets(st, Next(cfg, st, step))
  {
    NoneReplaced(st);
    hide AfterDecrypt, AfterSign, VisitRemote, VisitLocal, RunLocal, OpenSessions, WellFormed, Field.Prime,
         SameIntentSets;
    match step
    case ManualMatch(sid) =>
      if LargeEnough(st, sid) && st.sessions[sid].status == Open {
        OneReplaced(st, BeginRemote(st, sid), sid, st.sessions[sid].(status := Matching));
      }
    case DecryptReplies(r, replies, batchId) =>
      var s := st.sessions[st.started[r]];
      DecryptIntents(cfg, s, replies);
      OneReplaced(st, Next(cfg, st, step), st.started[r], AfterDecrypt(cfg, s, replies).session);
    case SignReplies(r, signed) =>
      var s := st.sessions[st.started[r]];
      SignIntents(cfg, s, st.rounds[r].batchId, st.rounds[r].matches, signed);
      OneReplaced(st, Next(cfg, st, step), st.started[r],
                  AfterSign(cfg, s, st.rounds[r].batchId, st.rounds[r].matches, signed));
    case TimerTick =>
      RemoteVisitIntents(st, OpenSessions(st.order, st.sessions));
    case ResumeTick(k, batchId) =>
      RemoteVisitIntents(st.(ticks := st.ticks[..k] + st.ticks[k + 1..]), st.ticks[k].rest);
      LocalVisitIntents(cfg, st.(ticks := st.ticks[..k] + st.ticks[k + 1..]), st.ticks[k].rest, batchId);
      TicksDoNotMatter(st, st.ticks[..k] + st.ticks[k + 1..], Next(cfg, st, step));
    case LocalMatch(sid, batchId) =>
      if LargeEnough(st, sid) {
        RunLocalIntents(cfg, st, sid, batchId);
      }
    case LocalTick(batchId) =>
      LocalVisitIntents(cfg, st, OpenSessions(st.order, st.sessions), batchId);
    case ReplaceCipher(node, id, cipher) =>
      CipherIntents(cfg, st, node, id, cipher);
  }

  lemma TicksDoNotMatter(st: State, ticks: seq<Tick>, st': State)
    requires SameIntentSets(st.(ticks := ticks), st')
    ensures SameIntentSets(st, st')
  {
  }

  lemma SignIntents(cfg: Config, s: SessionState, batchId: string, matches: seq<M.Match>, signed: seq<bool>)
    requires |signed| == |cfg.nodes|
    ensures AfterSign(cfg, s, batchId, matches, signed).intents == s.intents
    ensures SameSlots(s.shares, AfterSign(cfg, s, batchId, matches, signed).shares)
  {
    hide Signers;
  }

  lemma SubmitOwned(st: State, x: MpcIntent, newId: SessionId, id: IntentId)
    requires Owned(st, id) && !Reenters(st, Submit(x, newId), id)
    requires FirstOpen(st.order, st.sessions).None? ==> newId !in st.sessions
    ensures Owned(AddIntent(st, x, newId), id)
  {
    hide StoreShares, FirstOpen;
  }

  lemma SameSetsOwned(st: State, st': State, id: IntentId)
    requires Owned(st, id) && SameIntentSets(st, st')
    ensures Owned(st', id)
  {
  }

  lemma StepOwned(cfg: Config, st: State, step: Step, id: IntentId)
    requires CanStep(cfg, st, step) && !Reenters(st, step, id) && Owned(st, id)
    ensures Owned(Next(cfg, st, step), id)
  {
    hide Owned, AddIntent, SameIntentSets;
    if step.Submit? {
      SubmitOwned(st, step.x, step.newId, id);
    } else {
      hide Next;
      OtherStepIntents(cfg, st, step);
      SameSetsOwned(st, Next(cfg, st, step), id);
    }
  }

  /** The id stays with the session it was first put into. */
  ghost predicate NeverReenters(states: seq<State>, steps: seq<Step>, id: IntentId) {
    |states| == |steps| + 1 && forall k :: 0 <= k < |steps| ==> !Reenters(states[k], steps[k], id)
  }

  lemma {:induction false} RunOwned(cfg: Config, states: seq<State>, steps: seq<Step>, i: nat, id: IntentId)
    requires IsRun(cfg, states, steps) && i < |states| && NeverReenters(states, steps, id)
    ensures Owned(states[i], id)
    decreases i
  {
    RunStart(cfg, states, steps);
    assert Owned(Init(), id);
    assert i > 0 ==> !Reenters(states[i - 1], steps[i - 1], id);
    hide *;
    if i > 0 {
      RunOwned(cfg, states, steps, i - 1, id);
      RunStep(cfg, states, steps, i - 1);
      StepOwned(cfg, states[i - 1], steps[i - 1], id);
    }
  }

  lemma OwnMatches(s: SessionState, ms: seq<M.Match>, k: nat, id: IntentId)
    requires MatchesOk(s, ms)
    ensures T.IdsDisjoint(ms)
    ensures k < |ms| && T.Mentions(ms[k], id) ==> id in s.intents
  {
    hide T.IdsDisjoint;
  }

  /** An id is in the batches of two sessions only if it was submitted again after its session had closed. */
  lemma BatchesDisjoint(cfg: Config, states: seq<State>, steps: seq<Step>, i: nat, s: SessionId, t: SessionId,
                        id: IntentId, k: nat, l: nat)
    requires ValidConfig(cfg) && IsRun(cfg, states, steps) && i < |states| && NeverReenters(states, steps, id)
    requires s in states[i].sessions && t in states[i].sessions && s != t
    requires states[i].sessions[s].status == Signed && states[i].sessions[t].status == Signed
    ensures states[i].sessions[s].signedBatch.Some? && states[i].sessions[t].signedBatch.Some?
    ensures var a, b := states[i].sessions[s].signedBatch.value.matches,
            states[i].sessions[t].signedBatch.value.matches;
            T.IdsDisjoint(a) && (k < |a| && l < |b| && T.Mentions(a[k], id) ==> !T.Mentions(b[l], id))
  {
    RunInv(cfg, states, steps, i);
    RunOwned(cfg, states, steps, i, id);
    assert SessionOk(cfg, s, states[i].sessions[s]) && SessionOk(cfg, t, states[i].sessions[t]);
    assert states[i].sessions[s].signedBatch.Some? && states[i].sessions[t].signedBatch.Some?;
    OwnMatches(states[i].sessions[s], states[i].sessions[s].signedBatch.value.matches, k, id);
    OwnMatches(states[i].sessions[t], states[i].sessions[t].signedBatch.value.matches, l, id);
    assert Owned(states[i], id);
    assert !(id in states[i].sessions[s].intents && id in states[i].sessions[t].intents);
    hide *;
  }

  // ---- Fault tolerance in runs ----

  /** The intent brings a share for every node. */
  ghost predicate CoversNodes(cfg: Config, x: MpcIntent) {
    forall n :: n in cfg.nodes ==> exists k :: 0 <= k < |x.encryptedShares| && x.encryptedShares[k].nodeId == n
  }

  /** No share slot is lost. */
  ghost predicate KeepsSlots(shares: ShareTable, shares': ShareTable) {
    forall node, id :: node in shares && id in shares[node] ==> node in shares' && id in shares'[node]
  }

  lemma StoreShareSlots(shares: ShareTable, id: IntentId, e: EncryptedShare)
    ensures KeepsSlots(shares, StoreShare(shares, id, e))
    ensures e.nodeId in StoreShare(shares, id, e) && id in StoreShare(shares, id, e)[e.nodeId]
  {
    hide SlotPosition;
  }

  lemma {:induction false} StoredSlots(shares: ShareTable, id: IntentId, es: seq<EncryptedShare>)
    ensures KeepsSlots(shares, StoreShares(shares, id, es))
    ensures forall k :: 0 <= k < |es| ==>
              es[k].nodeId in StoreShares(shares, id, es) && id in StoreShares(shares, id, es)[es[k].nodeId]
    decreases |es|
  {
    hide StoreShare;
    if es != [] {
      var front, last := es[..|es| - 1], es[|es| - 1];
      StoredSlots(shares, id, front);
      StoreShareSlots(StoreShares(shares, id, front), id, last);
      forall k | 0 <= k < |es|
        ensures es[k].nodeId in StoreShares(shares, id, es) && id in StoreShares(shares, id, es)[es[k].nodeId]
      {
        if k < |front| {
          assert front[k] == es[k];
        }
      }
    }
  }

  lemma PutKeepsSlots(cfg: Config, s: SessionState, x: MpcIntent)
    requires HasSlots(cfg, s) && CoversNodes(cfg, x)
    ensures HasSlots(cfg, PutIntent(s, x))
  {
    StoredSlots(s.shares, x.intentId, x.encryptedShares);
    hide StoreShares;
  }

  ghost predicate AllSlots(cfg: Config, st: State) {
    forall s :: s in st.sessions ==> HasSlots(cfg, st.sessions[s])
  }

  lemma SubmitSlots(cfg: Config, st: State, x: MpcIntent, newId: SessionId)
    requires AllSlots(cfg, st) && CoversNodes(cfg, x)
    ensures AllSlots(cfg, AddIntent(st, x, newId))
  {
    var found := FirstOpen(st.order, st.sessions);
    var sid := if found.Some? then found.value else newId;
    var s := if found.Some? then st.sessions[sid] else NewSession(newId);
    assert HasSlots(cfg, s);
    PutKeepsSlots(cfg, s, x);
    hide PutIntent, FirstOpen, HasSlots, CoversNodes;
  }

  lemma SameSetsSlots(cfg: Config, st: State, st': State)
    requires AllSlots(cfg, st) && SameIntentSets(st, st')
    ensures AllSlots(cfg, st')
  {
    forall s | s in st'.sessions
      ensures HasSlots(cfg, st'.sessions[s])
    {
      assert HasSlots(cfg, st.sessions[s]);
    }
  }

  lemma StepSlots(cfg: Config, st: State, step: Step)
    requires CanStep(cfg, st, step) && AllSlots(cfg, st) && (step.Submit? ==> CoversNodes(cfg, step.x))
    ensures AllSlots(cfg, Next(cfg, st, step))
  {
    hide AllSlots, AddIntent, SameIntentSets, CoversNodes;
    if step.Submit? {
      SubmitSlots(cfg, st, step.x, step.newId);
    } else {
      hide Next;
      OtherStepIntents(cfg, st, step);
      SameSetsSlots(cfg, st, Next(cfg, st, step));
    }
  }

  lemma {:induction false} RunSlots(cfg: Config, states: seq<State>, steps: seq<Step>, i: nat)
    requires IsRun(cfg, states, steps) && i < |states|
    requires forall k :: 0 <= k < |steps| && steps[k].Submit? ==> CoversNodes(cfg, steps[k].x)
    ensures AllSlots(cfg, states[i])
    decreases i
  {
    assert states[0] == Init() && AllSlots(cfg, Init());
    hide *;
    if i > 0 {
      RunSlots(cfg, states, steps, i - 1);
      RunStep(cfg, states, steps, i - 1);
      StepSlots(cfg, states[i - 1], steps[i - 1]);
    }
  }

  /**
   In every run whose intents bring a share for every node: when the replies to
   a waiting round come in with at most a third of the nodes silent and the
   others holding their shares, the round goes on to signing.
   */
  lemma DecryptPhaseSucceeds(cfg: Config, states: seq<State>, steps: seq<Step>, i: nat, r: nat,
                             replies: seq<Option<seq<Answer>>>, silent: set<nat>, batchId: string)
    requires ValidConfig(cfg) && |cfg.nodes| >= 2 && IsRun(cfg, states, steps) && i < |states|
    requires forall k :: 0 <= k < |steps| && steps[k].Submit? ==> CoversNodes(cfg, steps[k].x)
    requires CanStep(cfg, states[i], DecryptReplies(r, replies, batchId)) && |silent| <= |cfg.nodes| / 3
    requires r < |states[i].started| && states[i].started[r] in states[i].sessions
    requires forall k :: 0 <= k < |replies| && replies[k].None? ==> k in silent
    requires forall k :: 0 <= k < |replies| && replies[k].Some? ==>
               FullAnswer(states[i].sessions[states[i].started[r]], replies[k].value)
    ensures var st := Next(cfg, states[i], DecryptReplies(r, replies, batchId));
            r in st.rounds && st.rounds[r].AwaitSign?
  {
    RunSlots(cfg, states, steps, i);
    var s := states[i].sessions[states[i].started[r]];
    var all := seq(|cfg.nodes|, k => true);
    assert HasSlots(cfg, s) && |replies| == |cfg.nodes| && WellFormed(s);
    FaultTolerance(cfg, s, replies, all, silent, {}, batchId);
    hide ValidConfig, IsRun, CoversNodes, FullAnswer, AllSlots, HasSlots, AfterDecrypt, AfterSign, WellFormed;
  }

  /** A round that waits for signatures ends signed, with the matches it waits with, if at most a third fail to sign. */
  lemma SigningPhaseSucceeds(cfg: Config, st: State, r: nat, signed: seq<bool>, unsigned: set<nat>)
    requires CanStep(cfg, st, SignReplies(r, signed)) && |unsigned| <= |cfg.nodes| / 3
    requires forall k :: 0 <= k < |signed| && !signed[k] ==> k in unsigned
    ensures r in st.rounds && st.rounds[r].AwaitSign? && r < |st.started|
    ensures var st', sid := Next(cfg, st, SignReplies(r, signed)), st.started[r];
            && sid in st'.sessions && st'.sessions[sid].status == Signed && st'.sessions[sid].signedBatch.Some?
            && st'.sessions[sid].signedBatch.value.matches == st.rounds[r].matches
  {
    SignerCount(cfg.nodes, signed, |cfg.nodes|, unsigned);
    ThresholdIsAllButAThird(|cfg.nodes|);
    hide Signers, WellFormed, Field.Prime;
  }
}
