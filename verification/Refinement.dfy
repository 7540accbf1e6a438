/**
 A round over secret shares refines the plain matcher: whichever nodes answer
 and whichever two shares are read first, the batch that gets signed is what
 the matcher returns for the true amounts (remote-coordinator.ts and
 coordinator.ts under apps/mpc-committee/src).
 */
module Refinement {
  import opened Collections
  import opened Session
  import opened Protocol
  import opened SessionProofs
  import opened ProtocolProofs
  import opened Runs
  import Polynomial
  import Field
  import M = Matcher
  import S = Shamir

  /** The amount behind an intent and the random coefficient it was split with. */
  datatype Secret = Secret(amount: int, coef: int)

  /** The amount behind every submitted intent. */
  type Secrets = MpcIntent -> Secret

  ghost predicate InField(cfg: Config, secrets: Secrets) {
    forall x :: 0 <= secrets(x).amount < cfg.p
  }

  /** What node `k` gets when an amount is split two out of n. */
  function ShareFor(sec: Secret, k: nat, p: int): S.Share
    requires p > 0
  {
    S.SharesOf([sec.amount, sec.coef], k + 1, p)[k]
  }

  /** The intents of a session with their true amounts. */
  ghost function TrueIntents(s: SessionState, secrets: Secrets): (r: seq<M.Intent>)
    requires WellFormed(s)
  {
    seq(|s.order|, i requires 0 <= i < |s.order| =>
      assert s.order[i] in s.order;
      M.Intent(s.order[i], secrets(s.intents[s.order[i]]).amount, s.intents[s.order[i]].inputAsset,
        s.intents[s.order[i]].outputAsset))
  }

  // ---- Honest participants ----

  /** Node `k` answers with its own share of the session's intent, or with none. */
  ghost predicate HonestAnswers(cfg: Config, secrets: Secrets, s: SessionState, k: nat, answers: seq<Answer>)
    requires cfg.p > 0
  {
    forall j :: 0 <= j < |answers| && answers[j].share.Some? && answers[j].intentId in s.intents ==>
      answers[j].share.value == ShareFor(secrets(s.intents[answers[j].intentId]), k, cfg.p)
  }

  ghost predicate HonestReplies(cfg: Config, secrets: Secrets, s: SessionState, replies: seq<Option<seq<Answer>>>)
    requires cfg.p > 0
  {
    forall k :: 0 <= k < |replies| && replies[k].Some? ==> HonestAnswers(cfg, secrets, s, k, replies[k].value)
  }

  /** A ciphertext that node `k` can open holds its share of that amount. */
  ghost predicate HonestCipher(cfg: Config, sec: Secret, k: nat, c: Cipher)
    requires cfg.p > 0 && k < |cfg.nodes|
  {
    c.Sealed? && c.recipient == cfg.nodes[k] ==> c.share == ShareFor(sec, k, cfg.p)
  }

  ghost predicate HonestShares(cfg: Config, secrets: Secrets, s: SessionState)
    requires cfg.p > 0
  {
    forall k, id ::
      0 <= k < |cfg.nodes| && id in s.intents && cfg.nodes[k] in s.shares && id in s.shares[cfg.nodes[k]] ==>
      HonestCipher(cfg, secrets(s.intents[id]), k, s.shares[cfg.nodes[k]][id].cipher)
  }

  /** Every decrypted share present is the right one. */
  ghost predicate TrueShares(cfg: Config, sec: Secret, shares: ShareTable, id: IntentId)
    requires cfg.p > 0
  {
    forall k :: 0 <= k < |cfg.nodes| && Decrypted(shares, cfg.nodes[k], id).Some? ==>
      Decrypted(shares, cfg.nodes[k], id).value == ShareFor(sec, k, cfg.p)
  }

  // ---- From two shares to the amount ----

  lemma {:induction false} PickedTrue(cfg: Config, sec: Secret, shares: ShareTable, id: IntentId, n: nat)
    requires cfg.p > 0 && n <= |cfg.nodes| && TrueShares(cfg, sec, shares, id)
    ensures var r := Available(shares, cfg.nodes, id, n);
            && (forall i :: 0 <= i < |r| ==> 1 <= r[i].x <= n && r[i] == ShareFor(sec, r[i].x - 1, cfg.p))
            && (|r| == 2 ==> r[0].x < r[1].x)
    decreases n
  {
    hide S.SharesOf;
    if n > 0 {
      PickedTrue(cfg, sec, shares, id, n - 1);
      ShareIndex(sec, n - 1, cfg.p);
      hide ShareFor;
    }
  }

  lemma ShareIndex(sec: Secret, k: nat, p: int)
    requires p > 0
    ensures ShareFor(sec, k, p).x == k + 1
    ensures forall total: nat :: total > k ==> S.SharesOf([sec.amount, sec.coef], total, p)[k] == ShareFor(sec, k, p)
  {
    hide Polynomial.Poly;
  }

  lemma TwoSharesSuffice(cfg: Config, sec: Secret, shares: ShareTable, id: IntentId)
    requires ValidConfig(cfg) && 0 <= sec.amount < cfg.p && TrueShares(cfg, sec, shares, id)
    requires |Available(shares, cfg.nodes, id, |cfg.nodes|)| >= 2
    ensures S.Reconstructed(Available(shares, cfg.nodes, id, |cfg.nodes|), cfg.p) == sec.amount
  {
    assert Field.Prime(cfg.p) && |cfg.nodes| < cfg.p;
    assert cfg.p > 0;
    PickedTrue(cfg, sec, shares, id, |cfg.nodes|);
    var picked := Available(shares, cfg.nodes, id, |cfg.nodes|);
    TwoTrueShares(sec, picked, |cfg.nodes|, cfg.p);
    hide *;
  }

  lemma TwoTrueShares(sec: Secret, picked: seq<S.Share>, total: nat, p: int)
    requires Field.Prime(p) && total < p && 0 <= sec.amount < p && |picked| == 2 && picked[0].x < picked[1].x
    requires forall i :: 0 <= i < 2 ==> 1 <= picked[i].x <= total && picked[i] == ShareFor(sec, picked[i].x - 1, p)
    ensures S.Reconstructed(picked, p) == sec.amount
  {
    Field.ModUnique(sec.amount, 0, sec.amount, p);
    var all := S.SharesOf([sec.amount, sec.coef], total, p);
    ShareIndex(sec, picked[0].x - 1, p);
    ShareIndex(sec, picked[1].x - 1, p);
    assert picked[0] == all[picked[0].x - 1] && picked[1] == all[picked[1].x - 1];
    assert [sec.amount % p] + [sec.coef] == [sec.amount, sec.coef];
    hide ShareFor, S.SharesOf, Field.Prime, S.Reconstructed;
    S.ShareRoundTrip(sec.amount, [sec.coef], total, picked, p);
  }

  lemma TruePrefix(s: SessionState, secrets: Secrets, n: nat)
    requires WellFormed(s) && 0 < n <= |s.order|
    ensures s.order[n - 1] in s.intents && |TrueIntents(s, secrets)| == |s.order|
    ensures var id := s.order[n - 1];
            TrueIntents(s, secrets)[..n] == TrueIntents(s, secrets)[..n - 1]
              + [M.Intent(id, secrets(s.intents[id]).amount, s.intents[id].inputAsset, s.intents[id].outputAsset)]
  {
    assert s.order[n - 1] in s.order;
    var all := TrueIntents(s, secrets);
    assert all[..n] == all[..n - 1] + [all[n - 1]];
  }

  lemma RebuildNone(cfg: Config, secrets: Secrets, s: SessionState, shares: ShareTable)
    requires Field.Prime(cfg.p) && WellFormed(s)
    ensures Rebuild(s, shares, cfg, 0) == Some([]) && |TrueIntents(s, secrets)| == |s.order|
  {
  }

  lemma RebuildStep(cfg: Config, s: SessionState, shares: ShareTable, n: nat)
    requires Field.Prime(cfg.p) && WellFormed(s) && 0 < n <= |s.order| && Rebuild(s, shares, cfg, n).Some?
    ensures s.order[n - 1] in s.intents && |Available(shares, cfg.nodes, s.order[n - 1], |cfg.nodes|)| >= 2
    ensures var id := s.order[n - 1];
            var before, picked := Rebuild(s, shares, cfg, n - 1), Available(shares, cfg.nodes, id, |cfg.nodes|);
            before.Some? && Rebuild(s, shares, cfg, n).value == before.value
              + [M.Intent(id, S.Reconstructed(picked, cfg.p), s.intents[id].inputAsset, s.intents[id].outputAsset)]
  {
    hide S.Reconstructed, Available, Field.Prime;
    assert s.order[n - 1] in s.order;
  }

  lemma TrueAmount(cfg: Config, secrets: Secrets, s: SessionState, shares: ShareTable, id: IntentId)
    requires ValidConfig(cfg) && InField(cfg, secrets) && id in s.intents
    requires TrueShares(cfg, secrets(s.intents[id]), shares, id) && |Available(shares, cfg.nodes, id, |cfg.nodes|)| >= 2
    ensures S.Reconstructed(Available(shares, cfg.nodes, id, |cfg.nodes|), cfg.p) == secrets(s.intents[id]).amount
  {
    hide S.Reconstructed, Available, TrueShares;
    TwoSharesSuffice(cfg, secrets(s.intents[id]), shares, id);
  }

  lemma {:induction false} RebuildTrue(cfg: Config, secrets: Secrets, s: SessionState, shares: ShareTable, n: nat)
    requires ValidConfig(cfg) && InField(cfg, secrets) && WellFormed(s) && n <= |s.order|
    requires forall id :: id in s.intents ==> TrueShares(cfg, secrets(s.intents[id]), shares, id)
    ensures |TrueIntents(s, secrets)| == |s.order|
    ensures var r := Rebuild(s, shares, cfg, n); r.Some? ==> r.value == TrueIntents(s, secrets)[..n]
    decreases n
  {
    hide Rebuild, TrueIntents, ValidConfig, InField, Field.Prime, S.Reconstructed, Available, TrueShares;
    ConfigPrime(cfg);
    RebuildNone(cfg, secrets, s, shares);
    if n > 0 && Rebuild(s, shares, cfg, n).Some? {
      RebuildTrue(cfg, secrets, s, shares, n - 1);
      RebuildStep(cfg, s, shares, n);
      TruePrefix(s, secrets, n);
      TrueAmount(cfg, secrets, s, shares, s.order[n - 1]);
    }
  }

  // ---- The remote round ----

  lemma {:induction false} AnswersTrue(cfg: Config, secrets: Secrets, s: SessionState, k: nat, entries: NodeShares,
                                       answers: seq<Answer>, id: IntentId)
    requires cfg.p > 0 && HonestAnswers(cfg, secrets, s, k, answers) && id in s.intents
    requires id in entries && entries[id].decrypted.None?
    ensures var r := ApplyAnswers(entries, answers);
            id in r && (r[id].decrypted.Some? ==> r[id].decrypted.value == ShareFor(secrets(s.intents[id]), k, cfg.p))
    decreases |answers|
  {
    hide ShareFor;
    if answers != [] {
      AnswersTrue(cfg, secrets, s, k, entries, answers[..|answers| - 1], id);
    }
  }

  lemma {:induction false} StoredTrue(cfg: Config, secrets: Secrets, s: SessionState,
                                      replies: seq<Option<seq<Answer>>>, n: nat, k: nat, id: IntentId)
    requires ValidConfig(cfg) && |replies| == |cfg.nodes| && n <= |cfg.nodes| && k < |cfg.nodes| && id in s.intents
    requires NoDecrypted(s.shares) && HonestReplies(cfg, secrets, s, replies)
    ensures var d := Decrypted(StoreReplies(s.shares, cfg.nodes, replies, n), cfg.nodes[k], id);
            d.Some? ==> d.value == ShareFor(secrets(s.intents[id]), k, cfg.p)
    decreases n
  {
    hide ShareFor, M.Ascending, Field.Prime;
    if n > 0 {
      var node := cfg.nodes[k];
      StoredTrue(cfg, secrets, s, replies, n - 1, k, id);
      if k == n - 1 && replies[k].Some? {
        RepliesElsewhere(s.shares, cfg.nodes, replies, k, node);
        assert node !in cfg.nodes[..k];
        if node in s.shares && id in s.shares[node] {
          AnswersTrue(cfg, secrets, s, k, s.shares[node], replies[k].value, id);
        } else if node in s.shares {
          AnswersKeepKeys(s.shares[node], replies[k].value);
        }
      } else if k != n - 1 {
        assert cfg.nodes[n - 1] != node;
      }
    }
  }

  /**
   A degraded round refines the matcher: with any subset of nodes answering
   honestly, a round that gets to signing signs exactly the matches of the true
   amounts.
   */
  lemma RemoteRoundRefines(cfg: Config, secrets: Secrets, s: SessionState, replies: seq<Option<seq<Answer>>>)
    requires ValidConfig(cfg) && InField(cfg, secrets) && WellFormed(s) && |replies| == |cfg.nodes|
    requires NoDecrypted(s.shares) && HonestReplies(cfg, secrets, s, replies)
    ensures var r := AfterDecrypt(cfg, s, replies);
            r.matches.Some? ==> r.matches.value == M.MatchesOf(TrueIntents(s, secrets), cfg.sort)
  {
    var shares := StoreReplies(s.shares, cfg.nodes, replies, |cfg.nodes|);
    forall id | id in s.intents
      ensures TrueShares(cfg, secrets(s.intents[id]), shares, id)
    {
      forall k | 0 <= k < |cfg.nodes| && Decrypted(shares, cfg.nodes[k], id).Some?
        ensures Decrypted(shares, cfg.nodes[k], id).value == ShareFor(secrets(s.intents[id]), k, cfg.p)
      {
        StoredTrue(cfg, secrets, s, replies, |cfg.nodes|, k, id);
      }
    }
    RebuildTrue(cfg, secrets, s, shares, |s.order|);
    assert TrueIntents(s, secrets)[..|s.order|] == TrueIntents(s, secrets);
    assert Field.Prime(cfg.p);
    hide StoreReplies, Rebuild, ClearNodes, M.MatchesOf, TrueIntents, ValidConfig, Field.Prime, WellFormed,
         Responding, HonestReplies, NoDecrypted, TrueShares;
  }

  // ---- The in-process round ----

  lemma {:induction false} OpenedTrue(cfg: Config, secrets: Secrets, s: SessionState, n: nat, k: nat, id: IntentId)
    requires ValidConfig(cfg) && n <= |cfg.nodes| && k < |cfg.nodes| && id in s.intents
    requires NoDecrypted(s.shares) && HonestShares(cfg, secrets, s)
    ensures var d := Decrypted(DecryptAll(s.shares, cfg.nodes, n).shares, cfg.nodes[k], id);
            d.Some? ==> d.value == ShareFor(secrets(s.intents[id]), k, cfg.p)
    decreases n
  {
    hide ShareFor, M.Ascending, Field.Prime;
    if n > 0 {
      var node := cfg.nodes[k];
      OpenedTrue(cfg, secrets, s, n - 1, k, id);
      if k == n - 1 {
        DecryptElsewhere(s.shares, cfg.nodes, k, node);
        assert node !in cfg.nodes[..k];
        if node in s.shares && id in s.shares[node] {
          assert HonestCipher(cfg, secrets(s.intents[id]), k, s.shares[node][id].cipher);
        }
      } else {
        assert cfg.nodes[n - 1] != node;
      }
    }
  }

  lemma LocalRoundRefines(cfg: Config, secrets: Secrets, s: SessionState, batchId: string)
    requires ValidConfig(cfg) && InField(cfg, secrets) && WellFormed(s)
    requires NoDecrypted(s.shares) && HonestShares(cfg, secrets, s)
    ensures var r := InProcess(cfg, s, batchId);
            r.status == Signed ==>
              r.signedBatch.Some? && r.signedBatch.value.matches == M.MatchesOf(TrueIntents(s, secrets), cfg.sort)
  {
    var shares := DecryptAll(s.shares, cfg.nodes, |cfg.nodes|).shares;
    forall id | id in s.intents
      ensures TrueShares(cfg, secrets(s.intents[id]), shares, id)
    {
      forall k | 0 <= k < |cfg.nodes| && Decrypted(shares, cfg.nodes[k], id).Some?
        ensures Decrypted(shares, cfg.nodes[k], id).value == ShareFor(secrets(s.intents[id]), k, cfg.p)
      {
        OpenedTrue(cfg, secrets, s, |cfg.nodes|, k, id);
      }
    }
    RebuildTrue(cfg, secrets, s, shares, |s.order|);
    assert TrueIntents(s, secrets)[..|s.order|] == TrueIntents(s, secrets);
    assert Field.Prime(cfg.p);
    hide DecryptAll, Rebuild, ClearNodes, M.MatchesOf, TrueIntents, ValidConfig, Field.Prime, WellFormed,
         HonestShares, NoDecrypted, TrueShares;
  }

  // ---- Whole runs ----

  ghost predicate Faithful(cfg: Config, secrets: Secrets, s: SessionState, ms: seq<M.Match>) {
    WellFormed(s) && ms == M.MatchesOf(TrueIntents(s, secrets), cfg.sort)
  }

  ghost predicate HonestSession(cfg: Config, secrets: Secrets, s: SessionState)
    requires cfg.p > 0
  {
    HonestShares(cfg, secrets, s) && (s.signedBatch.Some? ==> Faithful(cfg, secrets, s, s.signedBatch.value.matches))
  }

  ghost predicate HonestSessions(cfg: Config, secrets: Secrets, st: State)
    requires cfg.p > 0
  {
    forall sid :: sid in st.sessions ==> HonestSession(cfg, secrets, st.sessions[sid])
  }

  ghost predicate HonestRounds(cfg: Config, secrets: Secrets, st: State) {
    forall r :: r in st.rounds && st.rounds[r].AwaitSign? ==>
      r < |st.started| && st.started[r] in st.sessions
        && Faithful(cfg, secrets, st.sessions[st.started[r]], st.rounds[r].matches)
  }

  ghost predicate Honest(cfg: Config, secrets: Secrets, st: State)
    requires cfg.p > 0
  {
    HonestSessions(cfg, secrets, st) && HonestRounds(cfg, secrets, st)
  }

  /** The shares of an intent are sealed to the nodes in order, as the client's split does. */
  ghost predicate HonestIntent(cfg: Config, secrets: Secrets, x: MpcIntent)
    requires cfg.p > 0
  {
    && |x.encryptedShares| == |cfg.nodes|
    && forall k :: 0 <= k < |cfg.nodes| ==>
         x.encryptedShares[k].nodeId == cfg.nodes[k] && HonestCipher(cfg, secrets(x), k, x.encryptedShares[k].cipher)
  }

  /** Clients split honestly, nodes answer with their own shares; who answers or signs is not restricted. */
  ghost predicate HonestStep(cfg: Config, secrets: Secrets, st: State, step: Step)
    requires cfg.p > 0
  {
    match step
    case Submit(x, _) => HonestIntent(cfg, secrets, x)
    case DecryptReplies(r, replies, _) =>
      r < |st.started| && st.started[r] in st.sessions ==>
        HonestReplies(cfg, secrets, st.sessions[st.started[r]], replies)
    case ReplaceCipher(node, id, cipher) =>
      forall sid, k ::
        sid in st.sessions && id in st.sessions[sid].intents && 0 <= k < |cfg.nodes| && cfg.nodes[k] == node ==>
        HonestCipher(cfg, secrets(st.sessions[sid].intents[id]), k, cipher)
    case _ => true
  }

  ghost predicate SameCiphers(shares: ShareTable, shares': ShareTable) {
    forall node, id :: node in shares' && id in shares'[node] ==>
      node in shares && id in shares[node] && shares'[node][id].cipher == shares[node][id].cipher
  }

  lemma CiphersTransitive(a: ShareTable, b: ShareTable, c: ShareTable)
    requires SameCiphers(a, b) && SameCiphers(b, c)
    ensures SameCiphers(a, c)
  {
  }

  lemma {:induction false} AnswersKeepCiphers(entries: NodeShares, answers: seq<Answer>, id: IntentId)
    ensures var r := ApplyAnswers(entries, answers);
            id in r ==> id in entries && r[id].cipher == entries[id].cipher
  {
    if answers != [] {
      AnswersKeepCiphers(entries, answers[..|answers| - 1], id);
    }
  }

  lemma {:induction false} RepliesKeepCiphers(shares: ShareTable, nodes: seq<NodeId>,
                                              replies: seq<Option<seq<Answer>>>, n: nat)
    requires n <= |nodes| == |replies|
    ensures SameCiphers(shares, StoreReplies(shares, nodes, replies, n))
  {
    if n > 0 {
      RepliesKeepCiphers(shares, nodes, replies, n - 1);
      var before: ShareTable := StoreReplies(shares, nodes, replies, n - 1);
      var after: ShareTable := StoreReplies(shares, nodes, replies, n);
      forall node: NodeId, id: IntentId | node in after && id in after[node]
        ensures node in before && id in before[node] && after[node][id].cipher == before[node][id].cipher
      {
        if replies[n - 1].Some? && node == nodes[n - 1] {
          AnswersKeepCiphers(before[node], replies[n - 1].value, id);
        }
      }
      CiphersTransitive(shares, before, after);
    }
  }

  lemma {:induction false} ClearKeepsCiphers(shares: ShareTable, nodes: seq<NodeId>, n: nat)
    requires n <= |nodes|
    ensures SameCiphers(shares, ClearNodes(shares, nodes, n))
  {
    if n > 0 {
      ClearKeepsCiphers(shares, nodes, n - 1);
    }
  }

  lemma {:induction false} DecryptKeepsCiphers(shares: ShareTable, nodes: seq<NodeId>, n: nat)
    requires n <= |nodes|
    ensures SameCiphers(shares, DecryptAll(shares, nodes, n).shares)
  {
    if n > 0 {
      DecryptKeepsCiphers(shares, nodes, n - 1);
    }
  }

  lemma SharesStayHonest(cfg: Config, secrets: Secrets, s: SessionState, s': SessionState)
    requires cfg.p > 0 && HonestShares(cfg, secrets, s) && s'.intents == s.intents && SameCiphers(s.shares, s'.shares)
    ensures HonestShares(cfg, secrets, s')
  {
    hide HonestCipher;
  }

  lemma AfterDecryptHonest(cfg: Config, secrets: Secrets, s: SessionState, replies: seq<Option<seq<Answer>>>)
    requires Field.Prime(cfg.p) && WellFormed(s) && |replies| == |cfg.nodes| && HonestShares(cfg, secrets, s)
    ensures var r := AfterDecrypt(cfg, s, replies).session;
            HonestShares(cfg, secrets, r) && r.signedBatch == s.signedBatch && r.intents == s.intents
              && r.order == s.order
  {
    var shares := StoreReplies(s.shares, cfg.nodes, replies, |cfg.nodes|);
    RepliesKeepCiphers(s.shares, cfg.nodes, replies, |cfg.nodes|);
    ClearKeepsCiphers(shares, cfg.nodes, |cfg.nodes|);
    CiphersTransitive(s.shares, shares, ClearNodes(shares, cfg.nodes, |cfg.nodes|));
    assert SameCiphers(s.shares, s.shares);
    hide StoreReplies, Rebuild, ClearNodes, M.MatchesOf, WellFormed, Responding, SameCiphers, Field.Prime, HonestShares;
    SharesStayHonest(cfg, secrets, s, AfterDecrypt(cfg, s, replies).session);
  }

  lemma InProcessHonest(cfg: Config, secrets: Secrets, s: SessionState, batchId: string)
    requires Field.Prime(cfg.p) && WellFormed(s) && HonestShares(cfg, secrets, s)
    ensures var r := InProcess(cfg, s, batchId);
            HonestShares(cfg, secrets, r) && r.intents == s.intents && r.order == s.order
            && (r.status == Signed || r.signedBatch == s.signedBatch)
  {
    var shares := DecryptAll(s.shares, cfg.nodes, |cfg.nodes|).shares;
    DecryptKeepsCiphers(s.shares, cfg.nodes, |cfg.nodes|);
    ClearKeepsCiphers(shares, cfg.nodes, |cfg.nodes|);
    CiphersTransitive(s.shares, shares, ClearNodes(shares, cfg.nodes, |cfg.nodes|));
    hide DecryptAll, Rebuild, ClearNodes, M.MatchesOf, WellFormed, SameCiphers, Field.Prime, HonestShares;
    SharesStayHonest(cfg, secrets, s, InProcess(cfg, s, batchId));
  }

  // ---- Submitting ----

  lemma {:induction false} StoredElsewhere(shares: ShareTable, x: MpcIntent, n: nat, node: NodeId, id: IntentId)
    requires n <= |x.encryptedShares| && id != x.intentId
    ensures var r := StoreShares(shares, x.intentId, x.encryptedShares[..n]);
            node in r && id in r[node] ==> node in shares && id in shares[node] && r[node][id] == shares[node][id]
  {
    if n > 0 {
      StoredElsewhere(shares, x, n - 1, node, id);
      assert x.encryptedShares[..n][..n - 1] == x.encryptedShares[..n - 1];
    }
  }

  lemma {:induction false} StoredCipher(cfg: Config, shares: ShareTable, x: MpcIntent, n: nat, k: nat)
    requires ValidConfig(cfg) && k < n <= |x.encryptedShares| == |cfg.nodes|
    requires forall j :: 0 <= j < |cfg.nodes| ==> x.encryptedShares[j].nodeId == cfg.nodes[j]
    ensures var r := StoreShares(shares, x.intentId, x.encryptedShares[..n]);
            cfg.nodes[k] in r && x.intentId in r[cfg.nodes[k]]
              && r[cfg.nodes[k]][x.intentId].cipher == x.encryptedShares[k].cipher
    decreases n
  {
    hide M.Ascending, Field.Prime;
    assert x.encryptedShares[..n][..n - 1] == x.encryptedShares[..n - 1];
    if k < n - 1 {
      StoredCipher(cfg, shares, x, n - 1, k);
      assert cfg.nodes[n - 1] != cfg.nodes[k];
    }
  }

  lemma PutHonest(cfg: Config, secrets: Secrets, s: SessionState, x: MpcIntent)
    requires ValidConfig(cfg) && HonestShares(cfg, secrets, s) && HonestIntent(cfg, secrets, x)
    ensures HonestShares(cfg, secrets, PutIntent(s, x))
  {
    assert x.encryptedShares[..|x.encryptedShares|] == x.encryptedShares;
    var s' := PutIntent(s, x);
    hide StoreShares, M.Ascending, Field.Prime;
    forall k, id: IntentId | 0 <= k < |cfg.nodes| && id in s'.intents && cfg.nodes[k] in s'.shares
      && id in s'.shares[cfg.nodes[k]]
      ensures HonestCipher(cfg, secrets(s'.intents[id]), k, s'.shares[cfg.nodes[k]][id].cipher)
    {
      if id == x.intentId {
        StoredCipher(cfg, s.shares, x, |x.encryptedShares|, k);
      } else {
        StoredElsewhere(s.shares, x, |x.encryptedShares|, cfg.nodes[k], id);
      }
    }
  }

  // ---- Every step keeps honesty ----

  lemma SessionsStayHonest(cfg: Config, secrets: Secrets, st: State, st': State, sid: SessionId, s: SessionState)
    requires cfg.p > 0 && HonestSessions(cfg, secrets, st) && HonestSession(cfg, secrets, s)
    requires st'.sessions == st.sessions[sid := s]
    ensures HonestSessions(cfg, secrets, st')
  {
    hide HonestSession;
  }

  lemma FaithfulSame(cfg: Config, secrets: Secrets, s: SessionState, s': SessionState, ms: seq<M.Match>)
    requires s'.intents == s.intents && s'.order == s.order
    ensures Faithful(cfg, secrets, s, ms) <==> Faithful(cfg, secrets, s', ms)
  {
    hide M.MatchesOf;
    if WellFormed(s) {
      assert TrueIntents(s, secrets) == TrueIntents(s', secrets);
    }
  }

  /** Rounds other than `r` are left alone; `r` itself is gone, waits for replies or has faithful matches. */
  lemma RoundsStayHonest(cfg: Config, secrets: Secrets, st: State, st': State, sid: SessionId, s: SessionState,
                         changed: set<nat>)
    requires HonestRounds(cfg, secrets, st) && st'.sessions == st.sessions[sid := s] && st.started <= st'.started
    requires forall r :: r in st'.rounds && r !in changed ==> r in st.rounds && st'.rounds[r] == st.rounds[r]
    requires forall r :: r in changed && r in st'.rounds && st'.rounds[r].AwaitSign? ==>
               r < |st'.started| && st'.started[r] == sid && Faithful(cfg, secrets, s, st'.rounds[r].matches)
    requires forall r :: r in st.rounds && r < |st.started| && st.started[r] == sid && st.rounds[r].AwaitSign? ==>
               sid in st.sessions && s.intents == st.sessions[sid].intents && s.order == st.sessions[sid].order
    ensures HonestRounds(cfg, secrets, st')
  {
    hide Faithful;
    forall r | r in st'.rounds && st'.rounds[r].AwaitSign?
      ensures r < |st'.started| && st'.started[r] in st'.sessions
      ensures Faithful(cfg, secrets, st'.sessions[st'.started[r]], st'.rounds[r].matches)
    {
      if r !in changed && st.started[r] == sid {
        FaithfulSame(cfg, secrets, st.sessions[sid], s, st.rounds[r].matches);
      }
    }
  }

  lemma SubmitHonest(cfg: Config, secrets: Secrets, st: State, x: MpcIntent, newId: SessionId)
    requires ValidConfig(cfg) && Inv(cfg, st) && Honest(cfg, secrets, st) && HonestIntent(cfg, secrets, x)
    requires FirstOpen(st.order, st.sessions).None? ==> newId !in st.sessions
    ensures Honest(cfg, secrets, AddIntent(st, x, newId))
  {
    var found := FirstOpen(st.order, st.sessions);
    var sid := if found.Some? then found.value else newId;
    var s := if found.Some? then st.sessions[sid] else NewSession(newId);
    assert s.signedBatch.None? && HonestShares(cfg, secrets, s) by {
      if found.Some? {
        assert SessionOk(cfg, sid, st.sessions[sid]) && HonestSession(cfg, secrets, st.sessions[sid]);
      }
    }
    PutHonest(cfg, secrets, s, x);
    var s' := PutIntent(s, x);
    var st' := AddIntent(st, x, newId);
    AddedTo(st, x, newId);
    assert forall r :: r in st.rounds ==> r < |st.started| && st.started[r] != sid;
    assert HonestSession(cfg, secrets, s');
    hide PutIntent, Inv, HonestSession, FirstOpen, Faithful, HonestIntent, HonestShares;
    SessionsStayHonest(cfg, secrets, st, st', sid, s');
    RoundsStayHonest(cfg, secrets, st, st', sid, s', {});
  }

  /** Whatever starts a round: the session's intents stay, and nothing waits to be signed for it. */
  lemma StartHonest(cfg: Config, secrets: Secrets, st: State, st': State, sid: SessionId, s: SessionState, remote: bool)
    requires cfg.p > 0 && RoundsOk(st) && Honest(cfg, secrets, st) && HonestSession(cfg, secrets, s)
    requires sid in st.sessions && s.intents == st.sessions[sid].intents && s.order == st.sessions[sid].order
    requires Starts(st, st', sid, s, remote)
    ensures Honest(cfg, secrets, st')
  {
    hide HonestSession, Faithful, MatchesOk;
    SessionsStayHonest(cfg, secrets, st, st', sid, s);
    RoundsStayHonest(cfg, secrets, st, st', sid, s, {|st.started|});
  }

  lemma BeginHonest(cfg: Config, secrets: Secrets, st: State, sid: SessionId)
    requires cfg.p > 0 && Inv(cfg, st) && Honest(cfg, secrets, st) && sid in st.sessions
    requires st.sessions[sid].status == Open
    ensures Honest(cfg, secrets, BeginRemote(st, sid))
  {
    var s := st.sessions[sid].(status := Matching);
    assert SessionOk(cfg, sid, st.sessions[sid]) && HonestSession(cfg, secrets, st.sessions[sid]);
    assert HonestSession(cfg, secrets, s) by {
      hide HonestCipher, Faithful;
    }
    hide HonestSession, Honest, SessionOk;
    StartHonest(cfg, secrets, st, BeginRemote(st, sid), sid, s, true);
  }

  lemma LocalHonest(cfg: Config, secrets: Secrets, st: State, sid: SessionId, batchId: string)
    requires ValidConfig(cfg) && InField(cfg, secrets) && Inv(cfg, st) && Honest(cfg, secrets, st)
    requires sid in st.sessions && st.sessions[sid].status == Open
    ensures WellFormed(st.sessions[sid]) && Honest(cfg, secrets, RunLocal(cfg, st, sid, batchId))
  {
    var s := st.sessions[sid].(status := Matching);
    assert SessionOk(cfg, sid, st.sessions[sid]) && HonestSession(cfg, secrets, st.sessions[sid]);
    assert RoundsOk(st) && WellFormed(s) && NoDecrypted(s.shares) && s.signedBatch.None? && Field.Prime(cfg.p);
    assert HonestShares(cfg, secrets, s) by {
      hide HonestCipher;
    }
    LocalRoundRefines(cfg, secrets, s, batchId);
    InProcessHonest(cfg, secrets, s, batchId);
    var r := InProcess(cfg, s, batchId);
    hide InProcess, M.MatchesOf, Honest, SessionOk, Inv, ValidConfig, InField, HonestShares, WellFormed, NoDecrypted,
         TrueIntents, Field.Prime, RoundsOk;
    if r.signedBatch.Some? {
      assert Faithful(cfg, secrets, s, r.signedBatch.value.matches);
      FaithfulSame(cfg, secrets, s, r, r.signedBatch.value.matches);
    }
    StartHonest(cfg, secrets, st, RunLocal(cfg, st, sid, batchId), sid, r, false);
  }

  lemma TickHonest(cfg: Config, secrets: Secrets, st: State, ticks: seq<Tick>)
    requires cfg.p > 0 && Honest(cfg, secrets, st)
    ensures Honest(cfg, secrets, st.(ticks := ticks))
  {
    hide HonestSession, Faithful;
  }

  lemma VisitRemoteHonest(cfg: Config, secrets: Secrets, st: State)
    requires cfg.p > 0 && Inv(cfg, st) && Honest(cfg, secrets, st)
    ensures Honest(cfg, secrets, VisitRemote(st, OpenSessions(st.order, st.sessions)))
  {
    SnapshotAtMostOne(st.order, st.sessions);
    var snapshot := OpenSessions(st.order, st.sessions);
    hide Inv, OpenSessions, BeginRemote, Honest;
    if snapshot != [] {
      assert snapshot[1..] == [];
      if LargeEnough(st, snapshot[0]) {
        BeginHonest(cfg, secrets, st, snapshot[0]);
        var st1 := BeginRemote(st, snapshot[0]);
        TickHonest(cfg, secrets, st1, st1.ticks + [Tick(Some(|st.started|), snapshot[1..])]);
      }
    }
  }

  lemma VisitLocalHonest(cfg: Config, secrets: Secrets, st: State, batchId: string)
    requires ValidConfig(cfg) && InField(cfg, secrets) && Inv(cfg, st) && Honest(cfg, secrets, st)
    requires forall sid :: sid in st.sessions ==> WellFormed(st.sessions[sid])
    ensures Honest(cfg, secrets, VisitLocal(cfg, st, OpenSessions(st.order, st.sessions), batchId))
  {
    SnapshotAtMostOne(st.order, st.sessions);
    var snapshot := OpenSessions(st.order, st.sessions);
    hide Inv, OpenSessions, RunLocal, Honest, ValidConfig, WellFormed, InField;
    if snapshot != [] {
      assert snapshot[1..] == [];
      if LargeEnough(st, snapshot[0]) {
        LocalHonest(cfg, secrets, st, snapshot[0], batchId);
        var st1 := RunLocal(cfg, st, snapshot[0], batchId);
        TickHonest(cfg, secrets, st1, st1.ticks + [Tick(None, snapshot[1..])]);
      }
    }
  }

  /** A waiting round's session becomes `s`, and the round waits for signatures or is over. */
  lemma RoundHonest(cfg: Config, secrets: Secrets, st: State, st': State, r: nat, s: SessionState)
    requires cfg.p > 0 && Inv(cfg, st) && Honest(cfg, secrets, st) && HonestSession(cfg, secrets, s) && r in st.rounds
    requires r < |st.started|
    requires st'.sessions == st.sessions[st.started[r] := s] && st'.started == st.started
    requires s.intents == st.sessions[st.started[r]].intents && s.order == st.sessions[st.started[r]].order
    requires forall q :: q in st'.rounds && q != r ==> q in st.rounds && st'.rounds[q] == st.rounds[q]
    requires r in st'.rounds && st'.rounds[r].AwaitSign? ==> Faithful(cfg, secrets, s, st'.rounds[r].matches)
    ensures Honest(cfg, secrets, st')
  {
    hide HonestSession, Faithful, SessionOk, MatchesOk, NoRepeats;
    SessionsStayHonest(cfg, secrets, st, st', st.started[r], s);
    RoundsStayHonest(cfg, secrets, st, st', st.started[r], s, {r});
  }

  lemma DecryptHonest(cfg: Config, secrets: Secrets, st: State, r: nat, replies: seq<Option<seq<Answer>>>,
                      batchId: string)
    requires ValidConfig(cfg) && InField(cfg, secrets) && Inv(cfg, st) && Honest(cfg, secrets, st)
    requires Enabled(cfg, st, DecryptReplies(r, replies, batchId))
    requires HonestReplies(cfg, secrets, st.sessions[st.started[r]], replies)
    requires forall sid :: sid in st.sessions ==> WellFormed(st.sessions[sid])
    ensures Honest(cfg, secrets, Next(cfg, st, DecryptReplies(r, replies, batchId)))
  {
    var sid := st.started[r];
    var s := st.sessions[sid];
    assert SessionOk(cfg, sid, s) && s.status == Matching && HonestSession(cfg, secrets, s);
    assert NoDecrypted(s.shares) && s.signedBatch.None? && Field.Prime(cfg.p);
    RemoteRoundRefines(cfg, secrets, s, replies);
    AfterDecryptHonest(cfg, secrets, s, replies);
    var result := AfterDecrypt(cfg, s, replies);
    hide AfterDecrypt, M.MatchesOf, Honest, SessionOk, Inv, ValidConfig, InField, HonestShares, TrueIntents,
         Field.Prime, HonestReplies, NoDecrypted;
    if result.matches.Some? {
      assert Faithful(cfg, secrets, s, result.matches.value);
      FaithfulSame(cfg, secrets, s, result.session, result.matches.value);
    }
    assert HonestSession(cfg, secrets, result.session);
    hide Faithful, HonestSession;
    RoundHonest(cfg, secrets, st, Next(cfg, st, DecryptReplies(r, replies, batchId)), r, result.session);
  }

  lemma AfterSignHonest(cfg: Config, secrets: Secrets, s: SessionState, batchId: string, matches: seq<M.Match>,
                        signed: seq<bool>)
    requires cfg.p > 0 && |signed| == |cfg.nodes| && HonestSession(cfg, secrets, s)
    requires Faithful(cfg, secrets, s, matches)
    ensures var r := AfterSign(cfg, s, batchId, matches, signed);
            HonestSession(cfg, secrets, r) && r.intents == s.intents && r.order == s.order
  {
    hide Signers, Faithful, HonestCipher;
    var r := AfterSign(cfg, s, batchId, matches, signed);
    FaithfulSame(cfg, secrets, s, r, matches);
    if r.signedBatch.Some? {
      FaithfulSame(cfg, secrets, s, r, r.signedBatch.value.matches);
    }
  }

  lemma SignHonest(cfg: Config, secrets: Secrets, st: State, r: nat, signed: seq<bool>)
    requires ValidConfig(cfg) && Inv(cfg, st) && Honest(cfg, secrets, st)
    requires Enabled(cfg, st, SignReplies(r, signed))
    requires forall sid :: sid in st.sessions ==> WellFormed(st.sessions[sid])
    ensures Honest(cfg, secrets, Next(cfg, st, SignReplies(r, signed)))
  {
    assert cfg.p > 0;
    hide AfterSign, ValidConfig, HonestSession, Faithful, Inv, WellFormed;
    var s, phase := st.sessions[st.started[r]], st.rounds[r];
    AfterSignHonest(cfg, secrets, s, phase.batchId, phase.matches, signed);
    hide Honest;
    RoundHonest(cfg, secrets, st, Next(cfg, st, SignReplies(r, signed)), r,
                AfterSign(cfg, s, phase.batchId, phase.matches, signed));
  }

  lemma CipherHonest(cfg: Config, secrets: Secrets, st: State, node: NodeId, id: IntentId, cipher: Cipher)
    requires Field.Prime(cfg.p) && Honest(cfg, secrets, st)
    requires HonestStep(cfg, secrets, st, ReplaceCipher(node, id, cipher))
    requires forall sid :: sid in st.sessions ==> WellFormed(st.sessions[sid])
    ensures Honest(cfg, secrets, Next(cfg, st, ReplaceCipher(node, id, cipher)))
  {
    hide Field.Prime, WellFormed;
    if id in st.intentToSession && st.intentToSession[id] in st.sessions {
      var sid := st.intentToSession[id];
      var s := st.sessions[sid];
      if node in s.shares && id in s.shares[node] {
        var st' := Next(cfg, st, ReplaceCipher(node, id, cipher));
        var s' := st'.sessions[sid];
        assert HonestSession(cfg, secrets, s);
        assert HonestShares(cfg, secrets, s') by {
          hide HonestCipher, Faithful;
        }
        if s.signedBatch.Some? {
          FaithfulSame(cfg, secrets, s, s', s.signedBatch.value.matches);
        }
        hide HonestSession, Faithful, HonestCipher, HonestShares;
        SessionsStayHonest(cfg, secrets, st, st', sid, s');
        RoundsStayHonest(cfg, secrets, st, st', sid, s', {});
      }
    }
  }

  lemma StepHonest(cfg: Config, secrets: Secrets, st: State, step: Step)
    requires ValidConfig(cfg) && InField(cfg, secrets) && Inv(cfg, st) && CanStep(cfg, st, step)
    requires Honest(cfg, secrets, st) && HonestStep(cfg, secrets, st, step)
    ensures Honest(cfg, secrets, Next(cfg, st, step))
  {
    if step.ResumeTick? {
      assert st.ticks[step.k].rest == [];
    }
    hide Inv, Honest, InField, ValidConfig, AddIntent, BeginRemote, RunLocal, VisitLocal, AfterDecrypt, AfterSign,
         OpenSessions, FirstOpen, HonestIntent, HonestReplies, WellFormed, Field.Prime;
    match step
    case Submit(x, newId) =>
      SubmitHonest(cfg, secrets, st, x, newId);
    case ManualMatch(sid) =>
      if LargeEnough(st, sid) && st.sessions[sid].status == Open {
        BeginHonest(cfg, secrets, st, sid);
      }
    case TimerTick =>
      VisitRemoteHonest(cfg, secrets, st);
    case ResumeTick(k, _) =>
      TickHonest(cfg, secrets, st, st.ticks[..k] + st.ticks[k + 1..]);
    case DecryptReplies(r, replies, batchId) =>
      DecryptHonest(cfg, secrets, st, r, replies, batchId);
    case SignReplies(r, signed) =>
      SignHonest(cfg, secrets, st, r, signed);
    case LocalMatch(sid, batchId) =>
      if LargeEnough(st, sid) && st.sessions[sid].status == Open {
        LocalHonest(cfg, secrets, st, sid, batchId);
      }
    case LocalTick(batchId) =>
      VisitLocalHonest(cfg, secrets, st, batchId);
    case ReplaceCipher(node, id, cipher) =>
      CipherHonest(cfg, secrets, st, node, id, cipher);
  }

  lemma InitHonest(cfg: Config, secrets: Secrets)
    requires ValidConfig(cfg)
    ensures cfg.p > 0 && Honest(cfg, secrets, Init())
  {
    ConfigPrime(cfg);
    hide ValidConfig, Field.Prime;
  }

  lemma {:induction false} RunHonest(cfg: Config, secrets: Secrets, states: seq<State>, steps: seq<Step>, i: nat)
    requires ValidConfig(cfg) && InField(cfg, secrets) && IsRun(cfg, states, steps) && i < |states|
    requires forall k :: 0 <= k < |steps| ==> HonestStep(cfg, secrets, states[k], steps[k])
    ensures Honest(cfg, secrets, states[i])
    decreases i
  {
    hide *;
    RunStart(cfg, states, steps);
    InitHonest(cfg, secrets);
    if i > 0 {
      RunHonest(cfg, secrets, states, steps, i - 1);
      RunInv(cfg, states, steps, i - 1);
      RunStep(cfg, states, steps, i - 1);
      StepHonest(cfg, secrets, states[i - 1], steps[i - 1]);
    }
  }

  /**
   In every run with honest clients and nodes, under any interleaving and any
   pattern of silent nodes, every signed batch is what the plain matcher returns
   for the session's true amounts.
   */
  lemma SignedBatchesAreTrue(cfg: Config, secrets: Secrets, states: seq<State>, steps: seq<Step>, i: nat,
                             sid: SessionId)
    requires ValidConfig(cfg) && InField(cfg, secrets) && IsRun(cfg, states, steps) && i < |states|
    requires forall k :: 0 <= k < |steps| ==> HonestStep(cfg, secrets, states[k], steps[k])
    requires sid in states[i].sessions && states[i].sessions[sid].status == Signed
    ensures var s := states[i].sessions[sid];
            && WellFormed(s) && s.signedBatch.Some?
            && s.signedBatch.value.matches == M.MatchesOf(TrueIntents(s, secrets), cfg.sort)
  {
    RunHonest(cfg, secrets, states, steps, i);
    RunInv(cfg, states, steps, i);
    assert SessionOk(cfg, sid, states[i].sessions[sid]);
    hide M.MatchesOf, TrueIntents, ValidConfig, InField, IsRun;
    assert HonestSession(cfg, secrets, states[i].sessions[sid]);
  }
}
