/** What each part of a round keeps about its session. */
module SessionProofs {
  import opened Collections
  import opened Session
  import opened Protocol
  import Field
  import M = Matcher
  import S = Shamir
  import T = MatcherTheorems

  // ---- Decrypted shares are stored and cleared in the same places ----

  ghost predicate SamePlaces(entries: NodeShares, entries': NodeShares) {
    entries'.Keys == entries.Keys && forall id :: id in entries ==> entries'[id].position == entries[id].position
  }

  /** The slots of the table and their places are what they were. */
  ghost predicate SameSlots(shares: ShareTable, shares': ShareTable) {
    shares'.Keys == shares.Keys && forall node :: node in shares ==> SamePlaces(shares[node], shares'[node])
  }

  lemma SlotsTransitive(a: ShareTable, b: ShareTable, c: ShareTable)
    requires SameSlots(a, b) && SameSlots(b, c)
    ensures SameSlots(a, c)
  {
  }

  lemma {:induction false} AnswersKeepPlaces(entries: NodeShares, answers: seq<Answer>)
    ensures SamePlaces(entries, ApplyAnswers(entries, answers))
  {
    if answers != [] {
      AnswersKeepPlaces(entries, answers[..|answers| - 1]);
    }
  }

  lemma {:induction false} RepliesKeepSlots(shares: ShareTable, nodes: seq<NodeId>, replies: seq<Option<seq<Answer>>>,
                                            n: nat)
    requires n <= |nodes| == |replies|
    ensures SameSlots(shares, StoreReplies(shares, nodes, replies, n))
  {
    if n > 0 {
      RepliesKeepSlots(shares, nodes, replies, n - 1);
      var before: ShareTable := StoreReplies(shares, nodes, replies, n - 1);
      if replies[n - 1].Some? && nodes[n - 1] in before {
        AnswersKeepPlaces(before[nodes[n - 1]], replies[n - 1].value);
      }
    }
  }

  lemma {:induction false} ClearKeepsSlots(shares: ShareTable, nodes: seq<NodeId>, n: nat)
    requires n <= |nodes|
    ensures SameSlots(shares, ClearNodes(shares, nodes, n))
  {
    if n > 0 {
      ClearKeepsSlots(shares, nodes, n - 1);
    }
  }

  lemma DecryptKeepsPlaces(node: NodeId, entries: NodeShares)
    ensures SamePlaces(entries, DecryptNode(node, entries))
  {
  }

  lemma {:induction false} DecryptKeepsSlots(shares: ShareTable, nodes: seq<NodeId>, n: nat)
    requires n <= |nodes|
    ensures SameSlots(shares, DecryptAll(shares, nodes, n).shares)
  {
    hide DecryptNode, CanDecrypt;
    if n > 0 {
      DecryptKeepsSlots(shares, nodes, n - 1);
      var before := DecryptAll(shares, nodes, n - 1).shares;
      if nodes[n - 1] in before {
        DecryptKeepsPlaces(nodes[n - 1], before[nodes[n - 1]]);
      }
    }
  }

  lemma InOrderStays(entries: NodeShares, entries': NodeShares)
    requires InOrder(entries) && SamePlaces(entries, entries')
    ensures InOrder(entries')
  {
    assert |entries'| == |entries'.Keys| && |entries| == |entries.Keys|;
  }

  lemma SlotsStay(s: SessionState, s': SessionState)
    requires SlotsOk(s) && s'.intents == s.intents && SameSlots(s.shares, s'.shares)
    ensures SlotsOk(s')
  {
    hide InOrder;
    forall node | node in s'.shares
      ensures InOrder(s'.shares[node]) && s'.shares[node].Keys <= s'.intents.Keys
    {
      InOrderStays(s.shares[node], s'.shares[node]);
    }
  }

  lemma {:induction false} AnswersKeepKeys(entries: NodeShares, answers: seq<Answer>)
    ensures ApplyAnswers(entries, answers).Keys == entries.Keys
  {
    if answers != [] {
      AnswersKeepKeys(entries, answers[..|answers| - 1]);
    }
  }

  lemma {:induction false} RepliesElsewhere(shares: ShareTable, nodes: seq<NodeId>, replies: seq<Option<seq<Answer>>>,
                                            n: nat, node: NodeId)
    requires n <= |nodes| == |replies|
    ensures var r := StoreReplies(shares, nodes, replies, n);
            (node in r <==> node in shares) && (node in r && node !in nodes[..n] ==> r[node] == shares[node])
  {
    if n > 0 {
      RepliesElsewhere(shares, nodes, replies, n - 1, node);
      assert nodes[..n] == nodes[..n - 1] + [nodes[n - 1]];
    }
  }

  lemma {:induction false} ClearedAt(shares: ShareTable, nodes: seq<NodeId>, n: nat, node: NodeId)
    requires n <= |nodes|
    ensures var r := ClearNodes(shares, nodes, n);
            && (node in r <==> node in shares)
            && (node in r && node !in nodes[..n] ==> r[node] == shares[node])
            && (node in r && node in nodes[..n] ==> forall id :: id in r[node] ==> r[node][id].decrypted.None?)
  {
    if n > 0 {
      ClearedAt(shares, nodes, n - 1, node);
      assert nodes[..n] == nodes[..n - 1] + [nodes[n - 1]];
    }
  }

  /** Clearing the committee's entries clears everything the replies wrote. */
  lemma RepliesCleared(shares: ShareTable, nodes: seq<NodeId>, replies: seq<Option<seq<Answer>>>)
    requires |nodes| == |replies| && NoDecrypted(shares)
    ensures NoDecrypted(ClearNodes(StoreReplies(shares, nodes, replies, |nodes|), nodes, |nodes|))
  {
    var stored := StoreReplies(shares, nodes, replies, |nodes|);
    var r: ShareTable := ClearNodes(stored, nodes, |nodes|);
    assert nodes[..|nodes|] == nodes;
    forall node: NodeId, id: IntentId | node in r && id in r[node]
      ensures r[node][id].decrypted.None?
    {
      ClearedAt(stored, nodes, |nodes|, node);
      RepliesElsewhere(shares, nodes, replies, |nodes|, node);
    }
  }

  lemma {:induction false} DecryptElsewhere(shares: ShareTable, nodes: seq<NodeId>, n: nat, node: NodeId)
    requires n <= |nodes|
    ensures var r := DecryptAll(shares, nodes, n);
            (node in r.shares <==> node in shares)
              && (node in r.shares && node !in nodes[..n] ==> r.shares[node] == shares[node])
  {
    if n > 0 {
      DecryptElsewhere(shares, nodes, n - 1, node);
      assert nodes[..n] == nodes[..n - 1] + [nodes[n - 1]];
    }
  }

  lemma LocalCleared(shares: ShareTable, nodes: seq<NodeId>)
    requires NoDecrypted(shares)
    ensures NoDecrypted(ClearNodes(DecryptAll(shares, nodes, |nodes|).shares, nodes, |nodes|))
  {
    var stored := DecryptAll(shares, nodes, |nodes|).shares;
    var r: ShareTable := ClearNodes(stored, nodes, |nodes|);
    assert nodes[..|nodes|] == nodes;
    forall node: NodeId, id: IntentId | node in r && id in r[node]
      ensures r[node][id].decrypted.None?
    {
      ClearedAt(stored, nodes, |nodes|, node);
      DecryptElsewhere(shares, nodes, |nodes|, node);
    }
  }

  // ---- The matches of a round ----

  lemma {:induction false} RebuiltIds(s: SessionState, shares: ShareTable, cfg: Config, n: nat)
    requires Field.Prime(cfg.p) && n <= |s.order| && (forall id :: id in s.order ==> id in s.intents)
    requires Rebuild(s, shares, cfg, n).Some?
    ensures var xs := Rebuild(s, shares, cfg, n).value;
            |xs| == n && forall k :: 0 <= k < n ==>
              && xs[k].id == s.order[k] && s.order[k] in s.intents
              && xs[k].inputAsset == s.intents[s.order[k]].inputAsset
              && xs[k].outputAsset == s.intents[s.order[k]].outputAsset
  {
    hide S.Reconstructed, Available, Field.Prime;
    if n > 0 {
      RebuiltIds(s, shares, cfg, n - 1);
    }
  }

  lemma RoundMatchesOk(s: SessionState, shares: ShareTable, cfg: Config)
    requires ValidConfig(cfg) && WellFormed(s) && Rebuild(s, shares, cfg, |s.order|).Some?
    ensures MatchesOk(s, M.MatchesOf(Rebuild(s, shares, cfg, |s.order|).value, cfg.sort))
  {
    var xs := Rebuild(s, shares, cfg, |s.order|).value;
    RebuiltIds(s, shares, cfg, |s.order|);
    assert forall x :: x in xs ==> x.id in s.order;
    assert forall id :: id in T.Ids(xs) ==> id in s.intents;
    assert M.Ascending(cfg.sort);
    hide Rebuild, ValidConfig, M.MatchesOf, M.Ascending;
    T.NoIdTwice(xs, cfg.sort);
    var ms := M.MatchesOf(xs, cfg.sort);
    forall k | 0 <= k < |ms|
      ensures ms[k].aId in s.intents && ms[k].bId in s.intents
    {
      T.MatchIdsSubmitted(xs, cfg.sort, k);
    }
  }

  // ---- Each part keeps the session in order ----

  lemma FailedOk(cfg: Config, sid: SessionId, s: SessionState, shares: ShareTable)
    requires SessionOk(cfg, sid, s) && s.status == Matching && SameSlots(s.shares, shares)
    ensures SessionOk(cfg, sid, s.(status := Failed, shares := shares))
  {
    SlotsStay(s, s.(status := Failed, shares := shares));
    hide SlotsOk, SameSlots;
  }

  lemma ClearedOk(cfg: Config, sid: SessionId, s: SessionState, shares: ShareTable)
    requires SessionOk(cfg, sid, s) && s.status == Matching && NoDecrypted(shares) && SameSlots(s.shares, shares)
    ensures SessionOk(cfg, sid, s.(shares := shares))
  {
    SlotsStay(s, s.(shares := shares));
    hide SlotsOk, SameSlots;
  }

  lemma SignedOk(cfg: Config, sid: SessionId, s: SessionState, shares: ShareTable, b: SignedBatch)
    requires SessionOk(cfg, sid, s) && s.status == Matching && NoDecrypted(shares) && SameSlots(s.shares, shares)
    requires b.sessionId == sid && Quorum(cfg, b.signers) && MatchesOk(s, b.matches)
    ensures SessionOk(cfg, sid, s.(status := Signed, shares := shares, signedBatch := Some(b)))
  {
    SlotsStay(s, s.(status := Signed, shares := shares, signedBatch := Some(b)));
    hide SlotsOk, SameSlots;
  }

  lemma SameIntents(s: SessionState, r: SessionState, ms: seq<M.Match>)
    requires MatchesOk(s, ms) && r.intents == s.intents
    ensures MatchesOk(r, ms)
  {
  }

  lemma SessionBasics(cfg: Config, sid: SessionId, s: SessionState)
    requires SessionOk(cfg, sid, s)
    ensures WellFormed(s) && s.sessionId == sid && (s.status != Failed ==> NoDecrypted(s.shares))
  {
  }

  lemma AfterDecryptOk(cfg: Config, sid: SessionId, s: SessionState, replies: seq<Option<seq<Answer>>>)
    requires ValidConfig(cfg) && SessionOk(cfg, sid, s) && s.status == Matching && |replies| == |cfg.nodes|
    ensures var r := AfterDecrypt(cfg, s, replies);
            && SessionOk(cfg, sid, r.session) && r.session.intents == s.intents && r.session.order == s.order
            && (r.matches.Some? ==> r.session.status == Matching && MatchesOk(s, r.matches.value))
            && (r.matches.None? ==> r.session.status == Failed)
  {
    assert Field.Prime(cfg.p);
    SessionBasics(cfg, sid, s);
    hide StoreReplies, ClearNodes, Rebuild, ValidConfig, M.MatchesOf, Field.Prime, Responding, Threshold;
    hide SessionOk, WellFormed, NoDecrypted, MatchesOk;
    var shares := StoreReplies(s.shares, cfg.nodes, replies, |cfg.nodes|);
    var cleared := ClearNodes(shares, cfg.nodes, |cfg.nodes|);
    RepliesKeepSlots(s.shares, cfg.nodes, replies, |cfg.nodes|);
    ClearKeepsSlots(shares, cfg.nodes, |cfg.nodes|);
    SlotsTransitive(s.shares, shares, cleared);
    if Responding(replies) < Threshold(|cfg.nodes|) {
      FailedOk(cfg, sid, s, s.shares);
    } else if Rebuild(s, shares, cfg, |s.order|).None? {
      FailedOk(cfg, sid, s, shares);
    } else {
      RepliesCleared(s.shares, cfg.nodes, replies);
      ClearedOk(cfg, sid, s, cleared);
      RoundMatchesOk(s, shares, cfg);
    }
  }

  lemma {:induction false} SignersAre(nodes: seq<NodeId>, signed: seq<bool>, n: nat)
    requires n <= |nodes| == |signed| && NoRepeats(nodes)
    ensures var r := Signers(nodes, signed, n); NoRepeats(r) && forall x :: x in r ==> x in nodes[..n]
  {
    if n > 0 {
      SignersAre(nodes, signed, n - 1);
      assert nodes[..n] == nodes[..n - 1] + [nodes[n - 1]];
      assert nodes[n - 1] !in nodes[..n - 1];
    }
  }

  /** The positions below `n` that are true. */
  function Trues(signed: seq<bool>, n: nat): set<nat> {
    set j: nat | j < n && j < |signed| && signed[j]
  }

  lemma TruesStep(signed: seq<bool>, n: nat)
    requires n < |signed|
    ensures |Trues(signed, n + 1)| == |Trues(signed, n)| + (if signed[n] then 1 else 0)
  {
    assert Trues(signed, n + 1) == Trues(signed, n) + (if signed[n] then {n} else {});
  }

  /** Exactly the nodes that replied, each once. */
  lemma {:induction false} SignersExactly(nodes: seq<NodeId>, signed: seq<bool>, n: nat, k: nat)
    requires n <= |nodes| == |signed| && NoRepeats(nodes) && k < |nodes|
    ensures nodes[k] in Signers(nodes, signed, n) <==> k < n && signed[k]
    ensures |Signers(nodes, signed, n)| == |Trues(signed, n)|
  {
    assert Trues(signed, 0) == {};
    hide Trues;
    if n > 0 {
      SignersExactly(nodes, signed, n - 1, k);
      TruesStep(signed, n - 1);
      assert k != n - 1 ==> nodes[k] != nodes[n - 1];
    }
  }

  lemma {:induction false} SignersInOrder(nodes: seq<NodeId>, signed: seq<bool>, n: nat, k: nat)
    requires k < n <= |nodes| == |signed| && signed[k]
    ensures var before := |Signers(nodes, signed, k)|;
            && before < |Signers(nodes, signed, n)| && Signers(nodes, signed, n)[before] == nodes[k]
  {
    if k < n - 1 {
      SignersInOrder(nodes, signed, n - 1, k);
    }
  }

  /**
   The round ends signed if and only if at least the threshold of nodes signed,
   and then with this batch and exactly those nodes; otherwise it fails and no
   batch is set.
   */
  lemma SignedExactly(cfg: Config, s: SessionState, batchId: string, matches: seq<M.Match>, signed: seq<bool>)
    requires ValidConfig(cfg) && |signed| == |cfg.nodes|
    ensures var r := AfterSign(cfg, s, batchId, matches, signed);
            && (r.status == Signed <==> |set j: nat | j < |signed| && signed[j]| >= Threshold(|cfg.nodes|))
            && (r.status == Signed ==>
                  && r.signedBatch.Some? && r.signedBatch.value.batchId == batchId
                  && r.signedBatch.value.sessionId == s.sessionId && r.signedBatch.value.matches == matches
                  && (forall n :: n in r.signedBatch.value.signers ==> n in cfg.nodes)
                  && NoRepeats(r.signedBatch.value.signers)
                  && forall k :: 0 <= k < |cfg.nodes| ==> (cfg.nodes[k] in r.signedBatch.value.signers <==> signed[k]))
            && (r.status != Signed ==> r.status == Failed && r.signedBatch == s.signedBatch)
            && r == s.(status := r.status, signedBatch := r.signedBatch)
  {
    assert NoRepeats(cfg.nodes);
    SignersAre(cfg.nodes, signed, |cfg.nodes|);
    assert cfg.nodes[..|cfg.nodes|] == cfg.nodes;
    if |cfg.nodes| > 0 {
      SignersExactly(cfg.nodes, signed, |cfg.nodes|, 0);
    } else {
      assert Trues(signed, 0) == {};
    }
    assert Trues(signed, |signed|) == set j: nat | j < |signed| && signed[j];
    forall k | 0 <= k < |cfg.nodes|
      ensures cfg.nodes[k] in Signers(cfg.nodes, signed, |cfg.nodes|) <==> signed[k]
    {
      SignersExactly(cfg.nodes, signed, |cfg.nodes|, k);
    }
    hide Signers, ValidConfig, NoRepeats, Threshold;
  }

  lemma AfterSignOk(cfg: Config, sid: SessionId, s: SessionState, batchId: string, matches: seq<M.Match>,
                    signed: seq<bool>)
    requires ValidConfig(cfg) && SessionOk(cfg, sid, s) && s.status == Matching && |signed| == |cfg.nodes|
    requires MatchesOk(s, matches)
    ensures var r := AfterSign(cfg, s, batchId, matches, signed);
            SessionOk(cfg, sid, r) && r.intents == s.intents && r.order == s.order && r.status != Open
              && r.status != Matching
  {
    assert NoRepeats(cfg.nodes);
    SignersAre(cfg.nodes, signed, |cfg.nodes|);
    assert cfg.nodes[..|cfg.nodes|] == cfg.nodes;
    hide Signers, ValidConfig, NoDecrypted, T.IdsDisjoint;
  }

  lemma InProcessOk(cfg: Config, sid: SessionId, s: SessionState, batchId: string)
    requires ValidConfig(cfg) && SessionOk(cfg, sid, s) && s.status == Matching
    ensures var r := InProcess(cfg, s, batchId);
            && SessionOk(cfg, sid, r) && r.intents == s.intents && r.order == s.order && r.status != Open
            && r.status != Matching
            && (r.status == Signed ==> r.signedBatch.Some? && r.signedBatch.value.signers == cfg.nodes)
  {
    assert Field.Prime(cfg.p);
    assert Quorum(cfg, cfg.nodes) by { assert NoRepeats(cfg.nodes); }
    SessionBasics(cfg, sid, s);
    hide DecryptAll, ClearNodes, Rebuild, ValidConfig, M.MatchesOf, Field.Prime, Quorum;
    hide SessionOk, WellFormed, NoDecrypted, MatchesOk;
    var shares := DecryptAll(s.shares, cfg.nodes, |cfg.nodes|).shares;
    DecryptKeepsSlots(s.shares, cfg.nodes, |cfg.nodes|);
    ClearKeepsSlots(shares, cfg.nodes, |cfg.nodes|);
    SlotsTransitive(s.shares, shares, ClearNodes(shares, cfg.nodes, |cfg.nodes|));
    FailedOk(cfg, sid, s, shares);
    LocalCleared(s.shares, cfg.nodes);
    if DecryptAll(s.shares, cfg.nodes, |cfg.nodes|).ok && Rebuild(s, shares, cfg, |s.order|).Some? {
      RoundMatchesOk(s, shares, cfg);
      SignedOk(cfg, sid, s, ClearNodes(shares, cfg.nodes, |cfg.nodes|), InProcess(cfg, s, batchId).signedBatch.value);
    }
  }

  lemma {:induction false} StoredUndecrypted(shares: ShareTable, id: IntentId, es: seq<EncryptedShare>)
    requires NoDecrypted(shares)
    ensures NoDecrypted(StoreShares(shares, id, es))
  {
    if es != [] {
      StoredUndecrypted(shares, id, es[..|es| - 1]);
    }
  }

  lemma NumberedNext(entries: NodeShares, id: IntentId, cipher: Cipher)
    requires InOrder(entries)
    ensures InOrder(entries[id := ShareEntry(cipher, None, SlotPosition(entries, id))])
  {
    var more := entries[id := ShareEntry(cipher, None, SlotPosition(entries, id))];
    assert |more| == |more.Keys| && |entries| == |entries.Keys|;
    assert more.Keys == entries.Keys + {id};
  }

  ghost predicate Numbered(shares: ShareTable, ids: set<IntentId>) {
    forall node :: node in shares ==> InOrder(shares[node]) && shares[node].Keys <= ids
  }

  lemma {:induction false} StoredInOrder(shares: ShareTable, id: IntentId, es: seq<EncryptedShare>, ids: set<IntentId>)
    requires Numbered(shares, ids) && id in ids
    ensures Numbered(StoreShares(shares, id, es), ids)
  {
    hide SlotPosition, InOrder;
    if es != [] {
      StoredInOrder(shares, id, es[..|es| - 1], ids);
      var before, e := StoreShares(shares, id, es[..|es| - 1]), es[|es| - 1];
      NumberedNext(if e.nodeId in before then before[e.nodeId] else map[], id, e.cipher);
      EmptyInOrder();
    }
  }

  lemma EmptyInOrder()
    ensures InOrder(map[])
  {
  }

  lemma PutKeepsOrder(s: SessionState, x: MpcIntent)
    requires SlotsOk(s)
    ensures SlotsOk(PutIntent(s, x))
  {
    hide InOrder, StoreShares;
    var ids := s.intents.Keys + {x.intentId};
    assert Numbered(s.shares, ids);
    StoredInOrder(s.shares, x.intentId, x.encryptedShares, ids);
  }

  lemma PutIntentOk(cfg: Config, sid: SessionId, s: SessionState, x: MpcIntent)
    requires SessionOk(cfg, sid, s) && s.status == Open
    ensures SessionOk(cfg, sid, PutIntent(s, x)) && PutIntent(s, x).status == Open
  {
    StoredUndecrypted(s.shares, x.intentId, x.encryptedShares);
    PutKeepsOrder(s, x);
    hide StoreShares, NoDecrypted, SlotsOk;
  }
}
