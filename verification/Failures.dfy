/**
 When exactly a round fails, and which opened shares a failed session is left
 with: the failing returns of the rounds come before the loop that clears them
 (coordinator.ts and remote-coordinator.ts under apps/mpc-committee/src).
 */
module Failures {
  import opened Collections
  import opened Session
  import opened Protocol
  import opened SessionProofs
  import opened ProtocolProofs
  import Field
  import M = Matcher
  import S = Shamir

  // ---- Enough shares ----

  /** Two different nodes have an opened share of the intent. */
  ghost predicate TwoOpened(shares: ShareTable, nodes: seq<NodeId>, id: IntentId, n: nat)
    requires n <= |nodes|
  {
    exists i, j :: 0 <= i < j < n && Decrypted(shares, nodes[i], id).Some? && Decrypted(shares, nodes[j], id).Some?
  }

  lemma {:induction false} NoneAvailable(shares: ShareTable, nodes: seq<NodeId>, id: IntentId, n: nat)
    requires n <= |nodes|
    ensures |Available(shares, nodes, id, n)| >= 1 <==> exists i :: 0 <= i < n && Decrypted(shares, nodes[i], id).Some?
  {
    hide Decrypted;
    if n > 0 {
      NoneAvailable(shares, nodes, id, n - 1);
      if Decrypted(shares, nodes[n - 1], id).Some? {
        assert |Available(shares, nodes, id, n)| >= 1;
      }
    }
  }

  lemma {:induction false} TwoAvailable(shares: ShareTable, nodes: seq<NodeId>, id: IntentId, n: nat)
    requires n <= |nodes|
    ensures |Available(shares, nodes, id, n)| >= 2 <==> TwoOpened(shares, nodes, id, n)
  {
    hide Decrypted;
    if n > 0 {
      TwoAvailable(shares, nodes, id, n - 1);
      NoneAvailable(shares, nodes, id, n - 1);
      if TwoOpened(shares, nodes, id, n) && !TwoOpened(shares, nodes, id, n - 1) {
        var i, j :| 0 <= i < j < n && Decrypted(shares, nodes[i], id).Some? && Decrypted(shares, nodes[j], id).Some?;
        assert j == n - 1;
      }
    }
  }

  lemma {:induction false} RebuildExactly(s: SessionState, shares: ShareTable, cfg: Config, n: nat)
    requires Field.Prime(cfg.p) && WellFormed(s) && n <= |s.order|
    ensures Rebuild(s, shares, cfg, n).Some? <==> forall k :: 0 <= k < n ==>
              TwoOpened(shares, cfg.nodes, s.order[k], |cfg.nodes|)
  {
    hide S.Reconstructed, Available, Field.Prime, TwoOpened;
    if n > 0 {
      RebuildExactly(s, shares, cfg, n - 1);
      TwoAvailable(shares, cfg.nodes, s.order[n - 1], |cfg.nodes|);
    }
  }

  lemma RebuildsAll(s: SessionState, shares: ShareTable, cfg: Config)
    requires Field.Prime(cfg.p) && WellFormed(s)
    ensures Rebuild(s, shares, cfg, |s.order|).Some? <==> forall id :: id in s.intents ==>
              TwoOpened(shares, cfg.nodes, id, |cfg.nodes|)
  {
    RebuildExactly(s, shares, cfg, |s.order|);
    hide Rebuild, Field.Prime, TwoOpened;
    if forall k :: 0 <= k < |s.order| ==> TwoOpened(shares, cfg.nodes, s.order[k], |cfg.nodes|) {
      forall id | id in s.intents
        ensures TwoOpened(shares, cfg.nodes, id, |cfg.nodes|)
      {
        assert id in s.order;
      }
    }
  }

  /** Node `i` is the first of the first `n` that has a share of the intent, this one. */
  ghost predicate FirstShare(shares: ShareTable, nodes: seq<NodeId>, id: IntentId, n: nat, i: nat, v: S.Share) {
    && i < n <= |nodes| && Decrypted(shares, nodes[i], id) == Some(v)
    && forall h :: 0 <= h < i ==> Decrypted(shares, nodes[h], id).None?
  }

  /** Node `j` is the next after node `i`. */
  ghost predicate SecondShare(shares: ShareTable, nodes: seq<NodeId>, id: IntentId, n: nat, i: nat, j: nat,
                              v: S.Share) {
    && i < j < n <= |nodes| && Decrypted(shares, nodes[j], id) == Some(v)
    && forall h :: i < h < j ==> Decrypted(shares, nodes[h], id).None?
  }

  /** The shares that are picked come from the first two nodes that have one, in their order. */
  lemma {:induction false} AvailableExactly(shares: ShareTable, nodes: seq<NodeId>, id: IntentId, n: nat)
    returns (i: nat, j: nat)
    requires n <= |nodes|
    ensures |Available(shares, nodes, id, n)| >= 1 ==>
              FirstShare(shares, nodes, id, n, i, Available(shares, nodes, id, n)[0])
    ensures |Available(shares, nodes, id, n)| == 2 ==>
              SecondShare(shares, nodes, id, n, i, j, Available(shares, nodes, id, n)[1])
    decreases n
  {
    hide Decrypted;
    i, j := 0, 0;
    if n > 0 {
      i, j := AvailableExactly(shares, nodes, id, n - 1);
      NoneAvailable(shares, nodes, id, n - 1);
      var before, r := Available(shares, nodes, id, n - 1), Available(shares, nodes, id, n);
      if |before| == 0 && |r| == 1 {
        i := n - 1;
      } else if |before| == 1 && |r| == 2 {
        OnlyOne(shares, nodes, id, n - 1, i);
        j := n - 1;
      }
    }
  }

  lemma OnlyOne(shares: ShareTable, nodes: seq<NodeId>, id: IntentId, n: nat, i: nat)
    requires i < n <= |nodes| && |Available(shares, nodes, id, n)| == 1 && Decrypted(shares, nodes[i], id).Some?
    ensures forall h :: 0 <= h < n && h != i ==> Decrypted(shares, nodes[h], id).None?
  {
    TwoAvailable(shares, nodes, id, n);
    forall h | 0 <= h < n && h != i
      ensures Decrypted(shares, nodes[h], id).None?
    {
      assert !TwoOpened(shares, nodes, id, n);
    }
  }

  // ---- The remote round ----

  /** The number of nodes that answered. */
  lemma {:induction false} RespondingExactly<T>(replies: seq<Option<T>>)
    ensures Responding(replies) == |set k: nat | k < |replies| && replies[k].Some?|
  {
    var now := set k: nat | k < |replies| && replies[k].Some?;
    if replies == [] {
      assert now == {};
    } else {
      var n := |replies| - 1;
      var front := replies[..n];
      RespondingExactly(front);
      var before := set k: nat | k < |front| && front[k].Some?;
      assert now == if replies[n].Some? then before + {n} else before;
    }
  }

  /** The share in the last answer for an intent, if there is one. */
  function LastAnswer(answers: seq<Answer>, id: IntentId): Option<S.Share> {
    if answers == [] then None
    else
      var last := answers[|answers| - 1];
      if last.intentId == id then last.share else LastAnswer(answers[..|answers| - 1], id)
  }

  /** The share a node's reply adds for an intent: it needs a slot that the intent's submission made. */
  function Contribution(nodes: seq<NodeId>, shares: ShareTable, replies: seq<Option<seq<Answer>>>, k: nat,
                        id: IntentId): Option<S.Share>
    requires k < |nodes| == |replies|
  {
    if replies[k].Some? && nodes[k] in shares && id in shares[nodes[k]] then LastAnswer(replies[k].value, id) else None
  }

  lemma {:induction false} AnswerStored(entries: NodeShares, answers: seq<Answer>, id: IntentId)
    requires id in entries && entries[id].decrypted.None?
    ensures id in ApplyAnswers(entries, answers)
    ensures ApplyAnswers(entries, answers)[id].decrypted == LastAnswer(answers, id)
  {
    if answers != [] {
      AnswerStored(entries, answers[..|answers| - 1], id);
    }
  }

  lemma {:induction false} ReplyStored(cfg: Config, s: SessionState, replies: seq<Option<seq<Answer>>>, n: nat,
                                       k: nat, id: IntentId)
    requires NoRepeats(cfg.nodes) && n <= |cfg.nodes| == |replies| && k < |cfg.nodes| && NoDecrypted(s.shares)
    ensures Decrypted(StoreReplies(s.shares, cfg.nodes, replies, n), cfg.nodes[k], id) ==
            if k < n then Contribution(cfg.nodes, s.shares, replies, k, id) else None
    decreases n
  {
    if n > 0 {
      var node := cfg.nodes[k];
      ReplyStored(cfg, s, replies, n - 1, k, id);
      if k == n - 1 {
        RepliesElsewhere(s.shares, cfg.nodes, replies, k, node);
        assert node !in cfg.nodes[..k];
        if node in s.shares && replies[k].Some? {
          AnswersKeepKeys(s.shares[node], replies[k].value);
          if id in s.shares[node] {
            AnswerStored(s.shares[node], replies[k].value, id);
          }
        }
      } else {
        assert cfg.nodes[n - 1] != node;
      }
    }
  }

  /** Two different nodes contribute a share of the intent. */
  ghost predicate TwoContribute(cfg: Config, s: SessionState, replies: seq<Option<seq<Answer>>>, id: IntentId)
    requires |replies| == |cfg.nodes|
  {
    exists i, j :: 0 <= i < j < |cfg.nodes|
      && Contribution(cfg.nodes, s.shares, replies, i, id).Some?
      && Contribution(cfg.nodes, s.shares, replies, j, id).Some?
  }

  lemma ContributeIsOpened(cfg: Config, s: SessionState, replies: seq<Option<seq<Answer>>>, id: IntentId)
    requires NoRepeats(cfg.nodes) && |cfg.nodes| == |replies| && NoDecrypted(s.shares)
    ensures TwoOpened(StoreReplies(s.shares, cfg.nodes, replies, |cfg.nodes|), cfg.nodes, id, |cfg.nodes|) <==>
              TwoContribute(cfg, s, replies, id)
  {
    var shares := StoreReplies(s.shares, cfg.nodes, replies, |cfg.nodes|);
    forall k | 0 <= k < |cfg.nodes|
      ensures Decrypted(shares, cfg.nodes[k], id) == Contribution(cfg.nodes, s.shares, replies, k, id)
    {
      ReplyStored(cfg, s, replies, |cfg.nodes|, k, id);
    }
    hide StoreReplies, Decrypted, Contribution, NoRepeats, NoDecrypted;
  }

  /**
   A round gets to signing if and only if enough nodes answer and two of them
   contribute a share of each intent of the session.
   */
  lemma DecryptSucceedsExactly(cfg: Config, s: SessionState, replies: seq<Option<seq<Answer>>>)
    requires ValidConfig(cfg) && |replies| == |cfg.nodes| && WellFormed(s) && NoDecrypted(s.shares)
    ensures AfterDecrypt(cfg, s, replies).matches.Some? <==>
              && |set k: nat | k < |replies| && replies[k].Some?| >= Threshold(|cfg.nodes|)
              && forall id :: id in s.intents ==> TwoContribute(cfg, s, replies, id)
  {
    RespondingExactly(replies);
    assert Field.Prime(cfg.p) && NoRepeats(cfg.nodes);
    var shares := StoreReplies(s.shares, cfg.nodes, replies, |cfg.nodes|);
    RebuildsAll(s, shares, cfg);
    forall id | id in s.intents
      ensures TwoOpened(shares, cfg.nodes, id, |cfg.nodes|) <==> TwoContribute(cfg, s, replies, id)
    {
      ContributeIsOpened(cfg, s, replies, id);
    }
    hide StoreReplies, Rebuild, ClearNodes, M.MatchesOf, ValidConfig, Field.Prime, WellFormed, Responding,
         NoDecrypted, TwoOpened, TwoContribute, NoRepeats;
  }

  // ---- What a submission decides ----

  predicate HasSlot(s: SessionState, node: NodeId, id: IntentId) {
    node in s.shares && id in s.shares[node]
  }

  /** Two different nodes hold a share of the intent. */
  ghost predicate TwoHold(cfg: Config, s: SessionState, id: IntentId) {
    exists i, j :: 0 <= i < j < |cfg.nodes| && HasSlot(s, cfg.nodes[i], id) && HasSlot(s, cfg.nodes[j], id)
  }

  /** Some replies let the round go on. */
  ghost predicate CanGoOn(cfg: Config, s: SessionState)
    requires Field.Prime(cfg.p) && WellFormed(s)
  {
    exists replies :: |replies| == |cfg.nodes| && AfterDecrypt(cfg, s, replies).matches.Some?
  }

  /** An answer about every id of the list. */
  function AnswerAll(ids: seq<IntentId>): (r: seq<Answer>) {
    if ids == [] then [] else AnswerAll(ids[..|ids| - 1]) + [Answer(ids[|ids| - 1], Some(S.Share(0, 0)))]
  }

  lemma {:induction false} AllAnswered(ids: seq<IntentId>, id: IntentId)
    requires id in ids
    ensures LastAnswer(AnswerAll(ids), id).Some?
  {
    var front, last := ids[..|ids| - 1], ids[|ids| - 1];
    assert ids == front + [last];
    assert AnswerAll(ids)[..|AnswerAll(ids)| - 1] == AnswerAll(front);
    if last != id {
      AllAnswered(front, id);
    }
  }

  lemma {:induction false} AllRespond<T>(replies: seq<Option<T>>)
    requires forall k :: 0 <= k < |replies| ==> replies[k].Some?
    ensures Responding(replies) == |replies|
  {
    if replies != [] {
      AllRespond(replies[..|replies| - 1]);
    }
  }

  lemma FullRepliesContribute(cfg: Config, s: SessionState, replies: seq<Option<seq<Answer>>>, id: IntentId)
    requires |replies| == |cfg.nodes| && WellFormed(s) && id in s.intents && TwoHold(cfg, s, id)
    requires forall k :: 0 <= k < |replies| ==> replies[k] == Some(AnswerAll(s.order))
    ensures TwoContribute(cfg, s, replies, id)
  {
    AllAnswered(s.order, id);
    var i, j :| 0 <= i < j < |cfg.nodes| && HasSlot(s, cfg.nodes[i], id) && HasSlot(s, cfg.nodes[j], id);
    assert Contribution(cfg.nodes, s.shares, replies, i, id).Some?;
    assert Contribution(cfg.nodes, s.shares, replies, j, id).Some?;
  }

  /** A round can get to signing if and only if two nodes hold a share of every intent of the session. */
  lemma GoesOnExactly(cfg: Config, s: SessionState)
    requires ValidConfig(cfg) && WellFormed(s) && NoDecrypted(s.shares)
    ensures CanGoOn(cfg, s) <==> forall id :: id in s.intents ==> TwoHold(cfg, s, id)
  {
    hide ValidConfig, AfterDecrypt, NoDecrypted, WellFormed, Field.Prime, Responding;
    ConfigPrime(cfg);
    if forall id :: id in s.intents ==> TwoHold(cfg, s, id) {
      var replies := seq(|cfg.nodes|, k => Some(AnswerAll(s.order)));
      AllRespond(replies);
      RespondingExactly(replies);
      forall id | id in s.intents
        ensures TwoContribute(cfg, s, replies, id)
      {
        FullRepliesContribute(cfg, s, replies, id);
      }
      DecryptSucceedsExactly(cfg, s, replies);
      assert AfterDecrypt(cfg, s, replies).matches.Some?;
    }
    if replies :| |replies| == |cfg.nodes| && AfterDecrypt(cfg, s, replies).matches.Some? {
      DecryptSucceedsExactly(cfg, s, replies);
      forall id | id in s.intents
        ensures TwoHold(cfg, s, id)
      {
        ContributorsHold(cfg, s, replies, id);
      }
    }
  }

  lemma ContributorsHold(cfg: Config, s: SessionState, replies: seq<Option<seq<Answer>>>, id: IntentId)
    requires |replies| == |cfg.nodes| && TwoContribute(cfg, s, replies, id)
    ensures TwoHold(cfg, s, id)
  {
    var i, j :| 0 <= i < j < |cfg.nodes| && Contribution(cfg.nodes, s.shares, replies, i, id).Some?
                && Contribution(cfg.nodes, s.shares, replies, j, id).Some?;
    assert HasSlot(s, cfg.nodes[i], id) && HasSlot(s, cfg.nodes[j], id);
  }

  predicate Names(x: MpcIntent, node: NodeId) {
    exists k :: 0 <= k < |x.encryptedShares| && x.encryptedShares[k].nodeId == node
  }

  /** The shares are addressed to at least two different nodes of the committee. */
  ghost predicate NamesTwo(cfg: Config, x: MpcIntent) {
    exists i, j :: 0 <= i < j < |cfg.nodes| && Names(x, cfg.nodes[i]) && Names(x, cfg.nodes[j])
  }

  lemma {:induction false} StoredExactly(shares: ShareTable, id: IntentId, es: seq<EncryptedShare>, node: NodeId,
                                         other: IntentId)
    ensures var r := StoreShares(shares, id, es);
            node in r && other in r[node] <==>
              (node in shares && other in shares[node])
                || (other == id && exists k :: 0 <= k < |es| && es[k].nodeId == node)
  {
    hide SlotPosition;
    if es != [] {
      var front, last := es[..|es| - 1], es[|es| - 1];
      StoredExactly(shares, id, front, node, other);
      assert es == front + [last];
      assert (exists k :: 0 <= k < |es| && es[k].nodeId == node)
        <==> (exists k :: 0 <= k < |front| && front[k].nodeId == node) || last.nodeId == node by {
        if last.nodeId == node {
          assert es[|es| - 1].nodeId == node;
        }
        if k :| 0 <= k < |front| && front[k].nodeId == node {
          assert es[k].nodeId == node;
        }
      }
    }
  }

  /** A submission makes slots exactly at the nodes it names. */
  lemma PutSlots(s: SessionState, x: MpcIntent, node: NodeId, id: IntentId)
    ensures HasSlot(PutIntent(s, x), node, id) <==> HasSlot(s, node, id) || (id == x.intentId && Names(x, node))
  {
    StoredExactly(s.shares, x.intentId, x.encryptedShares, node, id);
    hide StoreShares;
  }

  /** The slots that were there keep their places; a new one goes behind them. */
  lemma {:induction false} StoredPlaces(shares: ShareTable, id: IntentId, es: seq<EncryptedShare>, node: NodeId,
                                        other: IntentId)
    requires node in shares && other in shares[node]
    ensures var r := StoreShares(shares, id, es);
            && node in r && other in r[node] && r[node][other].position == shares[node][other].position
            && (id !in shares[node] && id in r[node] ==> r[node][id].position == |shares[node]|)
  {
    if es != [] {
      StoredPlaces(shares, id, es[..|es| - 1], node, other);
      if id !in shares[node] {
        SameUntilNew(shares, id, es[..|es| - 1], node);
      }
    }
  }

  lemma {:induction false} SameUntilNew(shares: ShareTable, id: IntentId, es: seq<EncryptedShare>, node: NodeId)
    requires node in shares && id !in shares[node]
    ensures var r := StoreShares(shares, id, es);
            node in r && (id !in r[node] ==> r[node] == shares[node])
  {
    if es != [] {
      SameUntilNew(shares, id, es[..|es| - 1], node);
    }
  }

  lemma NewHolders(cfg: Config, s: SessionState, x: MpcIntent)
    requires SlotsOk(s) && x.intentId !in s.intents
    ensures TwoHold(cfg, PutIntent(s, x), x.intentId) <==> NamesTwo(cfg, x)
    ensures forall id :: id in s.intents ==> (TwoHold(cfg, PutIntent(s, x), id) <==> TwoHold(cfg, s, id))
  {
    forall node, id
      ensures HasSlot(PutIntent(s, x), node, id) <==> HasSlot(s, node, id) || (id == x.intentId && Names(x, node))
    {
      PutSlots(s, x, node, id);
    }
    forall node
      ensures !HasSlot(s, node, x.intentId)
    {
    }
    hide HasSlot, Names, PutIntent, SlotsOk;
  }

  /**
   What the submit handler does not look at: an intent with a new id spoils a
   round that could go on, for every list of replies, if and only if its shares
   do not name two different nodes of the committee.
   */
  lemma SubmissionExactly(cfg: Config, s: SessionState, x: MpcIntent)
    requires ValidConfig(cfg) && WellFormed(s) && SlotsOk(s) && NoDecrypted(s.shares) && CanGoOn(cfg, s)
    requires x.intentId !in s.intents
    ensures WellFormed(PutIntent(s, x)) && (CanGoOn(cfg, PutIntent(s, x)) <==> NamesTwo(cfg, x))
  {
    hide ValidConfig, PutIntent, CanGoOn, NoDecrypted, TwoHold, NamesTwo, WellFormed, SlotsOk, Field.Prime;
    ConfigPrime(cfg);
    PutFacts(s, x);
    NewHolders(cfg, s, x);
    GoesOnExactly(cfg, s);
    GoesOnExactly(cfg, PutIntent(s, x));
  }

  lemma PutFacts(s: SessionState, x: MpcIntent)
    requires WellFormed(s) && NoDecrypted(s.shares)
    ensures WellFormed(PutIntent(s, x)) && NoDecrypted(PutIntent(s, x).shares)
    ensures PutIntent(s, x).intents == s.intents[x.intentId := x]
  {
    StoredUndecrypted(s.shares, x.intentId, x.encryptedShares);
    hide StoreShares, NoDecrypted;
  }

  /** A session that cannot go on fails for every list of replies. */
  lemma StuckFails(cfg: Config, s: SessionState, replies: seq<Option<seq<Answer>>>)
    requires Field.Prime(cfg.p) && WellFormed(s) && |replies| == |cfg.nodes| && !CanGoOn(cfg, s)
    ensures AfterDecrypt(cfg, s, replies).matches.None? && AfterDecrypt(cfg, s, replies).session.status == Failed
  {
    assert AfterDecrypt(cfg, s, replies).matches.None?;
    hide StoreReplies, Rebuild, ClearNodes, M.MatchesOf, Field.Prime, WellFormed, Responding, CanGoOn;
  }

  /** An intent that does not name two nodes fails the round of all the others, whoever answers. */
  lemma MisaddressedIntentFailsAll(cfg: Config, s: SessionState, x: MpcIntent, replies: seq<Option<seq<Answer>>>)
    requires ValidConfig(cfg) && WellFormed(s) && SlotsOk(s) && NoDecrypted(s.shares) && |replies| == |cfg.nodes|
    requires x.intentId !in s.intents && !NamesTwo(cfg, x)
    ensures WellFormed(PutIntent(s, x)) && AfterDecrypt(cfg, PutIntent(s, x), replies).session.status == Failed
  {
    hide ValidConfig, PutIntent, CanGoOn, NoDecrypted, TwoHold, NamesTwo, WellFormed, SlotsOk, Field.Prime,
         AfterDecrypt;
    ConfigPrime(cfg);
    PutFacts(s, x);
    NewHolders(cfg, s, x);
    GoesOnExactly(cfg, PutIntent(s, x));
    StuckFails(cfg, PutIntent(s, x), replies);
  }

  /** A failed remote round keeps the contributed shares exactly if enough nodes had answered. */
  lemma RemoteLeftovers(cfg: Config, s: SessionState, replies: seq<Option<seq<Answer>>>, k: nat, id: IntentId)
    requires ValidConfig(cfg) && |replies| == |cfg.nodes| && WellFormed(s) && NoDecrypted(s.shares) && k < |cfg.nodes|
    ensures Decrypted(AfterDecrypt(cfg, s, replies).session.shares, cfg.nodes[k], id) ==
            if AfterDecrypt(cfg, s, replies).matches.None?
               && |set j: nat | j < |replies| && replies[j].Some?| >= Threshold(|cfg.nodes|)
            then Contribution(cfg.nodes, s.shares, replies, k, id) else None
  {
    RespondingExactly(replies);
    assert Field.Prime(cfg.p) && NoRepeats(cfg.nodes);
    ReplyStored(cfg, s, replies, |cfg.nodes|, k, id);
    RepliesCleared(s.shares, cfg.nodes, replies);
    hide StoreReplies, Rebuild, ClearNodes, M.MatchesOf, ValidConfig, Field.Prime, WellFormed, Responding,
         Contribution, NoRepeats;
  }

  // ---- The in-process round ----

  /** Every share that the first `n` nodes hold is sealed to its node. */
  ghost predicate AllOpen(shares: ShareTable, nodes: seq<NodeId>, n: nat)
    requires n <= |nodes|
  {
    forall j, id :: 0 <= j < n && nodes[j] in shares && id in shares[nodes[j]] ==>
      shares[nodes[j]][id].cipher.Sealed? && shares[nodes[j]][id].cipher.recipient == nodes[j]
  }

  /**
   The round gets to this slot: all earlier nodes open everything, and whatever
   this node cannot open comes later in its map.
   */
  ghost predicate Opened(shares: ShareTable, nodes: seq<NodeId>, k: nat, id: IntentId)
    requires k < |nodes|
  {
    && AllOpen(shares, nodes, k) && nodes[k] in shares && id in shares[nodes[k]]
    && forall other :: other in shares[nodes[k]] ==>
         || (shares[nodes[k]][other].cipher.Sealed? && shares[nodes[k]][other].cipher.recipient == nodes[k])
         || shares[nodes[k]][id].position < shares[nodes[k]][other].position
  }

  lemma NodeDecrypted(node: NodeId, entries: NodeShares, id: IntentId)
    requires id in entries && entries[id].decrypted.None?
    ensures id in DecryptNode(node, entries)
    ensures (DecryptNode(node, entries)[id].decrypted.Some? <==> Reached(node, entries, id))
  {
    if Reached(node, entries, id) {
      assert Opens(node, entries[id]);
    }
  }

  lemma {:induction false} AllOpenExactly(shares: ShareTable, nodes: seq<NodeId>, n: nat)
    requires NoRepeats(nodes) && n <= |nodes|
    ensures DecryptAll(shares, nodes, n).ok <==> AllOpen(shares, nodes, n)
  {
    hide DecryptNode;
    if n > 0 {
      AllOpenExactly(shares, nodes, n - 1);
      DecryptElsewhere(shares, nodes, n - 1, nodes[n - 1]);
      assert nodes[n - 1] !in nodes[..n - 1];
    }
  }

  lemma {:induction false} DecryptExactly(shares: ShareTable, nodes: seq<NodeId>, n: nat, k: nat, id: IntentId)
    requires NoRepeats(nodes) && NoDecrypted(shares) && n <= |nodes| && k < |nodes|
    ensures Decrypted(DecryptAll(shares, nodes, n).shares, nodes[k], id).Some? <==>
              k < n && Opened(shares, nodes, k, id)
    decreases n
  {
    hide DecryptNode;
    if n > 0 {
      var last := nodes[n - 1];
      DecryptExactly(shares, nodes, n - 1, k, id);
      AllOpenExactly(shares, nodes, n - 1);
      DecryptElsewhere(shares, nodes, n - 1, last);
      assert last !in nodes[..n - 1];
      if k == n - 1 {
        if last in shares && id in shares[last] {
          NodeDecrypted(last, shares[last], id);
        }
        if last in shares {
          DecryptKeepsPlaces(last, shares[last]);
        }
      } else {
        assert nodes[k] != last;
      }
    }
  }

  /** A failed in-process round keeps exactly the shares it had opened; a signed one keeps none. */
  lemma LocalLeftovers(cfg: Config, s: SessionState, batchId: string, k: nat, id: IntentId)
    requires ValidConfig(cfg) && WellFormed(s) && NoDecrypted(s.shares) && k < |cfg.nodes|
    ensures var r := InProcess(cfg, s, batchId);
            Decrypted(r.shares, cfg.nodes[k], id).Some? <==> r.status == Failed && Opened(s.shares, cfg.nodes, k, id)
  {
    assert Field.Prime(cfg.p) && NoRepeats(cfg.nodes);
    DecryptExactly(s.shares, cfg.nodes, |cfg.nodes|, k, id);
    LocalCleared(s.shares, cfg.nodes);
    hide DecryptAll, Rebuild, ClearNodes, M.MatchesOf, ValidConfig, Field.Prime, WellFormed, Opened, NoRepeats;
  }

  lemma HoldIsOpened(cfg: Config, s: SessionState, id: IntentId)
    requires NoRepeats(cfg.nodes) && NoDecrypted(s.shares) && AllOpen(s.shares, cfg.nodes, |cfg.nodes|)
    ensures TwoOpened(DecryptAll(s.shares, cfg.nodes, |cfg.nodes|).shares, cfg.nodes, id, |cfg.nodes|) <==>
              TwoHold(cfg, s, id)
  {
    var shares := DecryptAll(s.shares, cfg.nodes, |cfg.nodes|).shares;
    forall k | 0 <= k < |cfg.nodes|
      ensures Decrypted(shares, cfg.nodes[k], id).Some? <==> cfg.nodes[k] in s.shares && id in s.shares[cfg.nodes[k]]
    {
      DecryptExactly(s.shares, cfg.nodes, |cfg.nodes|, k, id);
      if cfg.nodes[k] in s.shares && id in s.shares[cfg.nodes[k]] {
        assert CanDecrypt(cfg.nodes[k], s.shares[cfg.nodes[k]]);
      }
    }
    hide DecryptAll, Decrypted, NoRepeats, NoDecrypted, AllOpen;
  }

  /**
   The in-process round signs if and only if every node opens all it holds and two nodes
   hold a share of each intent.
   */
  lemma LocalSucceedsExactly(cfg: Config, s: SessionState, batchId: string)
    requires ValidConfig(cfg) && WellFormed(s) && NoDecrypted(s.shares)
    ensures InProcess(cfg, s, batchId).status == Signed <==>
              AllOpen(s.shares, cfg.nodes, |cfg.nodes|) && forall id :: id in s.intents ==> TwoHold(cfg, s, id)
  {
    assert Field.Prime(cfg.p) && NoRepeats(cfg.nodes);
    var d := DecryptAll(s.shares, cfg.nodes, |cfg.nodes|);
    AllOpenExactly(s.shares, cfg.nodes, |cfg.nodes|);
    RebuildsAll(s, d.shares, cfg);
    if AllOpen(s.shares, cfg.nodes, |cfg.nodes|) {
      forall id | id in s.intents
        ensures TwoOpened(d.shares, cfg.nodes, id, |cfg.nodes|) <==> TwoHold(cfg, s, id)
      {
        HoldIsOpened(cfg, s, id);
      }
    }
    hide DecryptAll, Rebuild, ClearNodes, M.MatchesOf, ValidConfig, Field.Prime, WellFormed, AllOpen, NoRepeats,
         NoDecrypted, TwoOpened, TwoHold;
  }
}
