/**
 One committee session as a value, and what each atomic part of a matching
 round does to it (apps/mpc-committee/src/state.ts, coordinator.ts and
 remote-coordinator.ts).

 Encryption is symbolic: a ciphertext is a share sealed to one node, and
 decryption by that node gives the share back.
 */
module Session {
  import opened Collections
  import Field
  import M = Matcher
  import S = Shamir

  type NodeId = string
  type IntentId = string
  type SessionId = string

  datatype Cipher = Sealed(recipient: NodeId, share: S.Share) | Corrupt

  datatype EncryptedShare = EncryptedShare(nodeId: NodeId, cipher: Cipher)

  datatype MpcIntent = MpcIntent(
    intentId: IntentId, inputAsset: string, outputAsset: string, encryptedShares: seq<EncryptedShare>)

  /** `decrypted` is `None` outside a round; `position` is the entry's place in the node's map. */
  datatype ShareEntry = ShareEntry(cipher: Cipher, decrypted: Option<S.Share>, position: nat)

  type NodeShares = map<IntentId, ShareEntry>
  type ShareTable = map<NodeId, NodeShares>

  datatype Status = Open | Matching | Signed | Failed

  datatype SignedBatch = SignedBatch(batchId: string, sessionId: SessionId, matches: seq<M.Match>, signers: seq<NodeId>)

  /** `order` lists the intent ids in the order they were first set. */
  datatype SessionState = SessionState(
    sessionId: SessionId, status: Status,
    order: seq<IntentId>, intents: map<IntentId, MpcIntent>,
    shares: ShareTable, signedBatch: Option<SignedBatch>)

  /** The committee: its nodes in order, the field and the runtime's sort. */
  datatype Config = Config(nodes: seq<NodeId>, p: int, sort: M.Sorter)

  ghost predicate ValidConfig(cfg: Config) {
    && Field.Prime(cfg.p) && |cfg.nodes| < cfg.p && M.Ascending(cfg.sort)
    && forall i, j :: 0 <= i < j < |cfg.nodes| ==> cfg.nodes[i] != cfg.nodes[j]
  }

  /** One entry of a node's answer to the decrypt request. */
  datatype Answer = Answer(intentId: IntentId, share: Option<S.Share>)

  // ---- threshold ----

  /** Two thirds of the nodes, rounded up. */
  function Threshold(n: nat): nat {
    (n * 2 + 2) / 3
  }

  /** The threshold is all but a third, so a third may fail; from two nodes on it is at least two. */
  lemma ThresholdIsAllButAThird(n: nat)
    ensures Threshold(n) == n - n / 3
    ensures Threshold(n) >= 2 <==> n >= 2
    ensures 3 * (2 * Threshold(n) - n) >= n
  {
  }

  // ---- addIntent ----

  function NewSession(id: SessionId): SessionState {
    SessionState(id, Open, [], map[], map[], None)
  }

  /** Overwriting an entry keeps its place, a new one goes to the end. */
  function SlotPosition(entries: NodeShares, id: IntentId): nat {
    if id in entries then entries[id].position else |entries|
  }

  function StoreShare(shares: ShareTable, id: IntentId, e: EncryptedShare): ShareTable {
    var node := if e.nodeId in shares then shares[e.nodeId] else map[];
    shares[e.nodeId := node[id := ShareEntry(e.cipher, None, SlotPosition(node, id))]]
  }

  function StoreShares(shares: ShareTable, id: IntentId, es: seq<EncryptedShare>): ShareTable {
    if es == [] then shares
    else StoreShare(StoreShares(shares, id, es[..|es| - 1]), id, es[|es| - 1])
  }

  function PutIntent(s: SessionState, x: MpcIntent): SessionState {
    s.(order := if x.intentId in s.intents then s.order else s.order + [x.intentId],
       intents := s.intents[x.intentId := x],
       shares := StoreShares(s.shares, x.intentId, x.encryptedShares))
  }

  // ---- Storing, picking and clearing decrypted shares ----

  function ApplyAnswers(entries: NodeShares, answers: seq<Answer>): NodeShares {
    if answers == [] then entries
    else
      var before, a := ApplyAnswers(entries, answers[..|answers| - 1]), answers[|answers| - 1];
      if a.intentId in before then before[a.intentId := before[a.intentId].(decrypted := a.share)] else before
  }

  function StoreReply(shares: ShareTable, node: NodeId, reply: Option<seq<Answer>>): ShareTable {
    if reply.None? || node !in shares then shares
    else shares[node := ApplyAnswers(shares[node], reply.value)]
  }

  function StoreReplies(shares: ShareTable, nodes: seq<NodeId>, replies: seq<Option<seq<Answer>>>, n: nat): ShareTable
    requires n <= |nodes| == |replies|
  {
    if n == 0 then shares
    else StoreReply(StoreReplies(shares, nodes, replies, n - 1), nodes[n - 1], replies[n - 1])
  }

  function Responding<T>(replies: seq<Option<T>>): (n: nat)
    ensures n <= |replies|
  {
    if replies == [] then 0
    else Responding(replies[..|replies| - 1]) + (if replies[|replies| - 1].Some? then 1 else 0)
  }

  function Decrypted(shares: ShareTable, node: NodeId, id: IntentId): Option<S.Share> {
    if node in shares && id in shares[node] then shares[node][id].decrypted else None
  }

  /** The first two decrypted shares of an intent, in node order. */
  function Available(shares: ShareTable, nodes: seq<NodeId>, id: IntentId, n: nat): (r: seq<S.Share>)
    requires n <= |nodes|
    ensures |r| <= 2
  {
    if n == 0 then []
    else
      var before := Available(shares, nodes, id, n - 1);
      var d := Decrypted(shares, nodes[n - 1], id);
      if |before| >= 2 || d.None? then before else before + [d.value]
  }

  ghost function Rebuild(s: SessionState, shares: ShareTable, cfg: Config, n: nat): Option<seq<M.Intent>>
    requires Field.Prime(cfg.p) && n <= |s.order| && forall id :: id in s.order ==> id in s.intents
  {
    if n == 0 then Some([])
    else
      var id := s.order[n - 1];
      assert id in s.order;
      var before, picked := Rebuild(s, shares, cfg, n - 1), Available(shares, cfg.nodes, id, |cfg.nodes|);
      if before.None? || |picked| < 2 then None
      else Some(before.value + [M.Intent(id, S.Reconstructed(picked, cfg.p), s.intents[id].inputAsset,
        s.intents[id].outputAsset)])
  }

  function ClearNode(entries: NodeShares): NodeShares {
    map id | id in entries :: entries[id].(decrypted := None)
  }

  function ClearNodes(shares: ShareTable, nodes: seq<NodeId>, n: nat): ShareTable
    requires n <= |nodes|
  {
    if n == 0 then shares
    else
      var before := ClearNodes(shares, nodes, n - 1);
      if nodes[n - 1] in before then before[nodes[n - 1] := ClearNode(before[nodes[n - 1]])] else before
  }

  // ---- The two waits of a remote round ----

  ghost predicate WellFormed(s: SessionState) {
    forall id :: id in s.order <==> id in s.intents
  }

  /** The session and, unless the round failed, the matches to be signed. */
  datatype RoundResult = RoundResult(session: SessionState, matches: Option<seq<M.Match>>)

  /** Everything between the decrypt replies and the signing request. */
  ghost function AfterDecrypt(cfg: Config, s: SessionState, replies: seq<Option<seq<Answer>>>): RoundResult
    requires Field.Prime(cfg.p) && |replies| == |cfg.nodes| && WellFormed(s)
  {
    if Responding(replies) < Threshold(|cfg.nodes|) then RoundResult(s.(status := Failed), None)
    else
      var shares := StoreReplies(s.shares, cfg.nodes, replies, |cfg.nodes|);
      var rebuilt := Rebuild(s, shares, cfg, |s.order|);
      if rebuilt.None? then RoundResult(s.(status := Failed, shares := shares), None)
      else RoundResult(s.(shares := ClearNodes(shares, cfg.nodes, |cfg.nodes|)),
        Some(M.MatchesOf(rebuilt.value, cfg.sort)))
  }

  function Signers(nodes: seq<NodeId>, replies: seq<bool>, n: nat): seq<NodeId>
    requires n <= |nodes| == |replies|
  {
    if n == 0 then [] else Signers(nodes, replies, n - 1) + (if replies[n - 1] then [nodes[n - 1]] else [])
  }

  /** Everything after the signing replies. */
  function AfterSign(cfg: Config, s: SessionState, batchId: string, matches: seq<M.Match>,
                     replies: seq<bool>): SessionState
    requires |replies| == |cfg.nodes|
  {
    var signers := Signers(cfg.nodes, replies, |cfg.nodes|);
    if |signers| < Threshold(|cfg.nodes|) then s.(status := Failed)
    else s.(status := Signed, signedBatch := Some(SignedBatch(batchId, s.sessionId, matches, signers)))
  }

  // ---- The in-process round ----

  predicate Opens(node: NodeId, e: ShareEntry) {
    e.cipher.Sealed? && e.cipher.recipient == node
  }

  predicate CanDecrypt(node: NodeId, entries: NodeShares) {
    forall id :: id in entries ==> Opens(node, entries[id])
  }

  /** The node gets to this entry: every entry it cannot open comes later. */
  predicate Reached(node: NodeId, entries: NodeShares, id: IntentId)
    requires id in entries
  {
    forall other :: other in entries && !Opens(node, entries[other]) ==> entries[id].position < entries[other].position
  }

  /** Opens the entries in order up to the first that cannot be opened. */
  function DecryptNode(node: NodeId, entries: NodeShares): NodeShares {
    map id | id in entries ::
      if Reached(node, entries, id) && Opens(node, entries[id])
      then entries[id].(decrypted := Some(entries[id].cipher.share)) else entries[id]
  }

  /** The table so far, and whether every share met could be opened. */
  datatype Decrypting = Decrypting(shares: ShareTable, ok: bool)

  function DecryptAll(shares: ShareTable, nodes: seq<NodeId>, n: nat): Decrypting
    requires n <= |nodes|
  {
    if n == 0 then Decrypting(shares, true)
    else
      var before, node := DecryptAll(shares, nodes, n - 1), nodes[n - 1];
      if !before.ok || node !in before.shares then before
      else Decrypting(before.shares[node := DecryptNode(node, before.shares[node])],
        CanDecrypt(node, before.shares[node]))
  }

  /** The whole round in one process: nothing is awaited, every node signs. */
  ghost function InProcess(cfg: Config, s: SessionState, batchId: string): SessionState
    requires Field.Prime(cfg.p) && WellFormed(s)
  {
    var d := DecryptAll(s.shares, cfg.nodes, |cfg.nodes|);
    if !d.ok then s.(status := Failed, shares := d.shares)
    else
      var rebuilt := Rebuild(s, d.shares, cfg, |s.order|);
      if rebuilt.None? then s.(status := Failed, shares := d.shares)
      else s.(status := Signed, shares := ClearNodes(d.shares, cfg.nodes, |cfg.nodes|),
              signedBatch := Some(SignedBatch(batchId, s.sessionId, M.MatchesOf(rebuilt.value, cfg.sort), cfg.nodes)))
  }
}
