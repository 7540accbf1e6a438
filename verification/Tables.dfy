/**
 The tables behind persistence and settlement, and what each statement of
 persist.ts, settler.ts, routes.ts and db.ts does to them. Inserts follow the
 `on conflict do nothing` of the source, with the primary keys, unique columns
 and foreign keys of db/migrations; a statement that violates a foreign key
 changes nothing and aborts its handler.
 */
module Tables {
  import opened Collections
  import opened Session
  import opened JobKeys
  import M = Matcher

  type Hash = IntentId
  type QuoteId = string

  datatype SessionRow = SessionRow(signed: bool, matchCount: nat)

  datatype IntentRow = IntentRow(idempotencyKey: string, user: string, mpcSession: Option<SessionId>)

  /** `matchedWith` is set exactly when the status is `matched`. */
  datatype MpcRow = MpcRow(session: SessionId, matchedWith: Option<IntentId>)

  datatype BatchStatus = Pending | Queued | RfqRouted

  datatype BatchRow = BatchRow(sessionId: SessionId, matches: seq<M.Match>, status: BatchStatus)

  /** A row of the job queue for one match. */
  datatype Job = Job(key: string, batchId: string, index: nat, aId: IntentId, bId: IntentId)

  datatype QuoteRow = QuoteRow(intentHash: Hash, quoteHash: string)

  datatype Fill = Fill(fillId: string, quoteId: QuoteId, receipt: string, executed: bool)

  /** A settlement's id is a hash of these three. */
  datatype SettlementId = SettlementId(intentHash: Hash, quoteId: QuoteId, nullifier: string)

  /** `viaMpc` records whether the intent carried an MPC session when it was admitted. */
  datatype SettlementRow = SettlementRow(user: string, viaMpc: bool)

  datatype Db = Db(
    sessions: map<SessionId, SessionRow>, intents: map<Hash, IntentRow>, mpc: map<IntentId, MpcRow>,
    batches: map<string, BatchRow>, signatures: set<(string, NodeId)>, jobs: seq<Job>,
    quotes: map<QuoteId, QuoteRow>, acceptances: map<QuoteId, Hash>, fills: seq<Fill>,
    settlements: map<SettlementId, SettlementRow>)

  function EmptyDb(): Db {
    Db(map[], map[], map[], map[], {}, [], map[], map[], [], map[])
  }

  // ---- intents and mpc_intents ----

  predicate KeyTaken(db: Db, key: string) {
    exists h :: h in db.intents && db.intents[h].idempotencyKey == key
  }

  /** A row with the same hash or the same idempotency key makes this a no-op. */
  function InsertIntent(db: Db, h: Hash, key: string, user: string): Db {
    if h in db.intents || KeyTaken(db, key) then db
    else db.(intents := db.intents[h := IntentRow(key, user, None)])
  }

  function EnsureSession(db: Db, sid: SessionId): Db {
    if sid in db.sessions then db else db.(sessions := db.sessions[sid := SessionRow(false, 0)])
  }

  /** The session column refers to a session row. */
  function LinkSession(db: Db, h: Hash, sid: SessionId): Db {
    if h in db.intents && sid in db.sessions
    then db.(intents := db.intents[h := db.intents[h].(mpcSession := Some(sid))]) else db
  }

  /** Inserts a pending row; an existing one only gets its session changed. The session needs its row. */
  function UpsertMpc(db: Db, id: IntentId, sid: SessionId): Db {
    if sid !in db.sessions then db
    else db.(mpc := db.mpc[id := if id in db.mpc then db.mpc[id].(session := sid) else MpcRow(sid, None)])
  }

  // ---- persist.ts ----

  /** A batch that is there is left alone; a new one needs the row of its session. */
  function InsertBatch(db: Db, b: SignedBatch): Option<Db> {
    if b.batchId in db.batches then Some(db)
    else if b.sessionId !in db.sessions then None
    else Some(db.(batches := db.batches[b.batchId := BatchRow(b.sessionId, b.matches, Pending)]))
  }

  function InsertSignature(db: Db, batchId: string, node: NodeId): Db {
    db.(signatures := db.signatures + {(batchId, node)})
  }

  function CloseSession(db: Db, b: SignedBatch): Db {
    if b.sessionId in db.sessions then db.(sessions := db.sessions[b.sessionId := SessionRow(true, |b.matches|)])
      else db
  }

  /** Without the row nothing happens; without the partner's row the foreign key fails. */
  function MarkMatched(db: Db, id: IntentId, partner: IntentId): Option<Db> {
    if id !in db.mpc then Some(db)
    else if partner !in db.mpc then None
    else Some(db.(mpc := db.mpc[id := db.mpc[id].(matchedWith := Some(partner))]))
  }

  /** The j-th update of a batch: each match updates its first side, then its second. */
  function UpdateTarget(ms: seq<M.Match>, j: nat): IntentId
    requires j < 2 * |ms|
  {
    if j % 2 == 0 then ms[j / 2].aId else ms[j / 2].bId
  }

  function UpdatePartner(ms: seq<M.Match>, j: nat): IntentId
    requires j < 2 * |ms|
  {
    if j % 2 == 0 then ms[j / 2].bId else ms[j / 2].aId
  }

  // ---- settler.ts ----

  predicate RfqRoutedMatch(db: Db, m: M.Match) {
    m.aId in db.intents || m.bId in db.intents
  }

  predicate KeyQueued(db: Db, key: string) {
    exists k :: 0 <= k < |db.jobs| && db.jobs[k].key == key
  }

  /** The insert of `enqueue`; a key that is there by now violates the unique column. */
  function InsertJob(db: Db, batchId: string, index: nat, m: M.Match): Option<Db> {
    if KeyQueued(db, JobKey(batchId, index)) then None
    else Some(db.(jobs := db.jobs + [Job(JobKey(batchId, index), batchId, index, m.aId, m.bId)]))
  }

  function SetBatchStatus(db: Db, batchId: string, status: BatchStatus): Db {
    if batchId in db.batches then db.(batches := db.batches[batchId := db.batches[batchId].(status := status)]) else db
  }

  // ---- The RFQ handlers ----

  predicate QuoteHashTaken(db: Db, quoteHash: string) {
    exists q :: q in db.quotes && db.quotes[q].quoteHash == quoteHash
  }

  function InsertQuote(db: Db, q: QuoteId, h: Hash, quoteHash: string): Db {
    if q in db.quotes || QuoteHashTaken(db, quoteHash) || h !in db.intents then db
    else db.(quotes := db.quotes[q := QuoteRow(h, quoteHash)])
  }

  predicate Owns(db: Db, user: string, h: Hash) {
    h in db.intents && (db.intents[h].user != "" ==> db.intents[h].user == user)
  }

  function AcceptQuote(db: Db, q: QuoteId, h: Hash, user: string): Db {
    if !Owns(db, user, h) || q !in db.quotes || db.quotes[q].intentHash != h || q in db.acceptances then db
    else db.(acceptances := db.acceptances[q := h])
  }

  predicate FillKnown(db: Db, fillId: string) {
    exists k :: 0 <= k < |db.fills| && db.fills[k].fillId == fillId
  }

  function InsertFill(db: Db, fillId: string, q: QuoteId, receipt: string): Db {
    if FillKnown(db, fillId) || q !in db.quotes then db
    else db.(fills := db.fills + [Fill(fillId, q, receipt, false)])
  }

  function Executed(fills: seq<Fill>, fillId: string): (r: seq<Fill>)
    ensures |r| == |fills|
    ensures forall k :: 0 <= k < |fills| ==>
              r[k] == if fills[k].fillId == fillId then fills[k].(executed := true) else fills[k]
  {
    seq(|fills|, k requires 0 <= k < |fills| => if fills[k].fillId == fillId then fills[k].(executed := true)
      else fills[k])
  }

  function ExecuteFill(db: Db, fillId: string): Db {
    db.(fills := Executed(db.fills, fillId))
  }

  /** The newest fill of a quote. */
  function LatestFill(fills: seq<Fill>, q: QuoteId): (r: Option<Fill>)
    ensures r.Some? ==> r.value in fills && r.value.quoteId == q
  {
    if fills == [] then None
    else if fills[|fills| - 1].quoteId == q then Some(fills[|fills| - 1])
    else LatestFill(fills[..|fills| - 1], q)
  }

  datatype SettleRequest = SettleRequest(
    id: SettlementId, user: string, fillId: Option<string>, receipt: Option<string>, proofReady: bool, spent: bool)

  predicate CarriesSession(row: IntentRow) {
    row.mpcSession.Some? && row.mpcSession.value != ""
  }

  /** The newest fill is executed and is the one the receipt, if given, speaks of. */
  predicate FillConfirms(fill: Option<Fill>, receipt: Option<string>) {
    && fill.Some? && fill.value.executed
    && (receipt.Some? && receipt.value != "" ==> fill.value.receipt == receipt.value)
  }

  /** Every check of the settle handler. */
  predicate Admits(db: Db, r: SettleRequest) {
    && Owns(db, r.user, r.id.intentHash)
    && r.id.quoteId in db.quotes && db.quotes[r.id.quoteId].intentHash == r.id.intentHash
    && r.id.quoteId in db.acceptances
    && FillConfirms(LatestFill(db.fills, r.id.quoteId), r.receipt)
    && r.proofReady && !r.spent
    && (CarriesSession(db.intents[r.id.intentHash]) ==>
          r.id.intentHash in db.mpc && db.mpc[r.id.intentHash].matchedWith.Some?)
  }

  function SettleRfq(db: Db, r: SettleRequest): Db {
    if !Admits(db, r) || (r.fillId.Some? && !FillKnown(db, r.fillId.value)) then db
    else
      var viaMpc := CarriesSession(db.intents[r.id.intentHash])
        || (r.id in db.settlements && db.settlements[r.id].viaMpc);
      db.(settlements := db.settlements[r.id := SettlementRow(r.user, viaMpc)])
  }

  // ---- Nothing is ever removed ----

  ghost predicate MpcGrows(a: map<IntentId, MpcRow>, b: map<IntentId, MpcRow>) {
    forall id :: id in a ==> id in b && (a[id].matchedWith.Some? ==> b[id].matchedWith.Some?)
  }

  ghost predicate BatchesGrow(a: map<string, BatchRow>, b: map<string, BatchRow>) {
    forall x :: x in a ==> x in b && b[x].sessionId == a[x].sessionId && b[x].matches == a[x].matches
  }

  ghost predicate IntentsGrow(a: map<Hash, IntentRow>, b: map<Hash, IntentRow>) {
    forall h :: h in a ==> h in b && b[h].user == a[h].user
  }

  ghost predicate FillsGrow(a: seq<Fill>, b: seq<Fill>) {
    |a| <= |b| && forall k :: 0 <= k < |a| ==> b[k].quoteId == a[k].quoteId && (a[k].executed ==> b[k].executed)
  }

  ghost predicate Extends<K, V>(a: map<K, V>, b: map<K, V>) {
    forall k :: k in a ==> k in b && b[k] == a[k]
  }

  ghost predicate SessionsGrow(a: map<SessionId, SessionRow>, b: map<SessionId, SessionRow>) {
    forall s :: s in a ==> s in b && (a[s].signed ==> b[s].signed)
  }

  ghost predicate Grows(a: Db, b: Db) {
    && SessionsGrow(a.sessions, b.sessions) && a.signatures <= b.signatures
    && IntentsGrow(a.intents, b.intents) && MpcGrows(a.mpc, b.mpc) && BatchesGrow(a.batches, b.batches)
    && a.jobs <= b.jobs && Extends(a.quotes, b.quotes) && Extends(a.acceptances, b.acceptances)
    && FillsGrow(a.fills, b.fills) && a.settlements.Keys <= b.settlements.Keys
  }
}
