/**
 The pipeline from the committee to settlement as one state machine: the
 committee protocol, the API handlers, the persistence of signed batches and
 the settler's polls take interleaved steps over shared tables. A handler that
 stops half way is one whose next step never comes, so crashes and overlapping
 polls are covered (persist.ts, settler.ts, routes.ts, db.ts).
 */
module Settlement {
  import opened Collections
  import opened Session
  import opened Protocol
  import opened Tables
  import opened JobKeys
  import opened Runs
  import M = Matcher

  /**
   A call of `persistSignedBatch` after its first insert: the signature rows
   written, whether the session is closed, the match updates done, and whether
   every row they updated was there.
   */
  datatype Persist = Persist(batch: SignedBatch, signed: nat, closed: bool, done: nat, rowsPresent: bool, live: bool)

  /** The settler at work on one batch of its snapshot. */
  datatype Poll = Poll(batchId: string, matches: seq<M.Match>, next: nat, queued: nat,
                       sawA: Option<bool>, sawB: Option<bool>, inserting: bool, live: bool)

  /** `posted` holds the hashes for which the insert into `intents` was carried out. */
  datatype World = World(com: State, db: Db, posted: set<Hash>, persists: seq<Persist>, polls: seq<Poll>)

  datatype WStep =
    | Com(step: Step)
    | Post(h: Hash, key: string, user: string)
    | Forward(x: MpcIntent, newId: SessionId)
    | Direct(x: MpcIntent, newId: SessionId)
    | OpenRow(sid: SessionId)
    | Upsert(id: IntentId, sid: SessionId)
    | Link(h: Hash, sid: SessionId)
    | PersistStart(sid: SessionId)
    | PersistSign(k: nat)
    | PersistClose(k: nat)
    | PersistUpdate(k: nat)
    | PollStart(batchId: string)
    | PollRead(k: nat, second: bool)
    | PollDecide(k: nat)
    | PollInsert(k: nat)
    | PollFinish(k: nat)
    | Quote(q: QuoteId, h: Hash, quoteHash: string)
    | Accept(q: QuoteId, h: Hash, user: string)
    | NewFill(fillId: string, q: QuoteId, receipt: string)
    | Execute(fillId: string)
    | Settle(r: SettleRequest)

  function InitWorld(): World {
    World(Init(), EmptyDb(), {}, [], [])
  }

  // ---- Which steps can happen ----

  function CommitteeStep(step: WStep): Option<Step> {
    match step
    case Com(s) => Some(s)
    case Forward(x, newId) => Some(Submit(x, newId))
    case Direct(x, newId) => Some(Submit(x, newId))
    case _ => None
  }

  predicate PollCan(w: World, step: WStep) {
    match step
    case PollStart(b) => b in w.db.batches && w.db.batches[b].status == Pending
    case PollRead(k, _) =>
      k < |w.polls| && w.polls[k].live && w.polls[k].next < |w.polls[k].matches| && !w.polls[k].inserting
    case PollDecide(k) =>
      && k < |w.polls| && w.polls[k].live && w.polls[k].next < |w.polls[k].matches| && !w.polls[k].inserting
      && w.polls[k].sawA.Some? && w.polls[k].sawB.Some?
    case PollInsert(k) =>
      k < |w.polls| && w.polls[k].live && w.polls[k].inserting && w.polls[k].next < |w.polls[k].matches|
    case PollFinish(k) => k < |w.polls| && w.polls[k].live && w.polls[k].next == |w.polls[k].matches|
    case _ => true
  }

  /** An intent is forwarded only after its row was inserted, and linked only after it was forwarded. */
  predicate HandlerCan(w: World, step: WStep) {
    match step
    case Com(s) => !s.Submit?
    case Forward(x, _) => x.intentId in w.posted
    case OpenRow(sid) => sid in w.com.sessions
    case Upsert(id, sid) => id in w.com.intentToSession && sid in w.com.sessions
    case Link(h, sid) => h in w.posted && h in w.com.intentToSession && sid in w.com.sessions
    case PersistStart(sid) => sid in w.com.sessions && w.com.sessions[sid].signedBatch.Some?
    case PersistSign(k) =>
      k < |w.persists| && w.persists[k].live && w.persists[k].signed < |w.persists[k].batch.signers|
    case PersistClose(k) =>
      k < |w.persists| && w.persists[k].live && w.persists[k].signed == |w.persists[k].batch.signers|
        && !w.persists[k].closed
    case PersistUpdate(k) =>
      k < |w.persists| && w.persists[k].live && w.persists[k].closed
        && w.persists[k].done < 2 * |w.persists[k].batch.matches|
    case _ => true
  }

  ghost predicate CanDo(cfg: Config, w: World, step: WStep) {
    && PollCan(w, step) && HandlerCan(w, step)
    && (CommitteeStep(step).Some? ==> CanStep(cfg, w.com, CommitteeStep(step).value))
  }

  // ---- What a step does ----

  function DbAfter(w: World, step: WStep): Db
    requires PollCan(w, step) && HandlerCan(w, step)
  {
    match step
    case Post(h, key, user) => InsertIntent(w.db, h, key, user)
    case OpenRow(sid) => EnsureSession(w.db, sid)
    case Upsert(id, sid) => UpsertMpc(w.db, id, sid)
    case Link(h, sid) => LinkSession(w.db, h, sid)
    case PersistStart(sid) => BeginPersist(w.db, w.com.sessions[sid].signedBatch.value)
    case PersistSign(k) =>
      InsertSignature(w.db, w.persists[k].batch.batchId, w.persists[k].batch.signers[w.persists[k].signed])
    case PersistClose(k) => CloseSession(w.db, w.persists[k].batch)
    case PersistUpdate(k) => MarkNext(w.db, w.persists[k])
    case PollInsert(k) => InsertNext(w.db, w.polls[k])
    case PollFinish(k) => SetBatchStatus(w.db, w.polls[k].batchId, if w.polls[k].queued > 0 then Queued else RfqRouted)
    case Quote(q, h, quoteHash) => InsertQuote(w.db, q, h, quoteHash)
    case Accept(q, h, user) => AcceptQuote(w.db, q, h, user)
    case NewFill(f, q, receipt) => InsertFill(w.db, f, q, receipt)
    case Execute(f) => ExecuteFill(w.db, f)
    case Settle(r) => SettleRfq(w.db, r)
    case _ => w.db
  }

  function BeginPersist(db: Db, b: SignedBatch): Db {
    var r := InsertBatch(db, b);
    if r.Some? then r.value else db
  }

  function MarkNext(db: Db, p: Persist): Db
    requires p.done < 2 * |p.batch.matches|
  {
    var r := MarkMatched(db, UpdateTarget(p.batch.matches, p.done), UpdatePartner(p.batch.matches, p.done));
    if r.Some? then r.value else db
  }

  function InsertNext(db: Db, p: Poll): Db
    requires p.next < |p.matches|
  {
    var r := InsertJob(db, p.batchId, p.next, p.matches[p.next]);
    if r.Some? then r.value else db
  }

  /** A missing row counts as done but is noted; a failing foreign key ends the call. */
  function PersistAfter(db: Db, p: Persist): Persist
    requires p.done < 2 * |p.batch.matches|
  {
    var target, partner := UpdateTarget(p.batch.matches, p.done), UpdatePartner(p.batch.matches, p.done);
    if MarkMatched(db, target, partner).None? then p.(live := false)
    else p.(done := p.done + 1, rowsPresent := p.rowsPresent && target in db.mpc)
  }

  function NewPersist(b: SignedBatch): Persist {
    Persist(b, 0, false, 0, true, true)
  }

  /** A failing first insert ends the call before anything else happens. */
  function PersistsAfter(w: World, step: WStep): seq<Persist>
    requires HandlerCan(w, step)
  {
    match step
    case PersistStart(sid) =>
      if InsertBatch(w.db, w.com.sessions[sid].signedBatch.value).None? then w.persists
      else w.persists + [NewPersist(w.com.sessions[sid].signedBatch.value)]
    case PersistSign(k) => w.persists[k := w.persists[k].(signed := w.persists[k].signed + 1)]
    case PersistClose(k) => w.persists[k := w.persists[k].(closed := true)]
    case PersistUpdate(k) => w.persists[k := PersistAfter(w.db, w.persists[k])]
    case _ => w.persists
  }

  function Advance(p: Poll, queued: nat): Poll {
    p.(next := p.next + 1, queued := p.queued + queued, sawA := None, sawB := None, inserting := false)
  }

  /** Reads whether one side of the current match has a row in `intents`. */
  function ReadSide(db: Db, p: Poll, second: bool): Poll
    requires p.next < |p.matches|
  {
    if second then p.(sawB := Some(p.matches[p.next].bId in db.intents))
      else p.(sawA := Some(p.matches[p.next].aId in db.intents))
  }

  /** Skips a match with an RFQ side; otherwise looks for a job with its key before inserting one. */
  function Decide(db: Db, p: Poll): Poll
    requires p.sawA.Some? && p.sawB.Some?
  {
    if p.sawA.value || p.sawB.value then Advance(p, 0)
    else if KeyQueued(db, JobKey(p.batchId, p.next)) then Advance(p, 1)
    else p.(inserting := true)
  }

  function AfterInsert(db: Db, p: Poll): Poll
    requires p.next < |p.matches|
  {
    if KeyQueued(db, JobKey(p.batchId, p.next)) then p.(live := false) else Advance(p, 1)
  }

  function NewPoll(batchId: string, matches: seq<M.Match>): Poll {
    Poll(batchId, matches, 0, 0, None, None, false, true)
  }

  function PollsAfter(w: World, step: WStep): seq<Poll>
    requires PollCan(w, step)
  {
    match step
    case PollStart(b) => w.polls + [NewPoll(b, w.db.batches[b].matches)]
    case PollRead(k, second) => w.polls[k := ReadSide(w.db, w.polls[k], second)]
    case PollDecide(k) => w.polls[k := Decide(w.db, w.polls[k])]
    case PollInsert(k) => w.polls[k := AfterInsert(w.db, w.polls[k])]
    case PollFinish(k) => w.polls[k := w.polls[k].(live := false)]
    case _ => w.polls
  }

  ghost function ComAfter(cfg: Config, w: World, step: WStep): State
    requires CanDo(cfg, w, step)
  {
    if CommitteeStep(step).Some? then Next(cfg, w.com, CommitteeStep(step).value) else w.com
  }

  ghost function After(cfg: Config, w: World, step: WStep): World
    requires CanDo(cfg, w, step)
  {
    World(ComAfter(cfg, w, step), DbAfter(w, step), if step.Post? then w.posted + {step.h} else w.posted,
          PersistsAfter(w, step), PollsAfter(w, step))
  }

  ghost predicate IsWorldRun(cfg: Config, worlds: seq<World>, steps: seq<WStep>) {
    && |worlds| == |steps| + 1 && worlds[0] == InitWorld()
    && forall i :: 0 <= i < |steps| ==>
         CanDo(cfg, worlds[i], steps[i]) && worlds[i + 1] == After(cfg, worlds[i], steps[i])
  }
}
