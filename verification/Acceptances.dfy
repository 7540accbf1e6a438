/**
 How many quotes of an intent can be accepted: the accept handler looks for an
 acceptance of the same quote, not of the same intent (apps/api/src/routes.ts,
 apps/api/src/db.ts).
 */
module Acceptances {
  import opened Collections
  import opened Session
  import opened Tables
  import opened Settlement
  import opened SettlementTheorems

  /** No intent has two accepted quotes. */
  ghost predicate OnePerIntent(db: Db) {
    forall q, r :: q in db.acceptances && r in db.acceptances && db.acceptances[q] == db.acceptances[r] ==> q == r
  }

  /** The request passes the handler's checks. */
  predicate Accepts(db: Db, q: QuoteId, h: Hash, user: string) {
    Owns(db, user, h) && q in db.quotes && db.quotes[q].intentHash == h && q !in db.acceptances
  }

  /** An acceptance keeps one accepted quote per intent if and only if no other quote of that intent was accepted. */
  lemma KeepsOnePerIntentExactly(db: Db, q: QuoteId, h: Hash, user: string)
    requires OnePerIntent(db)
    ensures OnePerIntent(AcceptQuote(db, q, h, user)) <==>
              !Accepts(db, q, h, user) || forall r :: r in db.acceptances ==> db.acceptances[r] != h
  {
    var db' := AcceptQuote(db, q, h, user);
    if Accepts(db, q, h, user) {
      hide Owns;
      if r :| r in db.acceptances && db.acceptances[r] == h {
        assert db'.acceptances[r] == db'.acceptances[q] && r != q;
      }
    }
  }

  /** Every run that ends with two quotes of one intent, neither of them accepted, goes on to one where both are. */
  lemma TwoQuotesAccepted(cfg: Config, worlds: seq<World>, steps: seq<WStep>, h: Hash, user: string, q: QuoteId,
                          r: QuoteId) returns (ws: seq<World>)
    requires IsWorldRun(cfg, worlds, steps) && q != r
    requires Accepts(worlds[|steps|].db, q, h, user) && Accepts(worlds[|steps|].db, r, h, user)
    ensures IsWorldRun(cfg, ws, steps + [Accept(q, h, user), Accept(r, h, user)]) && |ws| == |steps| + 3
    ensures var db := ws[|steps| + 2].db; q in db.acceptances && r in db.acceptances && !OnePerIntent(db)
  {
    var db := worlds[|steps|].db;
    var a, b := Accept(q, h, user), Accept(r, h, user);
    assert IsRfqStep(a) && IsRfqStep(b);
    var accepted := AcceptQuote(db, q, h, user);
    assert Accepts(accepted, r, h, user);
    var both := AcceptQuote(accepted, r, h, user);
    assert both.acceptances[q] == h && both.acceptances[r] == h;
    assert !OnePerIntent(both);
    assert RfqAfter(db, a) == accepted && RfqAfter(accepted, b) == both;
    assert [a, b][1..] == [b] && [b][1..] == [];
    assert RfqRun(db, [a, b]) == RfqRun(accepted, [b]);
    assert RfqRun(accepted, [b]) == RfqRun(both, []);
    hide *;
    ws := ExtendRfq(cfg, worlds, steps, [a, b]);
  }

  function QuotePath(h: Hash, key: string, user: string, q: QuoteId, r: QuoteId, qHash: string,
                     rHash: string): (path: seq<WStep>)
    ensures forall i :: 0 <= i < |path| ==> IsRfqStep(path[i])
  {
    [Post(h, key, user), Quote(q, h, qHash), Quote(r, h, rHash)]
  }

  lemma QuotedTwice(h: Hash, key: string, user: string, q: QuoteId, r: QuoteId, qHash: string, rHash: string)
    requires q != r && qHash != rHash
    ensures var db := RfqRun(EmptyDb(), QuotePath(h, key, user, q, r, qHash, rHash));
            Accepts(db, q, h, user) && Accepts(db, r, h, user)
  {
    var a, b, c := Post(h, key, user), Quote(q, h, qHash), Quote(r, h, rHash);
    var posted := RfqAfter(EmptyDb(), a);
    assert posted == EmptyDb().(intents := map[h := IntentRow(key, user, None)]);
    var one := RfqAfter(posted, b);
    assert one == posted.(quotes := map[q := QuoteRow(h, qHash)]);
    assert !QuoteHashTaken(one, rHash);
    var two := RfqAfter(one, c);
    assert Accepts(two, q, h, user) && Accepts(two, r, h, user);
    hide RfqAfter, Accepts, QuoteHashTaken;
    assert [a, b, c][1..] == [b, c] && [b, c][1..] == [c] && [c][1..] == [];
    assert RfqRun(posted, [b, c]) == RfqRun(one, [c]);
    assert RfqRun(one, [c]) == RfqRun(two, []);
  }

  /** Such a run exists: one intent, two quotes of it. */
  lemma TwoQuotesReached(cfg: Config, h: Hash, key: string, user: string, q: QuoteId, r: QuoteId, qHash: string,
                         rHash: string)
    returns (ws: seq<World>, steps: seq<WStep>)
    requires q != r && qHash != rHash
    ensures IsWorldRun(cfg, ws, steps) && !OnePerIntent(ws[|steps|].db)
  {
    EmptyRun(cfg);
    assert InitWorld().db == EmptyDb();
    hide *;
    var path := QuotePath(h, key, user, q, r, qHash, rHash);
    QuotedTwice(h, key, user, q, r, qHash, rHash);
    ws := ExtendRfq(cfg, [InitWorld()], [], path);
    assert [] + path == path;
    ws := TwoQuotesAccepted(cfg, ws, path, h, user, q, r);
    steps := path + [Accept(q, h, user), Accept(r, h, user)];
  }
}
