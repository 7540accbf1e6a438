/**
 Priced cross-asset matching (apps/mpc-committee/src/coordinator.ts,
 `matchPricedPair` and `matchPricedIntents`): a pair crosses at the first
 party's limit price, whole amounts only, and a greedy pass pairs a list.
 */
module Priced {
  import opened Collections
  import Field

  const PRICE_SCALE: int := 1_000_000_000

  datatype PricedIntent = PricedIntent(
    id: string, inputAsset: string, outputAsset: string, amount: int, minOutput: int, limitPrice: int)

  datatype PricedMatch = PricedMatch(
    aId: string, bId: string,
    inputAssetA: string, outputAssetA: string, inputAssetB: string, outputAssetB: string,
    amountA: int, amountB: int, price: int, minOutputA: int, minOutputB: int)

  /** `DividedByZero` is the exception the source raises when the second party spends nothing. */
  datatype PairResult = NoCross | Crossed(m: PricedMatch) | DividedByZero

  /** Integer division of the source language: it rounds toward zero. */
  function TruncDiv(a: int, b: int): int
    requires b != 0
  {
    var q := (if a < 0 then -a else a) / (if b < 0 then -b else b);
    if (a < 0) == (b < 0) then q else -q
  }

  function MatchPricedPair(a: PricedIntent, b: PricedIntent): PairResult {
    if a.inputAsset != b.outputAsset then NoCross
    else if a.outputAsset != b.inputAsset then NoCross
    else if a.inputAsset == a.outputAsset then NoCross
    else
      var outputForA := TruncDiv(a.amount * a.limitPrice, PRICE_SCALE);
      if b.amount != outputForA then NoCross
      else if outputForA < a.minOutput then NoCross
      else if a.amount < b.minOutput then NoCross
      else if b.amount == 0 then DividedByZero
      else if TruncDiv(a.amount * PRICE_SCALE, b.amount) < b.limitPrice then NoCross
      else Crossed(PricedMatch(a.id, b.id, a.inputAsset, a.outputAsset, b.inputAsset, b.outputAsset,
                               a.amount, outputForA, a.limitPrice, a.minOutput, b.minOutput))
  }

  // ---- What a crossing means ----

  predicate Opposite(a: PricedIntent, b: PricedIntent) {
    a.inputAsset == b.outputAsset && a.outputAsset == b.inputAsset && a.inputAsset != a.outputAsset
  }

  /** The terms of a match, without division: `x` of X for `y` of Y at prices `p` and `q`. */
  predicate TermsMeet(a: PricedIntent, b: PricedIntent) {
    var x, y, p, q := a.amount, b.amount, a.limitPrice, b.limitPrice;
    && PRICE_SCALE * y <= x * p < PRICE_SCALE * (y + 1)
    && y >= a.minOutput && x >= b.minOutput
    && y * q <= x * PRICE_SCALE
  }

  lemma FloorBounds(n: int, d: int)
    requires n >= 0 && d > 0
    ensures TruncDiv(n, d) >= 0
    ensures d * TruncDiv(n, d) <= n < d * TruncDiv(n, d) + d
  {
    Field.MulBound(d, n / d);
  }

  /** The quotient is at least `q` exactly when `q` divisors fit. */
  lemma FloorAtLeast(n: int, d: int, q: int)
    requires n >= 0 && d > 0
    ensures TruncDiv(n, d) >= q <==> d * q <= n
  {
    FloorBounds(n, d);
    var r := TruncDiv(n, d);
    hide TruncDiv;
    Field.MulBound(d, q - r);
    assert d * (q - r) == d * q - d * r;
    if r >= q {
      assert d * (r - q) >= 0 && d * (r - q) == d * r - d * q;
    }
  }

  lemma FloorUnique(n: int, d: int, y: int)
    requires n >= 0 && d > 0
    ensures TruncDiv(n, d) == y <==> d * y <= n < d * (y + 1)
  {
    FloorAtLeast(n, d, y);
    FloorAtLeast(n, d, y + 1);
  }

  /** A pair crosses exactly when the assets are opposite and the terms meet. */
  lemma CrossesExactly(a: PricedIntent, b: PricedIntent)
    requires a.amount >= 0 && a.limitPrice >= 0 && b.amount > 0
    ensures MatchPricedPair(a, b).Crossed? <==> Opposite(a, b) && TermsMeet(a, b)
    ensures MatchPricedPair(a, b) != DividedByZero
  {
    hide TruncDiv;
    var value := a.amount * a.limitPrice;
    assert value >= 0 && a.amount * PRICE_SCALE >= 0;
    FloorUnique(value, PRICE_SCALE, b.amount);
    FloorAtLeast(a.amount * PRICE_SCALE, b.amount, b.limitPrice);
  }

  /** The exception is raised exactly for an empty second side that otherwise fits. */
  lemma ThrowsExactly(a: PricedIntent, b: PricedIntent)
    ensures MatchPricedPair(a, b) == DividedByZero
            <==> && Opposite(a, b) && b.amount == 0
                 && -PRICE_SCALE < a.amount * a.limitPrice < PRICE_SCALE
                 && a.minOutput <= 0 && b.minOutput <= a.amount
  {
  }

  /**
   A crossing moves exactly A's amount to B and B's amount to A, meets both
   minimums, leaves A less than one unit below its limit, meets B's limit
   exactly, and so the two limits cross up to that rounding.
   */
  lemma CrossingSound(a: PricedIntent, b: PricedIntent)
    requires a.amount >= 0 && a.limitPrice >= 0 && b.amount > 0 && MatchPricedPair(a, b).Crossed?
    ensures var m, x, y, p, q := MatchPricedPair(a, b).m, a.amount, b.amount, a.limitPrice, b.limitPrice;
            && m.aId == a.id && m.bId == b.id && m.amountA == x && m.amountB == y && m.price == p
            && m.inputAssetA == m.outputAssetB == a.inputAsset && m.outputAssetA == m.inputAssetB == b.inputAsset
            && m.inputAssetA != m.outputAssetA
            && m.amountB >= m.minOutputA == a.minOutput && m.amountA >= m.minOutputB == b.minOutput
            && PRICE_SCALE * y <= x * p < PRICE_SCALE * (y + 1)
            && y * q <= x * PRICE_SCALE
            && p * (y * q) < (y + 1) * (PRICE_SCALE * PRICE_SCALE)
  {
    CrossesExactly(a, b);
    hide TruncDiv;
    LimitsCross(a.amount, b.amount, a.limitPrice, b.limitPrice, PRICE_SCALE);
  }

  lemma LimitsCross(x: int, y: int, p: int, q: int, s: int)
    requires p >= 0 && s > 0 && x * p < s * (y + 1) && y * q <= x * s
    ensures p * (y * q) < (y + 1) * (s * s)
  {
    Monotone(p, y * q, x * s);
    assert p * (x * s) == s * (x * p);
    StrictlyMonotone(s, x * p, s * (y + 1));
    assert s * (s * (y + 1)) == (y + 1) * (s * s);
  }

  lemma Monotone(c: int, a: int, b: int)
    requires c >= 0 && a <= b
    ensures c * a <= c * b
  {
    assert c * (b - a) >= 0;
  }

  lemma StrictlyMonotone(c: int, a: int, b: int)
    requires c > 0 && a < b
    ensures c * a < c * b
  {
    assert c * (b - a) > 0;
  }

  // ---- The greedy pass ----

  datatype Search = Nobody | Partner(j: nat, m: PricedMatch) | Raised

  /** The first later position whose intent is free and crosses with `intents[i]`. */
  function FindPartner(intents: seq<PricedIntent>, i: nat, j: nat, used: set<string>): (r: Search)
    requires i < |intents| && j <= |intents|
    ensures r.Partner? ==> r.j < |intents| && r.j != i && intents[r.j].id !in used
                           && MatchPricedPair(intents[i], intents[r.j]) == Crossed(r.m)
    ensures r.Raised? ==>
              exists k :: j <= k < |intents| && k != i && MatchPricedPair(intents[i], intents[k]) == DividedByZero
    ensures r.Nobody? ==> forall k :: j <= k < |intents| && k != i && intents[k].id !in used
                                      ==> MatchPricedPair(intents[i], intents[k]) == NoCross
    decreases |intents| - j
  {
    if j == |intents| then Nobody
    else if i == j || intents[j].id in used then FindPartner(intents, i, j + 1, used)
    else match MatchPricedPair(intents[i], intents[j])
      case NoCross => FindPartner(intents, i, j + 1, used)
      case Crossed(m) => Partner(j, m)
      case DividedByZero => Raised
  }

  datatype Greedy = Running(out: seq<PricedMatch>, used: set<string>) | Failed

  function GreedyStep(intents: seq<PricedIntent>, i: nat, g: Greedy): Greedy
    requires i < |intents|
  {
    if g.Failed? || intents[i].id in g.used then g
    else match FindPartner(intents, i, 0, g.used)
      case Nobody => g
      case Partner(j, m) => Running(g.out + [m], g.used + {intents[i].id} + {intents[j].id})
      case Raised => Failed
  }

  function GreedyRun(intents: seq<PricedIntent>, n: nat): Greedy
    requires n <= |intents|
  {
    if n == 0 then Running([], {}) else GreedyStep(intents, n - 1, GreedyRun(intents, n - 1))
  }

  /** `None` when the pass raises the division exception. */
  method MatchPricedIntents(intents: seq<PricedIntent>) returns (r: Option<seq<PricedMatch>>)
    ensures var g := GreedyRun(intents, |intents|);
            r == if g.Failed? then None else Some(g.out)
  {
    var out: seq<PricedMatch> := [];
    var used: set<string> := {};
    var i := 0;
    while i < |intents|
      invariant 0 <= i <= |intents|
      invariant GreedyRun(intents, i) == Running(out, used)
    {
      if intents[i].id !in used {
        var j := 0;
        var found := false;
        ghost var out0, used0 := out, used;
        while j < |intents| && !found
          invariant 0 <= j <= |intents|
          invariant !found ==> out == out0 && used == used0
          invariant !found ==> FindPartner(intents, i, j, used0) == FindPartner(intents, i, 0, used0)
          invariant found ==> GreedyRun(intents, i + 1) == Running(out, used)
          decreases |intents| - j, !found
        {
          if i == j || intents[j].id in used || intents[i].id in used {
            j := j + 1;
            continue;
          }
          var m := MatchPricedPair(intents[i], intents[j]);
          if m.DividedByZero? {
            GreedyFailed(intents, i + 1, |intents|);
            return None;
          }
          if m.Crossed? {
            out := out + [m.m];
            used := used + {intents[i].id};
            used := used + {intents[j].id};
            found := true;
          } else {
            j := j + 1;
          }
        }
      }
      i := i + 1;
    }
    r := Some(out);
  }

  lemma {:induction false} GreedyFailed(intents: seq<PricedIntent>, i: nat, n: nat)
    requires i <= n <= |intents| && GreedyRun(intents, i).Failed?
    ensures GreedyRun(intents, n).Failed?
  {
    if i < n {
      GreedyFailed(intents, i, n - 1);
    }
  }

  // ---- What the pass guarantees ----

  predicate Mentions(m: PricedMatch, id: string) {
    m.aId == id || m.bId == id
  }

  ghost predicate FromPair(intents: seq<PricedIntent>, m: PricedMatch) {
    exists i, j :: 0 <= i < |intents| && 0 <= j < |intents| && i != j
                   && MatchPricedPair(intents[i], intents[j]) == Crossed(m)
  }

  ghost predicate Sound(intents: seq<PricedIntent>, out: seq<PricedMatch>) {
    forall k :: 0 <= k < |out| ==> FromPair(intents, out[k])
  }

  ghost predicate SharesNoId(out: seq<PricedMatch>) {
    forall k, l, id :: 0 <= k < l < |out| && Mentions(out[k], id) ==> !Mentions(out[l], id)
  }

  ghost predicate UsedExactly(out: seq<PricedMatch>, used: set<string>) {
    forall id :: id in used <==> exists k :: 0 <= k < |out| && Mentions(out[k], id)
  }

  /** No free intent among the first `n` crosses with a free one. */
  ghost predicate Settled(intents: seq<PricedIntent>, n: nat, used: set<string>) {
    forall i, j :: 0 <= i < n <= |intents| && 0 <= j < |intents| && i != j
                   && intents[i].id !in used && intents[j].id !in used
                   ==> MatchPricedPair(intents[i], intents[j]) == NoCross
  }

  ghost predicate GreedyInvariant(intents: seq<PricedIntent>, n: nat, g: Greedy) {
    g.Running? ==>
      && Sound(intents, g.out) && SharesNoId(g.out) && UsedExactly(g.out, g.used)
      && Settled(intents, n, g.used)
  }

  lemma PushUses(out: seq<PricedMatch>, used: set<string>, m: PricedMatch)
    requires SharesNoId(out) && UsedExactly(out, used) && m.aId !in used && m.bId !in used
    ensures SharesNoId(out + [m]) && UsedExactly(out + [m], used + {m.aId} + {m.bId})
  {
    var more := out + [m];
    assert forall k :: 0 <= k < |out| ==> more[k] == out[k];
    forall id
      ensures id in used + {m.aId} + {m.bId} <==> exists k :: 0 <= k < |more| && Mentions(more[k], id)
    {
      if id in used {
        var k :| 0 <= k < |out| && Mentions(out[k], id);
        assert Mentions(more[k], id);
      } else if id == m.aId || id == m.bId {
        assert Mentions(more[|out|], id);
      }
      if k :| 0 <= k < |more| && Mentions(more[k], id) {
        assert k < |out| ==> Mentions(out[k], id);
      }
    }
  }

  lemma StepKeeps(intents: seq<PricedIntent>, n: nat, g: Greedy)
    requires n < |intents| && GreedyInvariant(intents, n, g)
    ensures GreedyInvariant(intents, n + 1, GreedyStep(intents, n, g))
  {
    if g.Running? && intents[n].id !in g.used {
      var s := FindPartner(intents, n, 0, g.used);
      if s.Partner? {
        assert s.m.aId == intents[n].id && s.m.bId == intents[s.j].id;
        hide MatchPricedPair, FindPartner, SharesNoId, UsedExactly;
        PushUses(g.out, g.used, s.m);
        assert FromPair(intents, s.m);
      }
    }
  }

  lemma {:induction false} GreedyKeeps(intents: seq<PricedIntent>, n: nat)
    requires n <= |intents|
    ensures GreedyInvariant(intents, n, GreedyRun(intents, n))
  {
    hide GreedyInvariant, GreedyStep, FindPartner, MatchPricedPair;
    if n == 0 {
      StartKeeps(intents);
    } else {
      GreedyKeeps(intents, n - 1);
      StepKeeps(intents, n - 1, GreedyRun(intents, n - 1));
    }
  }

  lemma StartKeeps(intents: seq<PricedIntent>)
    ensures GreedyInvariant(intents, 0, Running([], {}))
  {
  }

  /**
   When the pass returns: every result comes from two different positions that
   cross, no id is shared by two results, and no two intents left over cross.
   */
  lemma GreedyMaximal(intents: seq<PricedIntent>, i: nat, j: nat)
    requires i < |intents| && j < |intents| && i != j && GreedyRun(intents, |intents|).Running?
    ensures var g := GreedyRun(intents, |intents|);
            && Sound(intents, g.out) && SharesNoId(g.out)
            && ((forall k :: 0 <= k < |g.out| ==>
                 !Mentions(g.out[k], intents[i].id) && !Mentions(g.out[k], intents[j].id))
                ==> MatchPricedPair(intents[i], intents[j]) == NoCross)
  {
    GreedyKeeps(intents, |intents|);
  }

  /** With distinct ids no result pairs an id with itself. */
  lemma GreedyNoSelfMatch(intents: seq<PricedIntent>, k: nat)
    requires forall i, j :: 0 <= i < j < |intents| ==> intents[i].id != intents[j].id
    requires var g := GreedyRun(intents, |intents|); g.Running? && k < |g.out|
    ensures GreedyRun(intents, |intents|).out[k].aId != GreedyRun(intents, |intents|).out[k].bId
  {
    GreedyKeeps(intents, |intents|);
    var m := GreedyRun(intents, |intents|).out[k];
    var i, j :| 0 <= i < |intents| && 0 <= j < |intents| && i != j
                && MatchPricedPair(intents[i], intents[j]) == Crossed(m);
    assert m.aId == intents[i].id && m.bId == intents[j].id;
  }

  /**
   Two free intents divide by zero, and the pass gets to them: no free intent before `j`
   crosses with `intents[i]`.
   */
  ghost predicate RaisesAt(intents: seq<PricedIntent>, i: nat, j: nat) {
    && i < |intents| && j < |intents| && i != j && GreedyRun(intents, i).Running?
    && intents[i].id !in GreedyRun(intents, i).used && intents[j].id !in GreedyRun(intents, i).used
    && MatchPricedPair(intents[i], intents[j]) == DividedByZero
    && forall k :: 0 <= k < j && k != i && intents[k].id !in GreedyRun(intents, i).used ==>
         MatchPricedPair(intents[i], intents[k]) == NoCross
  }

  lemma {:induction false} SearchRaises(intents: seq<PricedIntent>, i: nat, j: nat, used: set<string>) returns (k: nat)
    requires i < |intents| && j <= |intents| && FindPartner(intents, i, j, used).Raised?
    ensures j <= k < |intents| && k != i && intents[k].id !in used
    ensures MatchPricedPair(intents[i], intents[k]) == DividedByZero
    ensures forall l :: j <= l < k && l != i && intents[l].id !in used ==>
              MatchPricedPair(intents[i], intents[l]) == NoCross
    decreases |intents| - j
  {
    hide MatchPricedPair;
    if i == j || intents[j].id in used || MatchPricedPair(intents[i], intents[j]).NoCross? {
      k := SearchRaises(intents, i, j + 1, used);
    } else {
      k := j;
    }
  }

  lemma {:induction false} SearchReaches(intents: seq<PricedIntent>, i: nat, j: nat, k: nat, used: set<string>)
    requires i < |intents| && j <= k < |intents| && k != i && intents[k].id !in used
    requires MatchPricedPair(intents[i], intents[k]) == DividedByZero
    requires forall l :: j <= l < k && l != i && intents[l].id !in used ==>
               MatchPricedPair(intents[i], intents[l]) == NoCross
    ensures FindPartner(intents, i, j, used) == Raised
    decreases k - j
  {
    hide MatchPricedPair;
    if j < k {
      SearchReaches(intents, i, j + 1, k, used);
    }
  }

  /** An intent other than `i` that is free and does something with it: crosses or divides by zero. */
  predicate Candidate(intents: seq<PricedIntent>, i: nat, j: nat, used: set<string>) {
    && i < |intents| && j < |intents| && j != i && intents[j].id !in used
    && MatchPricedPair(intents[i], intents[j]) != NoCross
  }

  lemma {:induction false} FirstCandidate(intents: seq<PricedIntent>, i: nat, j: nat, k: nat, used: set<string>)
    requires j <= k && Candidate(intents, i, k, used) && forall l: nat :: j <= l < k ==> !Candidate(intents, i, l, used)
    ensures MatchPricedPair(intents[i], intents[k]) == DividedByZero ==> FindPartner(intents, i, j, used) == Raised
    ensures MatchPricedPair(intents[i], intents[k]).Crossed? ==>
              FindPartner(intents, i, j, used) == Partner(k, MatchPricedPair(intents[i], intents[k]).m)
    decreases k - j
  {
    hide MatchPricedPair;
    if j < k {
      assert !Candidate(intents, i, j, used);
      FirstCandidate(intents, i, j + 1, k, used);
    }
  }

  /** A used intent is skipped, and a free one without a candidate too. */
  lemma TurnIdle(intents: seq<PricedIntent>, i: nat)
    requires i < |intents| && GreedyRun(intents, i).Running?
    requires intents[i].id in GreedyRun(intents, i).used
             || forall j: nat :: !Candidate(intents, i, j, GreedyRun(intents, i).used)
    ensures GreedyRun(intents, i + 1) == GreedyRun(intents, i)
  {
    hide MatchPricedPair;
    if intents[i].id !in GreedyRun(intents, i).used {
      NoCandidate(intents, i, 0, GreedyRun(intents, i).used);
    }
  }

  lemma {:induction false} NoCandidate(intents: seq<PricedIntent>, i: nat, j: nat, used: set<string>)
    requires i < |intents| && j <= |intents| && forall l: nat :: !Candidate(intents, i, l, used)
    ensures FindPartner(intents, i, j, used) == Nobody
    decreases |intents| - j
  {
    hide MatchPricedPair;
    if j < |intents| {
      assert !Candidate(intents, i, j, used);
      NoCandidate(intents, i, j + 1, used);
    }
  }

  /**
   A free intent is paired with the first candidate of the whole list, if the two
   cross, and both ids are used; if they divide by zero the pass ends.
   */
  lemma TurnExactly(intents: seq<PricedIntent>, i: nat, k: nat)
    requires i < |intents| && GreedyRun(intents, i).Running? && intents[i].id !in GreedyRun(intents, i).used
    requires Candidate(intents, i, k, GreedyRun(intents, i).used)
    requires forall l: nat :: l < k ==> !Candidate(intents, i, l, GreedyRun(intents, i).used)
    ensures var g, g', m := GreedyRun(intents, i), GreedyRun(intents, i + 1), MatchPricedPair(intents[i], intents[k]);
            && (m == DividedByZero ==> g'.Failed?)
            && (m.Crossed? ==> g' == Running(g.out + [m.m], g.used + {intents[i].id, intents[k].id}))
  {
    hide MatchPricedPair;
    FirstCandidate(intents, i, 0, k, GreedyRun(intents, i).used);
  }

  /**
   The pass raises the exception if and only if it gets to two free intents that
   divide by zero; the second of them then spends nothing.
   */
  lemma {:induction false} GreedyRaises(intents: seq<PricedIntent>, n: nat)
    requires n <= |intents|
    ensures GreedyRun(intents, n).Failed? <==> exists i: nat, j: nat :: i < n && RaisesAt(intents, i, j)
    ensures forall i: nat, j: nat :: RaisesAt(intents, i, j) ==> intents[j].amount == 0
  {
    forall i: nat, j: nat | RaisesAt(intents, i, j)
      ensures intents[j].amount == 0
    {
      ThrowsExactly(intents[i], intents[j]);
    }
    hide MatchPricedPair;
    if n > 0 {
      GreedyRaises(intents, n - 1);
      var g := GreedyRun(intents, n - 1);
      if GreedyRun(intents, n).Failed? && g.Running? {
        var j := SearchRaises(intents, n - 1, 0, g.used);
        assert RaisesAt(intents, n - 1, j);
      }
      if i: nat, j: nat :| i < n && RaisesAt(intents, i, j) && i == n - 1 {
        SearchReaches(intents, i, 0, j, g.used);
      }
    }
  }

  /** The intent spends something, or wants what it spends and so never pairs. */
  predicate Harmless(b: PricedIntent) {
    b.amount != 0 || b.inputAsset == b.outputAsset
  }

  lemma HarmlessNeverRaises(intents: seq<PricedIntent>)
    requires forall k :: 0 <= k < |intents| ==> Harmless(intents[k])
    ensures GreedyRun(intents, |intents|).Running?
  {
    GreedyRaises(intents, |intents|);
    if i: nat, j: nat :| i < |intents| && RaisesAt(intents, i, j) {
      ThrowsExactly(intents[i], intents[j]);
    }
  }

  /** Asks for exactly what an empty-handed intent offers: nothing. */
  function Taker(b: PricedIntent): (a: PricedIntent)
    ensures Harmless(a)
  {
    PricedIntent(b.id + "'", b.outputAsset, b.inputAsset, if b.minOutput > 1 then b.minOutput else 1, 0, 0)
  }

  lemma TakerRaises(b: PricedIntent)
    requires !Harmless(b)
    ensures GreedyRun([Taker(b), b], 2).Failed?
  {
    var intents := [Taker(b), b];
    assert intents[0].amount * intents[0].limitPrice == 0;
    assert MatchPricedPair(intents[0], intents[1]) == DividedByZero;
    SearchReaches(intents, 0, 0, 1, {});
    assert GreedyRun(intents, 0) == Running([], {});
    assert GreedyRun(intents, 1).Failed?;
  }

  /**
   Among harmless intents an intent can make the pass raise the exception if and
   only if it spends nothing of one asset and wants another.
   */
  lemma RaisesExactly(b: PricedIntent)
    ensures (forall others: seq<PricedIntent> :: (forall k :: 0 <= k < |others| ==> Harmless(others[k])) ==>
               GreedyRun(others + [b], |others| + 1).Running?)
            <==> Harmless(b)
  {
    if Harmless(b) {
      forall others: seq<PricedIntent> | forall k :: 0 <= k < |others| ==> Harmless(others[k])
        ensures GreedyRun(others + [b], |others| + 1).Running?
      {
        HarmlessNeverRaises(others + [b]);
      }
    } else {
      TakerRaises(b);
      var others := [Taker(b)];
      assert others + [b] == [Taker(b), b];
      assert GreedyRun(others + [b], |others| + 1).Failed?;
    }
    hide GreedyRun, Taker;
  }
}
