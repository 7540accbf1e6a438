/**
 Fewer than `t` shares say nothing about the secret: whatever `k` shares are
 seen, every secret is split into them by the same number of coefficient
 vectors, `p` to the power of `t - 1 - k`.
 */
module Secrecy {
  import opened Collections
  import opened Field
  import opened Polynomial
  import opened Shamir

  /** The random coefficients `tail` make a split of `secret` produce the values `ys` at `xs`. */
  ghost predicate Explains(secret: int, tail: seq<int>, xs: seq<int>, ys: seq<int>, p: int)
    requires p > 0 && |xs| == |ys|
  {
    InField(tail, p) && Fits([secret % p] + tail, xs, ys, p)
  }

  ghost predicate SharePoints(xs: seq<int>, p: int)
    requires p > 0
  {
    Distinct(xs, p) && forall i :: 0 <= i < |xs| ==> xs[i] % p != 0
  }

  lemma ApartFromZero(x: int, p: int)
    requires p > 0 && x % p != 0
    ensures (0 - x) % p != 0 && (x - 0) % p != 0
  {
    if (0 - x) % p == 0 {
      ZeroIffDivides(0, x, p);
    }
  }

  lemma ZeroJoins(xs: seq<int>, p: int)
    requires p > 0 && SharePoints(xs, p)
    ensures Distinct([0] + xs, p)
  {
    var zs := [0] + xs;
    forall i, j | 0 <= i < |zs| && 0 <= j < |zs| && i != j
      ensures (zs[i] - zs[j]) % p != 0
    {
      if i == 0 {
        assert zs[j] == xs[j - 1];
        ApartFromZero(xs[j - 1], p);
      } else if j == 0 {
        assert zs[i] == xs[i - 1];
        ApartFromZero(xs[i - 1], p);
      } else {
        assert zs[i] == xs[i - 1] && zs[j] == xs[j - 1];
      }
    }
  }

  /** The coefficients that explain the shares under a given secret. */
  ghost function TailFor(secret: int, xs: seq<int>, ys: seq<int>, p: int): (tail: seq<int>)
    requires Prime(p) && |xs| == |ys|
    ensures |tail| == |xs|
  {
    Interpolate([0] + xs, [secret] + ys, p)[1..]
  }

  lemma ConstantTerm(c: seq<int>, secret: int, p: int)
    requires p > 0 && |c| > 0 && InField(c, p)
    ensures Cong(Poly(c, 0), secret, p) <==> c[0] == secret % p
  {
    assert 0 * Poly(c[1..], 0) == 0;
    ModUnique(c[0], 0, c[0], p);
  }

  /** With `t - 1` shares, every candidate secret has exactly one explanation. */
  lemma ExactlyOneExplanation(secret: int, tail: seq<int>, xs: seq<int>, ys: seq<int>, p: int)
    requires Prime(p) && |xs| == |ys| == |tail| && SharePoints(xs, p)
    ensures Explains(secret, tail, xs, ys, p) <==> tail == TailFor(secret, xs, ys, p)
  {
    var zs, vs := [0] + xs, [secret] + ys;
    var c := Interpolate(zs, vs, p);
    ZeroJoins(xs, p);
    InterpolateFits(zs, vs, p);
    assert Cong(Poly(c, zs[0]), vs[0], p);
    ConstantTerm(c, secret, p);
    assert c == [secret % p] + c[1..];
    if tail == c[1..] {
      forall i | 0 <= i < |xs|
        ensures Cong(Poly(c, xs[i]), ys[i], p)
      {
        assert zs[i + 1] == xs[i] && vs[i + 1] == ys[i];
      }
    }
    if Explains(secret, tail, xs, ys, p) {
      var d := [secret % p] + tail;
      CongMod(secret, p);
      ConstantTerm(d, secret, p);
      FitsExtend(d, secret, xs, ys, p);
      FitsUnique(d, zs, vs, p);
    }
  }

  lemma FitsExtend(d: seq<int>, secret: int, xs: seq<int>, ys: seq<int>, p: int)
    requires p > 0 && |xs| == |ys| && Fits(d, xs, ys, p) && Cong(Poly(d, 0), secret, p)
    ensures Fits(d, [0] + xs, [secret] + ys, p)
  {
  }

  // ---- Any number of shares below the threshold ----

  ghost function Explanations(secret: int, n: nat, xs: seq<int>, ys: seq<int>, p: int): (s: set<seq<int>>)
    requires p > 0 && |xs| == |ys|
  {
    set tail | tail in Vectors(n, p) && Explains(secret, tail, xs, ys, p)
  }

  lemma ExplanationsMember(secret: int, n: nat, xs: seq<int>, ys: seq<int>, p: int, tail: seq<int>)
    requires p > 0 && |xs| == |ys|
    ensures tail in Explanations(secret, n, xs, ys, p) <==> |tail| == n && Explains(secret, tail, xs, ys, p)
  {
    VectorsMember(n, p, tail);
  }

  /** A vector explains the shares exactly if, with the secret in front, it fits them and the secret at 0. */
  lemma ExplainsFits(secret: int, tail: seq<int>, xs: seq<int>, ys: seq<int>, p: int)
    requires p > 0 && |xs| == |ys| && InField(tail, p)
    ensures Explains(secret, tail, xs, ys, p) <==> Fits([secret % p] + tail, [0] + xs, [secret] + ys, p)
  {
    var c, zs, vs := [secret % p] + tail, [0] + xs, [secret] + ys;
    CongMod(secret, p);
    ConstantTerm(c, secret, p);
    if Explains(secret, tail, xs, ys, p) {
      FitsExtend(c, secret, xs, ys, p);
    }
    if Fits(c, zs, vs, p) {
      forall i | 0 <= i < |xs|
        ensures Cong(Poly(c, xs[i]), ys[i], p)
      {
        assert zs[i + 1] == xs[i] && vs[i + 1] == ys[i];
      }
    }
  }

  lemma FittingIsExplained(secret: int, n: nat, xs: seq<int>, ys: seq<int>, p: int, c: seq<int>)
    requires p > 0 && |xs| == |ys| && c in Fitting(n + 1, [0] + xs, [secret] + ys, p)
    ensures |c| == n + 1 && c == [secret % p] + c[1..] && c[1..] in Explanations(secret, n, xs, ys, p)
  {
    var zs, vs := [0] + xs, [secret] + ys;
    FittingMember(n + 1, zs, vs, p, c);
    assert Cong(Poly(c, zs[0]), vs[0], p);
    ConstantTerm(c, secret, p);
    assert c == [secret % p] + c[1..];
    ExplainsFits(secret, c[1..], xs, ys, p);
    ExplanationsMember(secret, n, xs, ys, p, c[1..]);
  }

  lemma ExplainedIsFitting(secret: int, n: nat, xs: seq<int>, ys: seq<int>, p: int, tail: seq<int>)
    requires p > 0 && |xs| == |ys| && tail in Explanations(secret, n, xs, ys, p)
    ensures [secret % p] + tail in Fitting(n + 1, [0] + xs, [secret] + ys, p)
  {
    ExplanationsMember(secret, n, xs, ys, p, tail);
    ExplainsFits(secret, tail, xs, ys, p);
    FittingMember(n + 1, [0] + xs, [secret] + ys, p, [secret % p] + tail);
  }

  lemma ExplanationsSize(secret: int, n: nat, xs: seq<int>, ys: seq<int>, p: int)
    requires Prime(p) && |xs| == |ys| <= n && SharePoints(xs, p)
    ensures |Explanations(secret, n, xs, ys, p)| == Pow(p, n - |xs|)
  {
    hide Prime, Fitting, Explanations, Explains, Pow;
    var all, zs, vs := Explanations(secret, n, xs, ys, p), [0] + xs, [secret] + ys;
    var fitting := Fitting(n + 1, zs, vs, p);
    var put: seq<int> -> seq<int> := tail => [secret % p] + tail;
    var drop: seq<int> -> seq<int> := c => if c == [] then [] else c[1..];
    forall tail | tail in all
      ensures put(tail) in fitting && drop(put(tail)) == tail
    {
      ExplainedIsFitting(secret, n, xs, ys, p, tail);
    }
    InjectionSize(all, fitting, put);
    forall c | c in fitting
      ensures drop(c) in all && put(drop(c)) == c
    {
      FittingIsExplained(secret, n, xs, ys, p, c);
    }
    InjectionSize(fitting, all, drop);
    ZeroJoins(xs, p);
    FittingSize(n + 1, zs, vs, p);
  }

  // ---- In terms of the split ----

  /** Shares as the split makes them: at different indices of the committee, with values in the field. */
  ghost predicate Plausible(picked: seq<Share>, total: nat, p: int) {
    && (forall k :: 0 <= k < |picked| ==> 1 <= picked[k].x <= total && 0 <= picked[k].y < p)
    && forall k, l :: 0 <= k < l < |picked| ==> picked[k].x != picked[l].x
  }

  /** The coefficient vectors with which the split of `secret` into `total` shares yields all of `picked`. */
  ghost function SplitsGiving(secret: int, n: nat, picked: seq<Share>, total: nat, p: int): set<seq<int>>
    requires p > 0
  {
    set tail | tail in Vectors(n, p) && forall k :: 0 <= k < |picked| ==>
      picked[k] in SharesOf([secret % p] + tail, total, p)
  }

  lemma ShareAt(c: seq<int>, share: Share, total: nat, p: int)
    requires p > 0 && 1 <= share.x <= total && 0 <= share.y < p
    ensures share in SharesOf(c, total, p) <==> Cong(Poly(c, share.x), share.y, p)
  {
    hide Poly;
    var shares := SharesOf(c, total, p);
    ModUnique(share.y, 0, share.y, p);
    assert shares[share.x - 1] == Share(share.x, Poly(c, share.x) % p);
    if share in shares {
      var i :| 0 <= i < total && shares[i] == share;
      assert i == share.x - 1;
    }
  }

  lemma SplitsAreExplanations(secret: int, n: nat, picked: seq<Share>, total: nat, p: int)
    requires p > 0 && Plausible(picked, total, p)
    ensures SplitsGiving(secret, n, picked, total, p) == Explanations(secret, n, Xs(picked), Ys(picked), p)
  {
    forall tail | tail in Vectors(n, p)
      ensures Explains(secret, tail, Xs(picked), Ys(picked), p)
              <==> forall k :: 0 <= k < |picked| ==> picked[k] in SharesOf([secret % p] + tail, total, p)
    {
      VectorsMember(n, p, tail);
      var c := [secret % p] + tail;
      forall k | 0 <= k < |picked|
        ensures picked[k] in SharesOf(c, total, p) <==> Cong(Poly(c, Xs(picked)[k]), Ys(picked)[k], p)
      {
        ShareAt(c, picked[k], total, p);
      }
      hide SharesOf, Poly, Cong;
    }
    hide Vectors, Explains, SharesOf;
  }

  lemma PlausiblePoints(picked: seq<Share>, total: nat, p: int)
    requires p > total && Plausible(picked, total, p)
    ensures SharePoints(Xs(picked), p)
  {
    var xs := Xs(picked);
    forall i | 0 <= i < |xs|
      ensures xs[i] % p != 0
    {
      ModUnique(xs[i], 0, xs[i], p);
    }
    forall i, j | 0 <= i < |xs| && 0 <= j < |xs| && i != j
      ensures (xs[i] - xs[j]) % p != 0
    {
      assert if i < j then picked[i].x != picked[j].x else picked[j].x != picked[i].x;
      var d := xs[i] - xs[j];
      ModUnique(d, if d > 0 then 0 else -1, if d > 0 then d else d + p, p);
    }
  }

  /**
   Whatever `k` shares are seen, `k` below the threshold `n + 1`, every secret is
   split into them by exactly `p` to the power of `n - k` coefficient vectors: the
   shares favour no secret.
   */
  lemma FewerRevealNothing(secret: int, n: nat, picked: seq<Share>, total: nat, p: int)
    requires Prime(p) && total < p && |picked| <= n && Plausible(picked, total, p)
    ensures |SplitsGiving(secret, n, picked, total, p)| == Pow(p, n - |picked|)
  {
    hide Prime, Pow, SplitsGiving, Explanations;
    SplitsAreExplanations(secret, n, picked, total, p);
    PlausiblePoints(picked, total, p);
    ExplanationsSize(secret, n, Xs(picked), Ys(picked), p);
  }
}
