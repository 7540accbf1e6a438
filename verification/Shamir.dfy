/**
 Shamir secret sharing over a prime field (packages/mpc-crypto/src/shamir.ts):
 the extended-Euclid inverse, rejection sampling, splitting by Horner
 evaluation and reconstruction by Lagrange interpolation at 0.
 */
module Shamir {
  import opened Collections
  import opened Field
  import opened Polynomial

  datatype Share = Share(x: int, y: int)

  datatype SplitResult = Shares(shares: seq<Share>) | InvalidThreshold

  const TWO_256: int := 0x1_0000000000000000_0000000000000000_0000000000000000_0000000000000000

  // ---- modp ----

  /** The remainder of the source language: it takes the sign of the dividend. */
  function TruncRem(x: int, m: int): int
    requires m > 0
  {
    if x >= 0 then x % m else -((-x) % m)
  }

  function ModP(x: int, p: int): int
    requires p > 0
  {
    TruncRem(TruncRem(x, p) + p, p)
  }

  lemma ModPIsRemainder(x: int, p: int)
    requires p > 0
    ensures ModP(x, p) == x % p
  {
    if x >= 0 {
      CongByWitness(x % p + p, x % p, 1, p);
      CongMod(x, p);
    } else {
      var r := (-x) % p;
      var k := (-x) / p;
      assert -x == p * k + r;
      CongByWitness(p - r, x, k + 1, p);
    }
  }

  // ---- modinv ----

  /** What the Euclid loop keeps: the gcd and the two Bezout congruences. */
  ghost predicate EuclidInvariant(oldR: int, r: int, oldS: int, s: int, a: int, p: int) {
    && p > 0 && oldR >= 0 && r >= 0
    && Gcd(oldR, r) == Gcd(a % p, p)
    && Cong(oldS * a, oldR, p) && Cong(s * a, r, p)
    && (a % p == 0 ==> (oldR == 0 && r == p) || (r == 0 && oldS == 0))
    && (oldR == 0 ==> s == 0)
  }

  lemma EuclidStart(a: int, p: int)
    requires p > 0
    ensures EuclidInvariant(a % p, p, 1, 0, a, p)
  {
    CongMod(a, p);
    CongByWitness(0, p, -1, p);
    assert 1 * a == a && 0 * a == 0;
  }

  lemma EuclidStep(oldR: int, r: int, oldS: int, s: int, a: int, p: int)
    requires EuclidInvariant(oldR, r, oldS, s, a, p) && r != 0
    ensures var q := oldR / r;
            oldR - q * r == oldR % r && EuclidInvariant(r, oldR - q * r, s, oldS - q * s, a, p)
  {
    hide Cong;
    BezoutStep(oldR, r, oldS, s, oldR / r, a, p);
    DivisionStep(oldR, r);
    if oldR == 0 {
      ModUnique(0, 0, 0, r);
    }
  }

  lemma DivisionStep(n: int, r: int)
    requires n >= 0 && r > 0
    ensures n - (n / r) * r == n % r
    ensures n == 0 ==> n / r == 0
  {
  }

  lemma BezoutStep(oldR: int, r: int, oldS: int, s: int, q: int, a: int, p: int)
    requires p > 0 && Cong(oldS * a, oldR, p) && Cong(s * a, r, p)
    ensures Cong((oldS - q * s) * a, oldR - q * r, p)
  {
    CongScale(-q, s * a, r, p);
    CongAdd(oldS * a, oldR, -q * (s * a), -q * r, p);
    assert (oldS - q * s) * a == oldS * a + -q * (s * a);
  }

  lemma EuclidEnd(oldR: int, oldS: int, s: int, a: int, p: int)
    requires Prime(p) && EuclidInvariant(oldR, 0, oldS, s, a, p)
    ensures oldS % p == Inverse(a, p)
  {
    if a % p == 0 {
      ModUnique(0, 0, 0, p);
    } else {
      GcdWithPrime(a % p, p);
      CongMod(oldS, p);
      CongScale(a, oldS % p, oldS, p);
      assert a * oldS == oldS * a;
      ModUnique(1, 0, 1, p);
      InverseUnique(a, oldS % p, Inverse(a, p), p);
    }
  }

  method ModInv(a: int, p: int) returns (inv: int)
    requires Prime(p)
    ensures 0 <= inv < p
    ensures a % p != 0 ==> IsInverse(a, inv, p)
    ensures a % p == 0 ==> inv == 0
    ensures inv == Inverse(a, p)
  {
    hide EuclidInvariant, Prime, IsInverse;
    ModPIsRemainder(a, p);
    var oldR, r := ModP(a, p), p;
    var oldS, s := 1, 0;
    EuclidStart(a, p);
    while r != 0
      invariant oldR >= 0 && r >= 0
      invariant EuclidInvariant(oldR, r, oldS, s, a, p)
      decreases r
    {
      EuclidStep(oldR, r, oldS, s, a, p);
      var q := oldR / r;
      oldR, r := r, oldR - q * r;
      oldS, s := s, oldS - q * s;
    }
    EuclidEnd(oldR, oldS, s, a, p);
    ModPIsRemainder(oldS, p);
    inv := ModP(oldS, p);
  }

  // ---- randomFieldElement ----

  /** The largest multiple of `p` that fits in 256 bits. */
  function RejectionLimit(p: int): int
    requires p > 0
  {
    (TWO_256 / p) * p
  }

  /** The first draw below the limit decides; draws at or above it are skipped. */
  method RandomFieldElement(draws: seq<nat>, p: int) returns (r: Option<int>, used: nat)
    requires p > 0
    ensures used <= |draws|
    ensures r.Some? ==> used > 0 && draws[used - 1] < RejectionLimit(p) && r.value == draws[used - 1] % p
    ensures r.None? ==> used == |draws|
    ensures forall k :: 0 <= k < (if r.Some? then used - 1 else used) ==> draws[k] >= RejectionLimit(p)
  {
    used := 0;
    while used < |draws|
      invariant used <= |draws|
      invariant forall k :: 0 <= k < used ==> draws[k] >= RejectionLimit(p)
    {
      var raw := draws[used];
      used := used + 1;
      if raw < RejectionLimit(p) {
        return Some(raw % p), used;
      }
    }
    r := None;
  }

  function DrawsWithResidue(limit: nat, r: int, p: int): (s: set<int>)
    requires p > 0
    ensures forall n :: n in s <==> 0 <= n < limit && n % p == r
  {
    set n | 0 <= n < limit && n % p == r
  }

  lemma {:induction false} UniformBelow(q: nat, r: int, p: int)
    requires 0 <= r < p
    ensures q * p >= 0
    ensures |DrawsWithResidue(q * p, r, p)| == q
  {
    if q == 0 {
      assert DrawsWithResidue(0, r, p) == {};
    } else {
      UniformBelow(q - 1, r, p);
      assert q * p == (q - 1) * p + p;
      OneMoreBlock((q - 1) * p, q - 1, r, p);
    }
  }

  /** A further block of `p` draws adds exactly one with residue `r`. */
  lemma OneMoreBlock(base: nat, q: nat, r: int, p: int)
    requires 0 <= r < p && base == q * p
    ensures |DrawsWithResidue(base + p, r, p)| == |DrawsWithResidue(base, r, p)| + 1
  {
    var all, below := DrawsWithResidue(base + p, r, p), DrawsWithResidue(base, r, p);
    ModUnique(base + r, q, r, p);
    forall n | base <= n < base + p && n % p == r
      ensures n == base + r
    {
      ModUnique(n, q, n - base, p);
    }
    assert all == below + {base + r};
  }

  /** Every residue is hit by the same number of accepted 256-bit draws. */
  lemma RejectionSamplingUniform(r: int, p: int)
    requires 0 <= r < p
    ensures 0 <= RejectionLimit(p) <= TWO_256
    ensures |DrawsWithResidue(RejectionLimit(p), r, p)| == TWO_256 / p
  {
    UniformBelow(TWO_256 / p, r, p);
  }

  // ---- shamirSplit ----

  function SharesOf(c: seq<int>, total: nat, p: int): (s: seq<Share>)
    requires p > 0
    ensures |s| == total
    ensures forall i :: 0 <= i < total ==> s[i] == Share(i + 1, Poly(c, i + 1) % p)
  {
    seq(total, i requires 0 <= i < total => Share(i + 1, Poly(c, i + 1) % p))
  }

  /** Horner's rule, highest coefficient first, reducing at every step. */
  method Horner(c: seq<int>, x: int, p: int) returns (y: int)
    requires p > 0
    ensures y == Poly(c, x) % p
  {
    y := 0;
    ModUnique(0, 0, 0, p);
    assert c[|c|..] == [];
    var j := |c| - 1;
    while j >= 0
      invariant -1 <= j < |c|
      invariant y == Poly(c[j + 1..], x) % p
    {
      var rest := Poly(c[j + 1..], x);
      assert c[j..][1..] == c[j + 1..];
      CongMod(rest, p);
      CongScale(x, y, rest, p);
      CongAdd(c[j], c[j], x * y, x * rest, p);
      ModPIsRemainder(y * x + c[j], p);
      y := ModP(y * x + c[j], p);
      j := j - 1;
    }
    assert c[0..] == c;
  }

  /** `random` stands for the field elements the source draws. */
  method ShamirSplit(secret: int, threshold: int, total: int, random: seq<int>, p: int) returns (r: SplitResult)
    requires p > 0 && |random| >= threshold - 1
    ensures threshold < 2 || threshold > total ==> r == InvalidThreshold
    ensures 2 <= threshold <= total
            ==> r == Shares(SharesOf([secret % p] + random[..threshold - 1], total, p))
  {
    if threshold < 2 || threshold > total {
      return InvalidThreshold;
    }
    ModPIsRemainder(secret, p);
    var coeffs := [ModP(secret, p)];
    var i := 1;
    while i < threshold
      invariant 1 <= i <= threshold
      invariant coeffs == [secret % p] + random[..i - 1]
    {
      coeffs := coeffs + [random[i - 1]];
      i := i + 1;
    }
    var shares: seq<Share> := [];
    var k := 0;
    while k < total
      invariant 0 <= k <= total && |shares| == k
      invariant forall j :: 0 <= j < k ==> shares[j] == Share(j + 1, Poly(coeffs, j + 1) % p)
    {
      var y := Horner(coeffs, k + 1, p);
      shares := shares + [Share(k + 1, y)];
      k := k + 1;
    }
    assert shares == SharesOf(coeffs, total, p);
    r := Shares(shares);
  }

  // ---- shamirReconstruct ----

  function Xs(shares: seq<Share>): (xs: seq<int>)
    ensures |xs| == |shares| && forall i :: 0 <= i < |xs| ==> xs[i] == shares[i].x
  {
    seq(|shares|, i requires 0 <= i < |shares| => shares[i].x)
  }

  function Ys(shares: seq<Share>): (ys: seq<int>)
    ensures |ys| == |shares| && forall i :: 0 <= i < |ys| ==> ys[i] == shares[i].y
  {
    seq(|shares|, i requires 0 <= i < |shares| => shares[i].y)
  }

  ghost function Reconstructed(shares: seq<Share>, p: int): (s: int)
    requires Prime(p)
  {
    Lagrange(Xs(shares), Ys(shares), Indices(|shares|), p) % p
  }

  method ShamirReconstruct(shares: seq<Share>, p: int) returns (secret: int)
    requires Prime(p)
    ensures secret == Reconstructed(shares, p)
  {
    hide Prime, Inverse, Cong, Weights, Num, Den, ModP;
    ghost var ys, ws := Ys(shares), Weights(Xs(shares), Indices(|shares|), p);
    secret := 0;
    ModUnique(0, 0, 0, p);
    var i := 0;
    while i < |shares|
      invariant 0 <= i <= |shares|
      invariant secret == Dot(ys, ws, i) % p
    {
      var num, den := WeightFactors(shares, i, p);
      var inv := ModInv(den, p);
      WeightOf(shares, i, num, den, p);
      AccumulateTerm(secret, Dot(ys, ws, i), ys[i], num * inv, ws[i], p);
      assert Dot(ys, ws, i + 1) == Dot(ys, ws, i) + ys[i] * ws[i];
      secret := ModP(secret + ModP(shares[i].y * ModP(num * inv, p), p), p);
      i := i + 1;
    }
  }

  lemma WeightOf(shares: seq<Share>, i: nat, num: int, den: int, p: int)
    requires Prime(p) && i < |shares|
    requires Cong(num, Num(Xs(shares), Indices(|shares|), i, |shares|), p)
    requires Cong(den, Den(Xs(shares), Indices(|shares|), i, |shares|), p)
    ensures Cong(num * Inverse(den, p), Weights(Xs(shares), Indices(|shares|), p)[i], p)
  {
    var xs, all := Xs(shares), Indices(|shares|);
    var inv := Inverse(den, p);
    InverseRespects(den, Den(xs, all, i, |xs|), p);
    CongMul(num, Num(xs, all, i, |xs|), inv, inv, p);
  }

  /** The inner loop: numerator and denominator of one weight. */
  method WeightFactors(shares: seq<Share>, i: nat, p: int) returns (num: int, den: int)
    requires p > 0 && i < |shares|
    ensures Cong(num, Num(Xs(shares), Indices(|shares|), i, |shares|), p)
    ensures Cong(den, Den(Xs(shares), Indices(|shares|), i, |shares|), p)
  {
    ghost var xs, all := Xs(shares), Indices(|shares|);
    num, den := 1, 1;
    var j := 0;
    while j < |shares|
      invariant 0 <= j <= |shares|
      invariant Cong(num, Num(xs, all, i, j), p)
      invariant Cong(den, Den(xs, all, i, j), p)
    {
      if i != j {
        StepFactor(num, Num(xs, all, i, j), -shares[j].x, p);
        StepFactor(den, Den(xs, all, i, j), shares[i].x - shares[j].x, p);
        ModPIsRemainder(-shares[j].x, p);
        ModPIsRemainder(num * ModP(-shares[j].x, p), p);
        ModPIsRemainder(den * (shares[i].x - shares[j].x), p);
        num := ModP(num * ModP(-shares[j].x, p), p);
        den := ModP(den * (shares[i].x - shares[j].x), p);
      }
      j := j + 1;
    }
  }

  lemma StepFactor(v: int, spec: int, f: int, p: int)
    requires p > 0 && Cong(v, spec, p)
    ensures Cong((v * f) % p, spec * f, p)
    ensures Cong((v * (f % p)) % p, spec * f, p)
  {
    CongMod(f, p);
    CongMul(v, spec, f, f, p);
    CongMul(v, spec, f % p, f, p);
    CongMod(v * f, p);
    CongMod(v * (f % p), p);
  }

  lemma AccumulateTerm(secret: int, sum: int, y: int, w: int, wSpec: int, p: int)
    requires p > 0 && secret == sum % p && Cong(w, wSpec, p)
    ensures ModP(secret + ModP(y * ModP(w, p), p), p) == (sum + y * wSpec) % p
  {
    ModPIsRemainder(w, p);
    ModPIsRemainder(y * ModP(w, p), p);
    ModPIsRemainder(secret + ModP(y * ModP(w, p), p), p);
    CongMod(sum, p);
    CongMod(w, p);
    CongScale(y, w % p, wSpec, p);
    CongMod(y * (w % p), p);
    CongAdd(secret, sum, (y * (w % p)) % p, y * wSpec, p);
  }

  // ---- Any t shares reconstruct ----

  ghost predicate OnPolynomial(shares: seq<Share>, c: seq<int>, p: int)
    requires p > 0
  {
    forall i :: 0 <= i < |shares| ==> Cong(shares[i].y, Poly(c, shares[i].x), p)
  }

  /** Enough points of one polynomial, in any order, give back its constant term. */
  lemma ReconstructsConstant(shares: seq<Share>, c: seq<int>, p: int)
    requires Prime(p) && 0 < |c| <= |shares|
    requires OnPolynomial(shares, c, p) && Distinct(Xs(shares), p)
    ensures Reconstructed(shares, p) == c[0] % p
  {
    var xs, ys, all := Xs(shares), Ys(shares), Indices(|shares|);
    LagrangeAtZero(xs, all, c, p);
    LagrangeRespects(xs, ys, Values(c, xs), all, p);
    assert Poly(c, 0) == c[0];
  }

  ghost predicate DrawnFrom(picked: seq<Share>, shares: seq<Share>) {
    && (forall i :: 0 <= i < |picked| ==> picked[i] in shares)
    && (forall i, j :: 0 <= i < j < |picked| ==> picked[i].x != picked[j].x)
  }

  /**
   Splitting and then reconstructing from any `threshold` or more of the shares,
   in any order, returns the secret modulo `p`, whatever the random coefficients.
   */
  lemma ShareRoundTrip(secret: int, random: seq<int>, total: nat, picked: seq<Share>, p: int)
    requires Prime(p) && total < p
    requires DrawnFrom(picked, SharesOf([secret % p] + random, total, p))
    requires |picked| >= |random| + 1
    ensures Reconstructed(picked, p) == secret % p
  {
    var c := [secret % p] + random;
    forall i | 0 <= i < |picked|
      ensures Cong(picked[i].y, Poly(c, picked[i].x), p) && 1 <= picked[i].x <= total
    {
      CongMod(Poly(c, picked[i].x), p);
    }
    var xs := Xs(picked);
    forall i, j | 0 <= i < |xs| && 0 <= j < |xs| && i != j
      ensures (xs[i] - xs[j]) % p != 0
    {
      assert if i < j then picked[i].x != picked[j].x else picked[j].x != picked[i].x;
      var d := xs[i] - xs[j];
      ModUnique(d, if d > 0 then 0 else -1, if d > 0 then d else d + p, p);
    }
    ReconstructsConstant(picked, c, p);
    CongMod(secret, p);
  }
}
