/**
 Polynomials as coefficient sequences, lowest degree first, and the two facts
 about them that secret sharing rests on:

 - dividing by `x - a` and recording the value at `a` is a bijection on
   coefficient vectors (`Quot`/`Poly` against `Build`), so `n` values at `n`
   distinct points belong to exactly one vector of `n` coefficients;
 - Lagrange's formula at 0 gives the constant term of any polynomial with no
   more coefficients than there are points.

 The polynomials themselves are evaluated over the integers; reduction modulo
 `p` is applied at the end.
 */
module Polynomial {
  import opened Collections
  import opened Field

  function Poly(c: seq<int>, x: int): int {
    if c == [] then 0 else c[0] + x * Poly(c[1..], x)
  }

  ghost predicate InField(c: seq<int>, p: int) {
    forall i :: 0 <= i < |c| ==> 0 <= c[i] < p
  }

  ghost predicate DistinctOn(xs: seq<int>, idx: set<int>, p: int)
    requires p > 0
  {
    forall i, j :: 0 <= i < |xs| && 0 <= j < |xs| && i in idx && j in idx && i != j
                   ==> (xs[i] - xs[j]) % p != 0
  }

  ghost predicate Distinct(xs: seq<int>, p: int)
    requires p > 0
  {
    forall i, j :: 0 <= i < |xs| && 0 <= j < |xs| && i != j ==> (xs[i] - xs[j]) % p != 0
  }

  function Indices(n: nat): (s: set<int>)
    ensures |s| == n
    ensures forall i :: i in s <==> 0 <= i < n
  {
    if n == 0 then {}
    else
      var below := Indices(n - 1);
      assert n - 1 !in below;
      below + {n - 1}
  }

  // ---- Division by x - a ----

  /** Coefficients of the quotient of `c` by `x - a`. */
  function Quot(c: seq<int>, a: int): (q: seq<int>)
    ensures |q| == if |c| == 0 then 0 else |c| - 1
  {
    if |c| <= 1 then [] else [Poly(c[1..], a)] + Quot(c[1..], a)
  }

  lemma {:induction false} QuotPoly(c: seq<int>, a: int, x: int)
    ensures Poly(c, x) == Poly(c, a) + Times(x - a, Poly(Quot(c, a), x))
  {
    if |c| <= 1 {
      assert Quot(c, a) == [];
      if |c| == 1 {
        assert c[1..] == [];
        assert x * 0 == 0 && a * 0 == 0;
      }
    } else {
      var d := c[1..];
      QuotPoly(d, a, x);
      var q := Quot(d, a);
      var da, qx := Poly(d, a), Poly(q, x);
      assert Quot(c, a)[1..] == q;
      assert Poly(Quot(c, a), x) == da + x * qx;
      QuotStep(c[0], da, qx, a, x);
    }
  }

  lemma QuotStep(c0: int, da: int, qx: int, a: int, x: int)
    ensures c0 + x * (da + (x - a) * qx) == c0 + a * da + (x - a) * (da + x * qx)
  {
    var t := (x - a) * qx;
    assert x * (da + t) == x * da + x * t;
    assert (x - a) * (da + x * qx) == (x - a) * da + (x - a) * (x * qx);
    assert (x - a) * (x * qx) == x * t;
    assert (x - a) * da == x * da - a * da;
  }

  // ---- The inverse of division ----

  /** The vector whose value at `a` is `v` and whose quotient by `x - a` is `q`. */
  function Build(q: seq<int>, a: int, v: int, p: int): (c: seq<int>)
    requires p > 0
    ensures |c| == |q| + 1
    ensures InField(c, p)
  {
    if q == [] then [v % p] else [(v - a * q[0]) % p] + Build(q[1..], a, q[0], p)
  }

  lemma {:induction false} BuildPoly(q: seq<int>, a: int, v: int, p: int, x: int)
    requires p > 0
    ensures Cong(Poly(Build(q, a, v, p), x), v + (x - a) * Poly(q, x), p)
  {
    var c := Build(q, a, v, p);
    if q == [] {
      assert c[1..] == [];
      assert x * 0 == 0 && (x - a) * 0 == 0;
      CongMod(v, p);
    } else {
      var w := Poly(q[1..], x);
      assert c[1..] == Build(q[1..], a, q[0], p);
      BuildPoly(q[1..], a, q[0], p, x);
      CongScale(x, Poly(c[1..], x), q[0] + (x - a) * w, p);
      CongMod(v - a * q[0], p);
      CongAdd(c[0], v - a * q[0], x * Poly(c[1..], x), x * (q[0] + (x - a) * w), p);
      QuotStep(v - a * q[0], q[0], w, a, x);
    }
  }

  /** Rebuilding from the quotient and the value gives the vector back. */
  lemma {:induction false} BuildQuot(c: seq<int>, a: int, q: seq<int>, v: int, p: int)
    requires p > 0 && |c| > 0 && InField(c, p)
    requires |q| == |c| - 1 && Cong(v, Poly(c, a), p)
    requires forall i :: 0 <= i < |q| ==> Cong(q[i], Quot(c, a)[i], p)
    ensures Build(q, a, v, p) == c
  {
    if |c| == 1 {
      assert c[1..] == [] && a * 0 == 0;
      ModUnique(c[0], 0, c[0], p);
    } else {
      var d := c[1..];
      assert Quot(c, a)[0] == Poly(d, a);
      assert q == [q[0]] + q[1..];
      forall i | 0 <= i < |q[1..]|
        ensures Cong(q[1..][i], Quot(d, a)[i], p)
      {
        assert q[1..][i] == q[i + 1] && Quot(c, a)[i + 1] == Quot(d, a)[i];
      }
      BuildQuot(d, a, q[1..], q[0], p);
      CongScale(-a, q[0], Poly(d, a), p);
      CongAdd(v, c[0] + a * Poly(d, a), -a * q[0], -a * Poly(d, a), p);
      assert -a * q[0] == -(a * q[0]) && -a * Poly(d, a) == -(a * Poly(d, a));
      assert Cong(v - a * q[0], c[0], p);
      ModUnique(c[0], 0, c[0], p);
      assert c == [c[0]] + d;
    }
  }

  // ---- Interpolation: one vector per value table ----

  /** Values of the quotient at the remaining points, given the values of the dividend. */
  ghost function Slopes(xs: seq<int>, ys: seq<int>, p: int): (zs: seq<int>)
    requires Prime(p) && |xs| == |ys| > 0
    ensures |zs| == |xs| - 1
    ensures forall i :: 0 <= i < |zs| ==> zs[i] == (ys[i + 1] - ys[0]) * Inverse(xs[i + 1] - xs[0], p)
  {
    seq(|xs| - 1, i requires 0 <= i < |xs| - 1 => (ys[i + 1] - ys[0]) * Inverse(xs[i + 1] - xs[0], p))
  }

  ghost function Interpolate(xs: seq<int>, ys: seq<int>, p: int): (c: seq<int>)
    requires Prime(p) && |xs| == |ys|
    ensures |c| == |xs| && InField(c, p)
    decreases |xs|
  {
    if xs == [] then []
    else Build(Interpolate(xs[1..], Slopes(xs, ys, p), p), xs[0], ys[0], p)
  }

  ghost predicate Fits(c: seq<int>, xs: seq<int>, ys: seq<int>, p: int)
    requires p > 0 && |xs| == |ys|
  {
    forall i :: 0 <= i < |xs| ==> Cong(Poly(c, xs[i]), ys[i], p)
  }

  /** One point of the step between a vector and its quotient. */
  lemma SlopeStep(v: int, y: int, y0: int, d: int, qx: int, p: int)
    requires Prime(p) && d % p != 0 && Cong(v, y0 + d * qx, p)
    ensures Cong(v, y, p) <==> Cong(qx, (y - y0) * Inverse(d, p), p)
  {
    var inv := Inverse(d, p);
    var z := (y - y0) * inv;
    assert Cong(d * z, y - y0, p) by {
      ModUnique(1, 0, 1, p);
      CongScale(y - y0, d * inv, 1, p);
      Regroup3(y - y0, d, inv);
    }
    if Cong(v, y, p) {
      CongAdd(y0 + d * qx, y, -y0, -y0, p);
      Cancel(d, qx, z, p);
    }
    if Cong(qx, z, p) {
      CongScale(d, qx, z, p);
      CongAdd(y0, y0, d * qx, y - y0, p);
    }
  }

  lemma Regroup3(e: int, d: int, inv: int)
    ensures e * (d * inv) == d * (e * inv)
  {
  }

  /** One point of the existence proof: the built vector takes a value if its quotient takes the slope. */
  lemma BuiltFits(q: seq<int>, x0: int, y0: int, x: int, y: int, p: int)
    requires Prime(p) && (x - x0) % p != 0 && Cong(Poly(q, x), (y - y0) * Inverse(x - x0, p), p)
    ensures Cong(Poly(Build(q, x0, y0, p), x), y, p)
  {
    hide Prime, Inverse, Cong, Poly, Build;
    BuildPoly(q, x0, y0, p, x);
    SlopeStep(Poly(Build(q, x0, y0, p), x), y, y0, x - x0, Poly(q, x), p);
  }

  lemma RestDistinct(xs: seq<int>, p: int)
    requires p > 0 && Distinct(xs, p) && xs != []
    ensures Distinct(xs[1..], p) && forall i :: 0 < i < |xs| ==> (xs[i] - xs[0]) % p != 0
  {
    var rest := xs[1..];
    forall k, l | 0 <= k < |rest| && 0 <= l < |rest| && k != l
      ensures (rest[k] - rest[l]) % p != 0
    {
      assert rest[k] == xs[k + 1] && rest[l] == xs[l + 1];
    }
  }

  lemma BuiltAtStart(q: seq<int>, x0: int, y0: int, p: int)
    requires p > 0
    ensures Cong(Poly(Build(q, x0, y0, p), x0), y0, p)
  {
    BuildPoly(q, x0, y0, p, x0);
    assert (x0 - x0) * Poly(q, x0) == 0;
  }

  /** A vector built from a quotient that fits the slopes fits the values. */
  lemma BuildFits(q: seq<int>, xs: seq<int>, ys: seq<int>, p: int)
    requires Prime(p) && |xs| == |ys| > 0 && Distinct(xs, p) && Fits(q, xs[1..], Slopes(xs, ys, p), p)
    ensures Fits(Build(q, xs[0], ys[0], p), xs, ys, p)
  {
    hide Prime, Inverse, Cong, Poly, Build, Slopes;
    RestDistinct(xs, p);
    var zs, rest := Slopes(xs, ys, p), xs[1..];
    forall i | 0 <= i < |xs|
      ensures Cong(Poly(Build(q, xs[0], ys[0], p), xs[i]), ys[i], p)
    {
      if i == 0 {
        BuiltAtStart(q, xs[0], ys[0], p);
      } else {
        assert Cong(Poly(q, rest[i - 1]), zs[i - 1], p);
        BuiltFits(q, xs[0], ys[0], xs[i], ys[i], p);
      }
    }
  }

  /** One point: the quotient takes the slope if the vector takes the value. */
  lemma QuotFitsAt(c: seq<int>, x0: int, y0: int, x: int, y: int, p: int)
    requires Prime(p) && (x - x0) % p != 0 && Cong(Poly(c, x0), y0, p) && Cong(Poly(c, x), y, p)
    ensures Cong(Poly(ReduceAll(Quot(c, x0), p), x), (y - y0) * Inverse(x - x0, p), p)
  {
    var q := Quot(c, x0);
    var qx := Poly(q, x);
    QuotPoly(c, x0, x);
    CongAdd(Poly(c, x0), y0, (x - x0) * qx, (x - x0) * qx, p);
    ReducePoly(q, x, p);
    SlopeStep(Poly(c, x), y, y0, x - x0, qx, p);
  }

  /** And a vector that fits the values is built from its own quotient, which fits the slopes. */
  lemma QuotFits(c: seq<int>, xs: seq<int>, ys: seq<int>, p: int)
    requires Prime(p) && |xs| == |ys| > 0 && |c| > 0 && Distinct(xs, p) && InField(c, p) && Fits(c, xs, ys, p)
    ensures var q := ReduceAll(Quot(c, xs[0]), p);
            Fits(q, xs[1..], Slopes(xs, ys, p), p) && Build(q, xs[0], ys[0], p) == c
  {
    hide Prime, Inverse, Cong, Poly, Slopes, Quot, ReduceAll, Build, InField;
    var q := ReduceAll(Quot(c, xs[0]), p);
    var zs, rest := Slopes(xs, ys, p), xs[1..];
    RestDistinct(xs, p);
    assert Cong(Poly(c, xs[0]), ys[0], p);
    CongSymmetric(Poly(c, xs[0]), ys[0], p);
    BuildQuot(c, xs[0], q, ys[0], p);
    forall i | 0 <= i < |rest|
      ensures Cong(Poly(q, rest[i]), zs[i], p)
    {
      QuotFitsAt(c, xs[0], ys[0], xs[i + 1], ys[i + 1], p);
    }
  }

  lemma CongSymmetric(a: int, b: int, p: int)
    requires p > 0 && Cong(a, b, p)
    ensures Cong(b, a, p)
  {
  }

  /** Existence: the interpolated vector takes the required values. */
  lemma {:induction false} InterpolateFits(xs: seq<int>, ys: seq<int>, p: int)
    requires Prime(p) && |xs| == |ys| && Distinct(xs, p)
    ensures Fits(Interpolate(xs, ys, p), xs, ys, p)
    decreases |xs|
  {
    hide Prime, Inverse, Cong, Poly, Build, Slopes;
    if xs != [] {
      RestDistinct(xs, p);
      InterpolateFits(xs[1..], Slopes(xs, ys, p), p);
      BuildFits(Interpolate(xs[1..], Slopes(xs, ys, p), p), xs, ys, p);
    }
  }

  /** Uniqueness: no other vector of that length does. */
  lemma {:induction false} FitsUnique(c: seq<int>, xs: seq<int>, ys: seq<int>, p: int)
    requires Prime(p) && |xs| == |ys| == |c| && Distinct(xs, p)
    requires InField(c, p) && Fits(c, xs, ys, p)
    ensures c == Interpolate(xs, ys, p)
    decreases |xs|
  {
    hide Prime, Inverse, Poly, Build, Slopes, Quot;
    if xs != [] {
      QuotFits(c, xs, ys, p);
      RestDistinct(xs, p);
      FitsUnique(ReduceAll(Quot(c, xs[0]), p), xs[1..], Slopes(xs, ys, p), p);
    }
  }

  /** Different quotients build different vectors. */
  lemma {:induction false} BuildInjective(q: seq<int>, r: seq<int>, a: int, u: int, v: int, p: int)
    requires p > 0 && |q| == |r| && InField(q, p) && InField(r, p) && Build(q, a, u, p) == Build(r, a, v, p)
    ensures q == r && Cong(u, v, p)
  {
    BuiltAtStart(q, a, u, p);
    BuiltAtStart(r, a, v, p);
    if q != [] {
      assert Build(q, a, u, p)[1..] == Build(q[1..], a, q[0], p) && Build(r, a, v, p)[1..] == Build(r[1..], a, r[0], p);
      BuildInjective(q[1..], r[1..], a, q[0], r[0], p);
      ModUnique(q[0], 0, q[0], p);
      ModUnique(r[0], 0, r[0], p);
      assert q == [q[0]] + q[1..] && r == [r[0]] + r[1..];
    }
  }

  // ---- How many vectors fit ----

  function Pow(p: int, n: nat): int {
    if n == 0 then 1 else p * Pow(p, n - 1)
  }

  /** The vectors of `n` field elements. */
  function Vectors(n: nat, p: int): (s: set<seq<int>>) {
    if n == 0 then {[]} else Prefixed(p, Vectors(n - 1, p))
  }

  /** Every vector with every first element below `k`. */
  function Prefixed(k: int, vs: set<seq<int>>): set<seq<int>> {
    set a, v | 0 <= a < k && v in vs :: [a] + v
  }

  lemma {:induction false} VectorsMember(n: nat, p: int, v: seq<int>)
    ensures v in Vectors(n, p) <==> |v| == n && InField(v, p)
  {
    if n > 0 {
      if |v| == n && InField(v, p) {
        VectorsMember(n - 1, p, v[1..]);
        assert v == [v[0]] + v[1..];
      }
      if v in Vectors(n, p) {
        var a, w :| 0 <= a < p && w in Vectors(n - 1, p) && v == [a] + w;
        VectorsMember(n - 1, p, w);
      }
    }
  }

  function WithFirst(a: int, vs: set<seq<int>>): set<seq<int>> {
    set v | v in vs :: [a] + v
  }

  lemma WithFirstSize(a: int, vs: set<seq<int>>)
    ensures |WithFirst(a, vs)| == |vs|
  {
    var s := WithFirst(a, vs);
    var put: seq<int> -> seq<int> := v => [a] + v;
    var drop: seq<int> -> seq<int> := v => if v == [] then [] else v[1..];
    forall u, v | u in vs && v in vs && put(u) == put(v)
      ensures u == v
    {
      assert u == put(u)[1..] && v == put(v)[1..];
    }
    InjectionSize(vs, s, put);
    forall w | w in s
      ensures drop(w) in vs && w == [a] + drop(w)
    {
      var v :| v in vs && w == [a] + v;
      assert w[1..] == v;
    }
    InjectionSize(s, vs, drop);
  }

  lemma PrefixedStep(k: nat, vs: set<seq<int>>)
    ensures Prefixed(k + 1, vs) == Prefixed(k, vs) + WithFirst(k, vs) && Prefixed(k, vs) !! WithFirst(k, vs)
  {
    forall w | w in Prefixed(k + 1, vs)
      ensures w in Prefixed(k, vs) || w in WithFirst(k, vs)
    {
      var a, v :| 0 <= a < k + 1 && v in vs && w == [a] + v;
      assert a == k ==> w in WithFirst(k, vs);
    }
    forall w | w in WithFirst(k, vs)
      ensures w in Prefixed(k + 1, vs) && w[0] == k
    {
    }
    forall w | w in Prefixed(k, vs)
      ensures w in Prefixed(k + 1, vs) && w[0] != k
    {
    }
  }

  lemma NothingPrefixed(vs: set<seq<int>>)
    ensures Prefixed(0, vs) == {}
  {
  }

  lemma {:induction false} PrefixedSize(k: nat, vs: set<seq<int>>)
    ensures |Prefixed(k, vs)| == k * |vs|
  {
    hide Prefixed, WithFirst;
    if k == 0 {
      NothingPrefixed(vs);
    } else {
      PrefixedSize(k - 1, vs);
      WithFirstSize(k - 1, vs);
      PrefixedStep(k - 1, vs);
      assert k * |vs| == (k - 1) * |vs| + |vs|;
    }
  }

  lemma {:induction false} VectorsSize(n: nat, p: nat)
    ensures |Vectors(n, p)| == Pow(p, n)
  {
    if n > 0 {
      VectorsSize(n - 1, p);
      PrefixedSize(p, Vectors(n - 1, p));
    }
  }

  ghost function Fitting(n: nat, xs: seq<int>, ys: seq<int>, p: int): set<seq<int>>
    requires p > 0 && |xs| == |ys|
  {
    set c | c in Vectors(n, p) && Fits(c, xs, ys, p)
  }

  lemma FittingMember(n: nat, xs: seq<int>, ys: seq<int>, p: int, c: seq<int>)
    requires p > 0 && |xs| == |ys|
    ensures c in Fitting(n, xs, ys, p) <==> |c| == n && InField(c, p) && Fits(c, xs, ys, p)
  {
    VectorsMember(n, p, c);
  }

  /** The quotient of a vector, reduced. */
  function Down(c: seq<int>, a: int, p: int): seq<int>
    requires p > 0
  {
    ReduceAll(Quot(c, a), p)
  }

  lemma DownFits(n: nat, xs: seq<int>, ys: seq<int>, p: int, c: seq<int>)
    requires Prime(p) && 0 < |xs| == |ys| <= n && Distinct(xs, p) && c in Fitting(n, xs, ys, p)
    ensures Down(c, xs[0], p) in Fitting(n - 1, xs[1..], Slopes(xs, ys, p), p)
    ensures Build(Down(c, xs[0], p), xs[0], ys[0], p) == c
  {
    hide Prime, Inverse, Cong, Poly, Slopes, Quot, ReduceAll, Build, InField, Fitting, Fits, Distinct;
    FittingMember(n, xs, ys, p, c);
    QuotFits(c, xs, ys, p);
    FittingMember(n - 1, xs[1..], Slopes(xs, ys, p), p, Down(c, xs[0], p));
  }

  lemma DownInjective(n: nat, xs: seq<int>, ys: seq<int>, p: int, c: seq<int>, d: seq<int>)
    requires Prime(p) && 0 < |xs| == |ys| <= n && Distinct(xs, p)
    requires c in Fitting(n, xs, ys, p) && d in Fitting(n, xs, ys, p)
    requires Down(c, xs[0], p) == Down(d, xs[0], p)
    ensures c == d
  {
    hide *;
    DownFits(n, xs, ys, p, c);
    DownFits(n, xs, ys, p, d);
  }

  lemma FittingDown(n: nat, xs: seq<int>, ys: seq<int>, p: int)
    requires Prime(p) && 0 < |xs| == |ys| <= n && Distinct(xs, p)
    ensures |Fitting(n, xs, ys, p)| <= |Fitting(n - 1, xs[1..], Slopes(xs, ys, p), p)|
  {
    hide *;
    var from, to := Fitting(n, xs, ys, p), Fitting(n - 1, xs[1..], Slopes(xs, ys, p), p);
    var x0 := xs[0];
    var down: seq<int> -> seq<int> := c => Down(c, x0, p);
    forall c | c in from
      ensures down(c) in to
    {
      DownFits(n, xs, ys, p, c);
    }
    forall c, d | c in from && d in from && down(c) == down(d)
      ensures c == d
    {
      DownInjective(n, xs, ys, p, c, d);
    }
    InjectionSize(from, to, down);
  }

  lemma FittingUp(n: nat, xs: seq<int>, ys: seq<int>, p: int)
    requires Prime(p) && 0 < |xs| == |ys| <= n && Distinct(xs, p)
    ensures |Fitting(n, xs, ys, p)| >= |Fitting(n - 1, xs[1..], Slopes(xs, ys, p), p)|
  {
    hide *;
    var from, to := Fitting(n, xs, ys, p), Fitting(n - 1, xs[1..], Slopes(xs, ys, p), p);
    var x0, y0 := xs[0], ys[0];
    var up: seq<int> -> seq<int> := q => Build(q, x0, y0, p);
    forall q | q in to
      ensures up(q) in from
    {
      FittingMember(n - 1, xs[1..], Slopes(xs, ys, p), p, q);
      BuildFits(q, xs, ys, p);
      FittingMember(n, xs, ys, p, Build(q, x0, y0, p));
    }
    forall q, r | q in to && r in to && up(q) == up(r)
      ensures q == r
    {
      FittingMember(n - 1, xs[1..], Slopes(xs, ys, p), p, q);
      FittingMember(n - 1, xs[1..], Slopes(xs, ys, p), p, r);
      BuildInjective(q, r, x0, y0, y0, p);
    }
    InjectionSize(to, from, up);
  }

  /** Each of the points takes away one degree of freedom: `p` to the power of what is left. */
  lemma {:induction false} FittingSize(n: nat, xs: seq<int>, ys: seq<int>, p: int)
    requires Prime(p) && |xs| == |ys| <= n && Distinct(xs, p)
    ensures |Fitting(n, xs, ys, p)| == Pow(p, n - |xs|)
    decreases |xs|
  {
    if xs == [] {
      VectorsSize(n, p);
      assert Fitting(n, xs, ys, p) == Vectors(n, p);
    } else {
      RestDistinct(xs, p);
      hide Prime, Inverse, Fitting, Slopes, Distinct;
      FittingDown(n, xs, ys, p);
      FittingUp(n, xs, ys, p);
      FittingSize(n - 1, xs[1..], Slopes(xs, ys, p), p);
    }
  }

  function ReduceAll(c: seq<int>, p: int): (r: seq<int>)
    requires p > 0
    ensures |r| == |c| && InField(r, p)
    ensures forall i :: 0 <= i < |c| ==> Cong(r[i], c[i], p)
  {
    if c == [] then []
    else
      CongMod(c[0], p);
      [c[0] % p] + ReduceAll(c[1..], p)
  }

  lemma {:induction false} ReducePoly(c: seq<int>, x: int, p: int)
    requires p > 0
    ensures Cong(Poly(ReduceAll(c, p), x), Poly(c, x), p)
  {
    if c != [] {
      var r := ReduceAll(c, p);
      assert r[1..] == ReduceAll(c[1..], p);
      ReducePoly(c[1..], x, p);
      CongScale(x, Poly(r[1..], x), Poly(c[1..], x), p);
      CongAdd(r[0], c[0], x * Poly(r[1..], x), x * Poly(c[1..], x), p);
    }
  }

  // ---- Lagrange interpolation at 0, over a subset of the points ----

  /** Product of `-xs[j]` over the chosen `j < m` other than `i`. */
  function Num(xs: seq<int>, idx: set<int>, i: int, m: nat): int
    requires m <= |xs|
  {
    if m == 0 then 1
    else Num(xs, idx, i, m - 1) * (if m - 1 in idx && m - 1 != i then -xs[m - 1] else 1)
  }

  /** Product of `xs[i] - xs[j]` over the chosen `j < m` other than `i`. */
  function Den(xs: seq<int>, idx: set<int>, i: int, m: nat): int
    requires m <= |xs| && 0 <= i < |xs|
  {
    if m == 0 then 1
    else Den(xs, idx, i, m - 1) * (if m - 1 in idx && m - 1 != i then xs[i] - xs[m - 1] else 1)
  }

  /** The interpolation weight of each chosen point; 0 for the others. */
  ghost function Weights(xs: seq<int>, idx: set<int>, p: int): (ws: seq<int>)
    requires Prime(p)
    ensures |ws| == |xs|
    ensures forall i :: 0 <= i < |xs| && i in idx
                        ==> ws[i] == Num(xs, idx, i, |xs|) * Inverse(Den(xs, idx, i, |xs|), p)
    ensures forall i :: 0 <= i < |xs| && i !in idx ==> ws[i] == 0
  {
    seq(|xs|, i requires 0 <= i < |xs| =>
      if i in idx then Num(xs, idx, i, |xs|) * Inverse(Den(xs, idx, i, |xs|), p) else 0)
  }

  function Dot(ys: seq<int>, ws: seq<int>, m: nat): int
    requires m <= |ys| == |ws|
  {
    if m == 0 then 0 else Dot(ys, ws, m - 1) + ys[m - 1] * ws[m - 1]
  }

  ghost function Lagrange(xs: seq<int>, ys: seq<int>, idx: set<int>, p: int): int
    requires Prime(p) && |xs| == |ys|
  {
    Dot(ys, Weights(xs, idx, p), |xs|)
  }

  lemma Regroup(f: int, d: int, g: int)
    ensures (f * d) * g == f * (d * g)
    ensures (1 * d) * g == g * d
  {
  }

  lemma {:induction false} NumExtract(xs: seq<int>, idx: set<int>, i: int, k: int, m: nat)
    requires m <= |xs| && k in idx && k != i && 0 <= k < |xs|
    ensures Num(xs, idx, i, m) == (if k < m then -xs[k] else 1) * Num(xs, idx - {k}, i, m)
  {
    if m > 0 {
      NumExtract(xs, idx, i, k, m - 1);
      Regroup(if k < m - 1 then -xs[k] else 1, Num(xs, idx - {k}, i, m - 1),
              if m - 1 in idx && m - 1 != i then -xs[m - 1] else 1);
    }
  }

  lemma {:induction false} DenExtract(xs: seq<int>, idx: set<int>, i: int, k: int, m: nat)
    requires m <= |xs| && 0 <= i < |xs| && k in idx && k != i && 0 <= k < |xs|
    ensures Den(xs, idx, i, m) == (if k < m then xs[i] - xs[k] else 1) * Den(xs, idx - {k}, i, m)
  {
    if m > 0 {
      DenExtract(xs, idx, i, k, m - 1);
      Regroup(if k < m - 1 then xs[i] - xs[k] else 1, Den(xs, idx - {k}, i, m - 1),
              if m - 1 in idx && m - 1 != i then xs[i] - xs[m - 1] else 1);
    }
  }

  lemma {:induction false} DenNonZero(xs: seq<int>, idx: set<int>, i: int, m: nat, p: int)
    requires Prime(p) && m <= |xs| && 0 <= i < |xs| && i in idx && DistinctOn(xs, idx, p)
    ensures Den(xs, idx, i, m) % p != 0
  {
    if m == 0 {
      ModUnique(1, 0, 1, p);
    } else {
      DenNonZero(xs, idx, i, m - 1, p);
      if m - 1 in idx && m - 1 != i {
        ProductNonZero(Den(xs, idx, i, m - 1), xs[i] - xs[m - 1], p);
      }
    }
  }

  lemma WeightStep(nr: int, dr: int, x: int, g: int, p: int)
    requires Prime(p) && dr % p != 0 && (g * dr) % p != 0
    ensures Cong(g * ((-x * nr) * Inverse(g * dr, p)), -x * (nr * Inverse(dr, p)), p)
  {
    var u, w := Inverse(g * dr, p), Inverse(dr, p);
    assert dr * (g * u) == (g * dr) * u;
    Cancel(dr, g * u, w, p);
    CongScale(-x * nr, g * u, w, p);
    assert (-x * nr) * (g * u) == g * ((-x * nr) * u);
    assert (-x * nr) * w == -x * (nr * w);
  }

  /** Leaving point `k` out divides every other weight by `-xs[k] / (xs[i] - xs[k])`. */
  lemma WeightExtract(xs: seq<int>, idx: set<int>, i: int, k: int, p: int)
    requires Prime(p) && 0 <= i < |xs| && 0 <= k < |xs| && i != k
    requires i in idx && k in idx && DistinctOn(xs, idx, p)
    ensures Cong((xs[i] - xs[k]) * Weights(xs, idx, p)[i], -xs[k] * Weights(xs, idx - {k}, p)[i], p)
  {
    var n := |xs|;
    var rest := idx - {k};
    assert DistinctOn(xs, rest, p);
    NumExtract(xs, idx, i, k, n);
    DenExtract(xs, idx, i, k, n);
    DenNonZero(xs, idx, i, n, p);
    DenNonZero(xs, rest, i, n, p);
    WeightStep(Num(xs, rest, i, n), Den(xs, rest, i, n), xs[k], xs[i] - xs[k], p);
  }

  /** One term of the sum, with point `k` left out. */
  lemma TermExtract(y: int, g: int, z: int, w: int, x: int, wr: int, p: int)
    requires p > 0 && Cong(y, g * z, p) && Cong(g * w, -x * wr, p)
    ensures Cong(y * w, -x * (z * wr), p)
  {
    CongMul(y, g * z, w, w, p);
    CongScale(z, g * w, -x * wr, p);
    assert (g * z) * w == z * (g * w);
    assert z * (-x * wr) == -x * (z * wr);
  }

  lemma {:induction false} DotScaled(ys: seq<int>, ws: seq<int>, zs: seq<int>, vs: seq<int>, a: int, m: nat, p: int)
    requires p > 0 && m <= |ys| == |ws| == |zs| == |vs|
    requires forall i :: 0 <= i < m ==> Cong(ys[i] * ws[i], a * (zs[i] * vs[i]), p)
    ensures Cong(Dot(ys, ws, m), a * Dot(zs, vs, m), p)
  {
    if m == 0 {
      assert a * 0 == 0;
    } else {
      DotScaled(ys, ws, zs, vs, a, m - 1, p);
      AddScaled(Dot(ys, ws, m - 1), Dot(zs, vs, m - 1), ys[m - 1] * ws[m - 1], zs[m - 1] * vs[m - 1], a, p);
    }
  }

  lemma AddScaled(l: int, before: int, t: int, r: int, a: int, p: int)
    requires p > 0 && Cong(l, a * before, p) && Cong(t, a * r, p)
    ensures Cong(l + t, a * (before + r), p)
  {
    CongAdd(l, a * before, t, a * r, p);
    assert a * (before + r) == a * before + a * r;
  }

  lemma {:induction false} DotAdd(ys: seq<int>, us: seq<int>, vs: seq<int>, ws: seq<int>, m: nat)
    requires m <= |ys| == |us| == |vs| == |ws|
    requires forall i :: 0 <= i < m ==> ys[i] == us[i] + vs[i]
    ensures Dot(ys, ws, m) == Dot(us, ws, m) + Dot(vs, ws, m)
  {
    if m > 0 {
      DotAdd(ys, us, vs, ws, m - 1);
      assert ys[m - 1] * ws[m - 1] == us[m - 1] * ws[m - 1] + vs[m - 1] * ws[m - 1];
    }
  }

  lemma {:induction false} DotRespects(ys: seq<int>, zs: seq<int>, ws: seq<int>, m: nat, p: int)
    requires p > 0 && m <= |ys| == |zs| == |ws|
    requires forall i :: 0 <= i < m ==> ws[i] == 0 || Cong(ys[i], zs[i], p)
    ensures Cong(Dot(ys, ws, m), Dot(zs, ws, m), p)
  {
    if m > 0 {
      DotRespects(ys, zs, ws, m - 1, p);
      var y, z, w := ys[m - 1], zs[m - 1], ws[m - 1];
      if w == 0 {
        assert y * w == 0 && z * w == 0;
      } else {
        CongMul(y, z, w, w, p);
      }
      CongAdd(Dot(ys, ws, m - 1), Dot(zs, ws, m - 1), y * w, z * w, p);
    }
  }

  function Const(n: nat, v: int): (s: seq<int>)
    ensures |s| == n && forall i :: 0 <= i < n ==> s[i] == v
  {
    seq(n, _ => v)
  }

  lemma {:induction false} DotConst(v: int, ws: seq<int>, m: nat)
    requires m <= |ws|
    ensures Dot(Const(|ws|, v), ws, m) == v * Dot(Const(|ws|, 1), ws, m)
  {
    if m > 0 {
      DotConst(v, ws, m - 1);
      var s, w := Dot(Const(|ws|, 1), ws, m - 1), ws[m - 1];
      assert v * (s + 1 * w) == v * s + v * w;
    }
  }

  /** A product kept as one term, so that statements about it match without algebra. */
  function Times(a: int, b: int): int {
    a * b
  }

  function Values(c: seq<int>, xs: seq<int>): (ys: seq<int>)
    ensures |ys| == |xs| && forall i :: 0 <= i < |xs| ==> ys[i] == Poly(c, xs[i])
  {
    seq(|xs|, i requires 0 <= i < |xs| => Poly(c, xs[i]))
  }

  function Shifted(xs: seq<int>, zs: seq<int>, a: int): (ts: seq<int>)
    requires |xs| == |zs|
    ensures |ts| == |xs| && forall i :: 0 <= i < |xs| ==> ts[i] == Times(xs[i] - a, zs[i])
  {
    seq(|xs|, i requires 0 <= i < |xs| => Times(xs[i] - a, zs[i]))
  }

  /**
   If the values all carry a factor `xs[i] - xs[k]`, the sum over all points is
   `-xs[k]` times the sum over the points other than `k`.
   */
  lemma LagrangeExtract(xs: seq<int>, zs: seq<int>, idx: set<int>, k: int, p: int)
    requires Prime(p) && |xs| == |zs| && 0 <= k < |xs| && k in idx && DistinctOn(xs, idx, p)
    ensures Cong(Lagrange(xs, Shifted(xs, zs, xs[k]), idx, p), Times(-xs[k], Lagrange(xs, zs, idx - {k}, p)), p)
  {
    var ts := Shifted(xs, zs, xs[k]);
    var ws, vs := Weights(xs, idx, p), Weights(xs, idx - {k}, p);
    forall i | 0 <= i < |xs|
      ensures Cong(ts[i] * ws[i], -xs[k] * (zs[i] * vs[i]), p)
    {
      if i !in idx || i == k {
        assert ts[i] * ws[i] == 0 && zs[i] * vs[i] == 0;
      } else {
        WeightExtract(xs, idx, i, k, p);
        TermExtract(ts[i], xs[i] - xs[k], zs[i], ws[i], xs[k], vs[i], p);
      }
    }
    DotScaled(ts, ws, zs, vs, -xs[k], |xs|, p);
  }

  /** Values that are a constant plus a rest split the sum. */
  lemma LagrangeShift(xs: seq<int>, ys: seq<int>, vs: seq<int>, a: int, idx: set<int>, p: int)
    requires Prime(p) && |xs| == |ys| == |vs|
    requires forall i :: 0 <= i < |xs| ==> ys[i] == a + vs[i]
    ensures Lagrange(xs, ys, idx, p) == Times(a, Lagrange(xs, Const(|xs|, 1), idx, p)) + Lagrange(xs, vs, idx, p)
  {
    var ws := Weights(xs, idx, p);
    DotAdd(ys, Const(|xs|, a), vs, ws, |xs|);
    DotConst(a, ws, |xs|);
  }

  /** Only the residues of the chosen values matter. */
  lemma LagrangeRespects(xs: seq<int>, ys: seq<int>, zs: seq<int>, idx: set<int>, p: int)
    requires Prime(p) && |xs| == |ys| == |zs|
    requires forall i :: 0 <= i < |xs| && i in idx ==> Cong(ys[i], zs[i], p)
    ensures Cong(Lagrange(xs, ys, idx, p), Lagrange(xs, zs, idx, p), p)
  {
    DotRespects(ys, zs, Weights(xs, idx, p), |xs|, p);
  }

  /** The weights sum to one. */
  lemma {:induction false} LagrangeOnes(xs: seq<int>, idx: set<int>, p: int)
    requires Prime(p) && idx != {} && idx <= Indices(|xs|) && DistinctOn(xs, idx, p)
    ensures Cong(Lagrange(xs, Const(|xs|, 1), idx, p), 1, p)
    decreases |idx|
  {
    var n := |xs|;
    var ones := Const(n, 1);
    var k := Pick(idx);
    var rest := idx - {k};
    if rest == {} {
      assert idx == {k};
      SingleFactors(xs, k, n);
      ModUnique(1, 0, 1, p);
      InverseUnique(1, 1, Inverse(1, p), p);
      SingleSum(ones, Weights(xs, idx, p), k, n);
    } else {
      var l := Pick(rest);
      assert DistinctOn(xs, rest, p) && DistinctOn(xs, idx - {l}, p);
      LagrangeOnes(xs, rest, p);
      assert k in idx - {l} && idx - {l} <= Indices(n);
      assert |idx - {l}| < |idx|;
      LagrangeOnes(xs, idx - {l}, p);
      OnesStep(xs, idx, k, l, p);
    }
  }

  lemma ShiftedOnes(xs: seq<int>, k: int, l: int)
    requires 0 <= k < |xs| && 0 <= l < |xs|
    ensures var byK, byL := Shifted(xs, Const(|xs|, 1), xs[k]), Shifted(xs, Const(|xs|, 1), xs[l]);
            forall i :: 0 <= i < |xs| ==> byK[i] == (xs[l] - xs[k]) + byL[i]
  {
  }

  /** `(xs[l] - xs[k]) * S == -xs[k] + xs[l]`, where `S` is the sum of the weights. */
  lemma OnesStep(xs: seq<int>, idx: set<int>, k: int, l: int, p: int)
    requires Prime(p) && DistinctOn(xs, idx, p)
    requires 0 <= k < |xs| && 0 <= l < |xs| && k != l && k in idx && l in idx
    requires Cong(Lagrange(xs, Const(|xs|, 1), idx - {k}, p), 1, p)
    requires Cong(Lagrange(xs, Const(|xs|, 1), idx - {l}, p), 1, p)
    ensures Cong(Lagrange(xs, Const(|xs|, 1), idx, p), 1, p)
  {
    hide Lagrange, Times, Cong, Prime;
    var ones := Const(|xs|, 1);
    var byK, byL := Shifted(xs, ones, xs[k]), Shifted(xs, ones, xs[l]);
    LagrangeExtract(xs, ones, idx, k, p);
    LagrangeExtract(xs, ones, idx, l, p);
    ShiftedOnes(xs, k, l);
    LagrangeShift(xs, byK, byL, xs[l] - xs[k], idx, p);
    OnesAlgebra(Lagrange(xs, byK, idx, p), Lagrange(xs, byL, idx, p), Lagrange(xs, ones, idx, p),
                Lagrange(xs, ones, idx - {k}, p), Lagrange(xs, ones, idx - {l}, p), xs[k], xs[l], p);
  }

  lemma OnesAlgebra(lk: int, ll: int, s: int, rk: int, rl: int, a: int, b: int, p: int)
    requires Prime(p) && (b - a) % p != 0
    requires Cong(lk, Times(-a, rk), p) && Cong(ll, Times(-b, rl), p) && lk == Times(b - a, s) + ll
    requires Cong(rk, 1, p) && Cong(rl, 1, p)
    ensures Cong(s, 1, p)
  {
    CongScale(-a, rk, 1, p);
    CongScale(-b, rl, 1, p);
    CongScale(-1, ll, -b, p);
    CongAdd(lk, -a, -1 * ll, b, p);
    Cancel(b - a, s, 1, p);
  }

  lemma {:induction false} SingleFactors(xs: seq<int>, k: int, m: nat)
    requires 0 <= k < |xs| && m <= |xs|
    ensures Num(xs, {k}, k, m) == 1 && Den(xs, {k}, k, m) == 1
  {
    if m > 0 {
      SingleFactors(xs, k, m - 1);
    }
  }

  lemma {:induction false} SingleSum(ys: seq<int>, ws: seq<int>, k: int, m: nat)
    requires 0 <= k < |ys| == |ws| && m <= |ys|
    requires forall i :: 0 <= i < |ws| ==> ws[i] == if i == k then 1 else 0
    ensures Dot(ys, ws, m) == if k < m then ys[k] else 0
  {
    if m > 0 {
      SingleSum(ys, ws, k, m - 1);
    }
  }

  /** The values of `c` are its value at `a` plus `x - a` times those of the quotient. */
  lemma QuotValue(xs: seq<int>, c: seq<int>, a: int, i: int)
    requires 0 <= i < |xs|
    ensures Values(c, xs)[i] == Poly(c, a) + Shifted(xs, Values(Quot(c, a), xs), a)[i]
  {
    hide Poly, Quot, Times;
    QuotPoly(c, a, xs[i]);
  }

  /** The induction step of `LagrangeAtZero`, on values alone. */
  lemma AtZeroStep(xs: seq<int>, ys: seq<int>, zs: seq<int>, idx: set<int>, k: int, v: int, q0: int, p: int)
    requires Prime(p) && |xs| == |ys| == |zs| && 0 <= k < |xs| && k in idx
    requires idx <= Indices(|xs|) && DistinctOn(xs, idx, p)
    requires var ts := Shifted(xs, zs, xs[k]);
             forall i :: 0 <= i < |xs| ==> ys[i] == v + ts[i]
    requires Cong(Lagrange(xs, zs, idx - {k}, p), q0, p)
    ensures Cong(Lagrange(xs, ys, idx, p), v + Times(0 - xs[k], q0), p)
  {
    hide Lagrange, Times, Cong, Prime;
    var ts := Shifted(xs, zs, xs[k]);
    LagrangeExtract(xs, zs, idx, k, p);
    LagrangeShift(xs, ys, ts, v, idx, p);
    LagrangeOnes(xs, idx, p);
    CombineAtZero(Lagrange(xs, ys, idx, p), Lagrange(xs, Const(|xs|, 1), idx, p), Lagrange(xs, ts, idx, p),
                  Lagrange(xs, zs, idx - {k}, p), v, xs[k], q0, p);
  }

  /** Lagrange's formula recovers the constant term from enough points. */
  lemma {:induction false} LagrangeAtZero(xs: seq<int>, idx: set<int>, c: seq<int>, p: int)
    requires Prime(p) && idx <= Indices(|xs|) && DistinctOn(xs, idx, p) && |c| <= |idx|
    ensures Cong(Lagrange(xs, Values(c, xs), idx, p), Poly(c, 0), p)
    decreases |idx|
  {
    hide Lagrange, Poly, Quot, Times, Cong, Prime, DistinctOn;
    if idx == {} {
      EmptyAtZero(xs, c, p);
    } else {
      var k := Pick(idx);
      var q := Quot(c, xs[k]);
      DistinctSubset(xs, idx, k, p);
      LagrangeAtZero(xs, idx - {k}, q, p);
      forall i | 0 <= i < |xs|
        ensures Values(c, xs)[i] == Poly(c, xs[k]) + Shifted(xs, Values(q, xs), xs[k])[i]
      {
        QuotValue(xs, c, xs[k], i);
      }
      AtZeroStep(xs, Values(c, xs), Values(q, xs), idx, k, Poly(c, xs[k]), Poly(q, 0), p);
      QuotPoly(c, xs[k], 0);
    }
  }

  lemma DistinctSubset(xs: seq<int>, idx: set<int>, k: int, p: int)
    requires p > 0 && DistinctOn(xs, idx, p)
    ensures DistinctOn(xs, idx - {k}, p)
  {
  }

  lemma EmptyAtZero(xs: seq<int>, c: seq<int>, p: int)
    requires Prime(p) && c == []
    ensures Cong(Lagrange(xs, Values(c, xs), {}, p), Poly(c, 0), p)
  {
    ZeroSum(Values(c, xs), Weights(xs, {}, p), |xs|);
  }

  lemma CombineAtZero(l: int, s: int, t: int, r: int, v: int, a: int, q0: int, p: int)
    requires p > 0 && l == Times(v, s) + t && Cong(t, Times(-a, r), p) && Cong(s, 1, p) && Cong(r, q0, p)
    ensures Cong(l, v + Times(0 - a, q0), p)
  {
    CongScale(v, s, 1, p);
    CongScale(-a, r, q0, p);
    CongAdd(v * s, v, t, -a * q0, p);
  }

  lemma {:induction false} ZeroSum(ys: seq<int>, ws: seq<int>, m: nat)
    requires m <= |ys| == |ws| && forall i :: 0 <= i < |ws| ==> ws[i] == 0
    ensures Dot(ys, ws, m) == 0
  {
    if m > 0 {
      ZeroSum(ys, ws, m - 1);
    }
  }
}
