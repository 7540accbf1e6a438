/** Small facts about finite sets and sequences that several modules need. */
module Collections {

  datatype Option<+T> = None | Some(value: T)

  ghost function Pick<T>(s: set<T>): (k: T)
    requires s != {}
    ensures k in s
  {
    var k :| k in s;
    k
  }

  /** A set that maps one-to-one into another is no larger. */
  lemma {:induction false} InjectionSize<T, U>(a: set<T>, b: set<U>, f: T -> U)
    requires forall x :: x in a ==> f(x) in b
    requires forall x, y :: x in a && y in a && f(x) == f(y) ==> x == y
    ensures |a| <= |b|
  {
    if a != {} {
      var x := Pick(a);
      InjectionSize(a - {x}, b - {f(x)}, f);
    }
  }

  function Below(n: nat): (s: set<nat>)
    ensures |s| == n
    ensures forall i: nat :: i in s <==> i < n
  {
    if n == 0 then {}
    else
      var below := Below(n - 1);
      assert n - 1 !in below;
      below + {n - 1}
  }
}
