/**
 Pairing two sorted groups position by position is optimal: among all ways of
 pairing the same intents one to one, it has the largest total matched amount
 and the smallest total imbalance.
 */
module Pairing {
  import opened Matcher
  import opened MatcherTheorems

  /** Total matched amount of pairing `us[i]` with `vs[i]`. */
  function TotalMin(us: seq<Intent>, vs: seq<Intent>): int
    requires |us| == |vs|
  {
    if us == [] then 0
    else TotalMin(us[..|us| - 1], vs[..|vs| - 1]) + Min(us[|us| - 1].amount, vs[|vs| - 1].amount)
  }

  function Abs(x: int): int {
    if x < 0 then -x else x
  }

  /** Total imbalance of the same pairing. */
  function TotalGap(us: seq<Intent>, vs: seq<Intent>): int
    requires |us| == |vs|
  {
    if us == [] then 0
    else TotalGap(us[..|us| - 1], vs[..|vs| - 1]) + Abs(us[|us| - 1].amount - vs[|vs| - 1].amount)
  }

  function Total(us: seq<Intent>): int {
    if us == [] then 0 else Total(us[..|us| - 1]) + us[|us| - 1].amount
  }

  function Without(s: seq<Intent>, i: nat): (r: seq<Intent>)
    requires i < |s|
    ensures |r| == |s| - 1
  {
    s[..i] + s[i + 1..]
  }

  lemma WithoutMultiset(s: seq<Intent>, i: nat)
    requires i < |s|
    ensures multiset(s) == multiset(Without(s, i)) + multiset{s[i]}
  {
    assert s == s[..i] + [s[i]] + s[i + 1..];
  }

  lemma MultisetCancel(a: multiset<Intent>, b: multiset<Intent>, x: Intent)
    requires a + multiset{x} == b + multiset{x}
    ensures a == b
  {
    assert a == (a + multiset{x}) - multiset{x};
    assert b == (b + multiset{x}) - multiset{x};
  }

  lemma UpdateMultiset(s: seq<Intent>, j: nat, w: Intent)
    requires j < |s|
    ensures multiset(s[j := w]) + multiset{s[j]} == multiset(s) + multiset{w}
  {
    assert s == s[..j] + [s[j]] + s[j + 1..];
    assert s[j := w] == s[..j] + [w] + s[j + 1..];
  }

  lemma WithoutAt(s: seq<Intent>, i: nat, j: nat)
    requires i < |s| && j < |s| && i != j
    ensures Without(s, i)[if j < i then j else j - 1] == s[j]
  {
  }

  lemma WithoutFront(s: seq<Intent>, i: nat)
    requires i < |s| - 1
    ensures Without(s, i)[..|s| - 2] == Without(s[..|s| - 1], i) && Without(s, i)[|s| - 2] == s[|s| - 1]
  {
  }

  lemma {:induction false} TotalMinWithout(us: seq<Intent>, vs: seq<Intent>, i: nat)
    requires i < |us| == |vs|
    ensures TotalMin(us, vs) == TotalMin(Without(us, i), Without(vs, i)) + Min(us[i].amount, vs[i].amount)
  {
    var n := |us| - 1;
    if i == n {
      assert Without(us, i) == us[..n] && Without(vs, i) == vs[..n];
    } else {
      hide Without, Min;
      TotalMinWithout(us[..n], vs[..n], i);
      WithoutFront(us, i);
      WithoutFront(vs, i);
    }
  }

  /** Changing one partner. */
  lemma {:induction false} TotalMinUpdate(us: seq<Intent>, vs: seq<Intent>, j: nat, w: Intent)
    requires j < |us| == |vs|
    ensures TotalMin(us, vs[j := w])
            == TotalMin(us, vs) - Min(us[j].amount, vs[j].amount) + Min(us[j].amount, w.amount)
  {
    var n := |us| - 1;
    if j == n {
      assert vs[j := w][..n] == vs[..n];
    } else {
      TotalMinUpdate(us[..n], vs[..n], j, w);
      assert vs[j := w][..n] == vs[..n][j := w];
    }
  }

  /** The exchange: of two crossing pairs, joining the two larger loses nothing. */
  lemma Exchange(a: int, a': int, b: int, b': int)
    requires a <= a' && b <= b'
    ensures Min(a', b) + Min(a, b') <= Min(a', b') + Min(a, b)
  {
  }

  lemma IndexOf(s: seq<Intent>, t: seq<Intent>, x: Intent) returns (i: nat)
    requires multiset(s) == multiset(t) && x in s
    ensures i < |t| && t[i] == x
  {
    PermMember(s, t, x);
    i :| 0 <= i < |t| && t[i] == x;
  }

  /** Any pairing of the same intents totals at most the sorted pairing. */
  lemma {:induction false} SortedPairingLargest(s: seq<Intent>, t: seq<Intent>, us: seq<Intent>, vs: seq<Intent>)
    requires |s| == |t| && Sorted(s) && Sorted(t)
    requires multiset(us) == multiset(s) && multiset(vs) == multiset(t)
    ensures |us| == |vs| && TotalMin(us, vs) <= TotalMin(s, t)
    decreases |s|
  {
    PermIds(us, s);
    PermIds(vs, t);
    if s != [] {
      var n := |s| - 1;
      var i := IndexOf(s, us, s[n]);
      var j := IndexOf(t, vs, t[n]);
      PermMember(vs, t, vs[i]);
      PermMember(us, s, us[j]);
      assert us[j].amount <= s[n].amount && vs[i].amount <= t[n].amount;
      hide Rejoined, Without;
      var us', vs' := Without(us, i), Rejoined(vs, i, j);
      RejoinedMultiset(vs, i, j);
      WithoutMultiset(us, i);
      DropLast(s);
      DropLast(t);
      MultisetCancel(multiset(us'), multiset(s[..n]), s[n]);
      MultisetCancel(multiset(vs'), multiset(t[..n]), t[n]);
      SortedPairingLargest(s[..n], t[..n], us', vs');
      RejoinedTotal(us, vs, i, j);
    }
  }

  lemma DropLast(s: seq<Intent>)
    requires s != []
    ensures multiset(s) == multiset(s[..|s| - 1]) + multiset{s[|s| - 1]}
  {
    assert s == s[..|s| - 1] + [s[|s| - 1]];
  }

  /** The partners once position `i` is taken out together with the partner at `j`. */
  function Rejoined(vs: seq<Intent>, i: nat, j: nat): (r: seq<Intent>)
    requires i < |vs| && j < |vs|
    ensures |r| == |vs| - 1
  {
    if i == j then Without(vs, i)
    else Without(vs, i)[(if j < i then j else j - 1) := vs[i]]
  }

  lemma RejoinedMultiset(vs: seq<Intent>, i: nat, j: nat)
    requires i < |vs| && j < |vs|
    ensures multiset(vs) == multiset(Rejoined(vs, i, j)) + multiset{vs[j]}
  {
    WithoutMultiset(vs, i);
    if i != j {
      WithoutAt(vs, i, j);
      hide Without;
      UpdateMultiset(Without(vs, i), if j < i then j else j - 1, vs[i]);
    }
  }

  lemma RejoinedTotal(us: seq<Intent>, vs: seq<Intent>, i: nat, j: nat)
    requires i < |us| == |vs| && j < |us|
    requires us[j].amount <= us[i].amount && vs[i].amount <= vs[j].amount
    ensures TotalMin(us, vs) <= TotalMin(Without(us, i), Rejoined(vs, i, j)) + Min(us[i].amount, vs[j].amount)
  {
    TotalMinWithout(us, vs, i);
    if i != j {
      var j' := if j < i then j else j - 1;
      WithoutAt(us, i, j);
      WithoutAt(vs, i, j);
      hide Without, TotalMin;
      TotalMinUpdate(Without(us, i), Without(vs, i), j', vs[i]);
      Exchange(us[j].amount, us[i].amount, vs[i].amount, vs[j].amount);
    }
  }

  // ---- Imbalance ----

  lemma {:induction false} GapByMin(us: seq<Intent>, vs: seq<Intent>)
    requires |us| == |vs|
    ensures TotalGap(us, vs) == Total(us) + Total(vs) - 2 * TotalMin(us, vs)
  {
    if us != [] {
      GapByMin(us[..|us| - 1], vs[..|vs| - 1]);
    }
  }

  lemma {:induction false} TotalWithout(us: seq<Intent>, i: nat)
    requires i < |us|
    ensures Total(us) == Total(Without(us, i)) + us[i].amount
  {
    var n := |us| - 1;
    if i == n {
      assert Without(us, i) == us[..n];
    } else {
      hide Without;
      TotalWithout(us[..n], i);
      WithoutFront(us, i);
    }
  }

  lemma {:induction false} TotalPermuted(us: seq<Intent>, s: seq<Intent>)
    requires multiset(us) == multiset(s)
    ensures Total(us) == Total(s)
    decreases |s|
  {
    PermIds(us, s);
    if s != [] {
      var n := |s| - 1;
      var i := IndexOf(s, us, s[n]);
      WithoutMultiset(us, i);
      DropLast(s);
      MultisetCancel(multiset(Without(us, i)), multiset(s[..n]), s[n]);
      TotalPermuted(Without(us, i), s[..n]);
      TotalWithout(us, i);
    }
  }

  lemma SortedPairingClosest(s: seq<Intent>, t: seq<Intent>, us: seq<Intent>, vs: seq<Intent>)
    requires |s| == |t| && Sorted(s) && Sorted(t)
    requires multiset(us) == multiset(s) && multiset(vs) == multiset(t)
    ensures |us| == |vs| && TotalGap(s, t) <= TotalGap(us, vs)
  {
    SortedPairingLargest(s, t, us, vs);
    GapByMin(s, t);
    GapByMin(us, vs);
    TotalPermuted(us, s);
    TotalPermuted(vs, t);
  }

  // ---- The matcher's pairing ----

  function TotalMatched(ms: seq<Match>): int {
    if ms == [] then 0 else ms[0].amount + TotalMatched(ms[1..])
  }

  lemma {:induction false} TotalMinFront(us: seq<Intent>, vs: seq<Intent>)
    requires |us| == |vs| > 0
    ensures TotalMin(us, vs) == Min(us[0].amount, vs[0].amount) + TotalMin(us[1..], vs[1..])
  {
    TotalMinWithout(us, vs, 0);
    assert Without(us, 0) == us[1..] && Without(vs, 0) == vs[1..];
  }

  lemma {:induction false} ZipTotal(s: seq<Intent>, t: seq<Intent>, i: nat, m: nat, names: (string, string))
    requires i <= m <= |s| && m <= |t| && (m == |s| || m == |t|)
    ensures TotalMatched(ZipFrom(s, t, i, names)) == TotalMin(s[i..m], t[i..m])
    decreases m - i
  {
    if i < m {
      ZipTotal(s, t, i + 1, m, names);
      TotalMinFront(s[i..m], t[i..m]);
      assert s[i..m][1..] == s[i + 1..m] && t[i..m][1..] == t[i + 1..m];
      assert ZipFrom(s, t, i, names)[1..] == ZipFrom(s, t, i + 1, names);
    }
  }

  /** The intents of a sorted group that the run matches against a group of `m`. */
  function Lowest(s: seq<Intent>, m: nat): (r: seq<Intent>) {
    if m <= |s| then s[..m] else s
  }

  /** Zipping two sorted groups, as far as the shorter one goes. */
  lemma ZipOptimal(s: seq<Intent>, t: seq<Intent>, names: (string, string), us: seq<Intent>, vs: seq<Intent>)
    requires Sorted(s) && Sorted(t)
    requires multiset(us) == multiset(Lowest(s, |t|)) && multiset(vs) == multiset(Lowest(t, |s|))
    ensures |us| == |vs| == |Lowest(s, |t|)| == |Lowest(t, |s|)|
    ensures TotalMatched(ZipFrom(s, t, 0, names)) == TotalMin(Lowest(s, |t|), Lowest(t, |s|))
    ensures TotalMin(us, vs) <= TotalMatched(ZipFrom(s, t, 0, names))
    ensures TotalGap(Lowest(s, |t|), Lowest(t, |s|)) <= TotalGap(us, vs)
  {
    var m := if |s| < |t| then |s| else |t|;
    var low, high := Lowest(s, |t|), Lowest(t, |s|);
    assert low == s[0..m] && high == t[0..m];
    hide TotalMin, TotalGap, TotalMatched, ZipFrom;
    ZipTotal(s, t, 0, m, names);
    SortedPairingLargest(low, high, us, vs);
    SortedPairingClosest(low, high, us, vs);
  }

  /**
   The run matches the lowest intents of the two opposite groups, and no other
   one-to-one pairing of those intents has a larger total or a smaller imbalance.
   */
  lemma NettingOptimal(intents: seq<Intent>, sort: Sorter, i: nat, x: string, y: string, us: seq<Intent>,
                       vs: seq<Intent>)
    requires Regular(intents, sort) && BAR !in x && BAR !in y && x != y
    requires FirstAt(KeysOf(intents), i, MakeKey(x, y), MakeKey(y, x))
    requires var s, t := sort(GroupOf(intents, MakeKey(x, y))), sort(GroupOf(intents, MakeKey(y, x)));
             multiset(us) == multiset(Lowest(s, |t|)) && multiset(vs) == multiset(Lowest(t, |s|))
    ensures var s, t := sort(GroupOf(intents, MakeKey(x, y))), sort(GroupOf(intents, MakeKey(y, x)));
            var ms := On(MatchesOf(intents, sort), x, y);
            && |us| == |vs| == |Lowest(s, |t|)| == |Lowest(t, |s|)|
            && TotalMatched(ms) == TotalMin(Lowest(s, |t|), Lowest(t, |s|))
            && TotalMin(us, vs) <= TotalMatched(ms)
            && TotalGap(Lowest(s, |t|), Lowest(t, |s|)) <= TotalGap(us, vs)
  {
    CrossPairing(intents, sort, i, x, y);
    assert On(MatchesOf(intents, sort), x, y)
        == ZipFrom(sort(GroupOf(intents, MakeKey(x, y))), sort(GroupOf(intents, MakeKey(y, x))), 0, (x, y));
    var s, t := sort(GroupOf(intents, MakeKey(x, y))), sort(GroupOf(intents, MakeKey(y, x)));
    SortedGroup(intents, MakeKey(x, y), sort);
    SortedGroup(intents, MakeKey(y, x), sort);
    hide *;
    ZipOptimal(s, t, (x, y), us, vs);
  }
}
