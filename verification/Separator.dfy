/**
 What the separator in the group key costs: asset names that contain it can be
 taken apart at the wrong place, and then intents are matched that do not
 complement each other (apps/mpc-committee/src/coordinator.ts).
 */
module Separator {
  import opened Matcher
  import T = MatcherTheorems

  lemma SortOne(sort: Sorter, x: Intent)
    requires Ascending(sort)
    ensures sort([x]) == [x]
  {
    var r := sort([x]);
    assert multiset(r) == multiset([x]);
    assert |r| == |multiset(r)| == 1;
    assert r[0] in multiset(r);
  }

  lemma GroupOfTwo(a: Intent, b: Intent, key: string)
    requires KeyOf(a) != KeyOf(b)
    ensures GroupOf([a, b], key) == if key == KeyOf(a) then [a] else if key == KeyOf(b) then [b] else []
    ensures KeysOf([a, b]) == [KeyOf(a), KeyOf(b)]
  {
    assert [a, b][..1] == [a] && [a][..0] == [];
    assert GroupOf([], key) == [] && KeysOf([]) == [];
    assert GroupOf([a], key) == GroupOf([], key) + (if KeyOf(a) == key then [a] else []);
    assert KeysOf([a]) == [KeyOf(a)];
    hide KeyOf;
  }

  /** Visiting one of two singleton groups adds a match exactly when the other is its reverse and nothing is used. */
  lemma VisitOfTwo(a: Intent, b: Intent, key: string, sort: Sorter, st: Progress)
    requires Ascending(sort) && a.id != b.id && KeyOf(a) != KeyOf(b)
    requires st == Progress([], {}) || (a.id in st.used && b.id in st.used && st.matches != [])
    requires key == KeyOf(a) || key == KeyOf(b)
    ensures var r, other := Visit([a, b], key, sort, st), if key == KeyOf(a) then KeyOf(b) else KeyOf(a);
            && (r == Progress([], {}) || (a.id in r.used && b.id in r.used && r.matches != []))
            && (r.matches != [] <==> st.matches != [] || ReverseKey(key) == other)
  {
    GroupOfTwo(a, b, key);
    GroupOfTwo(a, b, ReverseKey(key));
    SortOne(sort, a);
    SortOne(sort, b);
    var own := if key == KeyOf(a) then a else b;
    var reverse := if ReverseKey(key) == KeyOf(a) then a else b;
    ScanOfOne(own, reverse, st, SplitKey(key));
    hide KeyOf, GroupOf, KeysOf, Ascending, ReverseKey, SplitKey, TwoPointer, Pair;
  }

  lemma ScanOfOne(x: Intent, y: Intent, st: Progress, names: (string, string))
    ensures TwoPointer([x], [y], 0, 0, st, names) ==
            if x.id in st.used || y.id in st.used || x.id == y.id then st else Take(st, x, y, names)
  {
  }

  lemma DifferentKinds(a: Intent, b: Intent, sort: Sorter)
    requires Ascending(sort) && a.id != b.id && KeyOf(a) != KeyOf(b)
    ensures MatchesOf([a, b], sort) != [] <==> ReverseKey(KeyOf(a)) == KeyOf(b) || ReverseKey(KeyOf(b)) == KeyOf(a)
  {
    var xs, ka, kb := [a, b], KeyOf(a), KeyOf(b);
    GroupOfTwo(a, b, ka);
    var none := Progress([], {});
    assert [ka, kb][..1] == [ka] && [ka][..0] == [];
    assert VisitAll(xs, [ka], sort) == Visit(xs, ka, sort, none);
    assert VisitAll(xs, [ka, kb], sort) == Visit(xs, kb, sort, VisitAll(xs, [ka], sort));
    VisitOfTwo(a, b, ka, sort, none);
    VisitOfTwo(a, b, kb, sort, Visit(xs, ka, sort, none));
    hide Visit, KeyOf, GroupOf, Ascending, ReverseKey;
  }

  lemma SortTwo(sort: Sorter, a: Intent, b: Intent)
    requires Ascending(sort)
    ensures sort([a, b]) == [a, b] || sort([a, b]) == [b, a]
  {
    var r := sort([a, b]);
    assert multiset(r) == multiset([a, b]);
    assert |r| == |multiset(r)| == |multiset([a, b])| == 2;
    assert r == [r[0], r[1]];
    assert multiset(r) == multiset{r[0], r[1]};
    assert r[0] in multiset(r) && a in multiset(r) && b in multiset(r);
    if r[0] == a {
      assert multiset{r[1]} == multiset(r) - multiset{a} == multiset{b};
      assert r[1] in multiset{b};
    } else {
      assert r[0] == b;
      assert multiset{r[1]} == multiset(r) - multiset{b} == multiset{a};
      assert r[1] in multiset{a};
    }
  }

  lemma ScanOfItself(x: Intent, y: Intent, names: (string, string))
    requires x.id != y.id
    ensures TwoPointer([x, y], [x, y], 0, 0, Progress([], {}), names).matches != []
  {
    var s := [x, y];
    T.ScanAdds(s, s, 1, 2, Take(Progress([], {}), x, y, names), names);
  }

  lemma SameKind(a: Intent, b: Intent, sort: Sorter)
    requires Ascending(sort) && a.id != b.id && KeyOf(a) == KeyOf(b)
    ensures MatchesOf([a, b], sort) != [] <==> ReverseKey(KeyOf(a)) == KeyOf(a)
  {
    var xs, k := [a, b], KeyOf(a);
    GroupOfSame(a, b, k);
    GroupOfSame(a, b, ReverseKey(k));
    SortTwo(sort, a, b);
    ScanOfItself(a, b, SplitKey(k));
    ScanOfItself(b, a, SplitKey(k));
    assert [k][..0] == [];
    assert VisitAll(xs, [k], sort) == Visit(xs, k, sort, Progress([], {}));
    hide KeyOf, GroupOf, KeysOf, Ascending, ReverseKey, SplitKey, TwoPointer;
  }

  lemma GroupOfSame(a: Intent, b: Intent, key: string)
    requires KeyOf(a) == KeyOf(b)
    ensures GroupOf([a, b], key) == if key == KeyOf(a) then [a, b] else []
    ensures KeysOf([a, b]) == [KeyOf(a)]
  {
    assert [a, b][..1] == [a] && [a][..0] == [];
    assert GroupOf([], key) == [] && KeysOf([]) == [];
    assert GroupOf([a], key) == GroupOf([], key) + (if KeyOf(a) == key then [a] else []);
    assert KeysOf([a]) == [KeyOf(a)];
    hide KeyOf;
  }

  /** Two intents are matched exactly when one key, taken apart and turned round, is the other. */
  lemma TwoIntents(a: Intent, b: Intent, sort: Sorter)
    requires Ascending(sort) && a.id != b.id
    ensures MatchesOf([a, b], sort) != [] <==> ReverseKey(KeyOf(a)) == KeyOf(b) || ReverseKey(KeyOf(b)) == KeyOf(a)
  {
    hide MatchesOf, Ascending, ReverseKey, KeyOf;
    if KeyOf(a) == KeyOf(b) {
      SameKind(a, b, sort);
    } else {
      DifferentKinds(a, b, sort);
    }
  }

  // ---- One intent whose names contain the separator ----

  predicate Plain(a: Intent) {
    BAR !in a.inputAsset && BAR !in a.outputAsset
  }

  /** The intent that the key of `a`, taken apart, asks for. */
  function Stranger(a: Intent, id: string, amount: int): Intent {
    Intent(id, amount, SplitKey(KeyOf(a)).1, SplitKey(KeyOf(a)).0)
  }

  lemma PiecesArePlain(key: string)
    ensures BAR !in SplitKey(key).0 && BAR !in SplitKey(key).1
  {
    var b := BarFrom(key, 0);
    assert BAR !in key[..b];
    if b < |key| {
      var c := BarFrom(key, b + 1);
      var piece := key[b + 1..c];
      forall k | 0 <= k < |piece|
        ensures piece[k] != BAR
      {
        assert piece[k] == key[b + 1 + k];
      }
    }
  }

  /** Whatever its names, an intent is matched with its stranger; the two are complementary exactly for plain names. */
  lemma StrangerIsMatched(a: Intent, id: string, amount: int, sort: Sorter)
    requires Ascending(sort) && id != a.id
    ensures var b := Stranger(a, id, amount);
            Plain(b) && MatchesOf([a, b], sort) != [] && (T.Complementary(a, b) <==> Plain(a))
  {
    var b := Stranger(a, id, amount);
    PiecesArePlain(KeyOf(a));
    SplitRoundTrip(a.inputAsset, a.outputAsset);
    assert KeyOf(b) == ReverseKey(KeyOf(a));
    TwoIntents(a, b, sort);
    hide MatchesOf, Ascending, SplitKey;
  }

  lemma StrangersNotGenuine(a: Intent, b: Intent, sort: Sorter)
    requires Ascending(sort) && a.id != b.id && !T.Complementary(a, b) && MatchesOf([a, b], sort) != []
    ensures !T.Genuine(MatchesOf([a, b], sort)[0], [a, b])
  {
    T.NoIdTwice([a, b], sort);
    hide MatchesOf, Ascending;
  }

  /** Among plain intents, every match of a list with `a` joins complementary intents of the list. */
  ghost predicate SafeAmongPlain(a: Intent, sort: Sorter) {
    forall others: seq<Intent>, k: nat :: T.PlainAssets(others) && k < |MatchesOf([a] + others, sort)| ==>
      T.Genuine(MatchesOf([a] + others, sort)[k], [a] + others)
  }

  /**
   An intent can be matched wrongly among plain intents if and only if one of its own
   names contains the separator.
   */
  lemma SeparatorExactly(a: Intent, sort: Sorter)
    requires Ascending(sort)
    ensures SafeAmongPlain(a, sort) <==> Plain(a)
  {
    if Plain(a) {
      forall others: seq<Intent>, k: nat | T.PlainAssets(others) && k < |MatchesOf([a] + others, sort)|
        ensures T.Genuine(MatchesOf([a] + others, sort)[k], [a] + others)
      {
        assert T.PlainAssets([a] + others);
        hide MatchesOf, T.Genuine;
        T.MatchesGenuine([a] + others, sort, k);
      }
    } else {
      var b := Stranger(a, a.id + "'", 0);
      assert |a.id + "'"| != |a.id|;
      StrangerIsMatched(a, a.id + "'", 0, sort);
      StrangersNotGenuine(a, b, sort);
      assert [a] + [b] == [a, b];
      assert T.PlainAssets([b]);
    }
    hide MatchesOf, Ascending, T.Genuine, Stranger;
  }
}
