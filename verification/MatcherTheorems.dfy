/**
 What a run of the matcher guarantees: every id in at most one match and never
 with itself, for any input; every match pairs complementary intents; and for
 distinct ids exactly how many matches each asset pair gets, with nothing
 complementary left over.
 */
module MatcherTheorems {
  import opened Matcher

  function Ids(s: seq<Intent>): set<string> {
    set x | x in s :: x.id
  }

  ghost predicate DistinctIds(s: seq<Intent>) {
    forall i, j :: 0 <= i < j < |s| ==> s[i].id != s[j].id
  }

  ghost predicate PlainAssets(s: seq<Intent>) {
    forall x :: x in s ==> BAR !in x.inputAsset && BAR !in x.outputAsset
  }

  // ---- Every id at most once ----

  predicate Mentions(m: Match, id: string) {
    m.aId == id || m.bId == id
  }

  ghost predicate IdsDisjoint(ms: seq<Match>) {
    && (forall k :: 0 <= k < |ms| ==> ms[k].aId != ms[k].bId)
    && (forall k, l, id :: 0 <= k < l < |ms| && Mentions(ms[k], id) ==> !Mentions(ms[l], id))
  }

  ghost predicate UsedExactly(st: Progress) {
    forall id :: id in st.used <==> exists k :: 0 <= k < |st.matches| && Mentions(st.matches[k], id)
  }

  lemma TakeKeeps(st: Progress, a: Intent, b: Intent, names: (string, string))
    requires IdsDisjoint(st.matches) && UsedExactly(st)
    requires a.id !in st.used && b.id !in st.used && a.id != b.id
    ensures IdsDisjoint(Take(st, a, b, names).matches) && UsedExactly(Take(st, a, b, names))
  {
    var r := Take(st, a, b, names);
    var n := |st.matches|;
    assert forall k :: 0 <= k < n ==> r.matches[k] == st.matches[k];
    forall id
      ensures id in r.used <==> exists k :: 0 <= k < |r.matches| && Mentions(r.matches[k], id)
    {
      if id in st.used {
        var k :| 0 <= k < n && Mentions(st.matches[k], id);
        assert Mentions(r.matches[k], id);
      } else if id == a.id || id == b.id {
        assert Mentions(r.matches[n], id);
      }
      if k :| 0 <= k < |r.matches| && Mentions(r.matches[k], id) {
        assert k < n ==> Mentions(st.matches[k], id);
      }
    }
  }

  lemma {:induction false} ScanKeeps(s: seq<Intent>, t: seq<Intent>, ai: nat, bi: nat, st: Progress,
                                     names: (string, string))
    requires ai <= |s| && bi <= |t| && IdsDisjoint(st.matches) && UsedExactly(st)
    ensures var r := TwoPointer(s, t, ai, bi, st, names); IdsDisjoint(r.matches) && UsedExactly(r)
    decreases |s| - ai + |t| - bi
  {
    if ai < |s| && bi < |t| {
      if s[ai].id in st.used {
        ScanKeeps(s, t, ai + 1, bi, st, names);
      } else if t[bi].id in st.used || s[ai].id == t[bi].id {
        ScanKeeps(s, t, ai, bi + 1, st, names);
      } else {
        TakeKeeps(st, s[ai], t[bi], names);
        ScanKeeps(s, t, ai + 1, bi + 1, Take(st, s[ai], t[bi], names), names);
      }
    }
  }

  lemma {:induction false} VisitsKeep(intents: seq<Intent>, keys: seq<string>, sort: Sorter)
    ensures var r := VisitAll(intents, keys, sort); IdsDisjoint(r.matches) && UsedExactly(r)
  {
    if keys != [] {
      var front, key := keys[..|keys| - 1], keys[|keys| - 1];
      VisitsKeep(intents, front, sort);
      var reverse := GroupOf(intents, ReverseKey(key));
      if reverse != [] {
        ScanKeeps(sort(GroupOf(intents, key)), sort(reverse), 0, 0, VisitAll(intents, front, sort), SplitKey(key));
      }
    }
  }

  /** No id occurs in two matches and none is matched with itself, for any input and any sort. */
  lemma NoIdTwice(intents: seq<Intent>, sort: Sorter)
    ensures IdsDisjoint(MatchesOf(intents, sort))
  {
    VisitsKeep(intents, KeysOf(intents), sort);
  }

  // ---- What one scan adds ----

  ghost predicate Adds(s: seq<Intent>, t: seq<Intent>, st: Progress, r: Progress, names: (string, string)) {
    && st.matches <= r.matches
    && st.used <= r.used <= st.used + Ids(s) + Ids(t)
    && |r.used| == |st.used| + 2 * (|r.matches| - |st.matches|)
    && forall k :: |st.matches| <= k < |r.matches| ==>
         exists a, b :: a in s && b in t && r.matches[k] == Pair(a, b, names)
  }

  lemma {:induction false} ScanAdds(s: seq<Intent>, t: seq<Intent>, ai: nat, bi: nat, st: Progress,
                                    names: (string, string))
    requires ai <= |s| && bi <= |t|
    ensures Adds(s, t, st, TwoPointer(s, t, ai, bi, st, names), names)
    decreases |s| - ai + |t| - bi
  {
    if ai < |s| && bi < |t| {
      if s[ai].id in st.used {
        ScanAdds(s, t, ai + 1, bi, st, names);
      } else if t[bi].id in st.used || s[ai].id == t[bi].id {
        ScanAdds(s, t, ai, bi + 1, st, names);
      } else {
        var mid := Take(st, s[ai], t[bi], names);
        ScanAdds(s, t, ai + 1, bi + 1, mid, names);
        TakeAdds(s, t, ai, bi, st, TwoPointer(s, t, ai + 1, bi + 1, mid, names), names);
      }
    }
  }

  lemma TakeAdds(s: seq<Intent>, t: seq<Intent>, ai: nat, bi: nat, st: Progress, r: Progress, names: (string, string))
    requires ai < |s| && bi < |t| && s[ai].id !in st.used && t[bi].id !in st.used && s[ai].id != t[bi].id
    requires Adds(s, t, Take(st, s[ai], t[bi], names), r, names)
    ensures Adds(s, t, st, r, names)
  {
    var mid := Take(st, s[ai], t[bi], names);
    assert s[ai] in s && t[bi] in t;
    assert s[ai].id in Ids(s) && t[bi].id in Ids(t);
    forall k | |st.matches| <= k < |r.matches|
      ensures exists a, b :: a in s && b in t && r.matches[k] == Pair(a, b, names)
    {
      if k == |st.matches| {
        assert r.matches[k] == mid.matches[k] == Pair(s[ai], t[bi], names);
      }
    }
  }

  // ---- How a scan ends ----

  ghost predicate AllUsed(s: seq<Intent>, used: set<string>) {
    forall x :: x in s ==> x.id in used
  }

  ghost predicate AllUsedBut(s: seq<Intent>, id: string, used: set<string>) {
    forall x :: x in s ==> x.id in used || x.id == id
  }

  /** Behind the pointers everything is used, except what equals the current left intent. */
  ghost predicate Cleared(s: seq<Intent>, t: seq<Intent>, ai: nat, bi: nat, used: set<string>)
    requires ai <= |s| && bi <= |t|
  {
    && (forall i :: 0 <= i < ai ==> s[i].id in used)
    && (forall j :: 0 <= j < bi ==> t[j].id in used || (ai < |s| && t[j].id == s[ai].id))
  }

  /** A scan stops only when one side is exhausted. */
  lemma {:induction false} ScanEnds(s: seq<Intent>, t: seq<Intent>, ai: nat, bi: nat, st: Progress,
                                    names: (string, string))
    requires ai <= |s| && bi <= |t| && Cleared(s, t, ai, bi, st.used)
    ensures var used := TwoPointer(s, t, ai, bi, st, names).used;
            AllUsed(s, used) || exists x :: x in s && AllUsedBut(t, x.id, used)
    decreases |s| - ai + |t| - bi
  {
    if ai == |s| {
    } else if bi == |t| {
      assert s[ai] in s && AllUsedBut(t, s[ai].id, st.used);
    } else if s[ai].id in st.used {
      ScanEnds(s, t, ai + 1, bi, st, names);
    } else if t[bi].id in st.used || s[ai].id == t[bi].id {
      ScanEnds(s, t, ai, bi + 1, st, names);
    } else {
      ScanEnds(s, t, ai + 1, bi + 1, Take(st, s[ai], t[bi], names), names);
    }
  }

  // ---- Three kinds of visit ----

  function ZipFrom(s: seq<Intent>, t: seq<Intent>, i: nat, names: (string, string)): (z: seq<Match>)
    requires i <= |s| && i <= |t|
    ensures |z| == (if |s| < |t| then |s| else |t|) - i
    decreases |s| - i
  {
    if i == |s| || i == |t| then [] else [Pair(s[i], t[i], names)] + ZipFrom(s, t, i + 1, names)
  }

  /** Opposite groups none of whose ids is used: the scan pairs them position by position. */
  lemma {:induction false} FreshScan(s: seq<Intent>, t: seq<Intent>, i: nat, st: Progress, names: (string, string))
    requires i <= |s| && i <= |t| && DistinctIds(s) && DistinctIds(t) && Ids(s) !! Ids(t)
    requires forall k :: i <= k < |s| ==> s[k].id !in st.used
    requires forall k :: i <= k < |t| ==> t[k].id !in st.used
    ensures TwoPointer(s, t, i, i, st, names).matches == st.matches + ZipFrom(s, t, i, names)
    decreases |s| - i
  {
    if i < |s| && i < |t| {
      assert s[i].id in Ids(s) && t[i].id in Ids(t);
      var mid := Take(st, s[i], t[i], names);
      forall k | i < k < |s|
        ensures s[k].id !in mid.used
      {
        assert s[k].id in Ids(s);
      }
      forall k | i < k < |t|
        ensures t[k].id !in mid.used
      {
        assert t[k].id in Ids(t);
      }
      FreshScan(s, t, i + 1, mid, names);
    }
  }

  /** One side already fully used: the scan changes nothing. */
  lemma {:induction false} StaleScan(s: seq<Intent>, t: seq<Intent>, ai: nat, bi: nat, st: Progress,
                                     names: (string, string))
    requires ai <= |s| && bi <= |t| && (AllUsed(s, st.used) || AllUsed(t, st.used))
    ensures TwoPointer(s, t, ai, bi, st, names) == st
    decreases |s| - ai + |t| - bi
  {
    if ai < |s| && bi < |t| {
      assert s[ai] in s && t[bi] in t;
      if s[ai].id in st.used {
        StaleScan(s, t, ai + 1, bi, st, names);
      } else {
        StaleScan(s, t, ai, bi + 1, st, names);
      }
    }
  }

  // ---- Ids and keys of groups ----

  lemma UniqueById(s: seq<Intent>, x: Intent, y: Intent)
    requires DistinctIds(s) && x in s && y in s && x.id == y.id
    ensures x == y
  {
  }

  lemma {:induction false} GroupDistinct(intents: seq<Intent>, key: string)
    requires DistinctIds(intents)
    ensures DistinctIds(GroupOf(intents, key))
  {
    if intents != [] {
      var rest, last := intents[..|intents| - 1], intents[|intents| - 1];
      GroupDistinct(rest, key);
      var g := GroupOf(rest, key);
      forall i | 0 <= i < |g|
        ensures g[i].id != last.id
      {
        assert g[i] in g;
        GroupMember(rest, key, g[i]);
      }
    }
  }

  lemma CountTwice(s: seq<Intent>, i: int, j: int)
    requires 0 <= i < j < |s| && s[i] == s[j]
    ensures multiset(s)[s[i]] >= 2
  {
    assert s == s[..j] + [s[j]] + s[j + 1..];
    assert s[i] == s[..j][i];
    assert s[i] in s[..j];
    assert multiset(s) == multiset(s[..j]) + multiset{s[j]} + multiset(s[j + 1..]);
  }

  lemma {:induction false} CountOnce(s: seq<Intent>, x: Intent)
    requires DistinctIds(s)
    ensures multiset(s)[x] <= 1
  {
    if s != [] {
      var rest, last := s[..|s| - 1], s[|s| - 1];
      assert s == rest + [last];
      CountOnce(rest, x);
      if x == last {
        assert x !in rest;
      }
    }
  }

  lemma PermMember(s: seq<Intent>, t: seq<Intent>, x: Intent)
    requires multiset(s) == multiset(t) && x in s
    ensures x in t
  {
    assert x in multiset(s);
  }

  lemma PermDistinct(s: seq<Intent>, t: seq<Intent>)
    requires multiset(s) == multiset(t) && DistinctIds(s)
    ensures DistinctIds(t)
  {
    forall i, j | 0 <= i < j < |t|
      ensures t[i].id != t[j].id
    {
      PermMember(t, s, t[i]);
      PermMember(t, s, t[j]);
      CountOnce(s, t[i]);
      if t[i].id == t[j].id {
        UniqueById(s, t[i], t[j]);
        CountTwice(t, i, j);
      }
    }
  }

  lemma PermIds(s: seq<Intent>, t: seq<Intent>)
    requires multiset(s) == multiset(t)
    ensures |s| == |t| && Ids(s) == Ids(t)
  {
    assert |s| == |multiset(s)| && |t| == |multiset(t)|;
    forall x | x in s
      ensures x in t
    {
      PermMember(s, t, x);
    }
    forall x | x in t
      ensures x in s
    {
      PermMember(t, s, x);
    }
  }

  /** A sorted group has the group's length and ids, each once. */
  lemma SortedGroup(intents: seq<Intent>, key: string, sort: Sorter)
    requires DistinctIds(intents) && Ascending(sort)
    ensures var g := GroupOf(intents, key);
            && |sort(g)| == |g| && Ids(sort(g)) == Ids(g) && DistinctIds(sort(g)) && Sorted(sort(g))
            && multiset(sort(g)) == multiset(g)
  {
    var g := GroupOf(intents, key);
    GroupDistinct(intents, key);
    PermDistinct(g, sort(g));
    PermIds(g, sort(g));
  }

  lemma GroupsApart(intents: seq<Intent>, k: string, l: string)
    requires DistinctIds(intents) && k != l
    ensures Ids(GroupOf(intents, k)) !! Ids(GroupOf(intents, l))
  {
    forall x, y | x in GroupOf(intents, k) && y in GroupOf(intents, l)
      ensures x.id != y.id
    {
      GroupMember(intents, k, x);
      GroupMember(intents, l, y);
      if x.id == y.id {
        UniqueById(intents, x, y);
      }
    }
  }

  /** The names behind a key that occurs. */
  lemma KeyNames(intents: seq<Intent>, key: string) returns (u: string, v: string)
    requires PlainAssets(intents) && GroupOf(intents, key) != []
    ensures BAR !in u && BAR !in v && key == MakeKey(u, v) && SplitKey(key) == (u, v)
    ensures ReverseKey(key) == MakeKey(v, u)
  {
    var x := GroupOf(intents, key)[0];
    GroupMember(intents, key, x);
    u, v := x.inputAsset, x.outputAsset;
    SplitRoundTrip(u, v);
  }

  lemma KeyInjective(a: string, b: string, c: string, d: string)
    requires BAR !in a && BAR !in b && BAR !in c && BAR !in d && MakeKey(a, b) == MakeKey(c, d)
    ensures a == c && b == d
  {
    SplitRoundTrip(a, b);
    SplitRoundTrip(c, d);
  }

  // ---- The matches of one asset pair ----

  predicate Labelled(m: Match, x: string, y: string) {
    || (m.inputAsset == x && m.outputAsset == y)
    || (m.inputAsset == y && m.outputAsset == x)
  }

  /** The matches that net `x` against `y`, in either direction. */
  function On(ms: seq<Match>, x: string, y: string): seq<Match> {
    if ms == [] then []
    else
      var m := ms[|ms| - 1];
      On(ms[..|ms| - 1], x, y) + (if Labelled(m, x, y) then [m] else [])
  }

  lemma {:induction false} OnSymmetric(ms: seq<Match>, x: string, y: string)
    ensures On(ms, x, y) == On(ms, y, x)
  {
    if ms != [] {
      OnSymmetric(ms[..|ms| - 1], x, y);
    }
  }

  lemma OnLast(ms: seq<Match>, m: Match, x: string, y: string)
    ensures On(ms + [m], x, y) == On(ms, x, y) + (if Labelled(m, x, y) then [m] else [])
  {
    assert (ms + [m])[..|ms|] == ms;
  }

  lemma {:induction false} OnOthers(ms: seq<Match>, more: seq<Match>, x: string, y: string)
    requires forall k :: 0 <= k < |more| ==> !Labelled(more[k], x, y)
    ensures On(ms + more, x, y) == On(ms, x, y)
  {
    hide On, Labelled;
    if more == [] {
      assert ms + more == ms;
    } else {
      var front, last := more[..|more| - 1], more[|more| - 1];
      OnOthers(ms, front, x, y);
      OnLast(ms + front, last, x, y);
      assert ms + more == (ms + front) + [last];
    }
  }

  lemma {:induction false} OnOwn(ms: seq<Match>, more: seq<Match>, x: string, y: string)
    requires forall k :: 0 <= k < |more| ==> Labelled(more[k], x, y)
    ensures On(ms + more, x, y) == On(ms, x, y) + more
  {
    hide On, Labelled;
    if more == [] {
      assert ms + more == ms;
    } else {
      var front, last := more[..|more| - 1], more[|more| - 1];
      OnOwn(ms, front, x, y);
      OnLast(ms + front, last, x, y);
      assert ms + more == (ms + front) + [last];
      assert more == front + [last];
      assert On(ms, x, y) + front + [last] == On(ms, x, y) + more;
    }
  }

  // ---- One visit, seen from one asset pair ----

  /** The standing assumptions of the counting theorems. */
  ghost predicate Regular(intents: seq<Intent>, sort: Sorter) {
    DistinctIds(intents) && PlainAssets(intents) && Ascending(sort)
  }

  ghost predicate Untouched(intents: seq<Intent>, f: string, g: string, used: set<string>) {
    Ids(GroupOf(intents, f)) !! used && Ids(GroupOf(intents, g)) !! used
  }

  lemma VisitAdds(intents: seq<Intent>, key: string, sort: Sorter, st: Progress)
    requires Regular(intents, sort)
    ensures var r := Visit(intents, key, sort, st);
            && st.matches <= r.matches && st.used <= r.used
            && r.used <= st.used + Ids(GroupOf(intents, key)) + Ids(GroupOf(intents, ReverseKey(key)))
            && forall k :: |st.matches| <= k < |r.matches|
                           ==> r.matches[k].inputAsset == SplitKey(key).0 && r.matches[k].outputAsset == SplitKey(key).1
  {
    var g, h := GroupOf(intents, key), GroupOf(intents, ReverseKey(key));
    SortedGroup(intents, key, sort);
    SortedGroup(intents, ReverseKey(key), sort);
    if h != [] {
      ScanAdds(sort(g), sort(h), 0, 0, st, SplitKey(key));
    }
  }

  /** A visit of another asset pair. */
  lemma OtherVisit(intents: seq<Intent>, key: string, sort: Sorter, st: Progress, x: string, y: string)
    requires Regular(intents, sort) && BAR !in x && BAR !in y && GroupOf(intents, key) != []
    requires key != MakeKey(x, y) && key != MakeKey(y, x)
    ensures var r := Visit(intents, key, sort, st);
            && On(r.matches, x, y) == On(st.matches, x, y)
            && (Untouched(intents, MakeKey(x, y), MakeKey(y, x), st.used)
                ==> Untouched(intents, MakeKey(x, y), MakeKey(y, x), r.used))
  {
    hide Ascending, DistinctIds, PlainAssets, GroupOf, Visit, SplitKey, MakeKey, On;
    var u, v := KeyNames(intents, key);
    var r := Visit(intents, key, sort, st);
    VisitAdds(intents, key, sort, st);
    var more := r.matches[|st.matches|..];
    assert r.matches == st.matches + more;
    OnOthers(st.matches, more, x, y);
    assert ReverseKey(key) != MakeKey(x, y) && ReverseKey(key) != MakeKey(y, x) by {
      if ReverseKey(key) == MakeKey(x, y) {
        KeyInjective(v, u, x, y);
      } else if ReverseKey(key) == MakeKey(y, x) {
        KeyInjective(v, u, y, x);
      }
    }
    forall k | k == key || k == ReverseKey(key)
      ensures Ids(GroupOf(intents, k)) !! Ids(GroupOf(intents, MakeKey(x, y)))
      ensures Ids(GroupOf(intents, k)) !! Ids(GroupOf(intents, MakeKey(y, x)))
    {
      GroupsApart(intents, k, MakeKey(x, y));
      GroupsApart(intents, k, MakeKey(y, x));
    }
  }

  /** No intent of one group is free together with a different free intent of the other. */
  ghost predicate Exhausted(s: seq<Intent>, t: seq<Intent>, used: set<string>) {
    forall a, b :: a in s && b in t && a.id != b.id ==> a.id in used || b.id in used
  }

  /** The first visit of a cross-asset pair zips the two sorted groups. */
  lemma FirstCrossVisit(intents: seq<Intent>, sort: Sorter, st: Progress, x: string, y: string)
    requires Regular(intents, sort) && BAR !in x && BAR !in y && x != y
    requires Untouched(intents, MakeKey(x, y), MakeKey(y, x), st.used)
    ensures var r := Visit(intents, MakeKey(x, y), sort, st);
            var f, g := GroupOf(intents, MakeKey(x, y)), GroupOf(intents, MakeKey(y, x));
            && r.matches == st.matches + ZipFrom(sort(f), sort(g), 0, (x, y))
            && OneSideUsed(intents, x, y, r.used)
  {
    SplitRoundTrip(x, y);
    var f, g := GroupOf(intents, MakeKey(x, y)), GroupOf(intents, MakeKey(y, x));
    SortedGroup(intents, MakeKey(x, y), sort);
    SortedGroup(intents, MakeKey(y, x), sort);
    if g == [] {
      assert sort(g) == [];
    } else {
      if MakeKey(x, y) == MakeKey(y, x) {
        KeyInjective(x, y, y, x);
      }
      GroupsApart(intents, MakeKey(x, y), MakeKey(y, x));
      assert forall k :: 0 <= k < |sort(f)| ==> sort(f)[k].id in Ids(sort(f));
      assert forall k :: 0 <= k < |sort(g)| ==> sort(g)[k].id in Ids(sort(g));
      FreshScan(sort(f), sort(g), 0, st, (x, y));
      ScanEnds(sort(f), sort(g), 0, 0, st, (x, y));
      CrossEnd(f, g, sort(f), sort(g), TwoPointer(sort(f), sort(g), 0, 0, st, (x, y)).used);
    }
  }

  lemma CrossEnd(f: seq<Intent>, g: seq<Intent>, s: seq<Intent>, t: seq<Intent>, used: set<string>)
    requires multiset(s) == multiset(f) && multiset(t) == multiset(g) && Ids(f) !! Ids(g)
    requires AllUsed(s, used) || exists x :: x in s && AllUsedBut(t, x.id, used)
    ensures AllUsed(f, used) || AllUsed(g, used)
  {
    if AllUsed(s, used) {
      forall x | x in f
        ensures x.id in used
      {
        PermMember(f, s, x);
      }
    } else {
      var x :| x in s && AllUsedBut(t, x.id, used);
      PermMember(s, f, x);
      forall y | y in g
        ensures y.id in used
      {
        PermMember(g, t, y);
        assert x.id in Ids(f) && y.id in Ids(g);
      }
    }
  }

  /** The visit of a same-asset group leaves at most one of its intents unmatched. */
  lemma SameVisit(intents: seq<Intent>, sort: Sorter, st: Progress, x: string)
    requires Regular(intents, sort) && BAR !in x
    requires Untouched(intents, MakeKey(x, x), MakeKey(x, x), st.used)
    ensures var r := Visit(intents, MakeKey(x, x), sort, st);
            var f := GroupOf(intents, MakeKey(x, x));
            && st.matches <= r.matches && |r.matches| - |st.matches| == |f| / 2
            && Exhausted(f, f, r.used)
  {
    SplitRoundTrip(x, x);
    var key := MakeKey(x, x);
    var f := GroupOf(intents, key);
    if f != [] {
      SortedGroup(intents, key, sort);
      var s := sort(f);
      ScanAdds(s, s, 0, 0, st, (x, x));
      ScanEnds(s, s, 0, 0, st, (x, x));
      var r := TwoPointer(s, s, 0, 0, st, (x, x));
      assert exists id :: AllUsedBut(s, id, r.used) by {
        if AllUsed(s, r.used) {
          assert AllUsedBut(s, s[0].id, r.used);
        }
      }
      var id :| AllUsedBut(s, id, r.used);
      IdCount(s);
      HalfUsed(Ids(s), st.used, r.used, id, |r.matches| - |st.matches|);
      forall a | a in f
        ensures a.id in r.used || a.id == id
      {
        PermMember(f, s, a);
      }
    }
  }

  lemma {:induction false} IdCount(s: seq<Intent>)
    requires DistinctIds(s)
    ensures |Ids(s)| == |s|
  {
    if s == [] {
      assert Ids(s) == {};
    } else {
      var rest, last := s[..|s| - 1], s[|s| - 1];
      IdCount(rest);
      assert s == rest + [last];
      assert Ids(s) == Ids(rest) + {last.id};
    }
  }

  lemma HalfUsed(ids: set<string>, before: set<string>, after: set<string>, id: string, pairs: int)
    requires ids !! before && before <= after <= before + ids && |after| == |before| + 2 * pairs
    requires forall i :: i in ids ==> i in after || i == id
    ensures pairs == |ids| / 2
  {
    var taken := after - before;
    assert after == before + taken && taken <= ids;
    assert |after| == |before| + |taken|;
    var free := ids - taken;
    assert |ids| == |taken| + |free| by { assert ids == taken + free; }
    assert free <= {id};
    assert |free| <= 1 by {
      if free != {} {
        assert id in free by {
          var e :| e in free;
        }
        assert free == {id};
      }
    }
  }

  // ---- The whole run, seen from one asset pair ----

  /** The state after the first `n` groups have been visited. */
  function After(intents: seq<Intent>, sort: Sorter, n: nat): Progress
    requires n <= |KeysOf(intents)|
  {
    VisitAll(intents, KeysOf(intents)[..n], sort)
  }

  lemma AfterStep(intents: seq<Intent>, sort: Sorter, n: nat)
    requires n < |KeysOf(intents)|
    ensures After(intents, sort, n + 1) == Visit(intents, KeysOf(intents)[n], sort, After(intents, sort, n))
    ensures GroupOf(intents, KeysOf(intents)[n]) != []
  {
    hide Visit, KeysOf, GroupOf;
    var keys := KeysOf(intents);
    assert keys[..n + 1][..n] == keys[..n] && keys[..n + 1][n] == keys[n];
    GroupExists(intents, keys[n]);
  }

  lemma AfterAll(intents: seq<Intent>, sort: Sorter)
    ensures After(intents, sort, |KeysOf(intents)|) == VisitAll(intents, KeysOf(intents), sort)
  {
    assert KeysOf(intents)[..|KeysOf(intents)|] == KeysOf(intents);
  }

  /** Position `i` is where the pair is first visited. */
  ghost predicate FirstAt(keys: seq<string>, i: nat, f: string, g: string) {
    i < |keys| && keys[i] == f && f !in keys[..i] && g !in keys[..i]
  }

  lemma {:induction false} BeforePair(intents: seq<Intent>, sort: Sorter, n: nat, x: string, y: string)
    requires Regular(intents, sort) && BAR !in x && BAR !in y && n <= |KeysOf(intents)|
    requires MakeKey(x, y) !in KeysOf(intents)[..n] && MakeKey(y, x) !in KeysOf(intents)[..n]
    ensures var r := After(intents, sort, n);
            On(r.matches, x, y) == [] && Untouched(intents, MakeKey(x, y), MakeKey(y, x), r.used)
  {
    if n > 0 {
      var keys := KeysOf(intents);
      assert keys[..n] == keys[..n - 1] + [keys[n - 1]];
      BeforePair(intents, sort, n - 1, x, y);
      AfterStep(intents, sort, n - 1);
      OtherVisit(intents, keys[n - 1], sort, After(intents, sort, n - 1), x, y);
    }
  }

  ghost predicate OneSideUsed(intents: seq<Intent>, x: string, y: string, used: set<string>) {
    AllUsed(GroupOf(intents, MakeKey(x, y)), used) || AllUsed(GroupOf(intents, MakeKey(y, x)), used)
  }

  lemma {:induction false} UsedStays(intents: seq<Intent>, sort: Sorter, i: nat, n: nat, id: string)
    requires Regular(intents, sort) && i <= n <= |KeysOf(intents)| && id in After(intents, sort, i).used
    ensures id in After(intents, sort, n).used
  {
    hide *;
    if n > i {
      UsedStays(intents, sort, i, n - 1, id);
      AfterStep(intents, sort, n - 1);
      VisitAdds(intents, KeysOf(intents)[n - 1], sort, After(intents, sort, n - 1));
    }
  }

  lemma OneSideStays(intents: seq<Intent>, sort: Sorter, i: nat, n: nat, x: string, y: string)
    requires Regular(intents, sort) && i <= n <= |KeysOf(intents)|
    requires OneSideUsed(intents, x, y, After(intents, sort, i).used)
    ensures OneSideUsed(intents, x, y, After(intents, sort, n).used)
  {
    hide Regular, After, KeysOf, GroupOf;
    forall id | id in After(intents, sort, i).used
      ensures id in After(intents, sort, n).used
    {
      UsedStays(intents, sort, i, n, id);
    }
  }

  /** After the first visit nothing more is added to the pair. */
  lemma {:induction false} AfterPair(intents: seq<Intent>, sort: Sorter, i: nat, n: nat, x: string, y: string)
    requires Regular(intents, sort) && BAR !in x && BAR !in y && i < n <= |KeysOf(intents)|
    requires KeysOf(intents)[i] == MakeKey(x, y)
    requires x != y ==> OneSideUsed(intents, x, y, After(intents, sort, i + 1).used)
    ensures On(After(intents, sort, n).matches, x, y) == On(After(intents, sort, i + 1).matches, x, y)
  {
    hide *;
    if n > i + 1 {
      AfterPair(intents, sort, i, n - 1, x, y);
      LaterVisit(intents, sort, i, n - 1, x, y);
    }
  }

  lemma LaterVisit(intents: seq<Intent>, sort: Sorter, i: nat, n: nat, x: string, y: string)
    requires Regular(intents, sort) && BAR !in x && BAR !in y && i < n < |KeysOf(intents)|
    requires KeysOf(intents)[i] == MakeKey(x, y)
    requires x != y ==> OneSideUsed(intents, x, y, After(intents, sort, i + 1).used)
    ensures On(After(intents, sort, n + 1).matches, x, y) == On(After(intents, sort, n).matches, x, y)
  {
    hide *;
    var key, before := KeysOf(intents)[n], After(intents, sort, n);
    AfterStep(intents, sort, n);
    KeysDistinct(intents, i, n);
    if key == MakeKey(y, x) {
      OneSideStays(intents, sort, i + 1, n, x, y);
      SecondVisit(intents, sort, before, x, y);
    } else {
      OtherVisit(intents, key, sort, before, x, y);
    }
  }

  lemma SecondVisit(intents: seq<Intent>, sort: Sorter, st: Progress, x: string, y: string)
    requires Regular(intents, sort) && BAR !in x && BAR !in y
    requires OneSideUsed(intents, x, y, st.used)
    ensures Visit(intents, MakeKey(y, x), sort, st) == st
  {
    SplitRoundTrip(y, x);
    var f, g := GroupOf(intents, MakeKey(x, y)), GroupOf(intents, MakeKey(y, x));
    if f != [] {
      forall h | h == f || h == g
        ensures AllUsed(h, st.used) ==> AllUsed(sort(h), st.used)
      {
        assert multiset(sort(h)) == multiset(h);
        forall z | z in sort(h)
          ensures z in h
        {
          PermMember(sort(h), h, z);
        }
      }
      StaleScan(sort(g), sort(f), 0, 0, st, (y, x));
    }
  }

  lemma {:induction false} FirstPosition(keys: seq<string>, f: string, g: string) returns (i: nat, swapped: bool)
    requires f in keys || g in keys
    ensures if swapped then FirstAt(keys, i, g, f) else FirstAt(keys, i, f, g)
  {
    var front, last := keys[..|keys| - 1], keys[|keys| - 1];
    assert keys == front + [last];
    if f in front || g in front {
      i, swapped := FirstPosition(front, f, g);
      assert keys[..i] == front[..i];
    } else {
      i, swapped := |front|, last != f;
    }
  }

  /** The match names the first intent as its `a` side and the second as its `b` side, for the smaller amount. */
  predicate PairedAs(m: Match, a: Intent, b: Intent, x: string, y: string) {
    && m.aId == a.id && m.bId == b.id && m.inputAsset == x && m.outputAsset == y
    && m.amount <= a.amount && m.amount <= b.amount && (m.amount == a.amount || m.amount == b.amount)
  }

  /**
   Two opposite cross-asset groups, `(x, y)` visited first: their matches over
   the whole run are the sorted groups paired position by position.
   */
  lemma CrossPairing(intents: seq<Intent>, sort: Sorter, i: nat, x: string, y: string)
    requires Regular(intents, sort) && BAR !in x && BAR !in y && x != y
    requires FirstAt(KeysOf(intents), i, MakeKey(x, y), MakeKey(y, x))
    ensures var f, g := GroupOf(intents, MakeKey(x, y)), GroupOf(intents, MakeKey(y, x));
            var r := VisitAll(intents, KeysOf(intents), sort);
            && On(r.matches, x, y) == ZipFrom(sort(f), sort(g), 0, (x, y))
            && (forall k :: 0 <= k < |On(r.matches, x, y)| ==>
                  && k < |sort(f)| && k < |sort(g)|
                  && PairedAs(On(r.matches, x, y)[k], sort(f)[k], sort(g)[k], x, y))
            && OneSideUsed(intents, x, y, r.used)
  {
    var before := After(intents, sort, i);
    assert KeysOf(intents)[i] == MakeKey(x, y);
    AfterStep(intents, sort, i);
    AfterAll(intents, sort);
    BeforePair(intents, sort, i, x, y);
    FirstCrossVisit(intents, sort, before, x, y);
    var s := sort(GroupOf(intents, MakeKey(x, y)));
    var t := sort(GroupOf(intents, MakeKey(y, x)));
    var z := ZipFrom(s, t, 0, (x, y));
    forall k | 0 <= k < |z|
      ensures Labelled(z[k], x, y) && k < |s| && k < |t| && PairedAs(z[k], s[k], t[k], x, y)
    {
      ZipLabel(s, t, 0, k, x, y);
    }
    OnOwn(before.matches, z, x, y);
    AfterPair(intents, sort, i, |KeysOf(intents)|, x, y);
    OneSideStays(intents, sort, i + 1, |KeysOf(intents)|, x, y);
  }

  lemma {:induction false} ZipLabel(s: seq<Intent>, t: seq<Intent>, i: nat, k: nat, x: string, y: string)
    requires i <= |s| && i <= |t| && k < |ZipFrom(s, t, i, (x, y))|
    ensures PairedAs(ZipFrom(s, t, i, (x, y))[k], s[i + k], t[i + k], x, y)
    ensures Labelled(ZipFrom(s, t, i, (x, y))[k], x, y)
    decreases |s| - i
  {
    if k > 0 {
      ZipLabel(s, t, i + 1, k - 1, x, y);
    }
  }

  lemma OnSuffix(ms: seq<Match>, ms': seq<Match>, x: string)
    requires ms <= ms'
    requires forall k :: |ms| <= k < |ms'| ==> ms'[k].inputAsset == x && ms'[k].outputAsset == x
    ensures |On(ms', x, x)| == |On(ms, x, x)| + |ms'| - |ms|
  {
    var more := ms'[|ms|..];
    assert ms' == ms + more;
    OnOwn(ms, more, x, x);
  }

  lemma SameAssetRun(intents: seq<Intent>, sort: Sorter, i: nat, x: string)
    requires Regular(intents, sort) && BAR !in x && FirstAt(KeysOf(intents), i, MakeKey(x, x), MakeKey(x, x))
    ensures var f := GroupOf(intents, MakeKey(x, x));
            var r := VisitAll(intents, KeysOf(intents), sort);
            |On(r.matches, x, x)| == |f| / 2 && Exhausted(f, f, r.used)
  {
    var before, at := After(intents, sort, i), After(intents, sort, i + 1);
    assert KeysOf(intents)[i] == MakeKey(x, x);
    AfterStep(intents, sort, i);
    AfterAll(intents, sort);
    BeforePair(intents, sort, i, x, x);
    SameVisit(intents, sort, before, x);
    VisitAdds(intents, MakeKey(x, x), sort, before);
    SplitRoundTrip(x, x);
    hide *;
    OnSuffix(before.matches, at.matches, x);
    AfterPair(intents, sort, i, |KeysOf(intents)|, x, x);
    ExhaustedStays(intents, sort, i + 1, |KeysOf(intents)|, GroupOf(intents, MakeKey(x, x)));
  }

  lemma ExhaustedStays(intents: seq<Intent>, sort: Sorter, i: nat, n: nat, s: seq<Intent>)
    requires Regular(intents, sort) && i <= n <= |KeysOf(intents)| && Exhausted(s, s, After(intents, sort, i).used)
    ensures Exhausted(s, s, After(intents, sort, n).used)
  {
    hide Regular, After, KeysOf;
    forall id | id in After(intents, sort, i).used
      ensures id in After(intents, sort, n).used
    {
      UsedStays(intents, sort, i, n, id);
    }
  }

  // ---- Exact counts and maximality ----

  /**
   How many matches each asset pair gets: the smaller of the two opposite
   groups, or half of a same-asset group, rounded down.
   */
  lemma ExactCount(intents: seq<Intent>, sort: Sorter, x: string, y: string)
    requires Regular(intents, sort) && BAR !in x && BAR !in y
    ensures var f, g := |GroupOf(intents, MakeKey(x, y))|, |GroupOf(intents, MakeKey(y, x))|;
            |On(MatchesOf(intents, sort), x, y)| == if x == y then f / 2 else if f < g then f else g
  {
    assert DistinctIds(intents) && Ascending(sort);
    hide GroupOf, KeysOf, On, Regular, VisitAll, Visit, Ids, Sorted, DistinctIds, Ascending, FirstAt, Untouched;
    var f, g, keys := MakeKey(x, y), MakeKey(y, x), KeysOf(intents);
    GroupExists(intents, f);
    GroupExists(intents, g);
    SortedGroup(intents, f, sort);
    SortedGroup(intents, g, sort);
    if f !in keys && g !in keys {
      AfterAll(intents, sort);
      assert keys[..|keys|] == keys;
      BeforePair(intents, sort, |keys|, x, y);
    } else {
      var i, swapped := FirstPosition(keys, f, g);
      if x == y {
        SameAssetRun(intents, sort, i, x);
      } else if swapped {
        CrossPairing(intents, sort, i, y, x);
        OnSymmetric(MatchesOf(intents, sort), x, y);
      } else {
        CrossPairing(intents, sort, i, x, y);
      }
    }
  }

  predicate Complementary(a: Intent, b: Intent) {
    a.inputAsset == b.outputAsset && a.outputAsset == b.inputAsset
  }

  predicate Matched(ms: seq<Match>, id: string) {
    exists k :: 0 <= k < |ms| && Mentions(ms[k], id)
  }

  /** No two different complementary intents are both left unmatched. */
  lemma NothingComplementaryLeft(intents: seq<Intent>, sort: Sorter, a: Intent, b: Intent)
    requires Regular(intents, sort) && a in intents && b in intents && a != b && Complementary(a, b)
    ensures Matched(MatchesOf(intents, sort), a.id) || Matched(MatchesOf(intents, sort), b.id)
  {
    var x, y := a.inputAsset, a.outputAsset;
    var f, g, keys := MakeKey(x, y), MakeKey(y, x), KeysOf(intents);
    GroupMember(intents, f, a);
    GroupMember(intents, g, b);
    GroupExists(intents, f);
    if a.id == b.id {
      UniqueById(intents, a, b);
    }
    var i, swapped := FirstPosition(keys, f, g);
    if x == y {
      SameAssetRun(intents, sort, i, x);
    } else if swapped {
      CrossPairing(intents, sort, i, y, x);
    } else {
      CrossPairing(intents, sort, i, x, y);
    }
    VisitsKeep(intents, keys, sort);
  }

  // ---- Every match is a genuine one ----

  /**
   The match joins two submitted, complementary intents: its `a` side sells the
   match's input asset for its output asset.
   */
  ghost predicate Genuine(m: Match, intents: seq<Intent>) {
    exists a, b :: a in intents && b in intents && Complementary(a, b)
                   && PairedAs(m, a, b, a.inputAsset, a.outputAsset)
  }

  lemma SortPermutes(sort: Sorter, s: seq<Intent>)
    requires Ascending(sort)
    ensures multiset(sort(s)) == multiset(s)
  {
  }

  lemma VisitGenuine(intents: seq<Intent>, key: string, sort: Sorter, st: Progress, k: nat)
    requires PlainAssets(intents) && Ascending(sort) && GroupOf(intents, key) != []
    requires |st.matches| <= k < |Visit(intents, key, sort, st).matches|
    ensures Genuine(Visit(intents, key, sort, st).matches[k], intents)
  {
    hide Ascending, GroupOf;
    var u, v := KeyNames(intents, key);
    var g, h := GroupOf(intents, key), GroupOf(intents, MakeKey(v, u));
    var r := Visit(intents, key, sort, st);
    ScanAdds(sort(g), sort(h), 0, 0, st, (u, v));
    SortPermutes(sort, g);
    SortPermutes(sort, h);
    assert exists a, b :: a in sort(g) && b in sort(h) && r.matches[k] == Pair(a, b, (u, v));
    hide *;
    var a, b :| a in sort(g) && b in sort(h) && r.matches[k] == Pair(a, b, (u, v));
    PermMember(sort(g), g, a);
    PermMember(sort(h), h, b);
    PairGenuine(intents, a, b, u, v);
  }

  lemma PairGenuine(intents: seq<Intent>, a: Intent, b: Intent, u: string, v: string)
    requires PlainAssets(intents) && BAR !in u && BAR !in v
    requires a in GroupOf(intents, MakeKey(u, v)) && b in GroupOf(intents, MakeKey(v, u))
    ensures Genuine(Pair(a, b, (u, v)), intents)
  {
    GroupMember(intents, MakeKey(u, v), a);
    GroupMember(intents, MakeKey(v, u), b);
    KeyInjective(a.inputAsset, a.outputAsset, u, v);
    KeyInjective(b.inputAsset, b.outputAsset, v, u);
  }

  lemma {:induction false} AfterGenuine(intents: seq<Intent>, sort: Sorter, n: nat, k: nat)
    requires PlainAssets(intents) && Ascending(sort) && n <= |KeysOf(intents)|
    requires k < |After(intents, sort, n).matches|
    ensures Genuine(After(intents, sort, n).matches[k], intents)
  {
    if n > 0 {
      var st, key := After(intents, sort, n - 1), KeysOf(intents)[n - 1];
      AfterStep(intents, sort, n - 1);
      if k < |st.matches| {
        AfterGenuine(intents, sort, n - 1, k);
        if GroupOf(intents, ReverseKey(key)) != [] {
          ScanAdds(sort(GroupOf(intents, key)), sort(GroupOf(intents, ReverseKey(key))), 0, 0, st, SplitKey(key));
        }
      } else {
        VisitGenuine(intents, key, sort, st, k);
      }
    }
  }

  lemma MatchesGenuine(intents: seq<Intent>, sort: Sorter, k: nat)
    requires PlainAssets(intents) && Ascending(sort) && k < |MatchesOf(intents, sort)|
    ensures Genuine(MatchesOf(intents, sort)[k], intents)
  {
    AfterAll(intents, sort);
    AfterGenuine(intents, sort, |KeysOf(intents)|, k);
  }

  // ---- Matches use submitted ids only ----

  lemma {:induction false} UsedSubmitted(intents: seq<Intent>, keys: seq<string>, sort: Sorter)
    requires Ascending(sort)
    ensures VisitAll(intents, keys, sort).used <= Ids(intents)
  {
    if keys != [] {
      var front, key := keys[..|keys| - 1], keys[|keys| - 1];
      UsedSubmitted(intents, front, sort);
      var g, h := GroupOf(intents, key), GroupOf(intents, ReverseKey(key));
      if h != [] {
        var st := VisitAll(intents, front, sort);
        ScanAdds(sort(g), sort(h), 0, 0, st, SplitKey(key));
        GroupIds(intents, key, sort);
        GroupIds(intents, ReverseKey(key), sort);
      }
    }
  }

  lemma GroupIds(intents: seq<Intent>, key: string, sort: Sorter)
    requires Ascending(sort)
    ensures Ids(sort(GroupOf(intents, key))) <= Ids(intents)
  {
    var g := GroupOf(intents, key);
    SortPermutes(sort, g);
    hide Ascending, GroupOf;
    PermIds(g, sort(g));
    forall x | x in g
      ensures x in intents
    {
      GroupMember(intents, key, x);
    }
  }

  lemma MatchIdsSubmitted(intents: seq<Intent>, sort: Sorter, k: nat)
    requires Ascending(sort) && k < |MatchesOf(intents, sort)|
    ensures MatchesOf(intents, sort)[k].aId in Ids(intents) && MatchesOf(intents, sort)[k].bId in Ids(intents)
  {
    var st := VisitAll(intents, KeysOf(intents), sort);
    VisitsKeep(intents, KeysOf(intents), sort);
    UsedSubmitted(intents, KeysOf(intents), sort);
    assert Mentions(st.matches[k], st.matches[k].aId) && Mentions(st.matches[k], st.matches[k].bId);
  }
}
