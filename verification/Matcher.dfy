/**
 The netting matcher (apps/mpc-committee/src/coordinator.ts, `matchIntents`):
 intents are grouped by asset pair, both opposite groups are sorted by amount
 and a two-pointer scan pairs them, a shared `used` set keeping every intent id
 in at most one match.
 */
module Matcher {

  datatype Intent = Intent(id: string, amount: int, inputAsset: string, outputAsset: string)

  datatype Match = Match(aId: string, bId: string, amount: int, inputAsset: string, outputAsset: string)

  /** What one call accumulates: the matches so far and the ids they use. */
  datatype Progress = Progress(matches: seq<Match>, used: set<string>)

  /** The sort of the runtime: any function; the theorems assume `Ascending`. */
  type Sorter = seq<Intent> -> seq<Intent>

  ghost predicate Sorted(s: seq<Intent>) {
    forall i, j :: 0 <= i < j < |s| ==> s[i].amount <= s[j].amount
  }

  /** Permutes its argument into ascending order; ties may fall either way. */
  ghost predicate Ascending(sort: Sorter) {
    forall s :: Sorted(sort(s)) && multiset(sort(s)) == multiset(s)
  }

  function Min(a: int, b: int): int {
    if a < b then a else b
  }

  // ---- Group keys ----

  const BAR: char := '|'

  function MakeKey(inAsset: string, outAsset: string): string {
    inAsset + [BAR] + outAsset
  }

  function KeyOf(x: Intent): string {
    MakeKey(x.inputAsset, x.outputAsset)
  }

  /** Position of the first bar at or after `i`, or the length. */
  function BarFrom(s: string, i: nat): (b: nat)
    requires i <= |s|
    ensures i <= b <= |s|
    ensures forall k :: i <= k < b ==> s[k] != BAR
    ensures b < |s| ==> s[b] == BAR
    decreases |s| - i
  {
    if i == |s| || s[i] == BAR then i else BarFrom(s, i + 1)
  }

  /** The first two pieces of splitting at the bar. */
  function SplitKey(key: string): (string, string) {
    var b := BarFrom(key, 0);
    if b == |key| then (key, "") else (key[..b], key[b + 1..BarFrom(key, b + 1)])
  }

  function ReverseKey(key: string): string {
    MakeKey(SplitKey(key).1, SplitKey(key).0)
  }

  lemma BarAt(s: string, i: nat, b: nat)
    requires i <= b <= |s| && (forall k :: i <= k < b ==> s[k] != BAR) && (b < |s| ==> s[b] == BAR)
    ensures BarFrom(s, i) == b
  {
  }

  /** The key gives the two names back exactly when neither contains the separator. */
  lemma SplitRoundTrip(inAsset: string, outAsset: string)
    ensures SplitKey(MakeKey(inAsset, outAsset)) == (inAsset, outAsset) <==> BAR !in inAsset && BAR !in outAsset
  {
    var key := MakeKey(inAsset, outAsset);
    var n := |inAsset|;
    assert key[n] == BAR && key[..n] == inAsset && key[n + 1..] == outAsset;
    assert BarFrom(key, 0) <= n;
    if BAR in inAsset {
      var k :| 0 <= k < n && inAsset[k] == BAR;
      assert key[k] == BAR;
      assert |SplitKey(key).0| < n;
    } else {
      BarAt(key, 0, n);
      if BAR in outAsset {
        var k :| 0 <= k < |outAsset| && outAsset[k] == BAR;
        assert key[n + 1 + k] == BAR;
        assert |SplitKey(key).1| < |outAsset|;
      } else {
        assert forall k :: n + 1 <= k < |key| ==> key[k] == outAsset[k - n - 1];
        BarAt(key, n + 1, |key|);
        assert key[n + 1..|key|] == outAsset;
      }
    }
  }

  // ---- Groups ----

  function GroupOf(intents: seq<Intent>, key: string): seq<Intent> {
    if intents == [] then []
    else
      var last := intents[|intents| - 1];
      GroupOf(intents[..|intents| - 1], key) + (if KeyOf(last) == key then [last] else [])
  }

  /** The keys in the order of first occurrence. */
  function KeysOf(intents: seq<Intent>): seq<string> {
    if intents == [] then []
    else
      var ks := KeysOf(intents[..|intents| - 1]);
      var key := KeyOf(intents[|intents| - 1]);
      if key in ks then ks else ks + [key]
  }

  lemma {:induction false} GroupMember(intents: seq<Intent>, key: string, x: Intent)
    ensures x in GroupOf(intents, key) <==> x in intents && KeyOf(x) == key
  {
    if intents != [] {
      var rest, last := intents[..|intents| - 1], intents[|intents| - 1];
      GroupMember(rest, key, x);
      assert intents == rest + [last];
    }
  }

  lemma {:induction false} KeysDistinct(intents: seq<Intent>, i: int, j: int)
    requires 0 <= i < j < |KeysOf(intents)|
    ensures KeysOf(intents)[i] != KeysOf(intents)[j]
  {
    var ks := KeysOf(intents[..|intents| - 1]);
    if j < |ks| {
      KeysDistinct(intents[..|intents| - 1], i, j);
    }
  }

  lemma {:induction false} GroupExists(intents: seq<Intent>, key: string)
    ensures key in KeysOf(intents) <==> GroupOf(intents, key) != []
  {
    if intents != [] {
      GroupExists(intents[..|intents| - 1], key);
    }
  }

  /** A group keeps the order of submission: an intent stands behind those of its kind submitted before it. */
  lemma {:induction false} GroupAt(intents: seq<Intent>, i: nat)
    requires i < |intents|
    ensures var key := KeyOf(intents[i]);
            var before := |GroupOf(intents[..i], key)|;
            before < |GroupOf(intents, key)| && GroupOf(intents, key)[before] == intents[i]
            && GroupOf(intents, key)[..before] == GroupOf(intents[..i], key)
  {
    hide KeyOf;
    var n := |intents| - 1;
    var front := intents[..n];
    if i < n {
      GroupAt(front, i);
      assert front[..i] == intents[..i];
    }
  }

  /** Keys keep the order of first occurrence: more intents only add keys behind. */
  lemma {:induction false} KeysGrow(intents: seq<Intent>, i: nat)
    requires i <= |intents|
    ensures KeysOf(intents[..i]) <= KeysOf(intents)
    ensures i < |intents| ==> KeyOf(intents[i]) in KeysOf(intents)
    ensures i < |intents| && KeyOf(intents[i]) !in KeysOf(intents[..i]) ==>
              |KeysOf(intents[..i])| < |KeysOf(intents)| && KeysOf(intents)[|KeysOf(intents[..i])|] == KeyOf(intents[i])
  {
    hide KeyOf;
    if i == |intents| {
      assert intents[..i] == intents;
    } else {
      var n := |intents| - 1;
      var front := intents[..n];
      if i < n {
        KeysGrow(front, i);
        assert front[..i] == intents[..i];
      }
    }
  }

  function GroupMap(intents: seq<Intent>): map<string, seq<Intent>> {
    map k | k in KeysOf(intents) :: GroupOf(intents, k)
  }

  lemma GrowStep(intents: seq<Intent>, n: nat, k: string)
    requires n < |intents|
    ensures var key, ks := KeyOf(intents[n]), KeysOf(intents[..n]);
            && KeysOf(intents[..n + 1]) == (if key in ks then ks else ks + [key])
            && GroupOf(intents[..n + 1], k) == GroupOf(intents[..n], k) + (if key == k then [intents[n]] else [])
  {
    assert intents[..n + 1][..n] == intents[..n] && intents[..n + 1][n] == intents[n];
  }

  /** Reading one more intent. */
  lemma Grow(intents: seq<Intent>, n: nat)
    requires n < |intents|
    ensures var x, ks, m := intents[n], KeysOf(intents[..n]), GroupMap(intents[..n]);
            && KeysOf(intents[..n + 1]) == (if KeyOf(x) in m then ks else ks + [KeyOf(x)])
            && var m' := if KeyOf(x) in m then m else m[KeyOf(x) := []];
               GroupMap(intents[..n + 1]) == m'[KeyOf(x) := m'[KeyOf(x)] + [x]]
  {
    hide KeyOf, KeysOf, GroupOf;
    var pre, next, x := intents[..n], intents[..n + 1], intents[n];
    var key := KeyOf(x);
    GroupExists(pre, key);
    GrowStep(intents, n, key);
    forall k | k != key
      ensures k in KeysOf(next) <==> k in KeysOf(pre)
      ensures GroupOf(next, k) == GroupOf(pre, k)
    {
      GrowStep(intents, n, k);
    }
  }

  // ---- The two-pointer scan ----

  function Pair(a: Intent, b: Intent, names: (string, string)): Match {
    Match(a.id, b.id, Min(a.amount, b.amount), names.0, names.1)
  }

  function Take(st: Progress, a: Intent, b: Intent, names: (string, string)): Progress {
    Progress(st.matches + [Pair(a, b, names)], st.used + {a.id} + {b.id})
  }

  function TwoPointer(s: seq<Intent>, t: seq<Intent>, ai: nat, bi: nat, st: Progress, names: (string, string)): Progress
    requires ai <= |s| && bi <= |t|
    decreases |s| - ai + |t| - bi
  {
    if ai == |s| || bi == |t| then st
    else if s[ai].id in st.used then TwoPointer(s, t, ai + 1, bi, st, names)
    else if t[bi].id in st.used || s[ai].id == t[bi].id then TwoPointer(s, t, ai, bi + 1, st, names)
    else TwoPointer(s, t, ai + 1, bi + 1, Take(st, s[ai], t[bi], names), names)
  }

  /** One visit of a group against its reverse group. */
  function Visit(intents: seq<Intent>, key: string, sort: Sorter, st: Progress): Progress {
    var reverse := GroupOf(intents, ReverseKey(key));
    if reverse == [] then st
    else TwoPointer(sort(GroupOf(intents, key)), sort(reverse), 0, 0, st, SplitKey(key))
  }

  function VisitAll(intents: seq<Intent>, keys: seq<string>, sort: Sorter): Progress {
    if keys == [] then Progress([], {})
    else Visit(intents, keys[|keys| - 1], sort, VisitAll(intents, keys[..|keys| - 1], sort))
  }

  function MatchesOf(intents: seq<Intent>, sort: Sorter): seq<Match> {
    VisitAll(intents, KeysOf(intents), sort).matches
  }

  // ---- The loops of the source ----

  method BuildGroups(intents: seq<Intent>) returns (keys: seq<string>, groups: map<string, seq<Intent>>)
    ensures keys == KeysOf(intents) && groups == GroupMap(intents)
  {
    keys, groups := [], map[];
    var n := 0;
    assert intents[..0] == [];
    assert KeysOf([]) == [] && GroupMap([]) == map[];
    hide *;
    while n < |intents|
      invariant 0 <= n <= |intents|
      invariant keys == KeysOf(intents[..n]) && groups == GroupMap(intents[..n])
    {
      Grow(intents, n);
      var x := intents[n];
      var key := KeyOf(x);
      if key !in groups {
        keys := keys + [key];
        groups := groups[key := []];
      }
      groups := groups[key := groups[key] + [x]];
      n := n + 1;
    }
    assert intents[..n] == intents;
  }

  method Scan(s: seq<Intent>, t: seq<Intent>, names: (string, string), st: Progress) returns (r: Progress)
    ensures r == TwoPointer(s, t, 0, 0, st, names)
  {
    var matches, used := st.matches, st.used;
    var ai, bi := 0, 0;
    while ai < |s| && bi < |t|
      invariant 0 <= ai <= |s| && 0 <= bi <= |t|
      invariant TwoPointer(s, t, ai, bi, Progress(matches, used), names) == TwoPointer(s, t, 0, 0, st, names)
      decreases |s| - ai + |t| - bi
    {
      var a, b := s[ai], t[bi];
      if a.id in used {
        ai := ai + 1;
        continue;
      }
      if b.id in used || a.id == b.id {
        bi := bi + 1;
        continue;
      }
      var amount := if a.amount < b.amount then a.amount else b.amount;
      matches := matches + [Match(a.id, b.id, amount, names.0, names.1)];
      used := used + {a.id};
      used := used + {b.id};
      ai := ai + 1;
      bi := bi + 1;
    }
    r := Progress(matches, used);
  }

  method MatchIntents(intents: seq<Intent>, sort: Sorter) returns (matches: seq<Match>)
    ensures matches == MatchesOf(intents, sort)
  {
    var st := Progress([], {});
    var keys, groups := BuildGroups(intents);
    var n := 0;
    while n < |keys|
      invariant 0 <= n <= |keys|
      invariant st == VisitAll(intents, keys[..n], sort)
    {
      var key := keys[n];
      assert keys[..n + 1][..n] == keys[..n] && keys[..n + 1][n] == key;
      var names := SplitKey(key);
      var reverseKey := MakeKey(names.1, names.0);
      GroupExists(intents, reverseKey);
      if reverseKey in groups {
        st := Scan(sort(groups[key]), sort(groups[reverseKey]), names, st);
      }
      n := n + 1;
    }
    assert keys[..n] == keys;
    matches := st.matches;
  }
}
