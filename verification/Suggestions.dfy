/** The suggestions for a mistyped command: the closest registered names within distance three. */
module Suggestions {
  import opened EditDistance

  const LIMIT := 3

  /** A registered name with its distance and its place in registration order. */
  datatype Scored = Scored(name: string, dist: nat, index: nat)

  /** Closer first; equally close names in registration order. */
  predicate Before(x: Scored, y: Scored) {
    x.dist < y.dist || (x.dist == y.dist && x.index < y.index)
  }

  predicate Ordered(s: seq<Scored>) {
    forall i, j :: 0 <= i < j < |s| ==> Before(s[i], s[j])
  }

  /** The name at `index` with its distance to `name`. */
  predicate IsScore(keys: seq<string>, name: string, x: Scored) {
    x.index < |keys| && x.name == keys[x.index] && x.dist == Distance(name, x.name) && x.dist <= 3
  }

  /** All names within the limit among the first `n` keys, each once. */
  ghost predicate Scores(keys: seq<string>, name: string, n: nat, s: seq<Scored>)
    requires n <= |keys|
  {
    && (forall x :: x in s ==> IsScore(keys, name, x) && x.index < n)
    && forall k: nat :: k < n && Distance(name, keys[k]) <= 3 ==> Scored(keys[k], Distance(name, keys[k]), k) in s
  }

  /** Puts `x`, the latest, behind everything that is not farther: the sort is stable. */
  method Place(sorted: seq<Scored>, x: Scored) returns (r: seq<Scored>)
    requires Ordered(sorted) && forall y :: y in sorted ==> y.index < x.index
    ensures Ordered(r) && forall y :: y in r <==> y in sorted || y == x
  {
    var i := |sorted|;
    while i > 0 && sorted[i - 1].dist > x.dist
      invariant 0 <= i <= |sorted| && forall k :: i <= k < |sorted| ==> sorted[k].dist > x.dist
    {
      i := i - 1;
    }
    r := sorted[..i] + [x] + sorted[i..];
    Placed(sorted, x, i);
    PlacedMembers(sorted, x, i);
  }

  lemma Placed(sorted: seq<Scored>, x: Scored, i: nat)
    requires Ordered(sorted) && (forall y :: y in sorted ==> y.index < x.index) && i <= |sorted|
    requires (forall k :: i <= k < |sorted| ==> sorted[k].dist > x.dist) && (i > 0 ==> sorted[i - 1].dist <= x.dist)
    ensures Ordered(sorted[..i] + [x] + sorted[i..])
  {
    forall k | 0 <= k < i
      ensures Before(sorted[k], x)
    {
      assert sorted[k] in sorted;
      if k < i - 1 { assert Before(sorted[k], sorted[i - 1]); }
    }
  }

  lemma PlacedMembers(sorted: seq<Scored>, x: Scored, i: nat)
    requires i <= |sorted|
    ensures forall y :: y in sorted[..i] + [x] + sorted[i..] <==> y in sorted || y == x
  {
    assert sorted == sorted[..i] + sorted[i..];
  }

  /** Name `k` is one of the suggestions. */
  predicate Suggested(keys: seq<string>, name: string, r: seq<Scored>, k: nat)
    requires k < |keys|
  {
    Scored(keys[k], Distance(name, keys[k]), k) in r
  }

  /**
   * The closest registered names: at most `max`, all within the limit, closest first and then in
   * registration order; a name within the limit is left out only when the list is full of names
   * that come before it.
   */
  ghost predicate AreClosest(keys: seq<string>, name: string, max: nat, r: seq<Scored>) {
    && |r| <= max && Ordered(r)
    && (forall x :: x in r ==> IsScore(keys, name, x))
    && forall k: nat :: k < |keys| && Distance(name, keys[k]) <= 3 && !Suggested(keys, name, r, k) ==>
         |r| == max && forall x :: x in r ==> Before(x, Scored(keys[k], Distance(name, keys[k]), k))
  }

  function NamesOf(r: seq<Scored>): seq<string> {
    seq(|r|, i requires 0 <= i < |r| => r[i].name)
  }

  method Suggest(keys: seq<string>, name: string, max: nat) returns (names: seq<string>)
    ensures exists r :: AreClosest(keys, name, max, r) && names == NamesOf(r)
  {
    var scored: seq<Scored> := [];
    var k := 0;
    while k < |keys|
      invariant k <= |keys| && Ordered(scored) && Scores(keys, name, k, scored)
    {
      var dist := Levenshtein(name, keys[k]);
      if dist <= LIMIT { scored := Place(scored, Scored(keys[k], dist, k)); }
      k := k + 1;
    }
    var taken := if |scored| <= max then scored else scored[..max];
    Rest(keys, name, max, scored, taken);
    names := Names(taken);
  }

  method Names(taken: seq<Scored>) returns (names: seq<string>)
    ensures names == NamesOf(taken)
  {
    names := [];
    var i := 0;
    while i < |taken|
      invariant i <= |taken| && names == NamesOf(taken[..i])
    {
      names := names + [taken[i].name];
      i := i + 1;
    }
    assert taken[..i] == taken;
  }

  /** What does not fit comes after what does. */
  lemma Rest(keys: seq<string>, name: string, max: nat, s: seq<Scored>, taken: seq<Scored>)
    requires Ordered(s) && Scores(keys, name, |keys|, s) && taken == if |s| <= max then s else s[..max]
    ensures AreClosest(keys, name, max, taken)
  {
    assert forall m :: 0 <= m < |taken| ==> s[m] == taken[m] && taken[m] in taken;
    forall y | y in s && y !in taken
      ensures |taken| == max && forall x :: x in taken ==> Before(x, y)
    {
      var j :| 0 <= j < |s| && s[j] == y;
      forall x | x in taken
        ensures Before(x, y)
      {
        var i :| 0 <= i < |taken| && taken[i] == x;
        assert Before(s[i], s[j]);
      }
    }
    assert forall x :: x in taken ==> x in s;
  }

  /** There is one such list: distances and registration order leave no choice. */
  lemma {:induction false} ClosestUnique(keys: seq<string>, name: string, max: nat, r: seq<Scored>,
                                         other: seq<Scored>, n: nat)
    requires AreClosest(keys, name, max, r) && AreClosest(keys, name, max, other) && n <= |r|
    ensures n <= |other| && r[..n] == other[..n]
  {
    if n > 0 {
      ClosestUnique(keys, name, max, r, other, n - 1);
      SamePlace(keys, name, max, r, other, n - 1);
      assert r[..n] == r[..n - 1] + [r[n - 1]] && other[..n] == other[..n - 1] + [other[n - 1]];
    }
  }

  lemma SamePlace(keys: seq<string>, name: string, max: nat, r: seq<Scored>, other: seq<Scored>, i: nat)
    requires AreClosest(keys, name, max, r) && AreClosest(keys, name, max, other)
    requires i < |r| && i <= |other| && r[..i] == other[..i]
    ensures i < |other| && r[i] == other[i]
  {
    NotBefore(keys, name, max, r, other, i);
    if i < |other| {
      NotBefore(keys, name, max, other, r, i);
      assert r[i] in r && other[i] in other;
    }
  }

  /** What `r` lists at place `i` is not before what the other list has there. */
  lemma NotBefore(keys: seq<string>, name: string, max: nat, r: seq<Scored>, other: seq<Scored>, i: nat)
    requires AreClosest(keys, name, max, r) && AreClosest(keys, name, max, other)
    requires i < |r| && i <= |other| && r[..i] == other[..i]
    ensures i < |other| && !Before(r[i], other[i])
  {
    var x := r[i];
    assert x in r && IsScore(keys, name, x);
    forall m | 0 <= m < i
      ensures other[m] != x
    {
      assert other[m] == other[..i][m] == r[..i][m] == r[m];
    }
    if Suggested(keys, name, other, x.index) {
      var j :| 0 <= j < |other| && other[j] == x;
    } else {
      assert |other| == max;
      assert other[i] in other;
    }
  }

  /** An exact name is its own best suggestion. */
  lemma ExactComesFirst(keys: seq<string>, name: string, max: nat, r: seq<Scored>, k: nat)
    requires k < |keys| && keys[k] == name && (forall j :: 0 <= j < k ==> keys[j] != name)
    requires AreClosest(keys, name, max, r) && max > 0
    ensures r != [] && r[0] == Scored(name, 0, k)
  {
    Zero(name, name);
    var best := Scored(name, 0, k);
    if r != [] {
      assert r[0] in r;
      Zero(name, r[0].name);
    }
    if Suggested(keys, name, r, k) {
      var i :| 0 <= i < |r| && r[i] == best;
    }
  }
}
