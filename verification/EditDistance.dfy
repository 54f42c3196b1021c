/**
 * The edit distance behind command suggestions: the table of the dynamic program against the
 * fewest single-character edits, the metric laws, and the choice of suggestions.
 */
module EditDistance {

  function Min3(a: nat, b: nat, c: nat): nat {
    var m := if a <= b then a else b;
    if m <= c then m else c
  }

  function Init(s: string): string
    requires s != ""
  {
    s[..|s| - 1]
  }

  function Last(s: string): char
    requires s != ""
  {
    s[|s| - 1]
  }

  /** The recurrence of the table: on a match the diagonal alone. */
  function Distance(a: string, b: string): nat
    decreases |a| + |b|
  {
    if a == "" then |b|
    else if b == "" then |a|
    else if Last(a) == Last(b) then Distance(Init(a), Init(b))
    else 1 + Min3(Distance(Init(a), b), Distance(a, Init(b)), Distance(Init(a), Init(b)))
  }

  // ------------------------------------------------------------------ one character more or less

  lemma {:induction false} Symmetric(a: string, b: string)
    ensures Distance(a, b) == Distance(b, a)
    decreases |a| + |b|
  {
    if a != "" && b != "" {
      Symmetric(Init(a), Init(b));
      Symmetric(Init(a), b);
      Symmetric(a, Init(b));
    }
  }

  /** A last character more costs at most one. */
  lemma {:induction false} LongerFirst(a: string, b: string)
    requires a != ""
    ensures Distance(a, b) <= 1 + Distance(Init(a), b)
    decreases |a| + |b|, 0
  {
    if b != "" && Last(a) == Last(b) {
      ShorterSecond(Init(a), b);
    }
  }

  /** A last character less gains at most one. */
  lemma {:induction false} ShorterSecond(a: string, b: string)
    requires b != ""
    ensures Distance(a, Init(b)) <= 1 + Distance(a, b)
    decreases |a| + |b|, 0
  {
    if a != "" {
      LongerFirst(a, Init(b));
      if Last(a) != Last(b) { ShorterSecond(Init(a), b); }
    }
  }

  lemma LongerSecond(a: string, b: string)
    requires b != ""
    ensures Distance(a, b) <= 1 + Distance(a, Init(b))
  {
    Symmetric(a, b);
    Symmetric(a, Init(b));
    LongerFirst(b, a);
  }

  function Differ(x: char, y: char): nat {
    if x == y then 0 else 1
  }

  lemma Diagonal(a: string, b: string)
    requires a != "" && b != ""
    ensures Distance(a, b) <= Distance(Init(a), Init(b)) + Differ(Last(a), Last(b))
  {
  }

  lemma {:induction false} Zero(a: string, b: string)
    ensures Distance(a, b) == 0 <==> a == b
    decreases |a| + |b|
  {
    if a != "" && b != "" {
      Zero(Init(a), Init(b));
      assert a == Init(a) + [Last(a)] && b == Init(b) + [Last(b)];
    }
  }

  lemma {:induction false} Lengths(a: string, b: string)
    ensures |b| <= |a| + Distance(a, b) && |a| <= |b| + Distance(a, b) && Distance(a, b) <= |a| + |b|
    decreases |a| + |b|
  {
    if a != "" && b != "" {
      Lengths(Init(a), Init(b));
      Lengths(Init(a), b);
      Lengths(a, Init(b));
    }
  }

  /** Which move the recurrence ends with. */
  lemma Moves(a: string, b: string)
    requires a != "" && b != ""
    ensures || Distance(a, b) == 1 + Distance(Init(a), b)
            || Distance(a, b) == 1 + Distance(a, Init(b))
            || Distance(a, b) == Distance(Init(a), Init(b)) + Differ(Last(a), Last(b))
  {
  }

  /** The triangle inequality. */
  lemma {:induction false} Triangle(a: string, b: string, c: string)
    ensures Distance(a, c) <= Distance(a, b) + Distance(b, c)
    decreases |a| + |b| + |c|
  {
    Lengths(a, b);
    Lengths(b, c);
    Lengths(a, c);
    if a != "" && b != "" && c != "" {
      Moves(a, b);
      Moves(b, c);
      LongerFirst(a, c);
      LongerSecond(a, c);
      Diagonal(a, c);
      hide Distance;
      Triangle(Init(a), b, c);
      Triangle(a, b, Init(c));
      Triangle(Init(a), Init(b), Init(c));
      Triangle(a, Init(b), c);
      Triangle(Init(a), Init(b), c);
      Triangle(a, Init(b), Init(c));
    }
  }

  // ------------------------------------------------------------------ single edits

  /** `y` is `x` with one character inserted at position `i`. */
  predicate InsertedAt(x: string, y: string, i: nat) {
    i <= |x| && i < |y| && y == x[..i] + [y[i]] + x[i..]
  }

  predicate ReplacedAt(x: string, y: string, i: nat) {
    i < |x| && i < |y| && y == x[i := y[i]]
  }

  /** One character inserted, deleted or replaced. */
  predicate EditAt(x: string, y: string, i: nat) {
    InsertedAt(x, y, i) || InsertedAt(y, x, i) || ReplacedAt(x, y, i)
  }

  ghost predicate OneEdit(x: string, y: string) {
    exists i: nat :: EditAt(x, y, i)
  }

  /** A sequence of strings, each one edit after the one before. */
  ghost predicate IsScript(path: seq<string>) {
    path != [] && forall k :: 0 <= k < |path| - 1 ==> OneEdit(path[k], path[k + 1])
  }

  ghost predicate Transforms(path: seq<string>, a: string, b: string) {
    IsScript(path) && path[0] == a && path[|path| - 1] == b
  }

  lemma {:induction false} CommonSuffix(p: string, q: string, v: string)
    ensures Distance(p + v, q + v) == Distance(p, q)
    decreases |v|
  {
    if v == "" {
      assert p + v == p && q + v == q;
    } else {
      CommonSuffix(p, q, Init(v));
      assert Init(p + v) == p + Init(v) && Init(q + v) == q + Init(v);
    }
  }

  lemma InsertCostsOne(x: string, y: string, i: nat)
    requires InsertedAt(x, y, i)
    ensures Distance(x, y) <= 1
  {
    var u, v := x[..i], x[i..];
    CommonSuffix(u, u + [y[i]], v);
    hide Distance;
    assert x == u + v && Init(u + [y[i]]) == u;
    LongerSecond(u, u + [y[i]]);
    Zero(u, u);
  }

  lemma ReplaceCostsOne(x: string, y: string, i: nat)
    requires ReplacedAt(x, y, i)
    ensures Distance(x, y) <= 1
  {
    var u, v := x[..i], x[i + 1..];
    CommonSuffix(u + [x[i]], u + [y[i]], v);
    hide Distance;
    assert x == u + [x[i]] + v && y == u + [y[i]] + v;
    assert Init(u + [x[i]]) == u && Init(u + [y[i]]) == u;
    Diagonal(u + [x[i]], u + [y[i]]);
    Zero(u, u);
  }

  lemma EditCostsOne(x: string, y: string)
    requires OneEdit(x, y)
    ensures Distance(x, y) <= 1
  {
    var i: nat :| EditAt(x, y, i);
    hide Distance;
    if InsertedAt(x, y, i) {
      InsertCostsOne(x, y, i);
    } else if InsertedAt(y, x, i) {
      InsertCostsOne(y, x, i);
      Symmetric(x, y);
    } else {
      ReplaceCostsOne(x, y, i);
    }
  }

  lemma ScriptTail(path: seq<string>)
    requires IsScript(path) && |path| > 1
    ensures IsScript(path[1..]) && OneEdit(path[0], path[1])
  {
    var rest := path[1..];
    assert forall k :: 0 <= k < |rest| ==> rest[k] == path[k + 1];
  }

  /** No sequence of single edits is shorter than the distance. */
  lemma {:induction false} NoShorterScript(path: seq<string>, a: string, b: string)
    requires Transforms(path, a, b)
    ensures Distance(a, b) <= |path| - 1
    decreases |path|
  {
    hide Distance;
    if |path| == 1 {
      Zero(a, b);
    } else {
      ScriptTail(path);
      EditCostsOne(path[0], path[1]);
      NoShorterScript(path[1..], path[1], b);
      Triangle(a, path[1], b);
    }
  }

  /** The same edits with one more character at the end of every string. */
  function Suffixed(path: seq<string>, c: char): (r: seq<string>)
    ensures |r| == |path|
    ensures forall k :: 0 <= k < |path| ==> r[k] == path[k] + [c]
  {
    seq(|path|, k requires 0 <= k < |path| => path[k] + [c])
  }

  lemma EditSuffixed(x: string, y: string, c: char)
    requires OneEdit(x, y)
    ensures OneEdit(x + [c], y + [c])
  {
    var i: nat :| EditAt(x, y, i);
    if InsertedAt(x, y, i) {
      assert InsertedAt(x + [c], y + [c], i);
    } else if InsertedAt(y, x, i) {
      assert InsertedAt(y + [c], x + [c], i);
    } else {
      assert ReplacedAt(x + [c], y + [c], i);
    }
    assert EditAt(x + [c], y + [c], i);
  }

  lemma ScriptSuffixed(path: seq<string>, a: string, b: string, c: char)
    requires Transforms(path, a, b)
    ensures Transforms(Suffixed(path, c), a + [c], b + [c])
  {
    forall k | 0 <= k < |path| - 1
      ensures OneEdit(Suffixed(path, c)[k], Suffixed(path, c)[k + 1])
    {
      EditSuffixed(path[k], path[k + 1], c);
    }
  }

  lemma ScriptBefore(first: string, path: seq<string>, a: string, b: string)
    requires Transforms(path, a, b) && OneEdit(first, a)
    ensures Transforms([first] + path, first, b)
  {
    var all := [first] + path;
    assert forall k :: 0 < k < |all| ==> all[k] == path[k - 1];
  }

  lemma ScriptAfter(path: seq<string>, last: string, a: string, b: string)
    requires Transforms(path, a, b) && OneEdit(b, last)
    ensures Transforms(path + [last], a, last)
  {
  }

  lemma Append(s: string, c: char)
    ensures OneEdit(s, s + [c]) && OneEdit(s + [c], s)
    ensures forall d :: OneEdit(s + [d], s + [c])
  {
    assert InsertedAt(s, s + [c], |s|);
    assert EditAt(s, s + [c], |s|) && EditAt(s + [c], s, |s|);
    forall d
      ensures OneEdit(s + [d], s + [c])
    {
      assert ReplacedAt(s + [d], s + [c], |s|);
      assert EditAt(s + [d], s + [c], |s|);
    }
  }

  /** A sequence of exactly as many single edits exists. */
  lemma {:induction false} ScriptExists(a: string, b: string) returns (path: seq<string>)
    ensures Transforms(path, a, b) && |path| == Distance(a, b) + 1
    decreases |a| + |b|
  {
    hide OneEdit;
    if a == "" && b == "" {
      path := [""];
    } else if a == "" || (b != "" && Last(a) != Last(b) && Distance(a, b) == 1 + Distance(a, Init(b))) {
      var before := ScriptExists(a, Init(b));
      assert b == Init(b) + [Last(b)];
      Append(Init(b), Last(b));
      ScriptAfter(before, b, a, Init(b));
      path := before + [b];
    } else if b == "" || (Last(a) != Last(b) && Distance(a, b) == 1 + Distance(Init(a), b)) {
      var after := ScriptExists(Init(a), b);
      assert a == Init(a) + [Last(a)];
      Append(Init(a), Last(a));
      ScriptBefore(a, after, Init(a), b);
      path := [a] + after;
    } else {
      var inner := ScriptExists(Init(a), Init(b));
      assert a == Init(a) + [Last(a)] && b == Init(b) + [Last(b)];
      ScriptSuffixed(inner, Init(a), Init(b), Last(a));
      path := Suffixed(inner, Last(a));
      if Last(a) != Last(b) {
        Append(Init(b), Last(b));
        ScriptAfter(path, b, a, Init(b) + [Last(a)]);
        path := path + [b];
      }
    }
  }

  /** The distance is the fewest single-character edits. */
  lemma DistanceIsFewestEdits(a: string, b: string)
    ensures exists path :: Transforms(path, a, b) && |path| - 1 == Distance(a, b)
    ensures forall path :: Transforms(path, a, b) ==> |path| - 1 >= Distance(a, b)
  {
    var path := ScriptExists(a, b);
    forall other | Transforms(other, a, b)
      ensures |other| - 1 >= Distance(a, b)
    {
      NoShorterScript(other, a, b);
    }
  }

  // ------------------------------------------------------------------ the table

  method Levenshtein(a: string, b: string) returns (d: nat)
    ensures d == Distance(a, b)
  {
    var (m, n) := (|a|, |b|);
    var dp := new nat[m + 1, n + 1]((i, j) => if i == 0 then j else if j == 0 then i else 0);
    var i := 1;
    while i <= m
      invariant 1 <= i <= m + 1
      invariant forall k :: 0 <= k <= m ==> dp[k, 0] == k
      invariant forall k, l :: 0 <= k < i && 0 <= l <= n ==> dp[k, l] == Distance(a[..k], b[..l])
    {
      var j := 1;
      while j <= n
        invariant 1 <= j <= n + 1
        invariant forall k :: 0 <= k <= m ==> dp[k, 0] == k
        invariant forall k, l :: 0 <= k < i && 0 <= l <= n ==> dp[k, l] == Distance(a[..k], b[..l])
        invariant forall l :: 0 <= l < j ==> dp[i, l] == Distance(a[..i], b[..l])
      {
        Cell(a, b, i, j);
        dp[i, j] := if a[i - 1] == b[j - 1] then dp[i - 1, j - 1]
                    else 1 + Min3(dp[i - 1, j], dp[i, j - 1], dp[i - 1, j - 1]);
        j := j + 1;
      }
      i := i + 1;
    }
    assert a[..m] == a && b[..n] == b;
    d := dp[m, n];
  }

  /** The recurrence at one cell of the table. */
  lemma Cell(a: string, b: string, i: nat, j: nat)
    requires 0 < i <= |a| && 0 < j <= |b|
    ensures Distance(a[..i], b[..j]) ==
            if a[i - 1] == b[j - 1] then Distance(a[..i - 1], b[..j - 1])
            else 1 + Min3(Distance(a[..i - 1], b[..j]), Distance(a[..i], b[..j - 1]), Distance(a[..i - 1], b[..j - 1]))
  {
    assert Init(a[..i]) == a[..i - 1] && Init(b[..j]) == b[..j - 1];
  }
}
