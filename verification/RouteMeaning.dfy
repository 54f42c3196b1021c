/**
 * What routes mean, told on lists of segments alone: which requests a path matches, with which
 * parameters, which of two matching paths comes first, and which paths an optional parameter stands for.
 */
module RouteMeaning {
  import opened Text
  import opened RoutePatterns
  import opened RouteSearch
  import opened RouteAdding

  // ------------------------------------------------------------------ matching

  /** A last `*` takes any rest, `:x` a segment that is not empty, anything else itself. */
  predicate Fits(pattern: seq<string>, segs: seq<string>) {
    if pattern == [] then segs == []
    else if pattern == ["*"] then true
    else
      && segs != []
      && (if pattern[0] != "" && pattern[0][0] == ':' then segs[0] != "" else segs[0] == pattern[0])
      && Fits(pattern[1..], segs[1..])
  }

  predicate EndsWild(pattern: seq<string>) {
    |pattern| > 0 && pattern[|pattern| - 1] == "*"
  }

  /** The keys of a pattern without its wildcard. */
  function KeysIn(pattern: seq<string>): seq<Key> {
    KeysOf(if EndsWild(pattern) then pattern[..|pattern| - 1] else pattern)
  }

  lemma KeysCons(pattern: seq<string>)
    requires pattern != [] && pattern != ["*"]
    ensures EndsWild(pattern[1..]) == EndsWild(pattern)
    ensures KeysIn(pattern) == [KeyOf(pattern[0])] + KeysIn(pattern[1..])
  {
    assert |pattern| > 1 ==> pattern[1..][|pattern| - 2] == pattern[|pattern| - 1];
    assert |pattern| == 1 ==> pattern == [pattern[0]];
  }

  lemma {:induction false} FitsKeys(pattern: seq<string>, segs: seq<string>)
    ensures SegMatches(KeysIn(pattern), EndsWild(pattern), segs) <==> Fits(pattern, segs)
  {
    if pattern != [] && pattern != ["*"] {
      KeysCons(pattern);
      if segs != [] {
        SegMatchesCons(KeysIn(pattern), EndsWild(pattern), segs);
        FitsKeys(pattern[1..], segs[1..]);
        assert KeysIn(pattern)[1..] == KeysIn(pattern[1..]);
      }
    }
  }

  /** Without colon and star no piece is a wildcard. */
  lemma KeysAre(path: string)
    requires IsRooted(path)
    ensures Keys(path) == KeysIn(Segments(path)) && IsWild(path) == EndsWild(Segments(path))
  {
    var segs := Segments(path);
    if IsExact(path) {
      JoinSplit(path[1..], '/');
      forall k | 0 <= k < |segs|
        ensures '*' !in segs[k]
      {
        PieceInside(segs, '/', k);
        assert forall c :: c in path[1..] ==> c in path;
      }
    }
  }

  /** A path matches a request if and only if its segments fit those of the request. */
  lemma MatchesIs(path: string, request: string)
    requires IsRooted(path) && IsRooted(request)
    ensures Matches(path, request) <==> Fits(Segments(path), Segments(request))
  {
    KeysAre(path);
    FitsKeys(Segments(path), Segments(request));
    if IsExact(path) { ExactMatchesBySegment(path, request); }
  }

  // ------------------------------------------------------------------ parameters

  /** `*` stands for the rest, if there is one, and `:x` for its segment; of two of a name the first counts. */
  function Bindings(decode: string -> string, pattern: seq<string>, segs: seq<string>): map<string, string>
    requires Fits(pattern, segs)
  {
    if pattern == [] then map[]
    else if pattern == ["*"] then if segs == [] then map[] else map["*" := decode(Join(segs, '/'))]
    else
      var rest := Bindings(decode, pattern[1..], segs[1..]);
      if pattern[0] != "" && pattern[0][0] == ':' then rest[pattern[0][1..] := decode(segs[0])] else rest
  }

  lemma {:induction false} BindingsAre(decode: string -> string, pattern: seq<string>, segs: seq<string>)
    requires Fits(pattern, segs) && |KeysIn(pattern)| <= |segs|
    ensures ParamsOf(decode, KeysIn(pattern), EndsWild(pattern), segs) == Bindings(decode, pattern, segs)
  {
    if pattern != [] && pattern != ["*"] {
      KeysCons(pattern);
      FitsKeys(pattern[1..], segs[1..]);
      BindingsAre(decode, pattern[1..], segs[1..]);
      assert KeysIn(pattern)[1..] == KeysIn(pattern[1..]);
    }
  }

  /** The parameters of a match. */
  lemma ParamsAre(decode: string -> string, path: string, request: string)
    requires IsRooted(path) && IsRooted(request) && Matches(path, request)
    ensures Fits(Segments(path), Segments(request))
    ensures ParamsBelow(decode, path, 0, Segments(request)) == Bindings(decode, Segments(path), Segments(request))
  {
    MatchesIs(path, request);
    KeysAre(path);
    FitsKeys(Segments(path), Segments(request));
    BindingsAre(decode, Segments(path), Segments(request));
    assert Keys(path)[0..] == Keys(path);
  }

  // ------------------------------------------------------------------ precedence

  /**
   * Of two patterns that fit a request: at the first difference a literal comes before a parameter,
   * and the end of the pattern or any segment before the wildcard.
   */
  predicate Before(a: seq<string>, b: seq<string>) {
    if a == [] then b == ["*"]
    else if a == ["*"] || b == [] then false
    else if b == ["*"] then true
    else
      var (first, second) := (a[0] != "" && a[0][0] == ':', b[0] != "" && b[0][0] == ':');
      if first == second then Before(a[1..], b[1..]) else second
  }

  function Ranks(pattern: seq<string>): seq<nat> {
    if pattern == [] then [2]
    else if pattern == ["*"] then [3]
    else [KeyRank(KeyOf(pattern[0]))] + Ranks(pattern[1..])
  }

  function RankOf(keys: seq<Key>, wild: bool): seq<nat> {
    seq(|keys|, i requires 0 <= i < |keys| => KeyRank(keys[i])) + [if wild then 3 else 2]
  }

  lemma {:induction false} RanksAre(pattern: seq<string>)
    ensures Ranks(pattern) == RankOf(KeysIn(pattern), EndsWild(pattern))
  {
    if pattern != [] && pattern != ["*"] {
      KeysCons(pattern);
      RanksAre(pattern[1..]);
    }
  }

  lemma LexCons(a: nat, x: seq<nat>, b: nat, y: seq<nat>)
    ensures LexLess([a] + x, [b] + y) <==> a < b || (a == b && LexLess(x, y))
  {
    var u, v := [a] + x, [b] + y;
    if LexLess(u, v) {
      var k :| DiffersAt(u, v, k) && u[k] < v[k];
      if k > 0 {
        assert u[0] == v[0];
        assert forall i :: 0 <= i < k - 1 ==> x[i] == u[i + 1] && y[i] == v[i + 1];
        assert DiffersAt(x, y, k - 1) && x[k - 1] < y[k - 1];
      }
    }
    if a < b { assert DiffersAt(u, v, 0); }
    if a == b && LexLess(x, y) {
      var k :| DiffersAt(x, y, k) && x[k] < y[k];
      assert forall i :: 0 < i <= k ==> u[i] == x[i - 1] && v[i] == y[i - 1];
      assert DiffersAt(u, v, k + 1);
    }
  }

  lemma LexSelf(a: seq<nat>)
    ensures !LexLess(a, a)
  {
  }

  lemma {:induction false} BeforeIs(a: seq<string>, b: seq<string>, segs: seq<string>)
    requires Fits(a, segs) && Fits(b, segs)
    ensures LexLess(Ranks(a), Ranks(b)) <==> Before(a, b)
    ensures Ranks(a) == Ranks(b) <==> !Before(a, b) && !Before(b, a)
  {
    var (first, second) := (Ranks(a), Ranks(b));
    LexSelf([2]);
    LexSelf([3]);
    LexCons(first[0], first[1..], second[0], second[1..]);
    assert first == [first[0]] + first[1..] && second == [second[0]] + second[1..];
    if a != [] && a != ["*"] && b != [] && b != ["*"] {
      BeforeIs(a[1..], b[1..], segs[1..]);
    }
  }

  /** Registration `i` fits the request and every other that does comes after it, or ties and was made later. */
  ghost predicate WinsPlainly<T>(log: seq<Reg<T>>, verb: string, request: string, i: nat) {
    && FitsReg(log, verb, request, i)
    && forall j: nat :: FitsReg(log, verb, request, j) ==> BeatsPlainly(log, i, j)
  }

  predicate FitsReg<T>(log: seq<Reg<T>>, verb: string, request: string, i: nat) {
    i < |log| && log[i].verb == verb && Fits(Segments(log[i].path), Segments(request))
  }

  predicate BeatsPlainly<T>(log: seq<Reg<T>>, i: nat, j: nat)
    requires i < |log| && j < |log|
  {
    var (a, b) := (Segments(log[i].path), Segments(log[j].path));
    Before(a, b) || (!Before(b, a) && i <= j)
  }

  lemma BeatsAre<T>(log: seq<Reg<T>>, verb: string, request: string, i: nat, j: nat)
    requires Rooted(log) && IsRooted(request) && FitsReg(log, verb, request, i) && FitsReg(log, verb, request, j)
    ensures Beats(log, i, j) <==> BeatsPlainly(log, i, j)
  {
    var (a, b) := (Segments(log[i].path), Segments(log[j].path));
    KeysAre(log[i].path);
    KeysAre(log[j].path);
    RanksAre(a);
    RanksAre(b);
    BeforeIs(a, b, Segments(request));
    BeforeIs(b, a, Segments(request));
  }

  /** The winner of the flat list, on segments. */
  lemma WinsIs<T>(log: seq<Reg<T>>, verb: string, request: string, i: nat)
    requires Rooted(log) && IsRooted(request)
    ensures Wins(log, verb, request, i) <==> WinsPlainly(log, verb, request, i)
  {
    hide Rank, Before, Fits, Segments, Matches;
    forall j: nat | j < |log|
      ensures Candidate(log[j], verb, request) <==> FitsReg(log, verb, request, j)
    {
      assert IsRooted(log[j].path);
      MatchesIs(log[j].path, request);
    }
    forall j: nat | FitsReg(log, verb, request, i) && FitsReg(log, verb, request, j)
      ensures Beats(log, i, j) <==> BeatsPlainly(log, i, j)
    {
      BeatsAre(log, verb, request, i, j);
    }
  }

  // ------------------------------------------------------------------ paths to register

  /** A leading slash is put in front where there is none; unless strict, one trailing slash goes. */
  lemma NormalizeIs(strict: bool, path: string)
    ensures var (rooted, r) := (if path != "" && path[0] == '/' then path else "/" + path, Normalize(strict, path));
            if !strict && |rooted| > 1 && rooted[|rooted| - 1] == '/' then r + "/" == rooted else r == rooted
  {
  }

  /** `base` followed by an optional parameter. */
  function WithOptional(base: string, name: string): string {
    base + "/:" + name + "?"
  }

  /** Such paths and no others have an optional parameter at their end. */
  lemma OptionalIs(path: string)
    requires IsRooted(path)
    ensures IsOptional(path) <==>
            exists base, name :: name != "" && '/' !in name && path == WithOptional(base, name)
  {
    var i := LastSlash(path);
    if IsOptional(path) {
      var base, name := path[..i], path[i + 2..|path| - 1];
      assert path == WithOptional(base, name);
    }
    forall base, name | name != "" && '/' !in name && path == WithOptional(base, name)
      ensures IsOptional(path)
    {
      OptionalSplit(path, base, name);
    }
  }

  lemma OptionalSplit(path: string, base: string, name: string)
    requires IsRooted(path) && name != "" && '/' !in name && path == WithOptional(base, name)
    ensures LastSlash(path) == |base| && IsOptional(path)
    ensures Base(path) == if base == "" then "/" else base
  {
    assert path[|base|] == '/';
    assert forall k :: |base| < k < |path| ==> path[k] != '/' by {
      forall k | |base| < k < |path|
        ensures path[k] != '/'
      {
        assert |base| + 2 <= k < |path| - 1 ==> path[k] == name[k - |base| - 2];
      }
    }
    assert path[..|base|] == base;
  }

  /** A path with an optional parameter stands for what its base stands for and then itself without the mark. */
  lemma ExpandOptional(strict: bool, base: string, name: string)
    requires (base == "" || IsRooted(base)) && name != "" && '/' !in name
    ensures Expand(strict, WithOptional(base, name)) ==
            Expand(strict, if base == "" then "/" else base) + [base + "/:" + name]
  {
    var path := WithOptional(base, name);
    assert path[0] == '/' && path[|path| - 1] == '?';
    assert Normalize(strict, path) == path;
    OptionalSplit(path, base, name);
    assert path[..|path| - 1] == base + "/:" + name;
  }

  /** Any other path stands for itself, normalised. */
  lemma ExpandOther(strict: bool, path: string)
    requires forall base, name :: name != "" && '/' !in name ==> Normalize(strict, path) != WithOptional(base, name)
    ensures Expand(strict, path) == [Normalize(strict, path)]
  {
    OptionalIs(Normalize(strict, path));
  }

  // ------------------------------------------------------------------ what is accepted

  /** Segment `i` is a wildcard with others after it. */
  predicate StarInside(segs: seq<string>, i: nat) {
    i + 1 < |segs| && segs[i] == "*"
  }

  /** Where segment `i` leads there is a parameter of another name already. */
  ghost predicate NameTaken(sites: set<Site>, verb: string, segs: seq<string>, i: nat) {
    && i < |segs| && segs[i] != "" && segs[i][0] == ':'
    && exists other :: other != segs[i][1..] && Site(verb, KeysOf(segs[..i])).Child(Param(other)) in sites
  }

  /**
   * A path is refused if and only if a wildcard is not its last segment or the name of a parameter
   * is taken; the first of these decides the answer. A wildcard ends the walk in any case.
   */
  lemma AcceptedIs(sites: set<Site>, verb: string, path: string)
    requires IsRooted(path) && !IsExact(path)
    ensures var segs := Segments(path);
            && (Outcome(sites, verb, path) == WildcardNotLast <==>
                exists i: nat :: StarInside(segs, i) && forall k: nat :: k < i ==> !NameTaken(sites, verb, segs, k))
            && (Outcome(sites, verb, path) == ConflictingNames <==>
                exists i: nat :: NameTaken(sites, verb, segs, i) && forall k: nat :: k < i ==> !StarInside(segs, k))
  {
    var segs := Segments(path);
    var d := Depth(sites, verb, segs, 0);
    forall k: nat | k < |segs|
      ensures Blocked(sites, verb, segs, k) <==> segs[k] == "*" || NameTaken(sites, verb, segs, k)
    {
    }
    hide Blocked, Segments;
    if d < |segs| && segs[d] == "*" {
      assert StarInside(segs, d) || d == |segs| - 1;
    }
    if d < |segs| && segs[d] != "*" {
      assert NameTaken(sites, verb, segs, d);
    }
    forall i: nat | StarInside(segs, i) || NameTaken(sites, verb, segs, i)
      ensures d <= i
    {
      assert Blocked(sites, verb, segs, i);
    }
    hide NameTaken;
  }
}
