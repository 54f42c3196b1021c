/**
 * What one `add` call does: the paths it registers, which of them are accepted, and the places of
 * the trie that exist afterwards.
 */
module RouteAdding {
  import opened Text
  import opened RoutePatterns
  import opened RouteSearch

  datatype AddResult = Accepted | WildcardNotLast | ConflictingNames

  // ------------------------------------------------------------------ registration

  function Normalize(strict: bool, path: string): (r: string)
    ensures |r| > 0 && r[0] == '/'
    ensures |path| > 0 && path[0] == '/' && (strict || |path| == 1 || path[|path| - 1] != '/') ==> r == path
    ensures |r| <= |path| + 1
  {
    var p := if |path| > 0 && path[0] == '/' then path else "/" + path;
    if !strict && |p| > 1 && p[|p| - 1] == '/' then p[..|p| - 1] else p
  }

  /** Index of the last slash. */
  function LastSlash(path: string): (i: nat)
    requires |path| > 0 && path[0] == '/'
    ensures i < |path| && path[i] == '/' && forall k :: i < k < |path| ==> path[k] != '/'
  {
    if path[|path| - 1] == '/' then |path| - 1 else LastSlash(path[..|path| - 1])
  }

  /** The path ends in `/:name?` with a non-empty name. */
  predicate IsOptional(path: string)
    requires |path| > 0 && path[0] == '/'
  {
    var i := LastSlash(path);
    |path| >= i + 4 && path[i + 1] == ':' && path[|path| - 1] == '?'
  }

  /** The path without its optional last segment. */
  function Base(path: string): (r: string)
    requires |path| > 0 && path[0] == '/' && IsOptional(path)
    ensures |r| + 3 <= |path|
  {
    var i := LastSlash(path);
    if i == 0 then "/" else path[..i]
  }

  /** The normalised paths one `add` call registers, in order. */
  function Expand(strict: bool, path: string): (paths: seq<string>)
    ensures |paths| >= 1
    ensures forall k :: 0 <= k < |paths| ==> |paths[k]| > 0 && paths[k][0] == '/'
    decreases |path|
  {
    var p := Normalize(strict, path);
    if IsOptional(p) then Expand(strict, Base(p)) + [p[..|p| - 1]] else [p]
  }

  ghost predicate Conflicts(sites: set<Site>, verb: string, keys: seq<Key>, name: string) {
    exists other :: other != name && Site(verb, keys).Child(Param(other)) in sites
  }

  /** Segment `i` cannot be added: a wildcard, or a parameter with another name at this place. */
  ghost predicate Blocked(sites: set<Site>, verb: string, segs: seq<string>, i: nat)
    requires i < |segs|
  {
    segs[i] == "*" || (IsParamSegment(segs[i]) && Conflicts(sites, verb, KeysOf(segs[..i]), segs[i][1..]))
  }

  /** How many segments get a trie node before the walk of `add` stops. */
  ghost function Depth(sites: set<Site>, verb: string, segs: seq<string>, i: nat): (d: nat)
    requires i <= |segs|
    ensures i <= d <= |segs|
    ensures d < |segs| ==> Blocked(sites, verb, segs, d)
    ensures forall k :: i <= k < d ==> !Blocked(sites, verb, segs, k)
    decreases |segs| - i
  {
    if i == |segs| || Blocked(sites, verb, segs, i) then i else Depth(sites, verb, segs, i + 1)
  }

  /** What registering one normalised path answers, given the nodes there already. */
  ghost function Outcome(sites: set<Site>, verb: string, path: string): AddResult {
    var segs := Segments(path);
    var d := Depth(sites, verb, segs, 0);
    if IsExact(path) || d == |segs| then Accepted
    else if segs[d] != "*" then ConflictingNames
    else if d == |segs| - 1 then Accepted
    else WildcardNotLast
  }

  /** The nodes that exist afterwards, also when the path was rejected half-way. */
  ghost function Grown(sites: set<Site>, verb: string, path: string): set<Site> {
    if IsExact(path) then sites
    else
      var segs := Segments(path);
      sites + Prefixes(verb, segs, Depth(sites, verb, segs, 0))
  }

  /** An `add` call seen from outside: its answer, the log and the trie places after it. */
  datatype Added<T> = Added(result: AddResult, log: seq<Reg<T>>, sites: set<Site>)

  ghost function AddOne<T>(log: seq<Reg<T>>, sites: set<Site>, verb: string, path: string, value: T): Added<T> {
    var out := Outcome(sites, verb, path);
    Added(out, if out == Accepted then log + [Reg(verb, path, value)] else log, Grown(sites, verb, path))
  }

  /** Paths are registered in order up to the first rejection. */
  ghost function AddAll<T>(log: seq<Reg<T>>, sites: set<Site>, verb: string, paths: seq<string>, value: T): Added<T> {
    if paths == [] then Added(Accepted, log, sites)
    else
      var last := |paths| - 1;
      var before := AddAll(log, sites, verb, paths[..last], value);
      if before.result != Accepted then before else AddOne(before.log, before.sites, verb, paths[last], value)
  }

  lemma AddAllLast<T>(log: seq<Reg<T>>, sites: set<Site>, verb: string, paths: seq<string>, path: string, value: T)
    ensures var before := AddAll(log, sites, verb, paths, value);
            AddAll(log, sites, verb, paths + [path], value) ==
            if before.result != Accepted then before else AddOne(before.log, before.sites, verb, path, value)
  {
    assert (paths + [path])[..|paths|] == paths;
  }

  // ------------------------------------------------------------ the walk of one add

  /** `i` segments of `segs` have been walked and have their nodes. */
  ghost predicate Walked(before: set<Site>, now: set<Site>, verb: string, segs: seq<string>, i: nat) {
    && i <= |segs|
    && (forall k :: 0 <= k < i ==> !Blocked(before, verb, segs, k))
    && now == before + Prefixes(verb, segs, i)
  }

  /** The place reached after `i` segments. */
  ghost function Place(verb: string, segs: seq<string>, i: nat): Site
    requires i <= |segs|
  {
    Site(verb, KeysOf(segs[..i]))
  }

  ghost function Prefixes(verb: string, segs: seq<string>, i: nat): set<Site>
    requires i <= |segs|
  {
    set k | 0 <= k <= i :: Place(verb, segs, k)
  }

  lemma WalkStart(before: set<Site>, now: set<Site>, verb: string, segs: seq<string>)
    requires now == before + {Top(verb)}
    ensures Place(verb, segs, 0) == Top(verb)
    ensures Walked(before, now, verb, segs, 0)
  {
    assert KeysOf(segs[..0]) == [];
  }

  lemma PlaceStep(verb: string, segs: seq<string>, i: nat)
    requires i < |segs|
    ensures Place(verb, segs, i).Child(KeyOf(segs[i])) == Place(verb, segs, i + 1)
  {
    assert KeysOf(segs[..i + 1]) == KeysOf(segs[..i]) + [KeyOf(segs[i])];
  }

  lemma WalkStep(before: set<Site>, now: set<Site>, verb: string, segs: seq<string>, i: nat, after: set<Site>)
    requires Walked(before, now, verb, segs, i) && i < |segs| && !Blocked(before, verb, segs, i)
    requires after == now + {Place(verb, segs, i + 1)}
    ensures Walked(before, after, verb, segs, i + 1)
  {
    assert Prefixes(verb, segs, i + 1) == Prefixes(verb, segs, i) + {Place(verb, segs, i + 1)};
  }

  lemma WalkStop(before: set<Site>, now: set<Site>, verb: string, path: string, i: nat)
    requires Walked(before, now, verb, Segments(path), i) && !IsExact(path)
    requires i == |Segments(path)| || Blocked(before, verb, Segments(path), i)
    ensures Depth(before, verb, Segments(path), 0) == i && now == Grown(before, verb, path)
    ensures Outcome(before, verb, path) == Accepted ==> Place(verb, Segments(path), i) == Site(verb, Keys(path))
  {
    var segs := Segments(path);
    var d := Depth(before, verb, segs, 0);
    assert d == i;
    assert segs[..|segs|] == segs;
    if i == |segs| && i > 0 {
      assert !Blocked(before, verb, segs, i - 1);
    }
  }

  /** Nodes made by this very walk are too shallow to cause a conflict of names. */
  lemma SameConflicts(before: set<Site>, now: set<Site>, verb: string, segs: seq<string>, i: nat, name: string)
    requires Walked(before, now, verb, segs, i)
    ensures Conflicts(now, verb, KeysOf(segs[..i]), name) <==> Conflicts(before, verb, KeysOf(segs[..i]), name)
  {
    var site := Place(verb, segs, i);
    assert forall other :: |site.Child(Param(other)).keys| == i + 1;
  }

  // --------------------------------------------------------- what rejected paths leave

  /**
   * More nodes never make a path acceptable; they can only add conflicts of names. So the nodes
   * left by a rejected path change no `find`, but may reject later paths.
   */
  lemma MoreNodesMoreConflicts(sites: set<Site>, more: set<Site>, verb: string, path: string)
    requires sites <= more && Outcome(more, verb, path) == Accepted
    ensures Outcome(sites, verb, path) == Accepted
  {
    var segs := Segments(path);
    var d, e := Depth(sites, verb, segs, 0), Depth(more, verb, segs, 0);
    assert forall k :: 0 <= k < e && !Blocked(more, verb, segs, k) ==> !Blocked(sites, verb, segs, k);
    assert d >= e;
  }

  predicate IsRooted(path: string) {
    |path| > 0 && path[0] == '/'
  }

  /** Every parameter node of `more` was there before. */
  ghost predicate NoNewParams(sites: set<Site>, more: set<Site>) {
    forall s: Site, n: string :: s.Child(Param(n)) in more ==> s.Child(Param(n)) in sites
  }

  /** Every later path, of whatever method, gets the same answer. */
  ghost predicate AnswersAlike(sites: set<Site>, more: set<Site>) {
    forall verb: string, path: string :: IsRooted(path) ==> SameOutcome(sites, more, verb, path)
  }

  ghost predicate SameOutcome(sites: set<Site>, more: set<Site>, verb: string, path: string) {
    Outcome(sites, verb, path) == Outcome(more, verb, path)
  }

  lemma BlockedAlike(sites: set<Site>, more: set<Site>, verb: string, segs: seq<string>, k: nat)
    requires sites <= more && NoNewParams(sites, more) && k < |segs|
    ensures Blocked(sites, verb, segs, k) <==> Blocked(more, verb, segs, k)
  {
    var site := Site(verb, KeysOf(segs[..k]));
    assert forall n :: site.Child(Param(n)) in more <==> site.Child(Param(n)) in sites;
  }

  lemma NoNewParamsAlike(sites: set<Site>, more: set<Site>, verb: string, path: string)
    requires sites <= more && NoNewParams(sites, more)
    ensures SameOutcome(sites, more, verb, path)
  {
    var segs := Segments(path);
    var d, e := Depth(sites, verb, segs, 0), Depth(more, verb, segs, 0);
    forall k: nat | k < |segs|
      ensures Blocked(sites, verb, segs, k) <==> Blocked(more, verb, segs, k)
    {
      BlockedAlike(sites, more, verb, segs, k);
    }
    hide Blocked, Depth, IsExact, Segments;
    assert d == e;
  }

  /** The path through `pre` to a parameter called `name`. */
  function ParamPath(pre: seq<string>, name: string): string {
    "/" + Join(pre + [":" + name], '/')
  }

  lemma ParamPathIs(pre: seq<string>, name: string)
    requires '/' !in name && forall k :: 0 <= k < |pre| ==> '/' !in pre[k]
    ensures Segments(ParamPath(pre, name)) == pre + [":" + name]
    ensures IsRooted(ParamPath(pre, name)) && !IsExact(ParamPath(pre, name))
  {
    var parts := pre + [":" + name];
    SplitJoin(parts, '/');
    PieceInside(parts, '/', |pre|);
    assert ParamPath(pre, name)[1..] == Join(parts, '/');
    assert (":" + name)[0] == ':' && ':' in parts[|pre|];
    assert forall c :: c in Join(parts, '/') ==> c in ParamPath(pre, name);
  }

  /** What decides over a parameter at the end of an unblocked way: the parameters at that place. */
  lemma ParamDecides(sites: set<Site>, verb: string, pre: seq<string>, name: string)
    requires '/' !in name && forall k :: 0 <= k < |pre| ==> '/' !in pre[k]
    requires forall k :: 0 <= k < |pre| ==> !Blocked(sites, verb, pre, k)
    ensures Outcome(sites, verb, ParamPath(pre, name)) ==
            if Conflicts(sites, verb, KeysOf(pre), name) then ConflictingNames else Accepted
  {
    ParamPathIs(pre, name);
    var segs, last := pre + [":" + name], |pre|;
    var d := Depth(sites, verb, segs, 0);
    assert segs[..last] == pre && IsParamSegment(segs[last]) && segs[last][1..] == name && segs[last] != "*";
    forall k | 0 <= k < last
      ensures !Blocked(sites, verb, segs, k)
    {
      assert !Blocked(sites, verb, pre, k) && segs[k] == pre[k] && segs[..k] == pre[..k];
    }
    assert Blocked(sites, verb, segs, last) <==> Conflicts(sites, verb, KeysOf(pre), name);
    hide Blocked, Conflicts, IsExact, Segments, Depth;
    assert d >= last;
  }

  /** A parameter node the walk made: the way to it was free, and no parameter was there before. */
  lemma NewParam(sites: set<Site>, verb: string, path: string, s: Site, n: string) returns (k: nat)
    requires !IsExact(path) && s.Child(Param(n)) in Grown(sites, verb, path) && s.Child(Param(n)) !in sites
    ensures k < Depth(sites, verb, Segments(path), 0) <= |Segments(path)|
    ensures s == Site(verb, KeysOf(Segments(path)[..k])) && Segments(path)[k] == ":" + n
    ensures forall m :: s.Child(Param(m)) !in sites
  {
    var segs := Segments(path);
    var child := s.Child(Param(n));
    var j :| 0 <= j <= Depth(sites, verb, segs, 0) && child == Place(verb, segs, j);
    assert |child.keys| == j && child.keys[j - 1] == Param(n);
    k := j - 1;
    PlaceStep(verb, segs, k);
    assert KeyOf(segs[k]) == Param(n);
    assert s.keys == child.keys[..k] == KeysOf(segs[..k]);
    assert !Blocked(sites, verb, segs, k);
    assert segs[k] == ":" + n;
  }

  lemma SegmentsClean(path: string)
    ensures forall k :: 0 <= k < |Segments(path)| ==> '/' !in Segments(path)[k]
  {
  }

  /** Then a path that goes there by another name is accepted before and refused after. */
  lemma NewParamShows(sites: set<Site>, verb: string, path: string, s: Site, n: string) returns (later: string)
    requires !IsExact(path) && s.Child(Param(n)) in Grown(sites, verb, path) && s.Child(Param(n)) !in sites
    ensures IsRooted(later) && Outcome(sites, verb, later) == Accepted
    ensures Outcome(Grown(sites, verb, path), verb, later) == ConflictingNames
  {
    var segs, more := Segments(path), Grown(sites, verb, path);
    var k := NewParam(sites, verb, path, s, n);
    SegmentsClean(path);
    var pre, other := segs[..k], n + "x";
    assert '/' !in other by {
      assert forall c :: c in n ==> c in segs[k];
    }
    forall i | 0 <= i < k
      ensures !Blocked(sites, verb, pre, i) && !Blocked(more, verb, pre, i)
    {
      assert pre[..i] == segs[..i] && pre[i] == segs[i];
      FreeAfter(sites, verb, path, i);
    }
    assert more >= sites;
    hide Blocked, Grown, Outcome, Segments;
    ParamDecides(sites, verb, pre, other);
    ParamDecides(more, verb, pre, other);
    ParamPathIs(pre, other);
    assert s.Child(Param(n)) in more && other != n;
    assert Conflicts(more, verb, KeysOf(pre), other);
    assert !Conflicts(sites, verb, KeysOf(pre), other);
    later := ParamPath(pre, other);
  }

  /** The walk does not block its own way: a second time it is as free. */
  lemma FreeAfter(sites: set<Site>, verb: string, path: string, i: nat)
    requires !IsExact(path) && i < Depth(sites, verb, Segments(path), 0)
    ensures i < |Segments(path)| && !Blocked(sites, verb, Segments(path), i)
    ensures !Blocked(Grown(sites, verb, path), verb, Segments(path), i)
  {
    var segs, more := Segments(path), Grown(sites, verb, path);
    if IsParamSegment(segs[i]) {
      var site := Place(verb, segs, i);
      forall n | n != segs[i][1..]
        ensures site.Child(Param(n)) !in more
      {
        OnlyOwnParam(sites, verb, path, i, n);
      }
    }
  }

  lemma OnlyOwnParam(sites: set<Site>, verb: string, path: string, i: nat, n: string)
    requires !IsExact(path) && i < Depth(sites, verb, Segments(path), 0) <= |Segments(path)|
    requires IsParamSegment(Segments(path)[i]) && n != Segments(path)[i][1..]
    ensures Place(verb, Segments(path), i).Child(Param(n)) !in Grown(sites, verb, path)
  {
    var segs := Segments(path);
    var child := Place(verb, segs, i).Child(Param(n));
    assert !Blocked(sites, verb, segs, i);
    assert |child.keys| == i + 1;
    PlaceStep(verb, segs, i);
    assert child.keys[i] == Param(n) && Place(verb, segs, i + 1).keys[i] == KeyOf(segs[i]);
    assert forall j :: 0 <= j <= |segs| ==> |Place(verb, segs, j).keys| == j;
  }

  lemma {:induction false} CallGrows<T>(log: seq<Reg<T>>, sites: set<Site>, verb: string, paths: seq<string>, value: T)
    ensures sites <= AddAll(log, sites, verb, paths, value).sites
  {
    if paths != [] {
      CallGrows(log, sites, verb, paths[..|paths| - 1], value);
    }
  }

  /** A call that makes a parameter node makes some path unacceptable. */
  lemma {:induction false} CallRefuses<T>(log: seq<Reg<T>>, sites: set<Site>, verb: string, paths: seq<string>,
                                          value: T)
    returns (later: string)
    requires !NoNewParams(sites, AddAll(log, sites, verb, paths, value).sites)
    ensures IsRooted(later) && Outcome(sites, verb, later) == Accepted
    ensures Outcome(AddAll(log, sites, verb, paths, value).sites, verb, later) != Accepted
  {
    var init, path := paths[..|paths| - 1], paths[|paths| - 1];
    var before, after := AddAll(log, sites, verb, init, value), AddAll(log, sites, verb, paths, value);
    CallGrows(log, sites, verb, init, value);
    assert before.result == Accepted ==> after.sites == Grown(before.sites, verb, path) && before.sites <= after.sites;
    if before.result != Accepted || !NoNewParams(sites, before.sites) {
      later := CallRefuses(log, sites, verb, init, value);
      if Outcome(after.sites, verb, later) == Accepted {
        MoreNodesMoreConflicts(before.sites, after.sites, verb, later);
      }
    } else {
      var s: Site, n: string :| s.Child(Param(n)) in after.sites && s.Child(Param(n)) !in sites;
      hide Outcome, Grown;
      assert s.Child(Param(n)) !in before.sites;
      ExactMakesNothing(before.sites, verb, path);
      later := NewParamShows(before.sites, verb, path, s, n);
      MoreNodesMoreConflicts(sites, before.sites, verb, later);
    }
  }

  lemma ExactMakesNothing(sites: set<Site>, verb: string, path: string)
    ensures IsExact(path) ==> Grown(sites, verb, path) == sites
  {
  }

  /**
   * What one `add` call, accepted or not, means for the paths added after it: all of them are
   * answered as without it exactly when its walk made no parameter node.
   */
  lemma LaterPathsAlike<T>(log: seq<Reg<T>>, sites: set<Site>, verb: string, paths: seq<string>, value: T)
    ensures var more := AddAll(log, sites, verb, paths, value).sites;
            AnswersAlike(sites, more) <==> NoNewParams(sites, more)
  {
    var more := AddAll(log, sites, verb, paths, value).sites;
    CallGrows(log, sites, verb, paths, value);
    hide AddAll, Outcome;
    if NoNewParams(sites, more) {
      forall v: string, q: string | IsRooted(q)
        ensures SameOutcome(sites, more, v, q)
      {
        NoNewParamsAlike(sites, more, v, q);
      }
    } else {
      var later := CallRefuses(log, sites, verb, paths, value);
      assert !SameOutcome(sites, more, verb, later);
    }
  }

  /** For instance a path rejected half-way leaves its parameter name behind: `/:y` is refused after it. */
  lemma RejectedPathLeavesName(verb: string)
    ensures var left := Grown({}, verb, "/:x/*/b");
            && Outcome({}, verb, "/:x/*/b") == WildcardNotLast
            && Outcome({}, verb, "/:y") == Accepted
            && Outcome(left, verb, "/:y") == ConflictingNames
  {
    var bad, good := [":x", "*", "b"], [":y"];
    SplitJoin(bad, '/');
    SplitJoin(good, '/');
    assert Join(bad, '/') == "/:x/*/b"[1..] by {
      assert bad[1..] == ["*", "b"] && bad[1..][1..] == ["b"];
    }
    assert Segments("/:x/*/b") == bad && Segments("/:y") == good;
    assert "/:x/*/b"[1] == ':' && "/:y"[1] == ':';
    var left := Grown({}, verb, "/:x/*/b");
    assert KeysOf(bad[..0]) == [] && KeysOf(bad[..1]) == [Param("x")];
    assert !Blocked({}, verb, bad, 0) && Blocked({}, verb, bad, 1);
    assert Depth({}, verb, bad, 0) == 1;
    assert Place(verb, bad, 1) in left;
    assert Site(verb, []).Child(Param("x")) == Place(verb, bad, 1);
    assert KeysOf(good[..0]) == [];
    assert Conflicts(left, verb, [], "y");
  }
}
