/**
 * What a subtree of the trie answers for the segments that are left, and why searching it greedily,
 * literal before parameter before wildcard, finds the winner of the flat list.
 */
module RouteSearch {
  import opened Text
  import opened RoutePatterns

  /** Where a trie node sits: the method's trie and the keys leading to the node. */
  datatype Site = Site(verb: string, keys: seq<Key>) {
    function Child(key: Key): Site {
      Site(verb, keys + [key])
    }
  }

  function Top(verb: string): Site {
    Site(verb, [])
  }

  // ------------------------------------------------------- what a subtree answers

  function SegmentsFrom(path: string, start: nat): seq<string> {
    if start > |path| then [] else Split(path[start..], '/')
  }

  /** `reg` lies in the subtree at `site` and matches the segments that are left. */
  predicate Under<T>(reg: Reg<T>, site: Site, segs: seq<string>) {
    && reg.verb == site.verb
    && !IsExact(reg.path)
    && site.keys <= Keys(reg.path)
    && SegMatches(Keys(reg.path)[|site.keys|..], IsWild(reg.path), segs)
  }

  ghost predicate NoneUnder<T>(log: seq<Reg<T>>, site: Site, segs: seq<string>) {
    forall j :: 0 <= j < |log| ==> !Under(log[j], site, segs)
  }

  ghost predicate BestUnder<T>(log: seq<Reg<T>>, site: Site, segs: seq<string>, i: nat) {
    && i < |log|
    && Under(log[i], site, segs)
    && forall j: nat :: j < |log| && Under(log[j], site, segs) ==> Beats(log, i, j)
  }

  /** The parameters of a match: the outermost binding of a name is written last. */
  function ParamsOf(decode: string -> string, keys: seq<Key>, wild: bool, segs: seq<string>): map<string, string>
    requires |keys| <= |segs|
  {
    if keys == [] then
      if wild && segs != [] then map["*" := decode(Join(segs, '/'))] else map[]
    else
      var rest := ParamsOf(decode, keys[1..], wild, segs[1..]);
      if keys[0].Param? then rest[keys[0].name := decode(segs[0])] else rest
  }

  /** The parameters of registration `path` from its key number `n` on. */
  function ParamsBelow(decode: string -> string, path: string, n: nat, segs: seq<string>): map<string, string> {
    if n <= |Keys(path)| <= n + |segs| then ParamsOf(decode, Keys(path)[n..], IsWild(path), segs) else map[]
  }

  lemma ParamsStep(decode: string -> string, path: string, n: nat, segs: seq<string>)
    requires n < |Keys(path)| && |Keys(path)| - n <= |segs|
    ensures var rest := ParamsBelow(decode, path, n + 1, segs[1..]);
            ParamsBelow(decode, path, n, segs) ==
            match Keys(path)[n]
            case Lit(_) => rest
            case Param(name) => rest[name := decode(segs[0])]
  {
    assert Keys(path)[n..][1..] == Keys(path)[n + 1..];
  }

  /** Position of the first parameter called `name`. */
  function FirstParam(keys: seq<Key>, name: string): (k: nat)
    ensures k <= |keys|
    ensures k < |keys| ==> keys[k] == Param(name)
    ensures forall x :: 0 <= x < k ==> keys[x] != Param(name)
  {
    if keys == [] || keys[0] == Param(name) then 0 else 1 + FirstParam(keys[1..], name)
  }

  /**
   * `params` holds exactly the decoded segment of every parameter name (its first position)
   * plus `*` when the wildcard consumed a remainder.
   */
  lemma {:induction false} ParamsExact(decode: string -> string, keys: seq<Key>, wild: bool, segs: seq<string>,
                                       name: string)
    requires |keys| <= |segs|
    ensures var params, k := ParamsOf(decode, keys, wild, segs), FirstParam(keys, name);
            if k < |keys| then name in params && params[name] == decode(segs[k])
            else if name == "*" && wild && |segs| > |keys| then
              name in params && params[name] == decode(Join(segs[|keys|..], '/'))
            else name !in params
  {
    if keys == [] {
      assert segs[|keys|..] == segs;
    } else {
      ParamsExact(decode, keys[1..], wild, segs[1..], name);
      assert segs[1..][|keys| - 1..] == segs[|keys|..];
    }
  }

  lemma SegMatchesCons(keys: seq<Key>, wild: bool, segs: seq<string>)
    requires segs != []
    ensures SegMatches(keys, wild, segs) <==>
            if keys == [] then wild else KeyMatches(keys[0], segs[0]) && SegMatches(keys[1..], wild, segs[1..])
  {
    if keys != [] && KeyMatches(keys[0], segs[0]) && SegMatches(keys[1..], wild, segs[1..]) {
      forall k | 0 <= k < |keys|
        ensures KeyMatches(keys[k], segs[k])
      {
        if k > 0 { assert KeyMatches(keys[1..][k - 1], segs[1..][k - 1]); }
      }
    }
  }

  /** A match below `site` goes through exactly one of: literal child, parameter child, wildcard. */
  lemma UnderCases<T>(reg: Reg<T>, site: Site, segs: seq<string>)
    requires segs != []
    ensures Under(reg, site, segs) <==>
            || Under(reg, site.Child(Lit(segs[0])), segs[1..])
            || (segs[0] != "" && ParamUnder(reg, site, segs))
            || (SlotOf(reg) == WildSlot(site.verb, site.keys))
  {
    var keys, n := Keys(reg.path), |site.keys|;
    if reg.verb == site.verb && !IsExact(reg.path) && site.keys <= keys {
      SegMatchesCons(keys[n..], IsWild(reg.path), segs);
      if n == |keys| {
        assert site.keys == keys;
      } else {
        UnderChild(reg, site, segs[1..]);
      }
    }
  }

  lemma UnderChild<T>(reg: Reg<T>, site: Site, rest: seq<string>)
    requires reg.verb == site.verb && !IsExact(reg.path) && site.keys <= Keys(reg.path)
             && |site.keys| < |Keys(reg.path)|
    ensures forall key: Key :: Under(reg, site.Child(key), rest) <==>
              key == Keys(reg.path)[|site.keys|]
              && SegMatches(Keys(reg.path)[|site.keys| + 1..], IsWild(reg.path), rest)
    ensures Keys(reg.path)[|site.keys|..][1..] == Keys(reg.path)[|site.keys| + 1..]
  {
    var keys, n := Keys(reg.path), |site.keys|;
    assert forall key: Key :: site.Child(key).keys[n] == key && |site.Child(key).keys| == n + 1;
    assert keys[..n + 1] == keys[..n] + [keys[n]];
  }

  predicate ParamUnder<T>(reg: Reg<T>, site: Site, segs: seq<string>)
    requires segs != []
  {
    var keys, n := Keys(reg.path), |site.keys|;
    n < |keys| && keys[n].Param? && Under(reg, site.Child(keys[n]), segs[1..])
  }

  lemma BeatsBelow<T>(log: seq<Reg<T>>, i: nat, j: nat, keys: seq<Key>)
    requires i < |log| && j < |log|
    requires keys <= Keys(log[i].path) && keys <= Keys(log[j].path)
    requires Rank(log[i].path)[|keys|] < Rank(log[j].path)[|keys|]
    ensures Beats(log, i, j)
  {
    assert DiffersAt(Rank(log[i].path), Rank(log[j].path), |keys|);
  }

  lemma BeatsTie<T>(log: seq<Reg<T>>, i: nat, j: nat)
    requires i < |log| && j < |log| && i <= j && SlotOf(log[i]) == SlotOf(log[j]) && !SlotOf(log[i]).ExactSlot?
    ensures Beats(log, i, j)
  {
    assert Rank(log[i].path) == Rank(log[j].path);
  }

  // --------------------------------------------------------- backtracking is greedy

  /** At the end of the request the node's own value goes before its wildcard. */
  lemma SearchEnd<T>(log: seq<Reg<T>>, site: Site)
    ensures var value, wild := First(log, ValueSlot(site.verb, site.keys)), First(log, WildSlot(site.verb, site.keys));
            if value.Some? then BestUnder(log, site, [], value.value)
            else if wild.Some? then BestUnder(log, site, [], wild.value)
            else NoneUnder(log, site, [])
  {
    forall j | 0 <= j < |log|
      ensures Under(log[j], site, []) <==>
              SlotOf(log[j]) == ValueSlot(site.verb, site.keys) || SlotOf(log[j]) == WildSlot(site.verb, site.keys)
    {
      if site.keys <= Keys(log[j].path) && |site.keys| == |Keys(log[j].path)| {
        assert site.keys == Keys(log[j].path);
      }
    }
    var value, wild := First(log, ValueSlot(site.verb, site.keys)), First(log, WildSlot(site.verb, site.keys));
    forall i: nat, j: nat | i < |log| && j < |log| && Under(log[i], site, []) && Under(log[j], site, [])
                            && (if SlotOf(log[i]) == SlotOf(log[j]) then i <= j else !IsWild(log[i].path))
      ensures Beats(log, i, j)
    {
      if SlotOf(log[i]) == SlotOf(log[j]) {
        BeatsTie(log, i, j);
      } else {
        BeatsBelow(log, i, j, site.keys);
      }
    }
  }

  /** The best match through the literal child is the best of all. */
  lemma SearchLiteral<T>(log: seq<Reg<T>>, site: Site, segs: seq<string>, i: nat)
    requires segs != [] && BestUnder(log, site.Child(Lit(segs[0])), segs[1..], i)
    ensures BestUnder(log, site, segs, i)
  {
    UnderCases(log[i], site, segs);
    forall j: nat | j < |log| && Under(log[j], site, segs)
      ensures Beats(log, i, j)
    {
      UnderCases(log[j], site, segs);
      if !Under(log[j], site.Child(Lit(segs[0])), segs[1..]) {
        assert Keys(log[i].path)[|site.keys|] == Lit(segs[0]);
        BeatsBelow(log, i, j, site.keys);
      }
    }
  }

  /** Failing that, the best match through the parameter child is. */
  lemma SearchParam<T>(log: seq<Reg<T>>, site: Site, segs: seq<string>, name: string, i: nat)
    requires segs != [] && segs[0] != ""
    requires NoneUnder(log, site.Child(Lit(segs[0])), segs[1..])
    requires forall j ::
             0 <= j < |log| && ParamUnder(log[j], site, segs) ==> Keys(log[j].path)[|site.keys|] == Param(name)
    requires BestUnder(log, site.Child(Param(name)), segs[1..], i)
    ensures BestUnder(log, site, segs, i)
  {
    assert Keys(log[i].path)[|site.keys|] == Param(name);
    UnderCases(log[i], site, segs);
    forall j: nat | j < |log| && Under(log[j], site, segs)
      ensures Beats(log, i, j)
    {
      UnderCases(log[j], site, segs);
      if !Under(log[j], site.Child(Param(name)), segs[1..]) {
        BeatsBelow(log, i, j, site.keys);
      }
    }
  }

  /** Failing that too, the first wildcard of the node answers, if any. */
  lemma SearchWildcard<T>(log: seq<Reg<T>>, site: Site, segs: seq<string>)
    requires segs != []
    requires NoneUnder(log, site.Child(Lit(segs[0])), segs[1..])
    requires segs[0] != "" ==> forall j :: 0 <= j < |log| ==> !ParamUnder(log[j], site, segs)
    ensures match First(log, WildSlot(site.verb, site.keys))
            case Some(i) => BestUnder(log, site, segs, i)
            case None => NoneUnder(log, site, segs)
  {
    forall j | 0 <= j < |log|
      ensures Under(log[j], site, segs) <==> SlotOf(log[j]) == WildSlot(site.verb, site.keys)
    {
      UnderCases(log[j], site, segs);
    }
    var wild := First(log, WildSlot(site.verb, site.keys));
    if wild.Some? {
      forall j: nat | j < |log| && Under(log[j], site, segs)
        ensures Beats(log, wild.value, j)
      {
        BeatsTie(log, wild.value, j);
      }
    }
  }

  /** The offset scan steps through the segments. */
  lemma ScanStep(path: string, start: nat)
    requires start <= |path|
    ensures var end, segs := Text.Find(path, '/', start), SegmentsFrom(path, start);
            segs != [] && segs[0] == path[start..end] && segs[1..] == SegmentsFrom(path, end + 1)
    ensures Join(SegmentsFrom(path, start), '/') == path[start..]
  {
    var end, rest := Text.Find(path, '/', start), path[start..];
    JoinSplit(rest, '/');
    FindInSuffix(path, start);
    if end < |path| {
      assert rest[end - start + 1..] == path[end + 1..];
    }
  }

  lemma ScanEnd(path: string, start: nat)
    requires start > |path|
    ensures SegmentsFrom(path, start) == []
  {
  }

  lemma FindInSuffix(path: string, start: nat)
    requires start <= |path|
    ensures Text.Find(path[start..], '/', 0) == Text.Find(path, '/', start) - start
    ensures path[start..][..Text.Find(path, '/', start) - start] == path[start..Text.Find(path, '/', start)]
  {
    var rest, end, i := path[start..], Text.Find(path, '/', start), Text.Find(path[start..], '/', 0);
    assert forall k :: 0 <= k < |rest| ==> rest[k] == path[start + k];
    assert end < |path| ==> rest[end - start] == '/';
    assert i < |rest| ==> path[start + i] == '/';
  }

  // ------------------------------------------------ one step of the search over offsets

  /** Matches through a parameter all use the name of the node's parameter child. */
  ghost predicate ParamNamed<T>(log: seq<Reg<T>>, site: Site, segs: seq<string>, param: Option<(string, nat)>)
    requires segs != []
  {
    forall j :: 0 <= j < |log| && ParamUnder(log[j], site, segs) ==>
                  param.Some? && Keys(log[j].path)[|site.keys|] == Param(param.value.0)
  }

  lemma MergeUpdate(m: map<string, string>, x: map<string, string>, k: string, v: string)
    ensures (m + x)[k := v] == m + x[k := v] && m + map[] == m && m[k := v] == m + map[k := v]
  {
  }

  lemma AtEnd<T>(decode: string -> string, log: seq<Reg<T>>, site: Site) returns (i: nat)
    ensures var value, wild := Held(log, ValueSlot(site.verb, site.keys)), Held(log, WildSlot(site.verb, site.keys));
            var r := if value.Some? then value else wild;
            if r.None? then NoneUnder(log, site, [])
            else i < |log| && BestUnder(log, site, [], i) && log[i].value == r.value
                 && ParamsBelow(decode, log[i].path, |site.keys|, []) == map[]
  {
    SearchEnd(log, site);
    var value, wild := First(log, ValueSlot(site.verb, site.keys)), First(log, WildSlot(site.verb, site.keys));
    i := if value.Some? then value.value else if wild.Some? then wild.value else 0;
    if value.Some? || wild.Some? {
      assert Keys(log[i].path)[|site.keys|..] == [];
    }
  }

  lemma ViaLiteral<T>(decode: string -> string, log: seq<Reg<T>>, site: Site, segs: seq<string>, i: nat)
    requires segs != [] && BestUnder(log, site.Child(Lit(segs[0])), segs[1..], i)
    ensures BestUnder(log, site, segs, i)
    ensures i < |log| && ParamsBelow(decode, log[i].path, |site.keys|, segs) ==
                         ParamsBelow(decode, log[i].path, |site.keys| + 1, segs[1..])
  {
    SearchLiteral(log, site, segs, i);
    ParamsStep(decode, log[i].path, |site.keys|, segs);
  }

  lemma ViaParam<T>(decode: string -> string, log: seq<Reg<T>>, site: Site, segs: seq<string>,
                       param: Option<(string, nat)>, i: nat)
    requires segs != [] && segs[0] != "" && param.Some? && ParamNamed(log, site, segs, param)
    requires NoneUnder(log, site.Child(Lit(segs[0])), segs[1..])
    requires BestUnder(log, site.Child(Param(param.value.0)), segs[1..], i)
    ensures BestUnder(log, site, segs, i)
    ensures i < |log| && ParamsBelow(decode, log[i].path, |site.keys|, segs) ==
                         ParamsBelow(decode, log[i].path, |site.keys| + 1, segs[1..])[param.value.0 := decode(segs[0])]
  {
    SearchParam(log, site, segs, param.value.0, i);
    ParamsStep(decode, log[i].path, |site.keys|, segs);
  }

  lemma ViaWildcard<T>(decode: string -> string, log: seq<Reg<T>>, site: Site, segs: seq<string>,
                          param: Option<(string, nat)>) returns (i: nat)
    requires segs != [] && ParamNamed(log, site, segs, param)
    requires NoneUnder(log, site.Child(Lit(segs[0])), segs[1..])
    requires segs[0] != "" && param.Some? ==> NoneUnder(log, site.Child(Param(param.value.0)), segs[1..])
    ensures var r := Held(log, WildSlot(site.verb, site.keys));
            if r.None? then NoneUnder(log, site, segs)
            else i < |log| && BestUnder(log, site, segs, i) && log[i].value == r.value
                 && ParamsBelow(decode, log[i].path, |site.keys|, segs) == map["*" := decode(Join(segs, '/'))]
  {
    SearchWildcard(log, site, segs);
    var wild := First(log, WildSlot(site.verb, site.keys));
    i := if wild.Some? then wild.value else 0;
    if wild.Some? {
      assert Keys(log[i].path)[|site.keys|..] == [];
    }
  }

  // ------------------------------------------------------ from subtrees to the flat list

  /** An exact hit beats every other match of the same request. */
  lemma ExactWins<T>(decode: string -> string, log: seq<Reg<T>>, verb: string, request: string)
    requires Rooted(log) && First(log, ExactSlot(verb, request)).Some?
    ensures Wins(log, verb, request, First(log, ExactSlot(verb, request)).value)
    ensures ParamsBelow(decode, request, 0, Segments(request)) == map[]
  {
    var i := First(log, ExactSlot(verb, request)).value;
    ExactKeys(request);
    NoParams(decode, Keys(request), Segments(request));
    assert Keys(request)[0..] == Keys(request);
    forall j: nat | j < |log| && Candidate(log[j], verb, request)
      ensures Beats(log, i, j)
    {
      if IsExact(log[j].path) {
        assert SlotOf(log[j]) == ExactSlot(verb, request);
      } else {
        ExactBeats(request, log[j].path);
      }
    }
  }

  lemma {:induction false} NoParams(decode: string -> string, keys: seq<Key>, segs: seq<string>)
    requires |keys| == |segs| && forall k :: 0 <= k < |keys| ==> keys[k].Lit?
    ensures ParamsOf(decode, keys, false, segs) == map[]
  {
    if keys != [] {
      NoParams(decode, keys[1..], segs[1..]);
    }
  }

  lemma ExactBeats(request: string, path: string)
    requires IsExact(request) && |request| > 0 && request[0] == '/'
    requires !IsExact(path) && |path| > 0 && path[0] == '/' && Matches(path, request)
    ensures LexLess(Rank(request), Rank(path))
  {
    ExactKeys(request);
    RankIs(path);
    var a, b, keys, segs := Rank(request), Rank(path), Keys(path), Segments(request);
    assert SegMatches(keys, IsWild(path), segs);
    var k := FirstNonLiteral(keys);
    if k < |keys| || IsWild(path) {
      hide Rank, Keys, IsWild, IsExact, Segments;
      assert DiffersAt(a, b, k);
    } else {
      forall x | 0 <= x < |keys|
        ensures Segments(path)[x] == segs[x]
      {
        assert KeyMatches(keys[x], segs[x]) && keys[x].Lit?;
      }
      assert Segments(path) == segs;
      PathOfSegments(path, request);
    }
  }

  lemma RankIs(path: string)
    ensures forall x :: 0 <= x < |Keys(path)| ==> Rank(path)[x] == KeyRank(Keys(path)[x])
    ensures Rank(path)[|Keys(path)|] == if IsWild(path) then 3 else 2
  {
    hide Keys, IsWild;
  }

  function FirstNonLiteral(keys: seq<Key>): (k: nat)
    ensures k <= |keys| && (k < |keys| ==> keys[k].Param?)
    ensures forall x :: 0 <= x < k ==> keys[x].Lit?
  {
    if keys == [] || keys[0].Param? then 0 else 1 + FirstNonLiteral(keys[1..])
  }

  /** Without an exact hit the best match of the whole trie is the flat-list winner. */
  lemma TopIsFlat<T>(log: seq<Reg<T>>, verb: string, request: string)
    requires First(log, ExactSlot(verb, request)).None?
    ensures NoneUnder(log, Top(verb), SegmentsFrom(request, 1)) <==>
            forall j: nat :: j < |log| ==> !Candidate(log[j], verb, request)
    ensures forall i: nat :: BestUnder(log, Top(verb), SegmentsFrom(request, 1), i) ==> Wins(log, verb, request, i)
    ensures SegmentsFrom(request, 1) == Segments(request)
  {
    forall j | 0 <= j < |log|
      ensures Under(log[j], Top(verb), Segments(request)) <==> Candidate(log[j], verb, request)
    {
      assert Keys(log[j].path)[0..] == Keys(log[j].path);
      assert SlotOf(log[j]) != ExactSlot(verb, request);
    }
  }
}
