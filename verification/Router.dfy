/**
 * The router object: an exact-path table per method and a mutable segment trie, searched by
 * backtracking over character offsets. Every method is proved against the registration log.
 */
module Router {
  import opened Text
  import opened RoutePatterns
  import opened RouteSearch
  import opened RouteAdding
  import opened RouteTrie

  /** The record `walk` writes parameters into. */
  class Params {
    var record: map<string, string>

    constructor ()
      ensures record == map[]
    {
      record := map[];
    }
  }

  class Router<T> {
    const strict: bool
    /** `decodeURIComponent`; `None` where it throws. */
    const decodeUri: string -> Option<string>
    var statics: map<string, map<string, T>>
    var tries: map<string, nat>
    var heap: seq<Node<T>>
    var params: map<string, string>
    ghost var view: View<T>

    ghost predicate Valid()
      reads this
    {
      Sound(Store(statics, tries, heap), view)
    }

    constructor (strict: bool, decodeUri: string -> Option<string>)
      ensures Valid() && view == View([], map[], []) && params == map[]
      ensures this.strict == strict && this.decodeUri == decodeUri
    {
      this.strict, this.decodeUri := strict, decodeUri;
      statics, tries, heap, params := map[], map[], [], map[];
      view := View([], map[], []);
    }

    function Decode(segment: string): string {
      if '%' !in segment then segment
      else match decodeUri(segment)
        case Some(text) => text
        case None => segment
    }

    // --------------------------------------------------------------------- add

    /** Registers `path`; an optional last parameter registers the path without it first. */
    method Add(verb: string, path: string, value: T) returns (r: AddResult)
      requires Valid()
      modifies this
      ensures Valid() && params == old(params)
      ensures Added(r, view.log, view.nodes.Keys) ==
              AddAll(old(view.log), old(view.nodes.Keys), verb, Expand(strict, path), value)
      decreases |path|
    {
      hide Sound, AddOne, IsOptional, Base, Normalize;
      var p := Normalize(strict, path);
      if IsOptional(p) {
        AddAllLast(view.log, view.nodes.Keys, verb, Expand(strict, Base(p)), p[..|p| - 1], value);
        r := Add(verb, Base(p), value);
        p := p[..|p| - 1];
        if r != Accepted { return; }
      } else {
        AddAllLast(view.log, view.nodes.Keys, verb, [], p, value);
      }
      r := Register(verb, p, value);
    }

    /** Registers one normalised path. */
    method Register(verb: string, path: string, value: T) returns (r: AddResult)
      requires Valid() && |path| > 0 && path[0] == '/'
      modifies this
      ensures Valid() && params == old(params)
      ensures Added(r, view.log, view.nodes.Keys) == AddOne(old(view.log), old(view.nodes.Keys), verb, path, value)
    {
      hide Sound;
      if IsExact(path) {
        SoundExact(Store(statics, tries, heap), view, Reg(verb, path, value));
        var table := if verb in statics then statics[verb] else map[];
        if path !in table { table := table[path := value]; }
        statics := statics[verb := table];
        view := view.(log := view.log + [Reg(verb, path, value)]);
        return Accepted;
      }
      var segments := Split(path, '/')[1..];
      assert segments == Segments(path) by {
        assert path == "" + ['/'] + path[1..];
        SplitCons("", path[1..], '/');
      }
      r := RegisterSegments(verb, path, segments, value);
    }

    /** Walks the trie along `segments`, creating nodes, and stores the value at the end. */
    method RegisterSegments(verb: string, path: string, segments: seq<string>, value: T) returns (r: AddResult)
      requires Valid() && |path| > 0 && path[0] == '/' && !IsExact(path) && segments == Segments(path)
      modifies this`tries, this`heap, this`view
      ensures Valid()
      ensures Added(r, view.log, view.nodes.Keys) == AddOne(old(view.log), old(view.nodes.Keys), verb, path, value)
    {
      hide Sound;
      var current := Root(verb);
      ghost var before := old(view.nodes.Keys);
      WalkStart(before, view.nodes.Keys, verb, segments);
      var i := 0;
      while i < |segments|
        invariant Valid() && view.log == old(view.log)
        invariant i <= |segments| && Walked(before, view.nodes.Keys, verb, segments, i)
        invariant Place(verb, segments, i) in view.nodes && view.nodes[Place(verb, segments, i)] == current
      {
        var segment := segments[i];
        ghost var site := Place(verb, segments, i);
        if segment == "*" {
          WalkStop(before, view.nodes.Keys, verb, path, i);
          if i != |segments| - 1 { return WildcardNotLast; }
          Put(current, verb, path, value);
          return Accepted;
        }
        SoundNode(Store(statics, tries, heap), view, site);
        ConflictTest(view.nodes, heap[current], view.log, before, verb, segments, i);
        if IsParamSegment(segment) && heap[current].param.Some? && heap[current].param.value.0 != segment[1..] {
          WalkStop(before, view.nodes.Keys, verb, path, i);
          return ConflictingNames;
        }
        PlaceStep(verb, segments, i);
        ghost var now := view.nodes.Keys;
        current := Child(current, site, KeyOf(segment), Place(verb, segments, i + 1));
        WalkStep(before, now, verb, segments, i, view.nodes.Keys);
        i := i + 1;
      }
      WalkStop(before, view.nodes.Keys, verb, path, i);
      Put(current, verb, path, value);
      return Accepted;
    }

    /** The root of the method's trie, created when missing. */
    method Root(verb: string) returns (root: nat)
      requires Valid()
      modifies this`tries, this`heap, this`view
      ensures Valid() && view.log == old(view.log)
      ensures Top(verb) in view.nodes && view.nodes[Top(verb)] == root
      ensures view.nodes.Keys == old(view.nodes.Keys) + {Top(verb)}
    {
      hide Sound;
      SoundTables(Store(statics, tries, heap), view, verb);
      if verb in tries { return tries[verb]; }
      root := |heap|;
      SoundRoot(Store(statics, tries, heap), view, verb);
      tries, heap := tries[verb := root], heap + [EmptyNode()];
      view := Extend(view, Top(verb));
    }

    /** The node for `key` below `current`, created when missing. */
    method Child(current: nat, ghost site: Site, key: Key, ghost child: Site) returns (next: nat)
      requires Valid() && site in view.nodes && view.nodes[site] == current && child == site.Child(key)
      requires key.Param? ==> !Conflicts(view.nodes.Keys, site.verb, site.keys, key.name)
      modifies this`heap, this`view
      ensures Valid() && view.log == old(view.log)
      ensures child in view.nodes && view.nodes[child] == next
      ensures view.nodes.Keys == old(view.nodes.Keys) + {child}
    {
      hide Sound;
      SoundNode(Store(statics, tries, heap), view, site);
      var node := heap[current];
      if key.Lit? && key.text in node.statics { return node.statics[key.text]; }
      if key.Param? && node.param.Some? {
        assert site.Child(Param(node.param.value.0)) in view.nodes;
        return node.param.value.1;
      }
      next := |heap|;
      var grown := if key.Lit? then node.(statics := node.statics[key.text := next])
                   else node.(param := Some((key.name, next)));
      SoundAttach(Store(statics, tries, heap), view, site, key, grown);
      heap := heap[current := grown] + [EmptyNode()];
      view := Extend(view, child);
    }

    /** Keeps the first value stored at a node, its wildcard slot for a wildcard pattern. */
    method Put(current: nat, verb: string, path: string, value: T)
      requires Valid() && !IsExact(path) && |path| > 0 && path[0] == '/'
      requires Site(verb, Keys(path)) in view.nodes && view.nodes[Site(verb, Keys(path))] == current
      modifies this`heap, this`view
      ensures Valid() && view == old(view).(log := old(view.log) + [Reg(verb, path, value)])
    {
      hide Sound;
      SoundStore(Store(statics, tries, heap), view, Reg(verb, path, value));
      var node := heap[current];
      if IsWild(path) {
        if node.wildcard.None? { node := node.(wildcard := Some(value)); }
      } else {
        if node.value.None? { node := node.(value := Some(value)); }
      }
      heap := heap[current := node];
      view := view.(log := view.log + [Reg(verb, path, value)]);
    }

    // -------------------------------------------------------------------- find

    /** A child that is not there has nothing registered below it. */
    lemma NoLiteral(current: nat, site: Site, text: string)
      requires Valid() && site in view.nodes && view.nodes[site] == current
      ensures current < |heap|
      ensures text !in heap[current].statics ==> forall segs :: NoneUnder(view.log, site.Child(Lit(text)), segs)
    {
      SoundNode(Store(statics, tries, heap), view, site);
      if text !in heap[current].statics {
        NoRegistration(view.nodes.Keys, view.log, site.Child(Lit(text)));
      }
    }

    /** All matches through a parameter go through the one parameter child of the node. */
    lemma OneName(current: nat, site: Site, segs: seq<string>)
      requires Valid() && site in view.nodes && view.nodes[site] == current && segs != []
      ensures current < |heap| && ParamNamed(view.log, site, segs, heap[current].param)
    {
      SoundNode(Store(statics, tries, heap), view, site);
      var log := view.log;
      forall j | 0 <= j < |log| && ParamUnder(log[j], site, segs)
        ensures site.Child(Keys(log[j].path)[|site.keys|]) in view.nodes
      {
        var reg := Site(log[j].verb, Keys(log[j].path));
        var n := |site.keys| + 1;
        assert reg in view.nodes && reg.keys[..n] == site.Child(reg.keys[n - 1]).keys;
      }
    }

    /**
     * Backtracking search below `current` from offset `start`. Answers with the best registration
     * of that subtree; parameters are written only on success, outermost last.
     */
    method Walk(current: nat, ghost site: Site, path: string, start: nat, out: Params) returns (r: Option<T>,
                ghost i: nat)
      requires Valid() && site in view.nodes && view.nodes[site] == current && start <= |path| + 1
      modifies out
      ensures r.None? ==> NoneUnder(view.log, site, SegmentsFrom(path, start)) && out.record == old(out.record)
      ensures r.Some? ==>
                && i < |view.log| && BestUnder(view.log, site, SegmentsFrom(path, start), i)
                && view.log[i].value == r.value
                && out.record == old(out.record) +
                                 ParamsBelow(Decode, view.log[i].path, |site.keys|, SegmentsFrom(path, start))
      decreases |path| + 1 - start
    {
      hide Valid, NoneUnder, BestUnder, ParamNamed, ParamsBelow, Text.Find, SegmentsFrom, Held, First, Split, Join,
           Keys;
      Reachable(site);
      ghost var log := view.log;
      var node := heap[current];
      i := 0;
      if start > |path| {
        r := node.value;
        if r.None? { r := node.wildcard; }
        ScanEnd(path, start);
        i := AtEnd(Decode, log, site);
        MergeUpdate(out.record, map[], "*", "");
        return;
      }
      var end := Text.Find(path, '/', start);
      var segment := path[start..end];
      ghost var segs := SegmentsFrom(path, start);
      ScanStep(path, start);
      NoLiteral(current, site, segment);
      if segment in node.statics {
        r, i := Walk(node.statics[segment], site.Child(Lit(segment)), path, end + 1, out);
        if r.Some? {
          ViaLiteral(Decode, log, site, segs, i);
          return;
        }
      }
      assert NoneUnder(log, site.Child(Lit(segs[0])), segs[1..]);
      OneName(current, site, segs);
      if node.param.Some? && segment != "" {
        var name := node.param.value.0;
        r, i := Walk(node.param.value.1, site.Child(Param(name)), path, end + 1, out);
        if r.Some? {
          ViaParam(Decode, log, site, segs, node.param, i);
          MergeUpdate(old(out.record), ParamsBelow(Decode, log[i].path, |site.keys| + 1, segs[1..]), name,
                      Decode(segment));
          out.record := out.record[name := Decode(segment)];
          return;
        }
      }
      r := node.wildcard;
      i := ViaWildcard(Decode, log, site, segs, node.param);
      MergeUpdate(out.record, map[], "*", Decode(path[start..]));
      if r.Some? {
        out.record := out.record["*" := Decode(path[start..])];
      }
    }

    lemma Reachable(site: Site)
      requires Valid() && site in view.nodes
      ensures view.nodes[site] < |heap| && NodeOk(view.nodes, view.log, site, heap[view.nodes[site]])
    {
      SoundNode(Store(statics, tries, heap), view, site);
    }

    /** The flat-list answer for one method, with the parameters of the winning pattern. */
    method Lookup(verb: string, path: string) returns (r: Option<T>, ghost i: nat)
      requires Valid()
      modifies this`params
      ensures r.None? ==> NoCandidate(verb, path) && params == old(params)
      ensures r.Some? ==> Wins(view.log, verb, path, i) && view.log[i].value == r.value
                          && params == ParamsBelow(Decode, view.log[i].path, 0, Segments(path))
    {
      hide Sound, BestUnder, NoneUnder, Wins, ParamsBelow;
      SoundTables(Store(statics, tries, heap), view, verb);
      i := 0;
      r := LookUp(statics, verb, path);
      if r.Some? {
        i := First(view.log, ExactSlot(verb, path)).value;
        ExactWins(Decode, view.log, verb, path);
        assert view.log[i].path == path;
        params := map[];
        return;
      }
      TopIsFlat(view.log, verb, path);
      if verb !in tries {
        NoRegistration(view.nodes.Keys, view.log, Top(verb));
        return;
      }
      var out := new Params();
      r, i := Walk(tries[verb], Top(verb), path, 1, out);
      MergeUpdate(map[], map[], "", "");
      if r.Some? { params := out.record; }
    }

    ghost predicate NoCandidate(verb: string, path: string)
      reads this
    {
      forall j: nat :: j < |view.log| ==> !Candidate(view.log[j], verb, path)
    }

    /**
     * The winner for the request's own method, else for GET when the method is HEAD, else for ALL.
     * `p` is the path without a trailing slash, `served` the method whose registration answers.
     */
    method Find(verb: string, path: string)
      returns (r: Option<T>, ghost served: string, ghost i: nat, ghost p: string)
      requires Valid()
      modifies this`params
      ensures if !strict && |path| > 1 && path[|path| - 1] == '/' then path == p + "/" else path == p
      ensures r.None? ==>
                && params == old(params) && NoCandidate(verb, p) && NoCandidate("ALL", p)
                && (verb == "HEAD" ==> NoCandidate("GET", p))
      ensures r.Some? ==>
                && Wins(view.log, served, p, i) && view.log[i].value == r.value
                && params == ParamsBelow(Decode, view.log[i].path, 0, Segments(p))
      ensures r.Some? ==>
                || served == verb
                || (served == "GET" && verb == "HEAD" && NoCandidate("HEAD", p))
                || (served == "ALL" && NoCandidate(verb, p) && (verb == "HEAD" ==> NoCandidate("GET", p)))
    {
      hide Sound, Wins, ParamsBelow, Candidate;
      var q := path;
      if !strict && |q| > 1 && q[|q| - 1] == '/' { q := q[..|q| - 1]; }
      p := q;
      served := verb;
      r, i := Lookup(verb, q);
      if r.None? && verb == "HEAD" {
        served := "GET";
        r, i := Lookup("GET", q);
      }
      if r.None? {
        served := "ALL";
        r, i := Lookup("ALL", q);
      }
    }

    /** Skipping the decoder where there is nothing to decode changes nothing; where it throws the segment stays. */
    lemma Decoded(segment: string)
      requires '%' !in segment ==> decodeUri(segment) == Some(segment)
      ensures decodeUri(segment) == None ==> Decode(segment) == segment
      ensures decodeUri(segment).Some? ==> Decode(segment) == decodeUri(segment).value
    {
    }
  }
}
