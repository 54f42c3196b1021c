/**
 * Where prefixes put a route, told on segments: the prefixes of the apps on the way to it, one
 * after the other, and then its own path.
 */
module RoutePrefixes {
  import opened Text
  import opened MountTree
  import opened RouteTable
  import opened RoutePatterns
  import opened RouteMeaning
  import opened RouteAdding

  // ------------------------------------------------------------------ segments of a joined path

  lemma SegmentsAppend(prefix: string, path: string)
    requires IsPrefix(prefix) && IsRooted(path)
    ensures Segments(prefix + path) == Segments(prefix) + Segments(path)
  {
    if prefix == "" {
      assert prefix + path == path;
    } else {
      SplitAppend(prefix[1..], path[1..], '/');
      assert (prefix + path)[1..] == prefix[1..] + ['/'] + path[1..];
    }
  }

  /** `path` with a slash in front. */
  function Slashed(path: string): string {
    if path != "" && path[0] == '/' then path else "/" + path
  }

  /** What a prefix of an app adds: its segments, less an empty last one; nothing when there is none. */
  function OwnSegments(own: string): seq<string> {
    if own == "" then []
    else
      var segs := Segments(Slashed(own));
      if segs[|segs| - 1] == "" then segs[..|segs| - 1] else segs
  }

  /** What a path adds below a prefix: its segments, but nothing for the empty path and the slash. */
  function PathSegments(way: seq<string>, path: string): seq<string> {
    if way != [] && (path == "" || path == "/") then [] else Segments(Slashed(path))
  }

  lemma TrailingSlash(path: string)
    requires IsRooted(path)
    ensures var segs := Segments(path);
            |segs| > 0 && (segs[|segs| - 1] == "" <==> path[|path| - 1] == '/')
            && (path[|path| - 1] == '/' ==> Segments(path[..|path| - 1]) == segs[..|segs| - 1])
  {
    if path[|path| - 1] == '/' {
      if |path| > 1 {
        var init := path[1..|path| - 1];
        SplitAppend(init, "", '/');
        assert path[1..] == init + ['/'] + "" && path[..|path| - 1][1..] == init;
      }
    } else {
      LastPiece(path[1..]);
    }
  }

  lemma {:induction false} LastPiece(s: string)
    requires s != "" && s[|s| - 1] != '/'
    ensures var parts := Split(s, '/'); parts[|parts| - 1] != ""
    decreases |s|
  {
    var i := Text.Find(s, '/', 0);
    if i < |s| {
      LastPiece(s[i + 1..]);
    }
  }

  /** `path` without a slash at its end. */
  function Cut(path: string): string
    requires IsRooted(path)
  {
    if path[|path| - 1] == '/' then path[..|path| - 1] else path
  }

  lemma CutIs(path: string)
    requires IsRooted(path)
    ensures IsPrefix(Cut(path)) && Segments(Cut(path)) == OwnSegments(path)
  {
    TrailingSlash(path);
    hide Segments;
  }

  lemma PrefixAppend(prefix: string, more: string)
    requires IsPrefix(prefix) && IsPrefix(more)
    ensures Segments(prefix + more) == Segments(prefix) + Segments(more)
  {
    if more == "" {
      assert prefix + more == prefix;
    } else {
      SegmentsAppend(prefix, more);
    }
  }

  lemma NoSegments()
    ensures Segments("") == [] && OwnSegments("") == []
  {
  }

  lemma SlashedSame(own: string)
    requires own != ""
    ensures OwnSegments(own) == OwnSegments(Slashed(own))
  {
    hide Segments;
  }

  /** Joining a prefix appends its segments. */
  lemma JoinPrefixIs(prefix: string, own: string)
    requires IsPrefix(prefix)
    ensures Segments(JoinPrefix(prefix, own)) == Segments(prefix) + OwnSegments(own)
  {
    hide Segments, OwnSegments;
    if own == "" {
      NoSegments();
      PrefixAppend(prefix, "");
      assert prefix + "" == prefix;
    } else {
      var rooted := Slashed(own);
      assert JoinPrefix(prefix, own) == prefix + Cut(rooted);
      SlashedSame(own);
      CutIs(rooted);
      PrefixAppend(prefix, Cut(rooted));
    }
  }

  /** Joining a path appends its segments. */
  lemma JoinPathIs(prefix: string, path: string)
    requires IsPrefix(prefix)
    ensures Segments(JoinPath(prefix, path)) == Segments(prefix) + PathSegments(Segments(prefix), path)
  {
    SegmentsAppend(prefix, Slashed(path));
  }

  // ------------------------------------------------------------------ on the way to an app

  /** The segments of the prefixes of the apps below `app` on the way to `address`. */
  function WaySegments(mounted: set<nat>, app: App, address: seq<nat>): seq<string>
    requires IsAddress(mounted, app, address)
    decreases address
  {
    if address == [] then []
    else
      var child := app.entries[address[0]].child;
      OwnSegments(child.prefix) + WaySegments(mounted, child, address[1..])
  }

  lemma {:induction false} PrefixAtIs(mounted: set<nat>, app: App, prefix: string, address: seq<nat>)
    requires IsAddress(mounted, app, address) && IsPrefix(prefix)
    ensures IsPrefix(PrefixAt(mounted, app, prefix, address))
    ensures Segments(PrefixAt(mounted, app, prefix, address)) == Segments(prefix) + WaySegments(mounted, app, address)
    decreases address
  {
    if address != [] {
      var child := app.entries[address[0]].child;
      JoinPrefixIs(prefix, child.prefix);
      PathsAreRooted(prefix, child.prefix, "");
      PrefixAtIs(mounted, child, JoinPrefix(prefix, child.prefix), address[1..]);
    }
  }

  /** A pattern put behind another one fits what the first fits followed by what it fits itself. */
  lemma {:induction false} FitsAppend(a: seq<string>, b: seq<string>, segs: seq<string>)
    requires b == [] || !EndsWild(a)
    ensures b == [] ==> Fits(a + b, segs) == Fits(a, segs)
    ensures !EndsWild(a) ==>
              (Fits(a + b, segs) <==> |a| <= |segs| && Fits(a, segs[..|a|]) && Fits(b, segs[|a|..]))
  {
    if b == [] {
      assert a + b == a;
    }
    if a == [] {
      assert a + b == b && segs[..0] == [] && segs[0..] == segs;
    } else if !EndsWild(a) && segs != [] {
      assert (a + b)[1..] == a[1..] + b;
      assert |a| > 1 ==> a[1..][|a| - 2] == a[|a| - 1];
      FitsAppend(a[1..], b, segs[1..]);
      if |a| <= |segs| {
        assert segs[..|a|][1..] == segs[1..][..|a| - 1] && segs[1..][|a| - 1..] == segs[|a|..];
      }
    }
  }

  /** The path of route `def` of the app at `address`, as compiled. */
  function CompiledPath(mounted: set<nat>, root: App, address: seq<nat>, def: Route): string
    requires IsAddress(mounted, root, address)
  {
    JoinPath(PrefixAt(mounted, root, JoinPrefix("", root.prefix), address), def.path)
  }

  /** The segments of all prefixes on the way from the root app to `address`. */
  function FullWay(mounted: set<nat>, root: App, address: seq<nat>): seq<string>
    requires IsAddress(mounted, root, address)
  {
    OwnSegments(root.prefix) + WaySegments(mounted, root, address)
  }

  lemma CompiledSegments(mounted: set<nat>, root: App, address: seq<nat>, def: Route)
    requires IsAddress(mounted, root, address)
    ensures var way, path := FullWay(mounted, root, address), CompiledPath(mounted, root, address, def);
            IsRooted(path) && Segments(path) == way + PathSegments(way, def.path)
  {
    var top := JoinPrefix("", root.prefix);
    var prefix := PrefixAt(mounted, root, top, address);
    assert CompiledPath(mounted, root, address, def) == JoinPath(prefix, def.path);
    PathsAreRooted("", root.prefix, "");
    PrefixAtIs(mounted, root, top, address);
    PathsAreRooted(prefix, "", def.path);
    AtRoot(mounted, root, address);
    hide *;
    JoinPathIs(prefix, def.path);
  }

  lemma AtRoot(mounted: set<nat>, root: App, address: seq<nat>)
    requires IsAddress(mounted, root, address)
    ensures Segments(JoinPrefix("", root.prefix)) + WaySegments(mounted, root, address) ==
            FullWay(mounted, root, address)
  {
    hide WaySegments, OwnSegments, JoinPrefix, Segments, IsAddress;
    JoinPrefixIs("", root.prefix);
    NoSegments();
    assert [] + OwnSegments(root.prefix) == OwnSegments(root.prefix);
  }

  /**
   * A route matches exactly the requests made of segments the prefixes on its way fit, outer ones
   * first, followed by segments its own path fits.
   */
  lemma RouteMatches(mounted: set<nat>, root: App, address: seq<nat>, def: Route, request: string)
    requires IsAddress(mounted, root, address) && IsRooted(request)
    ensures var way := FullWay(mounted, root, address);
            var (own, segs) := (PathSegments(way, def.path), Segments(request));
            && (Matches(CompiledPath(mounted, root, address, def), request) <==> Fits(way + own, segs))
            && (!EndsWild(way) ==>
                  (Fits(way + own, segs) <==>
                   |way| <= |segs| && Fits(way, segs[..|way|]) && Fits(own, segs[|way|..])))
  {
    var way := FullWay(mounted, root, address);
    CompiledSegments(mounted, root, address, def);
    MatchesIs(CompiledPath(mounted, root, address, def), request);
    hide FullWay, PathSegments, CompiledPath, Matches, EndsWild, IsAddress, Segments;
    if !EndsWild(way) { FitsAppend(way, PathSegments(way, def.path), Segments(request)); }
  }
}
