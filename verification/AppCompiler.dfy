/**
 * `compileApp` as the source runs it: collecting apps with a set of seen keys, effective hooks
 * with a cache, and a visit that registers routes while marking apps as visited.
 */
module AppCompiler {
  import opened Lists
  import opened Text
  import opened MountTree
  import opened RouteTable
  import opened RouteSearch
  import opened RouteAdding
  import opened RouteTrie
  import R = Router
  import P = RoutePatterns

  // ------------------------------------------------------------------ the apps that take part

  /** What `collectApps` has seen: the keys and the apps, in the order they were reached. */
  datatype Collected = Collected(seen: set<string>, out: seq<nat>)

  function Collect(app: App, c: Collected): Collected
    decreases app, |app.entries| + 1, 0
  {
    if app.id in c.out || (app.key.Some? && app.key.value in c.seen) then c
    else CollectUpTo(app, |app.entries|, Enter(app, c))
  }

  function Enter(app: App, c: Collected): Collected {
    Collected(if app.key.Some? then c.seen + {app.key.value} else c.seen, c.out + [app.id])
  }

  function CollectUpTo(app: App, n: nat, c: Collected): Collected
    requires n <= |app.entries|
    decreases app, n, 0
  {
    if n == 0 then c
    else
      var before := CollectUpTo(app, n - 1, c);
      if app.entries[n - 1].Mount? then Collect(app.entries[n - 1].child, before) else before
  }

  function Included(root: App): set<nat> {
    Members(Collect(root, Collected({}, [])).out)
  }

  function Members(s: seq<nat>): set<nat> {
    set x | x in s
  }

  /** `objects` knows every app of the tree by its identity. */
  predicate Known(objects: map<nat, App>, app: App)
    decreases app, |app.entries| + 1
  {
    app.id in objects && objects[app.id] == app && KnownUpTo(objects, app, |app.entries|)
  }

  predicate KnownUpTo(objects: map<nat, App>, app: App, n: nat)
    requires n <= |app.entries|
    decreases app, n
  {
    n == 0 ||
    (KnownUpTo(objects, app, n - 1) && (app.entries[n - 1].Mount? ==> Known(objects, app.entries[n - 1].child)))
  }

  lemma {:induction false} KnownBelow(objects: map<nat, App>, app: App, n: nat, j: nat)
    requires j < n <= |app.entries| && KnownUpTo(objects, app, n) && app.entries[j].Mount?
    ensures Known(objects, app.entries[j].child)
  {
    if j < n - 1 {
      KnownBelow(objects, app, n - 1, j);
    }
  }

  /** Taken, or left out because an app with the same key was taken. */
  predicate Settled(c: Collected, app: App) {
    app.id in c.out || (app.key.Some? && app.key.value in c.seen)
  }

  predicate ChildrenSettled(c: Collected, app: App) {
    forall j: nat :: j < |app.entries| && app.entries[j].Mount? ==> Settled(c, app.entries[j].child)
  }

  /** No app twice, no key twice, and the seen keys are those of the collected apps. */
  ghost predicate Distinct(objects: map<nat, App>, c: Collected) {
    && (forall i :: 0 <= i < |c.out| ==> c.out[i] in objects)
    && (forall i, j :: 0 <= i < j < |c.out| ==> c.out[i] != c.out[j])
    && (forall i :: 0 <= i < |c.out| && objects[c.out[i]].key.Some? ==> objects[c.out[i]].key.value in c.seen)
    && (forall i, j ::
        0 <= i < j < |c.out| && objects[c.out[i]].key.Some? ==> objects[c.out[i]].key != objects[c.out[j]].key)
    && (forall key :: key in c.seen ==> exists i :: 0 <= i < |c.out| && objects[c.out[i]].key == Some(key))
  }

  /** From `c` to `d` nothing is forgotten and all apps taken in between are settled. */
  ghost predicate Grows(objects: map<nat, App>, c: Collected, d: Collected)
    requires Distinct(objects, d)
  {
    && c.out <= d.out && c.seen <= d.seen
    && forall i :: |c.out| <= i < |d.out| ==> ChildrenSettled(d, objects[d.out[i]])
  }

  lemma EnterDistinct(objects: map<nat, App>, app: App, c: Collected)
    requires Distinct(objects, c) && app.id in objects && objects[app.id] == app && !Settled(c, app)
    ensures Distinct(objects, Enter(app, c))
  {
    var d := Enter(app, c);
    forall key | key in d.seen
      ensures exists i :: 0 <= i < |d.out| && objects[d.out[i]].key == Some(key)
    {
      if key in c.seen {
        var i :| 0 <= i < |c.out| && objects[c.out[i]].key == Some(key);
        assert d.out[i] == c.out[i];
      } else {
        assert d.out[|c.out|] == app.id;
      }
    }
  }

  lemma {:induction false} CollectSettles(objects: map<nat, App>, app: App, c: Collected)
    requires Known(objects, app) && Distinct(objects, c)
    ensures var d := Collect(app, c);
            Distinct(objects, d) && Grows(objects, c, d) && Settled(d, app) && (!Settled(c, app) ==> app.id in d.out)
    decreases app, |app.entries| + 1, 0
  {
    if !Settled(c, app) {
      EnterDistinct(objects, app, c);
      CollectUpToSettles(objects, app, |app.entries|, Enter(app, c));
      var e, d := Enter(app, c), Collect(app, c);
      hide Known, Distinct, CollectUpTo;
      assert d.out[|c.out|] == e.out[|c.out|] == app.id;
    }
  }

  lemma {:induction false} CollectUpToSettles(objects: map<nat, App>, app: App, n: nat, c: Collected)
    requires n <= |app.entries| && KnownUpTo(objects, app, |app.entries|) && Distinct(objects, c)
    ensures var d := CollectUpTo(app, n, c);
            && Distinct(objects, d) && Grows(objects, c, d)
            && forall j: nat :: j < n && app.entries[j].Mount? ==> Settled(d, app.entries[j].child)
    decreases app, n, 0
  {
    if n > 0 {
      CollectUpToSettles(objects, app, n - 1, c);
      if app.entries[n - 1].Mount? {
        KnownBelow(objects, app, |app.entries|, n - 1);
        CollectSettles(objects, app.entries[n - 1].child, CollectUpTo(app, n - 1, c));
        GrowsTwice(objects, c, CollectUpTo(app, n - 1, c), CollectUpTo(app, n, c));
      }
    }
  }

  lemma GrowsTwice(objects: map<nat, App>, c: Collected, d: Collected, e: Collected)
    requires Distinct(objects, d) && Distinct(objects, e) && Grows(objects, c, d) && Grows(objects, d, e)
    ensures Grows(objects, c, e)
  {
    forall i | |c.out| <= i < |d.out|
      ensures ChildrenSettled(e, objects[e.out[i]])
    {
      assert e.out[i] == d.out[i];
    }
  }

  lemma {:induction false} SameMounts(a: App, b: App, n: nat, c: Collected)
    requires n <= |a.entries| && n <= |b.entries| && a.entries[..n] == b.entries[..n]
    ensures CollectUpTo(a, n, c) == CollectUpTo(b, n, c)
  {
    if n > 0 {
      assert forall app: App :: n <= |app.entries| ==> app.entries[..n][..n - 1] == app.entries[..n - 1];
      assert a.entries[n - 1] == a.entries[..n][n - 1] && b.entries[n - 1] == b.entries[..n][n - 1];
      SameMounts(a, b, n - 1, c);
    }
  }

  /** Of apps with the same key the first one reached takes part: what is mounted later displaces nothing. */
  lemma MountedLast(app: App, child: App, c: Collected)
    requires !Settled(c, app)
    ensures var (before, after) := (Collect(app, c), Collect(app.(entries := app.entries + [Mount(child)]), c));
            after == (if Settled(before, child) then before else Collect(child, before))
  {
    var (more, n) := (app.(entries := app.entries + [Mount(child)]), |app.entries|);
    assert more.entries[..n] == app.entries[..n] && more.entries[n] == Mount(child);
    assert Enter(app, c) == Enter(more, c);
    SameMounts(app, more, n, Enter(app, c));
    assert CollectUpTo(more, n + 1, Enter(more, c)) == Collect(child, CollectUpTo(more, n, Enter(more, c)));
  }

  predicate LeavesOut(root: App, app: App, j: nat) {
    j < |app.entries| && app.entries[j].Mount? && app.entries[j].child.id !in Included(root)
  }

  /**
   * Apps with the same key take part once: the included apps have distinct keys, and a mounted
   * child of an included app is itself included unless an included app carries its key.
   */
  lemma CollectedOnce(objects: map<nat, App>, root: App)
    requires Known(objects, root)
    ensures root.id in Included(root)
    ensures forall a, b :: a in Included(root) && b in Included(root) && a != b ==>
                a in objects && b in objects && (objects[a].key == None || objects[a].key != objects[b].key)
    ensures forall a, j: nat | a in Included(root) && a in objects && LeavesOut(root, objects[a], j) ::
              exists b :: b in Included(root) && b in objects && objects[b].key == objects[a].entries[j].child.key
  {
    var c, d := Collected({}, []), Collect(root, Collected({}, []));
    CollectSettles(objects, root, c);
    forall a, j: nat | a in Included(root) && a in objects && LeavesOut(root, objects[a], j)
      ensures exists b :: b in Included(root) && b in objects && objects[b].key == objects[a].entries[j].child.key
    {
      var child := objects[a].entries[j].child;
      var i :| 0 <= i < |d.out| && d.out[i] == a;
      assert Settled(d, child);
      var k :| 0 <= k < |d.out| && objects[d.out[k]].key == child.key;
      assert d.out[k] in Included(root);
    }
  }

  lemma {:induction false} FewerIds(mounted: set<nat>, all: set<nat>, app: App, n: nat)
    requires mounted <= all && n <= |app.entries|
    ensures IdsUpTo(mounted, app, n) <= IdsUpTo(all, app, n)
    decreases app, n
  {
    if n > 0 {
      FewerIds(mounted, all, app, n - 1);
      if Mounts(mounted, app, n - 1) {
        FewerIds(mounted, all, app.entries[n - 1].child, |app.entries[n - 1].child.entries|);
      }
    }
  }

  lemma {:induction false} FewerTree(mounted: set<nat>, all: set<nat>, app: App, n: nat)
    requires mounted <= all && n <= |app.entries| && TreeUpTo(all, app, n)
    ensures TreeUpTo(mounted, app, n)
    decreases app, n
  {
    if n > 0 {
      FewerTree(mounted, all, app, n - 1);
      if Mounts(mounted, app, n - 1) {
        var child := app.entries[n - 1].child;
        FewerTree(mounted, all, child, |child.entries|);
        FewerIds(mounted, all, child, |child.entries|);
        FewerIds(mounted, all, app, n - 1);
      }
    }
  }

  /** When every app object is mounted once, so is every included one. */
  lemma IncludedTree(objects: map<nat, App>, root: App)
    requires Known(objects, root) && IsTree(objects.Keys, root)
    ensures IsTree(Included(root), root)
  {
    CollectSettles(objects, root, Collected({}, []));
    assert Included(root) <= objects.Keys;
    FewerTree(Included(root), objects.Keys, root, |root.entries|);
    FewerIds(Included(root), objects.Keys, root, |root.entries|);
  }

  // ------------------------------------------------------------------ registering routes

  /** The outcome of adding `routes` to a router in order, up to the first that is refused. */
  ghost function AddRoutes(log: seq<P.Reg<CompiledRoute>>, sites: set<Site>, strict: bool,
                           routes: seq<CompiledRoute>): Added<CompiledRoute> {
    if routes == [] then Added(Accepted, log, sites)
    else
      var before := AddRoutes(log, sites, strict, routes[..|routes| - 1]);
      AddNext(before, strict, routes[|routes| - 1])
  }

  ghost function AddNext(before: Added<CompiledRoute>, strict: bool, route: CompiledRoute): Added<CompiledRoute> {
    if before.result != Accepted then before
    else AddAll(before.log, before.sites, route.verb, Expand(strict, route.path), route)
  }

  /** Continues `before` with more routes, unless it was refused. */
  ghost function Onward(before: Added<CompiledRoute>, strict: bool, routes: seq<CompiledRoute>): Added<CompiledRoute> {
    if before.result != Accepted then before else AddRoutes(before.log, before.sites, strict, routes)
  }

  lemma {:induction false} AddRoutesAppend(before: Added<CompiledRoute>, strict: bool, a: seq<CompiledRoute>,
                                           b: seq<CompiledRoute>)
    ensures Onward(before, strict, a + b) == Onward(Onward(before, strict, a), strict, b)
  {
    hide AddNext;
    if b == [] {
      assert a + b == a;
    } else if before.result == Accepted {
      AddRoutesAppend(before, strict, a, b[..|b| - 1]);
      assert (a + b)[..|a + b| - 1] == a + b[..|b| - 1];
      NextRefused(Onward(before, strict, a), strict, b[|b| - 1]);
    }
  }

  lemma NextRefused(before: Added<CompiledRoute>, strict: bool, route: CompiledRoute)
    ensures before.result != Accepted ==> AddNext(before, strict, route) == before
  {
  }

  /** The registrations of one route: one for each path its optional parameters stand for. */
  function RegsOf(route: CompiledRoute, paths: seq<string>): seq<P.Reg<CompiledRoute>> {
    seq(|paths|, i requires 0 <= i < |paths| => P.Reg(route.verb, paths[i], route))
  }

  function LogOf(strict: bool, routes: seq<CompiledRoute>): seq<P.Reg<CompiledRoute>> {
    if routes == [] then []
    else
      var last := routes[|routes| - 1];
      LogOf(strict, routes[..|routes| - 1]) + RegsOf(last, Expand(strict, last.path))
  }

  lemma {:induction false} PathsLogged(log: seq<P.Reg<CompiledRoute>>, sites: set<Site>, route: CompiledRoute,
                                       paths: seq<string>)
    ensures var after := AddAll(log, sites, route.verb, paths, route);
            after.log <= log + RegsOf(route, paths)
            && (after.result == Accepted ==> after.log == log + RegsOf(route, paths))
  {
    hide *;
    if paths == [] {
      NoPaths(log, sites, route);
    } else {
      var init, last := paths[..|paths| - 1], paths[|paths| - 1];
      var before := AddAll(log, sites, route.verb, init, route);
      PathsLogged(log, sites, route, init);
      assert paths == init + [last];
      AddAllLast(log, sites, route.verb, init, last, route);
      OneLogged(before.log, before.sites, route, last);
      RegsSnoc(route, init, last);
    }
  }

  lemma NoPaths(log: seq<P.Reg<CompiledRoute>>, sites: set<Site>, route: CompiledRoute)
    ensures AddAll(log, sites, route.verb, [], route) == Added(Accepted, log, sites) && RegsOf(route, []) == []
  {
  }

  lemma OneLogged(log: seq<P.Reg<CompiledRoute>>, sites: set<Site>, route: CompiledRoute, path: string)
    ensures var after := AddOne(log, sites, route.verb, path, route);
            after.log == if after.result == Accepted then log + [P.Reg(route.verb, path, route)] else log
  {
    hide Outcome, Grown;
  }

  lemma RegsSnoc(route: CompiledRoute, paths: seq<string>, path: string)
    ensures RegsOf(route, paths + [path]) == RegsOf(route, paths) + [P.Reg(route.verb, path, route)]
  {
  }

  /** A router filled with routes holds the registrations of them all, in order; of a refused one, the first ones. */
  lemma {:induction false} RoutesLogged(sites: set<Site>, strict: bool, routes: seq<CompiledRoute>)
    ensures var after := AddRoutes([], sites, strict, routes);
            after.log <= LogOf(strict, routes) && (after.result == Accepted ==> after.log == LogOf(strict, routes))
  {
    if routes != [] {
      var init, last := routes[..|routes| - 1], routes[|routes| - 1];
      RoutesLogged(sites, strict, init);
      var before := AddRoutes([], sites, strict, init);
      PathsLogged(before.log, before.sites, last, Expand(strict, last.path));
      hide RegsOf, AddAll, Expand;
    }
  }

  // ------------------------------------------------------------------ compiling

  predicate CacheOk(mounted: set<nat>, objects: map<nat, App>, cache: map<nat, seq<Lifted>>) {
    forall id :: id in cache ==> id in objects && cache[id] == Effective(mounted, objects[id])
  }

  /** The variables `compileApp` and its inner functions share. */
  class Compilation {
    const router: R.Router<CompiledRoute>
    var seen: set<string>
    var out: seq<nat>
    var included: set<nat>
    var cache: map<nat, seq<Lifted>>
    var visited: set<nat>

    constructor (router: R.Router<CompiledRoute>)
      ensures this.router == router && seen == {} && out == [] && included == {} && cache == map[] && visited == {}
    {
      this.router := router;
      seen, out, included, cache, visited := {}, [], {}, map[], {};
    }

    method CollectVisit(app: App)
      modifies this`seen, this`out
      ensures Collected(seen, out) == Collect(app, old(Collected(seen, out)))
      decreases app
    {
      if app.id in out { return; }
      if app.key.Some? {
        if app.key.value in seen { return; }
        seen := seen + {app.key.value};
      }
      out := out + [app.id];
      var i := 0;
      while i < |app.entries|
        invariant i <= |app.entries|
        invariant Collected(seen, out) == CollectUpTo(app, i, Enter(app, old(Collected(seen, out))))
      {
        if app.entries[i].Mount? { CollectVisit(app.entries[i].child); }
        i := i + 1;
      }
    }

    /** Own hooks plus hooks lifted from mounted children, computed once per app. */
    method EffectiveHooks(app: App, ghost objects: map<nat, App>) returns (own: seq<Lifted>)
      requires Known(objects, app) && CacheOk(included, objects, cache)
      modifies this`cache
      ensures CacheOk(included, objects, cache) && own == Effective(included, app)
      decreases app
    {
      if app.id in cache { return cache[app.id]; }
      own := [];
      var i := 0;
      while i < |app.entries|
        invariant i <= |app.entries| && CacheOk(included, objects, cache)
        invariant own == EffectiveUpTo(included, app, i)
      {
        match app.entries[i] {
          case HookEntry(hook) =>
            own := own + [Lifted(hook, None)];
          case Mount(child) =>
            if child.id in included {
              KnownBelow(objects, app, |app.entries|, i);
              var below := EffectiveHooks(child, objects);
              own := LiftInto(own, below, child.id);
            }
        }
        i := i + 1;
      }
      cache := cache[app.id := own];
    }

    /** Adds the routes of one app. */
    method AddOwn(defs: seq<Route>, prefix: string, hooks: seq<Hook>) returns (r: AddResult)
      requires router.Valid()
      modifies router
      ensures router.Valid()
      ensures Added(r, router.view.log, router.view.nodes.Keys) ==
              AddRoutes(old(router.view.log), old(router.view.nodes.Keys), router.strict,
                        CompiledAll(defs, prefix, hooks))
    {
      hide Sound, AddAll, ListsOf, JoinPath, AddRoutes;
      ghost var start := Added(Accepted, router.view.log, router.view.nodes.Keys);
      ghost var all := CompiledAll(defs, prefix, hooks);
      r := Accepted;
      AddNone(start, router.strict);
      var i := 0;
      while i < |defs|
        invariant i <= |defs| && router.Valid() && r == Accepted
        invariant Added(Accepted, router.view.log, router.view.nodes.Keys) == Onward(start, router.strict, all[..i])
      {
        var path := JoinPath(prefix, defs[i].path);
        var route := CompileRoute(defs[i], path, hooks);
        ghost var before := Added(Accepted, router.view.log, router.view.nodes.Keys);
        r := router.Add(defs[i].verb, path, route);
        AddStep(start, router.strict, all, i, before, Added(r, router.view.log, router.view.nodes.Keys));
        if r != Accepted { return; }
        i := i + 1;
      }
      assert all[..i] == all;
    }

    /** Registers the routes of `app` and of the apps it mounts that were not visited before. */
    method Visit(app: App, chain: seq<Hook>, prefix: string, parentOwn: seq<Lifted>, ghost objects: map<nat, App>)
      returns (r: AddResult)
      requires Known(objects, app) && CacheOk(included, objects, cache) && router.Valid()
      requires IsTree(included, app) && visited !! Ids(included, app)
      modifies this`cache, this`visited, router
      ensures CacheOk(included, objects, cache) && router.Valid()
      ensures Added(r, router.view.log, router.view.nodes.Keys) ==
              AddRoutes(old(router.view.log), old(router.view.nodes.Keys), router.strict,
                        RouteTable.Visit(included, app, chain + Without(parentOwn, app.id),
                                         JoinPrefix(prefix, app.prefix)))
      ensures r == Accepted ==> visited == old(visited) + Ids(included, app)
      decreases app
    {
      hide Sound, IsTree, TreeUpTo, CacheOk, JoinPrefix, Without, HooksOf, CompiledAll, AddRoutes, Effective;
      visited := visited + {app.id};
      var own := EffectiveHooks(app, objects);
      var ancestors := PassedOn(chain, parentOwn, app.id);
      var hooks := WithHooksOf(ancestors, own);
      var full := JoinPrefix(prefix, app.prefix);
      ghost var start := Added(Accepted, router.view.log, router.view.nodes.Keys);
      ghost var ownRoutes := CompiledAll(app.routes, full, hooks);
      ghost var done := VisitUpTo(included, app, 0, ancestors, full);
      r := AddOwn(app.routes, full, hooks);
      AddRoutesAppend(start, router.strict, ownRoutes, VisitUpTo(included, app, |app.entries|, ancestors, full));
      ghost var mid := Added(r, router.view.log, router.view.nodes.Keys);
      if r != Accepted { return; }
      var i := 0;
      VisitNone(included, app, mid, router.strict, ancestors, full);
      while i < |app.entries|
        invariant i <= |app.entries| && router.Valid() && CacheOk(included, objects, cache) && r == Accepted
        invariant Added(r, router.view.log, router.view.nodes.Keys) ==
                  Onward(mid, router.strict, VisitUpTo(included, app, i, ancestors, full))
        invariant visited == old(visited) + {app.id} + IdsUpTo(included, app, i)
      {
        ghost var before := Added(r, router.view.log, router.view.nodes.Keys);
        if Mounts(included, app, i) {
          var child := app.entries[i].child;
          ChildFresh(included, app, i, old(visited));
          KnownBelow(objects, app, |app.entries|, i);
          VisitPartIs(included, app, i, ancestors, full);
          if child.id !in visited {
            r := Visit(child, ancestors, full, own, objects);
          }
        } else {
          AddNone(before, router.strict);
        }
        VisitStep(included, app, i, mid, before, Added(r, router.view.log, router.view.nodes.Keys), router.strict,
                  ancestors, full);
        if r != Accepted { return; }
        i := i + 1;
      }
    }
  }

  lemma AddNone(start: Added<CompiledRoute>, strict: bool)
    ensures Onward(start, strict, []) == start
  {
  }

  lemma VisitNone(mounted: set<nat>, app: App, mid: Added<CompiledRoute>, strict: bool, ancestors: seq<Hook>,
                  full: string)
    ensures mid == Onward(mid, strict, VisitUpTo(mounted, app, 0, ancestors, full))
  {
  }

  /** Adding the routes below entry `i` keeps the invariant, or fixes the outcome of the whole visit. */
  lemma VisitStep(mounted: set<nat>, app: App, i: nat, mid: Added<CompiledRoute>, before: Added<CompiledRoute>,
                  after: Added<CompiledRoute>, strict: bool, ancestors: seq<Hook>, full: string)
    requires i < |app.entries| && before.result == Accepted
    requires before == Onward(mid, strict, VisitUpTo(mounted, app, i, ancestors, full))
    requires after == AddRoutes(before.log, before.sites, strict, VisitPart(mounted, app, i, ancestors, full))
    ensures after == Onward(mid, strict, VisitUpTo(mounted, app, i + 1, ancestors, full))
    ensures after.result != Accepted ==>
            after == Onward(mid, strict, VisitUpTo(mounted, app, |app.entries|, ancestors, full))
  {
    hide AddRoutes, VisitPart;
    AddRoutesAppend(mid, strict, VisitUpTo(mounted, app, i, ancestors, full),
                    VisitPart(mounted, app, i, ancestors, full));
    if after.result != Accepted {
      VisitStuck(mounted, app, i + 1, |app.entries|, mid, strict, ancestors, full);
    }
  }

  lemma {:induction false} VisitStuck(mounted: set<nat>, app: App, i: nat, n: nat, mid: Added<CompiledRoute>,
                                      strict: bool,
                                      ancestors: seq<Hook>, full: string)
    requires i <= n <= |app.entries|
    requires Onward(mid, strict, VisitUpTo(mounted, app, i, ancestors, full)).result != Accepted
    ensures Onward(mid, strict, VisitUpTo(mounted, app, n, ancestors, full)) ==
            Onward(mid, strict, VisitUpTo(mounted, app, i, ancestors, full))
  {
    hide AddRoutes, VisitPart;
    if i < n {
      VisitStuck(mounted, app, i, n - 1, mid, strict, ancestors, full);
      AddRoutesAppend(mid, strict, VisitUpTo(mounted, app, n - 1, ancestors, full),
                      VisitPart(mounted, app, n - 1, ancestors, full));
    }
  }

  lemma AddStep(start: Added<CompiledRoute>, strict: bool, all: seq<CompiledRoute>, i: nat,
                before: Added<CompiledRoute>, after: Added<CompiledRoute>)
    requires i < |all| && before == Onward(start, strict, all[..i]) && before.result == Accepted
    requires after == AddNext(before, strict, all[i])
    ensures after == Onward(start, strict, all[..i + 1])
    ensures after.result != Accepted ==> after == Onward(start, strict, all)
  {
    hide AddNext;
    assert all[..i + 1][..i] == all[..i];
    if after.result != Accepted {
      AddRoutesAppend(start, strict, all[..i + 1], all[i + 1..]);
      assert all[..i + 1] + all[i + 1..] == all;
    }
  }

  /** In a tree no app mounted by `app` was visited before its turn. */
  lemma ChildFresh(mounted: set<nat>, app: App, j: nat, before: set<nat>)
    requires IsTree(mounted, app) && before !! Ids(mounted, app) && Mounts(mounted, app, j)
    ensures var child := app.entries[j].child;
            IsTree(mounted, child) && (before + {app.id} + IdsUpTo(mounted, app, j)) !! Ids(mounted, child)
            && IdsUpTo(mounted, app, j + 1) == IdsUpTo(mounted, app, j) + Ids(mounted, child)
  {
    TreeBelow(mounted, app, |app.entries|, j);
    IdsInclude(mounted, app, |app.entries|, j);
    hide TreeUpTo;
  }

  method CompileRoute(def: Route, path: string, inherited: seq<Hook>) returns (route: CompiledRoute)
    ensures route == Compiled(def, path, inherited)
    ensures route.path == path && route.verb == def.verb && route.handler == def.handler
    ensures route.parse <==> def.verb != "GET" && def.verb != "HEAD"
    ensures forall kind :: kind in route.hooks && route.hooks[kind] == OfKind(inherited + def.local, kind)
  {
    forall kind
      ensures kind in ListsOf(inherited + def.local)
              && ListsOf(inherited + def.local)[kind] == OfKind(inherited + def.local, kind)
    {
      EachKind(inherited + def.local, kind);
    }
    hide ListsOf;
    var lists := SplitHooks(inherited + def.local);
    route := CompiledRoute(path, def.verb, def.handler, lists, def.verb != "GET" && def.verb != "HEAD");
  }

  /** `own` followed by what lifts out of `below`. */
  method LiftInto(own: seq<Lifted>, below: seq<Lifted>, from: nat) returns (r: seq<Lifted>)
    ensures r == own + Lift(below, from)
  {
    r := own;
    var i := 0;
    while i < |below|
      invariant i <= |below| && r == own + Lift(below[..i], from)
    {
      assert below[..i + 1][..i] == below[..i];
      var scope := below[i].hook.scope;
      if scope != Local && !(scope == Scoped && below[i].from != None) {
        r := r + [Lifted(below[i].hook, Some(from))];
      }
      i := i + 1;
    }
    assert below[..i] == below;
  }

  /** `chain` followed by the hooks a parent passes on to its child `id`. */
  method PassedOn(chain: seq<Hook>, parentOwn: seq<Lifted>, id: nat) returns (r: seq<Hook>)
    ensures r == chain + Without(parentOwn, id)
  {
    r := chain;
    var i := 0;
    while i < |parentOwn|
      invariant i <= |parentOwn| && r == chain + Without(parentOwn[..i], id)
    {
      assert parentOwn[..i + 1][..i] == parentOwn[..i];
      if parentOwn[i].from != Some(id) { r := r + [parentOwn[i].hook]; }
      i := i + 1;
    }
    assert parentOwn[..i] == parentOwn;
  }

  method WithHooksOf(chain: seq<Hook>, own: seq<Lifted>) returns (r: seq<Hook>)
    ensures r == chain + HooksOf(own)
  {
    r := chain;
    var i := 0;
    while i < |own|
      invariant i <= |own| && r == chain + HooksOf(own[..i])
    {
      assert HooksOf(own[..i + 1]) == HooksOf(own[..i]) + [own[i].hook];
      r := r + [own[i].hook];
      i := i + 1;
    }
    assert own[..i] == own;
  }

  /** Pushes every hook to the list of its kind. */
  method SplitHooks(hooks: seq<Hook>) returns (lists: map<Kind, seq<Hook>>)
    ensures lists == ListsOf(hooks)
  {
    lists := ListsOf([]);
    var i := 0;
    while i < |hooks|
      invariant i <= |hooks| && lists == ListsOf(hooks[..i])
    {
      EachKind(hooks[..i], hooks[i].kind);
      PushOne(hooks[..i], hooks[i]);
      assert hooks[..i + 1] == hooks[..i] + [hooks[i]];
      lists := lists[hooks[i].kind := lists[hooks[i].kind] + [hooks[i]]];
      i := i + 1;
    }
    assert hooks[..i] == hooks;
  }

  lemma PushOne(hooks: seq<Hook>, hook: Hook)
    ensures ListsOf(hooks + [hook]) == ListsOf(hooks)[hook.kind := OfKind(hooks, hook.kind) + [hook]]
  {
    var after, pushed := ListsOf(hooks + [hook]), ListsOf(hooks)[hook.kind := OfKind(hooks, hook.kind) + [hook]];
    assert (hooks + [hook])[..|hooks|] == hooks;
    forall kind
      ensures kind in after && kind in pushed && after[kind] == pushed[kind]
    {
      EachKind(hooks, kind);
      EachKind(hooks + [hook], kind);
    }
    hide ListsOf;
    assert after.Keys == pushed.Keys;
  }

  // ------------------------------------------------------------------ the whole

  /** Compiles `root`: fills a new router and splits the hooks that apply when no route matches. */
  method CompileApp(root: App, router: R.Router<CompiledRoute>, ghost objects: map<nat, App>)
    returns (r: AddResult, lists: map<Kind, seq<Hook>>)
    requires Known(objects, root) && IsTree(Included(root), root)
    requires router.Valid() && router.view.log == [] && router.view.nodes == map[]
    modifies router
    ensures router.Valid()
    ensures Added(r, router.view.log, router.view.nodes.Keys) ==
            AddRoutes([], {}, router.strict,
                      RoutesOf(Included(root), root, [], JoinPrefix("", root.prefix), Addresses(Included(root), root)))
    ensures r == Accepted ==>
              router.view.log ==
              LogOf(router.strict,
                    RoutesOf(Included(root), root, [], JoinPrefix("", root.prefix), Addresses(Included(root), root)))
    ensures lists == ListsOf(RouteHooks(Included(root), root, [], []))
  {
    hide Sound, LogOf, IsTree, Collect, Known, AddRoutes, RouteTable.Visit, JoinPrefix, ListsOf;
    var c := new Compilation(router);
    c.CollectVisit(root);
    c.included := set id | id in c.out;
    assert c.included == Included(root) && router.view.nodes.Keys == {};
    r := c.Visit(root, [], "", [], objects);
    VisitIsAll(c.included, root, [], JoinPrefix("", root.prefix));
    RoutesLogged({}, router.strict,
                 RoutesOf(c.included, root, [], JoinPrefix("", root.prefix), Addresses(c.included, root)));
    assert [] + Without([], root.id) == [];
    var own := c.EffectiveHooks(root, objects);
    var hooks := WithHooksOf([], own);
    lists := SplitHooks(hooks);
  }
}
