/**
 * Registering plugins layer by layer with counters of missing dependencies (Kahn's algorithm): the
 * layers are the rounds of `PluginRounds`.
 */
module PluginOrder {
  import opened Lists
  import opened Text
  import opened PluginRounds

  /** `setup` is the identity of the setup function. */
  datatype Plugin = Plugin(name: string, deps: seq<string>, setup: nat)

  datatype Result =
    | Registered(rounds: seq<seq<string>>)
    | Unregistered(plugin: string, dep: string, rounds: seq<seq<string>>)
    | Conflicting(plugin: string, rounds: seq<seq<string>>)
    | Cyclic(stuck: seq<string>, rounds: seq<seq<string>>)

  function Get<T>(m: map<string, T>, key: string, default: T): T {
    if key in m then m[key] else default
  }

  /** The queue as a map; names are distinct. */
  function PendingOf(queue: seq<Plugin>): Pending {
    if queue == [] then map[] else PendingOf(queue[..|queue| - 1])[queue[|queue| - 1].name := queue[|queue| - 1].deps]
  }

  function SetupsOf(queue: seq<Plugin>): (r: map<string, nat>)
    ensures r.Keys == PendingOf(queue).Keys
  {
    if queue == [] then map[] else SetupsOf(queue[..|queue| - 1])[queue[|queue| - 1].name := queue[|queue| - 1].setup]
  }

  /** Every plugin of the queue is pending with its dependencies and its setup function, and no other is. */
  lemma {:induction false} PendingIs(queue: seq<Plugin>)
    requires NamesDiffer(queue)
    ensures forall i :: 0 <= i < |queue| ==>
              && queue[i].name in PendingOf(queue) && PendingOf(queue)[queue[i].name] == queue[i].deps
              && SetupsOf(queue)[queue[i].name] == queue[i].setup
    ensures forall p :: p in PendingOf(queue) ==> exists i :: 0 <= i < |queue| && queue[i].name == p
  {
    if queue != [] {
      var init, last := queue[..|queue| - 1], queue[|queue| - 1];
      PendingIs(init);
      assert queue == init + [last];
      forall p | p in PendingOf(queue)
        ensures exists i :: 0 <= i < |queue| && queue[i].name == p
      {
        if p != last.name {
          var i :| 0 <= i < |init| && init[i].name == p;
          assert queue[i].name == p;
        } else {
          assert queue[|queue| - 1].name == p;
        }
      }
    }
  }

  predicate NamesDiffer(queue: seq<Plugin>) {
    queue == [] || (NamesDiffer(queue[..|queue| - 1]) && queue[|queue| - 1].name !in PendingOf(queue[..|queue| - 1]))
  }

  /** `dependents` lists, for each plugin, those that depend on it, as often as they do. */
  ghost predicate Inverse(g: Pending, dependents: map<string, seq<string>>) {
    && (forall d, p :: p in g ==> Count(Get(dependents, d, []), p) == Count(DepsOf(g, p), d))
    && forall d, p :: p in Get(dependents, d, []) ==> p in g
  }

  /** `remaining` counts the pending dependencies outside `done`. */
  predicate Counts(g: Pending, remaining: map<string, int>, done: set<string>) {
    remaining.Keys == g.Keys && forall p :: p in g ==> remaining[p] == Missing(DepsOf(g, p), done)
  }

  /** The plugins ready after `done` that were not before. */
  ghost predicate IsNext(g: Pending, next: seq<string>, start: set<string>, remaining: map<string, int>) {
    && Unique(next)
    && forall p :: p in next <==> p in g && p in remaining && remaining[p] == 0 && Missing(DepsOf(g, p), start) > 0
  }

  /** Counts down the dependents of one registered plugin. */
  method Release(g: Pending, d: string, dependents: map<string, seq<string>>, remaining: map<string, int>,
                 next: seq<string>,
                 ghost start: set<string>, ghost done: set<string>)
    returns (left: map<string, int>, ready: seq<string>)
    requires Inverse(g, dependents) && Counts(g, remaining, done) && IsNext(g, next, start, remaining)
    requires d !in done && start <= done
    ensures Counts(g, left, done + {d}) && IsNext(g, ready, start, left)
  {
    left, ready := remaining, next;
    var list := Get(dependents, d, []);
    var i := 0;
    while i < |list|
      invariant i <= |list| && Released(g, left, done, list[..i]) && IsNext(g, ready, start, left)
    {
      var name := list[i];
      ReleaseOne(g, d, list, i, left, start, done);
      var count := left[name] - 1;
      left := left[name := count];
      if count == 0 { ready := ready + [name]; }
      i := i + 1;
    }
    assert list[..i] == list;
    ReleasedAll(g, d, list, left, done);
  }

  /** The counters after the dependents in `list` were counted down. */
  predicate Released(g: Pending, left: map<string, int>, done: set<string>, list: seq<string>) {
    left.Keys == g.Keys && forall p :: p in g ==> left[p] == Missing(DepsOf(g, p), done) - Count(list, p)
  }

  lemma ReleaseOne(g: Pending, d: string, list: seq<string>, i: nat, left: map<string, int>, start: set<string>,
                   done: set<string>)
    requires i < |list| && d !in done && start <= done && Released(g, left, done, list[..i])
    requires (forall p :: p in g ==> Count(list, p) == Count(DepsOf(g, p), d)) && forall p :: p in list ==> p in g
    ensures list[i] in g && list[i] in left && left[list[i]] >= 1 && Missing(DepsOf(g, list[i]), start) > 0
    ensures Released(g, left[list[i] := left[list[i]] - 1], done, list[..i + 1])
  {
    var name := list[i];
    assert list[..i + 1][..i] == list[..i];
    CountPrefix(list, i + 1, name);
    MissingLess(DepsOf(g, name), done, d);
    MissingMonotone(DepsOf(g, name), start, done);
    hide Missing;
  }

  lemma {:induction false} CountPrefix(list: seq<string>, n: nat, x: string)
    requires n <= |list|
    ensures Count(list[..n], x) <= Count(list, x)
  {
    if n < |list| {
      CountPrefix(list[..|list| - 1], n, x);
      assert list[..|list| - 1][..n] == list[..n];
    } else {
      assert list[..n] == list;
    }
  }

  lemma {:induction false} MissingMonotone(deps: seq<string>, start: set<string>, done: set<string>)
    requires start <= done
    ensures Missing(deps, done) <= Missing(deps, start)
  {
    if deps != [] {
      MissingMonotone(deps[..|deps| - 1], start, done);
    }
  }

  lemma ReleasedAll(g: Pending, d: string, list: seq<string>, left: map<string, int>, done: set<string>)
    requires d !in done && Released(g, left, done, list)
             && forall p :: p in g ==> Count(list, p) == Count(DepsOf(g, p), d)
    ensures Counts(g, left, done + {d})
  {
    forall p | p in g
      ensures left[p] == Missing(DepsOf(g, p), done + {d})
    {
      MissingLess(DepsOf(g, p), done, d);
    }
  }

  // ------------------------------------------------------------------ indexing the queue

  lemma {:induction false} MissingAll(deps: seq<string>)
    ensures Missing(deps, {}) == |deps|
  {
    if deps != [] {
      MissingAll(deps[..|deps| - 1]);
    }
  }

  lemma {:induction false} PrefixAgrees(queue: seq<Plugin>, i: nat)
    requires NamesDiffer(queue) && i <= |queue|
    ensures NamesDiffer(queue[..i])
    ensures forall p ::
            p in PendingOf(queue[..i]) ==> p in PendingOf(queue) && PendingOf(queue)[p] == PendingOf(queue[..i])[p]
    ensures i < |queue| ==>
              queue[i].name !in PendingOf(queue[..i]) && queue[i].name in PendingOf(queue)
              && PendingOf(queue)[queue[i].name] == queue[i].deps
  {
    if i == |queue| {
      assert queue[..i] == queue;
    } else if i == |queue| - 1 {
      PrefixAgrees(queue[..i], i);
      assert queue[..i][..i] == queue[..i];
    } else {
      PrefixAgrees(queue[..|queue| - 1], i);
      assert queue[..|queue| - 1][..i] == queue[..i];
    }
  }

  /** The tables for the plugins in `names` so far. */
  ghost predicate Indexed(g: Pending, names: set<string>, remaining: map<string, int>,
                          dependents: map<string, seq<string>>) {
    && names <= g.Keys && remaining.Keys == names
    && (forall p :: p in names ==> remaining[p] == Missing(DepsOf(g, p), {}))
    && (forall d, p :: p in names ==> Count(Get(dependents, d, []), p) == Count(DepsOf(g, p), d))
    && forall d, p :: p in Get(dependents, d, []) ==> p in names
  }

  predicate IsKnown(g: Pending, registered: set<string>, dep: string) {
    dep in g || dep in registered
  }

  /** `dep` is the first of `deps` that is neither pending nor registered. */
  ghost predicate FirstUnknown(g: Pending, registered: set<string>, deps: seq<string>, dep: string) {
    exists k :: 0 <= k < |deps| && deps[k] == dep && !IsKnown(g, registered, dep)
                && forall m :: 0 <= m < k ==> IsKnown(g, registered, deps[m])
  }

  predicate AllKnown(g: Pending, registered: set<string>, deps: seq<string>) {
    forall m :: 0 <= m < |deps| ==> IsKnown(g, registered, deps[m])
  }

  /** The first plugin of the queue with an unknown dependency, and the first such. */
  ghost predicate FirstBad(queue: seq<Plugin>, registered: set<string>, p: string, dep: string) {
    var g := PendingOf(queue);
    exists i :: 0 <= i < |queue| && queue[i].name == p && FirstUnknown(g, registered, queue[i].deps, dep)
                && forall h :: 0 <= h < i ==> AllKnown(g, registered, queue[h].deps)
  }

  /** Adds one plugin to the tables; an unknown dependency is reported when `validate` asks for it. */
  method IndexOne(g: Pending, plugin: Plugin, registered: set<string>, validate: bool, ghost names: set<string>,
                  remaining: map<string, int>, dependents: map<string, seq<string>>)
    returns (bad: Option<string>, remaining': map<string, int>, dependents': map<string, seq<string>>)
    requires Indexed(g, names, remaining, dependents)
    requires plugin.name in g && g[plugin.name] == plugin.deps && plugin.name !in names
    ensures bad.None? ==> Indexed(g, names + {plugin.name}, remaining', dependents')
    ensures bad.Some? ==> validate && FirstUnknown(g, registered, plugin.deps, bad.value)
    ensures bad.None? && validate ==> AllKnown(g, registered, plugin.deps)
  {
    bad, remaining', dependents' := None, remaining, dependents;
    var (name, deps) := (plugin.name, plugin.deps);
    var count := 0;
    var j := 0;
    NotYet(dependents, name);
    while j < |deps|
      invariant j <= |deps| && count == |Within(deps[..j], g)|
      invariant validate ==> forall k :: 0 <= k < j ==> IsKnown(g, registered, deps[k])
      invariant Half(g, names, name, Within(deps[..j], g), dependents')
    {
      var dep := deps[j];
      assert deps[..j + 1][..j] == deps[..j];
      if dep in g {
        count := count + 1;
        HalfMore(g, names, name, Within(deps[..j], g), dependents', dep);
        dependents' := dependents'[dep := Get(dependents', dep, []) + [name]];
      } else if validate && dep !in registered {
        return Some(dep), remaining, dependents;
      }
      j := j + 1;
    }
    assert deps[..j] == deps;
    MissingAll(DepsOf(g, name));
    remaining' := remaining'[name := count];
  }

  lemma NotYet(dependents: map<string, seq<string>>, name: string)
    ensures forall d :: name !in Get(dependents, d, []) ==> Count(Get(dependents, d, []), name) == 0
  {
    forall d | name !in Get(dependents, d, [])
      ensures Count(Get(dependents, d, []), name) == 0
    {
      CountIn(Get(dependents, d, []), name);
    }
  }

  /** The reverse table while the dependencies of `name` are being added; `seen` are those added. */
  ghost predicate Half(g: Pending, names: set<string>, name: string, seen: seq<string>,
                       dependents: map<string, seq<string>>) {
    && names <= g.Keys && name !in names
    && (forall d, p :: p in names ==> Count(Get(dependents, d, []), p) == Count(DepsOf(g, p), d))
    && (forall d :: Count(Get(dependents, d, []), name) == Count(seen, d))
    && forall d, p :: p in Get(dependents, d, []) ==> p in names || p == name
  }

  lemma HalfMore(g: Pending, names: set<string>, name: string, seen: seq<string>,
                 dependents: map<string, seq<string>>, dep: string)
    requires Half(g, names, name, seen, dependents)
    ensures Half(g, names, name, seen + [dep], dependents[dep := Get(dependents, dep, []) + [name]])
  {
    hide DepsOf, Count;
    CountSnoc(Get(dependents, dep, []), name);
    CountSnoc(seen, dep);
    var list, after := Get(dependents, dep, []), dependents[dep := Get(dependents, dep, []) + [name]];
    assert forall d :: Get(after, d, []) == if d == dep then list + [name] else Get(dependents, d, []);
    hide Get;
    forall d
      ensures Count(Get(after, d, []), name) == Count(seen + [dep], d)
      ensures forall p :: p in names ==> Count(Get(after, d, []), p) == Count(DepsOf(g, p), d)
      ensures forall p :: p in Get(after, d, []) ==> p in names || p == name
    {
    }
  }

  lemma CountSnoc(s: seq<string>, x: string)
    ensures forall y :: Count(s + [x], y) == Count(s, y) + if x == y then 1 else 0
  {
    assert (s + [x])[..|s|] == s;
  }

  /** The tables of the whole queue. */
  method Index(queue: seq<Plugin>, registered: set<string>, validate: bool)
    returns (bad: Option<(string, string)>, remaining: map<string, int>, dependents: map<string, seq<string>>)
    requires NamesDiffer(queue)
    ensures var g := PendingOf(queue);
            && (bad.None? ==> Counts(g, remaining, {}) && Inverse(g, dependents))
            && (bad.Some? ==>
                  && validate && Unknown(g, registered, bad.value.0, bad.value.1)
                  && FirstBad(queue, registered, bad.value.0, bad.value.1))
            && (bad.None? && validate ==> forall p, dep :: !Unknown(g, registered, p, dep))
  {
    hide Indexed, Counts, Inverse, PendingOf, NamesDiffer, IsKnown;
    bad, remaining, dependents := None, map[], map[];
    var g, _ := PendingMap(queue);
    var i := 0;
    IndexedNone(g);
    NonePending(queue);
    while i < |queue|
      invariant i <= |queue| && Indexed(g, PendingOf(queue[..i]).Keys, remaining, dependents)
      invariant validate ==> forall p, dep :: p in PendingOf(queue[..i]) ==> !Unknown(g, registered, p, dep)
      invariant validate ==> forall h :: 0 <= h < i ==> AllKnown(g, registered, queue[h].deps)
    {
      PrefixAgrees(queue, i);
      PrefixStep(queue, i);
      var unknown: Option<string>;
      unknown, remaining, dependents :=
        IndexOne(g, queue[i], registered, validate, PendingOf(queue[..i]).Keys, remaining, dependents);
      if unknown.Some? {
        UnknownIs(g, registered, queue[i], unknown.value);
        return Some((queue[i].name, unknown.value)), remaining, dependents;
      }
      if validate { NoneUnknown(g, registered, queue[i]); }
      i := i + 1;
    }
    assert queue[..i] == queue;
    IndexedAll(g, remaining, dependents);
  }

  lemma UnknownIs(g: Pending, registered: set<string>, plugin: Plugin, dep: string)
    requires plugin.name in g && g[plugin.name] == plugin.deps && FirstUnknown(g, registered, plugin.deps, dep)
    ensures Unknown(g, registered, plugin.name, dep)
  {
  }

  lemma NoneUnknown(g: Pending, registered: set<string>, plugin: Plugin)
    requires plugin.name in g && g[plugin.name] == plugin.deps && AllKnown(g, registered, plugin.deps)
    ensures forall dep :: !Unknown(g, registered, plugin.name, dep)
  {
    forall dep | dep in plugin.deps
      ensures IsKnown(g, registered, dep)
    {
      var k :| 0 <= k < |plugin.deps| && plugin.deps[k] == dep;
    }
  }

  lemma NonePending(queue: seq<Plugin>)
    ensures PendingOf(queue[..0]) == map[]
  {
  }

  lemma IndexedNone(g: Pending)
    ensures Indexed(g, {}, map[], map[])
  {
  }

  lemma PrefixStep(queue: seq<Plugin>, i: nat)
    requires i < |queue|
    ensures PendingOf(queue[..i + 1]) == PendingOf(queue[..i])[queue[i].name := queue[i].deps]
    ensures PendingOf(queue[..i + 1]).Keys == PendingOf(queue[..i]).Keys + {queue[i].name}
  {
    assert queue[..i + 1][..i] == queue[..i];
  }

  lemma IndexedAll(g: Pending, remaining: map<string, int>, dependents: map<string, seq<string>>)
    requires Indexed(g, g.Keys, remaining, dependents)
    ensures Counts(g, remaining, {}) && Inverse(g, dependents)
  {
  }

  predicate Unknown(g: Pending, registered: set<string>, p: string, dep: string) {
    p in g && dep in g[p] && dep !in g && dep !in registered
  }

  method PendingMap(queue: seq<Plugin>) returns (g: Pending, setups: map<string, nat>)
    ensures g == PendingOf(queue) && setups == SetupsOf(queue)
  {
    g, setups := map[], map[];
    var i := 0;
    while i < |queue|
      invariant i <= |queue| && g == PendingOf(queue[..i]) && setups == SetupsOf(queue[..i])
    {
      assert queue[..i + 1][..i] == queue[..i];
      g, setups := g[queue[i].name := queue[i].deps], setups[queue[i].name := queue[i].setup];
      i := i + 1;
    }
    assert queue[..i] == queue;
  }

  // ------------------------------------------------------------------ the layers

  /** Those of `names` without pending dependencies. */
  method FirstLayer(queue: seq<Plugin>, remaining: map<string, int>) returns (layer: seq<string>)
    requires NamesDiffer(queue) && Counts(PendingOf(queue), remaining, {})
    ensures IsRound(PendingOf(queue), [], layer)
  {
    var g := PendingOf(queue);
    hide NamesDiffer, IsRound;
    layer := [];
    var i := 0;
    while i < |queue|
      invariant i <= |queue| && Unique(layer)
      invariant forall p :: p in layer <==> p in PendingOf(queue[..i]) && p in remaining && remaining[p] == 0
    {
      PrefixAgrees(queue, i);
      assert queue[..i + 1][..i] == queue[..i];
      assert (layer + [queue[i].name])[..|layer|] == layer;
      if remaining[queue[i].name] == 0 { layer := layer + [queue[i].name]; }
      i := i + 1;
    }
    assert queue[..i] == queue;
    FirstIsRound(g, layer, remaining);
  }

  lemma FirstIsRound(g: Pending, layer: seq<string>, remaining: map<string, int>)
    requires Counts(g, remaining, {}) && Unique(layer) && forall p :: p in layer <==> p in g && remaining[p] == 0
    ensures IsRound(g, [], layer)
  {
    assert Done([]) == {};
    hide Unique, DependsOn, Done, Missing, DepsOf;
    forall p | p in g
      ensures remaining[p] == 0 <==> forall d :: DependsOn(g, p, d) ==> d in Done([])
    {
      ReadyIs(g, p, {});
    }
  }

  lemma ReadyIs(g: Pending, p: string, done: set<string>)
    requires p in g
    ensures Missing(DepsOf(g, p), done) == 0 <==> forall d :: DependsOn(g, p, d) ==> d in done
    ensures Missing(DepsOf(g, p), done) > 0 <==> Waits(g, done, p)
  {
    MissingNone(DepsOf(g, p), done);
    forall d
      ensures d in DepsOf(g, p) <==> DependsOn(g, p, d)
    {
      WithinIs(g[p], g, d);
    }
  }

  /** The names newly ready after a layer form the next round. */
  lemma NextIsRound(g: Pending, rounds: seq<seq<string>>, layer: seq<string>, next: seq<string>,
                    remaining: map<string, int>)
    requires AreRounds(g, rounds) && IsRound(g, rounds, layer) && layer != []
    requires Counts(g, remaining, Done(rounds) + Members(layer)) && IsNext(g, next, Done(rounds), remaining)
    ensures AreRounds(g, rounds + [layer]) && IsRound(g, rounds + [layer], next)
  {
    var now := rounds + [layer];
    assert now[..|rounds|] == rounds && Done(now) == Done(rounds) + Members(layer);
    forall p
      ensures p in next <==> Ready(g, Done(now), p)
      ensures p in next ==> WaitedFor(g, layer, p)
    {
      NextReady(g, rounds, layer, next, remaining, p);
    }
    hide Ready, WaitedFor, Done, Members, Unique;
  }

  lemma NextReady(g: Pending, rounds: seq<seq<string>>, layer: seq<string>, next: seq<string>,
                  remaining: map<string, int>, p: string)
    requires AreRounds(g, rounds) && IsRound(g, rounds, layer)
    requires Counts(g, remaining, Done(rounds) + Members(layer)) && IsNext(g, next, Done(rounds), remaining)
    ensures p in next <==> Ready(g, Done(rounds) + Members(layer), p)
    ensures p in next ==> WaitedFor(g, layer, p)
  {
    var done, after := Done(rounds), Done(rounds) + Members(layer);
    if p in g {
      ReadyIs(g, p, done);
      ReadyIs(g, p, after);
      DoneClosed(g, rounds, p);
      assert p in layer <==> Ready(g, done, p);
      hide AreRounds, IsRound, Done, Missing, DepsOf, DependsOn, Unique, Ready, WaitedFor;
      ReadyAfter(g, done, layer, p);
    }
  }

  /** After a layer those become ready whose last dependencies were in it. */
  lemma ReadyAfter(g: Pending, done: set<string>, layer: seq<string>, p: string)
    requires p in g && (p in layer <==> Ready(g, done, p))
    requires p in done ==> forall d :: DependsOn(g, p, d) ==> d in done
    ensures var (before, now) := (Waits(g, done, p), Waits(g, done + Members(layer), p));
            && (before && !now <==> Ready(g, done + Members(layer), p))
            && (before && !now ==> WaitedFor(g, layer, p))
  {
    hide DependsOn;
    if Waits(g, done, p) && !Waits(g, done + Members(layer), p) {
      var d :| DependsOn(g, p, d) && d !in done;
      assert d in done + Members(layer);
    }
  }

  lemma DoneClosed(g: Pending, rounds: seq<seq<string>>, p: string)
    requires AreRounds(g, rounds)
    ensures p in Done(rounds) ==> forall d :: DependsOn(g, p, d) ==> d in Done(rounds)
  {
    DoneIs(rounds, p);
    forall d | p in Done(rounds) && DependsOn(g, p, d)
      ensures d in Done(rounds)
    {
      var k: nat :| k < |rounds| && p in rounds[k];
      var j := Earlier(g, rounds, k, p, d);
      DoneIs(rounds, d);
    }
  }

  /** Counts down after a whole layer. */
  method ReleaseLayer(g: Pending, layer: seq<string>, dependents: map<string, seq<string>>,
                      remaining: map<string, int>, ghost rounds: seq<seq<string>>)
    returns (left: map<string, int>, next: seq<string>)
    requires AreRounds(g, rounds) && IsRound(g, rounds, layer) && layer != []
    requires Inverse(g, dependents) && Counts(g, remaining, Done(rounds))
    ensures Counts(g, left, Done(rounds + [layer]))
    ensures AreRounds(g, rounds + [layer]) && IsRound(g, rounds + [layer], next)
  {
    hide AreRounds, IsRound, Inverse, Counts, IsNext, Unique;
    left, next := remaining, [];
    var i := 0;
    LayerStart(g, layer, remaining, Done(rounds));
    while i < |layer|
      invariant i <= |layer| && Counts(g, left, Done(rounds) + Members(layer[..i]))
                && IsNext(g, next, Done(rounds), left)
    {
      FreshMember(g, rounds, layer, i);
      left, next := Release(g, layer[i], dependents, left, next, Done(rounds), Done(rounds) + Members(layer[..i]));
      i := i + 1;
    }
    assert layer[..i] == layer && (rounds + [layer])[..|rounds|] == rounds;
    NextIsRound(g, rounds, layer, next, left);
  }

  lemma LayerStart(g: Pending, layer: seq<string>, remaining: map<string, int>, done: set<string>)
    requires Counts(g, remaining, done)
    ensures Counts(g, remaining, done + Members(layer[..0])) && IsNext(g, [], done, remaining)
  {
    assert done + Members(layer[..0]) == done;
  }

  lemma FreshMember(g: Pending, rounds: seq<seq<string>>, layer: seq<string>, i: nat)
    requires IsRound(g, rounds, layer) && i < |layer|
    ensures layer[i] !in Done(rounds) + Members(layer[..i])
    ensures Done(rounds) + Members(layer[..i]) + {layer[i]} == Done(rounds) + Members(layer[..i + 1])
  {
    assert Ready(g, Done(rounds), layer[i]);
    NewMember(layer, i);
  }

  lemma {:induction false} NewMember(s: seq<string>, i: nat)
    requires Unique(s) && i < |s|
    ensures s[i] !in Members(s[..i]) && Members(s[..i + 1]) == Members(s[..i]) + {s[i]}
  {
    if i < |s| - 1 {
      NewMember(s[..|s| - 1], i);
      assert s[..|s| - 1][..i] == s[..i] && s[..|s| - 1][..i + 1] == s[..i + 1];
    } else {
      assert s[..i + 1] == s;
    }
  }

  /** Why a registration throws: a dependency is not there, or the name is taken by another setup function. */
  datatype Trouble = NoDependency(plugin: string, dep: string) | OtherSetup(plugin: string)

  /** The registry with `p`; a name that is there stays. */
  function Entered(registered: map<string, nat>, p: string, setup: nat): map<string, nat> {
    if p in registered then registered else registered[p := setup]
  }

  /** Nothing keeps `p` from being registered when its turn comes. */
  ghost predicate Registers(g: Pending, setups: map<string, nat>, registered: map<string, nat>, p: string) {
    if p in registered then p in setups && registered[p] == setups[p]
    else p in g && forall dep :: dep in g[p] ==> dep in g || dep in registered
  }

  /** What registering `p` meets in the registry `now`: the first dependency not there, those in `awaited` aside. */
  ghost predicate Refused(g: Pending, awaited: Pending, setups: map<string, nat>, now: map<string, nat>,
                          trouble: Trouble)
    requires trouble.plugin in g && trouble.plugin in setups
  {
    match trouble
    case NoDependency(p, dep) => p !in now && FirstUnknown(awaited, now.Keys, g[p], dep)
    case OtherSetup(p) => p in now && now[p] != setups[p]
  }

  /** One registration: what is wrong, or the registry after it. */
  ghost predicate Attempted(g: Pending, setups: map<string, nat>, p: string, registered: map<string, nat>,
                            trouble: Option<Trouble>, now: map<string, nat>)
    requires p in g && p in setups
  {
    match trouble
    case Some(t) => t.plugin == p && Refused(g, map[], setups, registered, t) && now == registered
    case None =>
      && now == Entered(registered, p, setups[p])
      && if p in registered then registered[p] == setups[p] else forall dep :: dep in g[p] ==> dep in registered
  }

  /** `register`: skips a plugin that is there already; else every dependency must be registered by now. */
  method Register(g: Pending, setups: map<string, nat>, p: string, registered: map<string, nat>)
    returns (trouble: Option<Trouble>, now: map<string, nat>)
    requires p in g && p in setups
    ensures Attempted(g, setups, p, registered, trouble, now)
  {
    trouble, now := None, registered;
    if p in registered {
      if registered[p] != setups[p] { trouble := Some(OtherSetup(p)); }
      return;
    }
    var j := 0;
    while j < |g[p]|
      invariant j <= |g[p]| && forall k :: 0 <= k < j ==> g[p][k] in registered
    {
      if g[p][j] !in registered {
        assert !IsKnown(map[], registered.Keys, g[p][j]);
        return Some(NoDependency(p, g[p][j])), registered;
      }
      j := j + 1;
    }
    now := registered[p := setups[p]];
  }

  /** `now` is the registry `first` with the plugins in `done`, each with its setup function. */
  predicate Enlarged(first: map<string, nat>, setups: map<string, nat>, done: set<string>, now: map<string, nat>) {
    && now.Keys == first.Keys + done
    && (forall p :: p in first ==> now[p] == first[p])
    && forall p :: p in done && p !in first ==> p in setups && now[p] == setups[p]
  }

  /** Registers the plugins of a layer one by one. */
  method RegisterLayer(g: Pending, setups: map<string, nat>, layer: seq<string>, registered: map<string, nat>,
                       ghost first: map<string, nat>, ghost rounds: seq<seq<string>>)
    returns (trouble: Option<Trouble>, now: map<string, nat>)
    requires setups.Keys == g.Keys && AreRounds(g, rounds) && IsRound(g, rounds, layer)
             && forall p :: p in layer ==> p in g
    requires Enlarged(first, setups, Done(rounds), registered)
    ensures trouble.None? ==> Enlarged(first, setups, Done(rounds) + Members(layer), now)
    ensures trouble.None? ==> forall p :: p in layer ==> Registers(g, setups, first, p)
    ensures trouble.Some? ==> Fails(g, setups, first, rounds, trouble.value)
  {
    hide AreRounds, IsRound, Registers, Enlarged, Attempted, Fails, Done;
    trouble, now := None, registered;
    var i := 0;
    assert Done(rounds) + Members(layer[..0]) == Done(rounds);
    while i < |layer|
      invariant i <= |layer| && trouble.None? && Enlarged(first, setups, Done(rounds) + Members(layer[..i]), now)
      invariant forall p :: p in layer[..i] ==> Registers(g, setups, first, p)
    {
      ghost var before := now;
      var p := layer[i];
      trouble, now := Register(g, setups, p, now);
      LayerStep(g, setups, rounds, layer, i, first, before, trouble, now);
      if trouble.Some? { return; }
      i := i + 1;
      assert layer[..i] == layer[..i - 1] + [p];
    }
    assert layer[..i] == layer;
  }

  /** The first registration that fails: its plugin was ready, and the registry at first is to blame. */
  ghost predicate Fails(g: Pending, setups: map<string, nat>, first: map<string, nat>, rounds: seq<seq<string>>,
                        trouble: Trouble) {
    && trouble.plugin in g && trouble.plugin in setups
    && Ready(g, Done(rounds), trouble.plugin)
    && Refused(g, g, setups, first, trouble)
  }

  lemma LayerStep(g: Pending, setups: map<string, nat>, rounds: seq<seq<string>>, layer: seq<string>, i: nat,
                  first: map<string, nat>, before: map<string, nat>, trouble: Option<Trouble>, now: map<string, nat>)
    requires AreRounds(g, rounds) && IsRound(g, rounds, layer) && i < |layer| && layer[i] in g && setups.Keys == g.Keys
    requires Enlarged(first, setups, Done(rounds) + Members(layer[..i]), before)
    requires Attempted(g, setups, layer[i], before, trouble, now)
    ensures trouble.Some? ==> Fails(g, setups, first, rounds, trouble.value)
    ensures trouble.None? ==>
            && Enlarged(first, setups, Done(rounds) + Members(layer[..i + 1]), now)
            && Registers(g, setups, first, layer[i])
  {
    FreshMember(g, rounds, layer, i);
    LayerMember(g, rounds, layer, i, first, before);
    AttemptStep(g, setups, layer[i], first, Done(rounds) + Members(layer[..i]), before, trouble, now);
    hide AreRounds, IsRound, Done, Members, Ready, Enlarged, Registers, Attempted, Refused;
    assert trouble.Some? ==> trouble.value.plugin == layer[i];
  }

  lemma AttemptStep(g: Pending, setups: map<string, nat>, p: string, first: map<string, nat>, done: set<string>,
                    before: map<string, nat>, trouble: Option<Trouble>, now: map<string, nat>)
    requires p in g && p in setups
    requires Enlarged(first, setups, done, before) && Attempted(g, setups, p, before, trouble, now)
    requires p in before <==> p in first
    requires forall dep :: dep in g[p] && dep !in before ==> dep !in g && dep !in first
    requires forall dep :: dep in g[p] && dep in before ==> dep in g || dep in first
    ensures trouble.Some? ==>
              trouble.value.plugin == p && Refused(g, g, setups, first, trouble.value)
    ensures trouble.None? ==> Enlarged(first, setups, done + {p}, now) && Registers(g, setups, first, p)
  {
  }

  /** Of what `p` depends on, what is not registered when its turn comes is neither pending nor was there at first. */
  lemma LayerMember(g: Pending, rounds: seq<seq<string>>, layer: seq<string>, i: nat, first: map<string, nat>,
                    now: map<string, nat>)
    requires AreRounds(g, rounds) && IsRound(g, rounds, layer) && i < |layer| && layer[i] in g
    requires now.Keys == first.Keys + (Done(rounds) + Members(layer[..i]))
             && layer[i] !in Done(rounds) + Members(layer[..i])
    ensures Ready(g, Done(rounds), layer[i]) && (layer[i] in now <==> layer[i] in first)
    ensures forall dep :: dep in g[layer[i]] && dep !in now ==> dep !in g && dep !in first
    ensures forall dep :: dep in g[layer[i]] && dep in now ==> dep in g || dep in first
  {
    var p := layer[i];
    assert p in layer;
    forall dep | dep in g[p] && dep in g
      ensures dep in now
    {
      assert DependsOn(g, p, dep);
    }
    forall q | q in Members(layer[..i])
      ensures q in g
    {
      assert q in layer;
    }
    DoneInside(g, rounds);
  }

  /** Registers layer after layer until none is ready or a registration fails. */
  method Layers(g: Pending, setups: map<string, nat>, start: seq<string>, dependents: map<string, seq<string>>,
                counts: map<string, int>, registered: map<string, nat>)
    returns (failed: Option<Trouble>, rounds: seq<seq<string>>, remaining: map<string, int>, processed: nat,
             now: map<string, nat>)
    requires setups.Keys == g.Keys && IsRound(g, [], start) && Inverse(g, dependents) && Counts(g, counts, {})
    ensures AreRounds(g, rounds)
    ensures failed.None? ==> IsRound(g, rounds, []) && Counts(g, remaining, Done(rounds)) && processed == |Done(rounds)|
    ensures failed.None? ==> forall p :: p in Done(rounds) ==> Registers(g, setups, registered, p)
    ensures failed.None? ==> Enlarged(registered, setups, Done(rounds), now)
    ensures failed.Some? ==> Fails(g, setups, registered, rounds, failed.value)
  {
    hide IsRound, AreRounds, Inverse, Counts, Unique, Registers, Fails, Enlarged;
    failed, rounds, remaining, processed, now := None, [], counts, 0, registered;
    var layer := start;
    NoRounds(g);
    NoneEntered(registered, setups);
    while |layer| > 0
      invariant AreRounds(g, rounds) && IsRound(g, rounds, layer) && Counts(g, remaining, Done(rounds))
      invariant Enlarged(registered, setups, Done(rounds), now) && processed == |Done(rounds)| && failed.None?
      invariant forall p :: p in Done(rounds) ==> Registers(g, setups, registered, p)
      decreases |g.Keys| - |Done(rounds)|
    {
      RoundInside(g, rounds, layer);
      failed, now := RegisterLayer(g, setups, layer, now, registered, rounds);
      if failed.Some? { return; }
      processed := processed + |layer|;
      var next: seq<string>;
      remaining, next := ReleaseLayer(g, layer, dependents, remaining, rounds);
      rounds, layer := rounds + [layer], next;
    }
  }

  lemma NoneEntered(registered: map<string, nat>, setups: map<string, nat>)
    ensures Enlarged(registered, setups, Done([]), registered)
  {
  }

  lemma UniqueNone()
    ensures Unique<string>([])
  {
  }

  lemma UniqueSnoc(s: seq<string>, x: string)
    ensures Unique(s + [x]) <==> Unique(s) && x !in s
  {
    assert (s + [x])[..|s|] == s;
  }

  /** The names whose counter did not reach zero. */
  method StuckNames(queue: seq<Plugin>, remaining: map<string, int>,
                    ghost done: set<string>) returns (stuck: seq<string>)
    requires NamesDiffer(queue) && Counts(PendingOf(queue), remaining, done)
    ensures Unique(stuck)
            && forall p :: p in stuck <==> p in PendingOf(queue) && Missing(DepsOf(PendingOf(queue), p), done) > 0
  {
    hide PendingOf, NamesDiffer, Unique, Missing, DepsOf;
    stuck := [];
    NonePending(queue);
    UniqueNone();
    var i := 0;
    while i < |queue|
      invariant i <= |queue| && Unique(stuck)
      invariant forall p :: p in stuck <==> p in PendingOf(queue[..i]).Keys && p in remaining && remaining[p] > 0
    {
      PrefixAgrees(queue, i);
      PrefixStep(queue, i);
      UniqueSnoc(stuck, queue[i].name);
      if remaining[queue[i].name] > 0 { stuck := stuck + [queue[i].name]; }
      i := i + 1;
    }
    assert queue[..i] == queue;
  }

  /**
   * Registers the queued plugins round by round. With `validate`, as before listening, unknown
   * dependencies are refused before anything is registered; without, when their plugin's turn comes.
   */
  method Flush(queue: seq<Plugin>, registered: map<string, nat>, validate: bool)
    returns (r: Result, now: map<string, nat>)
    requires NamesDiffer(queue)
    ensures var (g, setups) := (PendingOf(queue), SetupsOf(queue));
            && AreRounds(g, r.rounds)
            && (validate && !r.Unregistered? ==> forall p, dep :: !Unknown(g, registered.Keys, p, dep))
            && (r.Registered? || r.Cyclic? ==> Enlarged(registered, setups, Done(r.rounds), now))
            && (r.Registered? ==>
                  && Sorted(g, r.rounds) && Done(r.rounds) == g.Keys
                  && forall p :: p in g ==> Registers(g, setups, registered, p))
            && (r.Cyclic? ==>
                  && Sorted(g, r.rounds) && r.stuck != [] && Unique(r.stuck)
                  && (forall p :: p in r.stuck <==> p in g && p !in Done(r.rounds))
                  && forall p :: p in Done(r.rounds) ==> Registers(g, setups, registered, p))
            && (r.Unregistered? ==>
                  && Unknown(g, registered.Keys, r.plugin, r.dep)
                  && if validate
                     then r.rounds == [] && now == registered && FirstBad(queue, registered.Keys, r.plugin, r.dep)
                     else
                       && r.plugin !in registered && Ready(g, Done(r.rounds), r.plugin)
                       && FirstUnknown(g, registered.Keys, g[r.plugin], r.dep))
            && (r.Conflicting? ==>
                  && r.plugin in setups && r.plugin in registered && registered[r.plugin] != setups[r.plugin]
                  && Ready(g, Done(r.rounds), r.plugin))
  {
    hide IsRound, AreRounds, Inverse, Counts, Unique, Sorted, NamesDiffer, Unknown, Registers, Ready, PendingOf,
         SetupsOf, Enlarged, FirstBad;
    var g, setups := PendingMap(queue);
    NoRounds(g);
    var bad, counts, dependents := Index(queue, registered.Keys, validate);
    now := registered;
    if bad.Some? { return Unregistered(bad.value.0, bad.value.1, []), now; }
    var layer := FirstLayer(queue, counts);
    var failed: Option<Trouble>;
    var rounds: seq<seq<string>>;
    var remaining: map<string, int>;
    var processed: nat;
    failed, rounds, remaining, processed, now := Layers(g, setups, layer, dependents, counts, registered);
    if failed.Some? {
      r := if failed.value.OtherSetup? then Conflicting(failed.value.plugin, rounds)
           else Unregistered(failed.value.plugin, failed.value.dep, rounds);
      if failed.value.NoDependency? { IsUnknown(g, registered.Keys, failed.value.plugin, failed.value.dep); }
      return;
    }
    LeftAreStuck(g, rounds, remaining);
    PendingSize(queue);
    if processed == |queue| { return Registered(rounds), now; }
    var stuck := StuckNames(queue, remaining, Done(rounds));
    r := Cyclic(stuck, rounds);
  }

  lemma IsUnknown(g: Pending, registered: set<string>, p: string, dep: string)
    requires p in g && FirstUnknown(g, registered, g[p], dep)
    ensures Unknown(g, registered, p, dep)
  {
  }

  /** With nothing ready, a counter above zero means not registered. */
  lemma LeftAreStuck(g: Pending, rounds: seq<seq<string>>, remaining: map<string, int>)
    requires AreRounds(g, rounds) && IsRound(g, rounds, []) && Counts(g, remaining, Done(rounds))
    ensures Sorted(g, rounds) && Done(rounds) <= g.Keys
    ensures |Done(rounds)| == |g.Keys| ==> Done(rounds) == g.Keys
    ensures |Done(rounds)| != |g.Keys| ==> exists p :: p in g && p !in Done(rounds)
    ensures forall p :: p in g ==> (Missing(DepsOf(g, p), Done(rounds)) > 0 <==> p !in Done(rounds))
  {
    hide AreRounds, IsRound, Counts, Missing, DependsOn, Done;
    DoneInside(g, rounds);
    forall p | p in g
      ensures Missing(DepsOf(g, p), Done(rounds)) > 0 <==> p !in Done(rounds)
      ensures p !in Done(rounds) ==> Waits(g, Done(rounds), p)
    {
      LeftIsStuck(g, rounds, p);
    }
    if |Done(rounds)| == |g.Keys| {
      SameSize(Done(rounds), g.Keys);
    } else {
      var p := OneMore(Done(rounds), g.Keys);
    }
  }

  lemma LeftIsStuck(g: Pending, rounds: seq<seq<string>>, p: string)
    requires AreRounds(g, rounds) && IsRound(g, rounds, []) && p in g
    ensures Missing(DepsOf(g, p), Done(rounds)) > 0 <==> p !in Done(rounds)
    ensures p !in Done(rounds) ==> Waits(g, Done(rounds), p)
  {
    ReadyIs(g, p, Done(rounds));
    DoneClosed(g, rounds, p);
    var none: seq<string> := [];
    assert p in none <==> Ready(g, Done(rounds), p);
    hide Missing, Done, AreRounds, IsRound;
  }

  lemma OneMore(a: set<string>, b: set<string>) returns (x: string)
    requires a <= b && |a| != |b|
    ensures x in b && x !in a
  {
    var extra := b - a;
    assert b == a + extra && |b| == |a| + |extra|;
    x :| x in extra;
  }

  lemma SameSize(a: set<string>, b: set<string>)
    requires a <= b && |a| == |b|
    ensures a == b
  {
    assert b == a + (b - a);
  }

  lemma {:induction false} PendingSize(queue: seq<Plugin>)
    requires NamesDiffer(queue)
    ensures |PendingOf(queue).Keys| == |queue|
  {
    if queue != [] {
      var before := queue[..|queue| - 1];
      PendingSize(before);
      assert PendingOf(queue).Keys == PendingOf(before).Keys + {queue[|queue| - 1].name};
    }
  }

  lemma NoRounds(g: Pending)
    ensures AreRounds(g, [])
  {
  }

  /** A round adds as many plugins as it lists, all of them pending. */
  lemma RoundInside(g: Pending, rounds: seq<seq<string>>, layer: seq<string>)
    requires AreRounds(g, rounds) && IsRound(g, rounds, layer)
    ensures Done(rounds + [layer]) == Done(rounds) + Members(layer) <= g.Keys
    ensures |Done(rounds + [layer])| == |Done(rounds)| + |layer| <= |g.Keys|
    ensures forall p :: p in layer ==> p in g
  {
    assert (rounds + [layer])[..|rounds|] == rounds;
    DoneInside(g, rounds);
    MembersSize(layer);
    assert Done(rounds) !! Members(layer);
    SubsetSize(Done(rounds) + Members(layer), g.Keys);
  }

  lemma {:induction false} DoneInside(g: Pending, rounds: seq<seq<string>>)
    requires AreRounds(g, rounds)
    ensures Done(rounds) <= g.Keys
  {
    if rounds != [] {
      DoneInside(g, rounds[..|rounds| - 1]);
    }
  }

  lemma {:induction false} MembersSize(s: seq<string>)
    requires Unique(s)
    ensures |Members(s)| == |s|
  {
    if s != [] {
      MembersSize(s[..|s| - 1]);
      assert Members(s) == Members(s[..|s| - 1]) + {s[|s| - 1]};
    }
  }

  lemma SubsetSize(a: set<string>, b: set<string>)
    requires a <= b
    ensures |a| <= |b|
  {
    assert b == a + (b - a);
  }
}
