/**
 * Which routes a mounted tree of apps compiles to: the traversal `Visit` against the list of all
 * mounted addresses, each with its routes under the joined prefix and its reaching hooks.
 */
module RouteTable {
  import opened Lists
  import opened MountTree

  datatype CompiledRoute = CompiledRoute(path: string, verb: string, handler: nat, hooks: map<Kind, seq<Hook>>,
                                         parse: bool)

  // ------------------------------------------------------------------ paths

  function JoinPrefix(prefix: string, own: string): string {
    if own == "" then prefix
    else
      var normalized := if own[0] == '/' then own else "/" + own;
      prefix + if normalized[|normalized| - 1] == '/' then normalized[..|normalized| - 1] else normalized
  }

  function JoinPath(prefix: string, path: string): string {
    var rooted := if path != "" && path[0] == '/' then path else "/" + path;
    if prefix == "" then rooted
    else if path == "/" || path == "" then prefix
    else prefix + rooted
  }

  predicate IsPrefix(prefix: string) {
    prefix == "" || prefix[0] == '/'
  }

  /** Every compiled path starts with a slash, whatever prefixes and paths were given. */
  lemma PathsAreRooted(prefix: string, own: string, path: string)
    requires IsPrefix(prefix)
    ensures IsPrefix(JoinPrefix(prefix, own))
    ensures JoinPath(prefix, path) != "" && JoinPath(prefix, path)[0] == '/'
  {
  }

  // ------------------------------------------------------------------ hook lists

  function OfKind(hooks: seq<Hook>, kind: Kind): seq<Hook> {
    if hooks == [] then []
    else
      var last := hooks[|hooks| - 1];
      OfKind(hooks[..|hooks| - 1], kind) + if last.kind == kind then [last] else []
  }

  function ListsOf(hooks: seq<Hook>): map<Kind, seq<Hook>> {
    map[
      Request := OfKind(hooks, Request), Transform := OfKind(hooks, Transform),
      BeforeHandle := OfKind(hooks, BeforeHandle), AfterHandle := OfKind(hooks, AfterHandle),
      MapResponse := OfKind(hooks, MapResponse), Error := OfKind(hooks, Error),
      AfterResponse := OfKind(hooks, AfterResponse)]
  }

  /** Splitting by kind keeps every occurrence of a hook, in the list of its kind only. */
  lemma {:induction false} CountOfKind(hooks: seq<Hook>, kind: Kind, hook: Hook)
    ensures Count(OfKind(hooks, kind), hook) == if hook.kind == kind then Count(hooks, hook) else 0
  {
    if hooks != [] {
      var last := hooks[|hooks| - 1];
      CountOfKind(hooks[..|hooks| - 1], kind, hook);
      CountAppend(OfKind(hooks[..|hooks| - 1], kind), if last.kind == kind then [last] else [], hook);
    }
  }

  /** Splitting by kind drops the hooks of other kinds and keeps the order. */
  lemma {:induction false} OfKindKeepsOrder(before: seq<Hook>, hook: Hook, after: seq<Hook>, kind: Kind)
    ensures OfKind(before + [hook] + after, kind) ==
            OfKind(before, kind) + (if hook.kind == kind then [hook] else []) + OfKind(after, kind)
    decreases |after|
  {
    var all := before + [hook] + after;
    if after == [] {
      assert all[..|all| - 1] == before;
    } else {
      OfKindKeepsOrder(before, hook, after[..|after| - 1], kind);
      assert all[..|all| - 1] == before + [hook] + after[..|after| - 1];
    }
  }

  lemma EachKind(hooks: seq<Hook>, kind: Kind)
    ensures kind in ListsOf(hooks) && ListsOf(hooks)[kind] == OfKind(hooks, kind)
  {
    match kind
    case Request =>
    case Transform =>
    case BeforeHandle =>
    case AfterHandle =>
    case MapResponse =>
    case Error =>
    case AfterResponse =>
  }

  function Compiled(def: Route, path: string, hooks: seq<Hook>): CompiledRoute {
    CompiledRoute(path, def.verb, def.handler, ListsOf(hooks + def.local), def.verb != "GET" && def.verb != "HEAD")
  }

  /**
   * A hook registered in one place only, and not local to the route, is in the compiled route's
   * list of its kind exactly once when its scope covers the route's app; it is in no other list.
   */
  lemma HookOncePerRoute(mounted: set<nat>, root: App, target: seq<nat>, address: seq<nat>, index: nat, hook: Hook,
                         def: Route, path: string, kind: Kind)
    requires IsTree(mounted, root) && IsAddress(mounted, root, target)
    requires OnlyAt(mounted, root, address, index, hook) && hook !in def.local
    ensures var lists := Compiled(def, path, RouteHooks(mounted, root, [], target)).hooks;
            kind in lists &&
            Count(lists[kind], hook) ==
            One(hook.kind == kind &&
                (|| address <= target
                 || (hook.scope == Scoped && address != [] && address[..|address| - 1] <= target)
                 || hook.scope == Global))
  {
    var inherited := RouteHooks(mounted, root, [], target);
    HookOnce(mounted, root, target, address, index, hook);
    CountIn(def.local, hook);
    CountAppend(inherited, def.local, hook);
    CountOfKind(inherited + def.local, kind, hook);
    EachKind(inherited + def.local, kind);
    hide IsTree, IsAddress, OnlyAt, RouteHooks, OfKind, ListsOf, Count;
  }

  function CompiledAll(defs: seq<Route>, prefix: string, hooks: seq<Hook>): seq<CompiledRoute> {
    seq(|defs|, i requires 0 <= i < |defs| => Compiled(defs[i], JoinPath(prefix, defs[i].path), hooks))
  }

  // ------------------------------------------------------------------ the traversal

  /** `ancestors` and `prefix` are those of `app`, its own prefix included. */
  function Visit(mounted: set<nat>, app: App, ancestors: seq<Hook>, prefix: string): seq<CompiledRoute> {
    CompiledAll(app.routes, prefix, ancestors + HooksOf(Effective(mounted, app))) +
    VisitUpTo(mounted, app, |app.entries|, ancestors, prefix)
  }

  function VisitUpTo(mounted: set<nat>, app: App, n: nat, ancestors: seq<Hook>, prefix: string): seq<CompiledRoute>
    requires n <= |app.entries|
    decreases app, n, 1
  {
    if n == 0 then []
    else VisitUpTo(mounted, app, n - 1, ancestors, prefix) + VisitPart(mounted, app, n - 1, ancestors, prefix)
  }

  function VisitPart(mounted: set<nat>, app: App, j: nat, ancestors: seq<Hook>, prefix: string): seq<CompiledRoute>
    requires j < |app.entries|
    decreases app, j + 1, 0
  {
    if !Mounts(mounted, app, j) then []
    else
      var child := app.entries[j].child;
      var below := ancestors + Without(Effective(mounted, app), child.id);
      var full := JoinPrefix(prefix, child.prefix);
      CompiledAll(child.routes, full, below + HooksOf(Effective(mounted, child))) +
      VisitUpTo(mounted, child, |child.entries|, below, full)
  }

  // ------------------------------------------------------------------ reference

  /** The full prefix of the app at `address`. */
  function PrefixAt(mounted: set<nat>, app: App, prefix: string, address: seq<nat>): string
    requires IsAddress(mounted, app, address)
    decreases address
  {
    if address == [] then prefix
    else
      var child := app.entries[address[0]].child;
      PrefixAt(mounted, child, JoinPrefix(prefix, child.prefix), address[1..])
  }

  /** The routes of the app at `address`; none where no app is mounted. */
  function RoutesAt(mounted: set<nat>, app: App, inherited: seq<Hook>, prefix: string,
                    address: seq<nat>): seq<CompiledRoute> {
    if !IsAddress(mounted, app, address) then []
    else
      CompiledAll(AppAt(mounted, app, address).routes, PrefixAt(mounted, app, prefix, address),
                  RouteHooks(mounted, app, inherited, address))
  }

  function RoutesOf(mounted: set<nat>, app: App, inherited: seq<Hook>, prefix: string,
                    addresses: seq<seq<nat>>): seq<CompiledRoute> {
    if addresses == [] then []
    else
      var last := |addresses| - 1;
      RoutesOf(mounted, app, inherited, prefix, addresses[..last]) +
      RoutesAt(mounted, app, inherited, prefix, addresses[last])
  }

  function Under(j: nat, addresses: seq<seq<nat>>): (r: seq<seq<nat>>)
    ensures |r| == |addresses|
    ensures forall i :: 0 <= i < |r| ==> r[i] == [j] + addresses[i]
  {
    seq(|addresses|, i requires 0 <= i < |addresses| => [j] + addresses[i])
  }

  /** All mounted apps at and below `app`, parents first, in entry order. */
  function Addresses(mounted: set<nat>, app: App): seq<seq<nat>> {
    [[]] + AddressesUpTo(mounted, app, |app.entries|)
  }

  function AddressesUpTo(mounted: set<nat>, app: App, n: nat): seq<seq<nat>>
    requires n <= |app.entries|
    decreases app, n, 1
  {
    if n == 0 then [] else AddressesUpTo(mounted, app, n - 1) + AddressesPart(mounted, app, n - 1)
  }

  function AddressesPart(mounted: set<nat>, app: App, j: nat): seq<seq<nat>>
    requires j < |app.entries|
    decreases app, j + 1, 0
  {
    if !Mounts(mounted, app, j) then []
    else Under(j, [[]] + AddressesUpTo(mounted, app.entries[j].child, |app.entries[j].child.entries|))
  }

  // ------------------------------------------------------------------ each address once

  lemma {:induction false} CountUnder(j: nat, list: seq<seq<nat>>, address: seq<nat>)
    ensures Count(Under(j, list), address) ==
            if address != [] && address[0] == j then Count(list, address[1..]) else 0
  {
    if list != [] {
      var last := |list| - 1;
      CountUnder(j, list[..last], address);
      assert Under(j, list)[..last] == Under(j, list[..last]);
      assert address != [] ==> address == [address[0]] + address[1..];
      assert ([j] + list[last])[1..] == list[last];
    }
  }

  lemma {:induction false} AddressesOnce(mounted: set<nat>, app: App, n: nat, address: seq<nat>)
    requires n <= |app.entries|
    ensures Count(AddressesUpTo(mounted, app, n), address) ==
            One(address != [] && address[0] < n && IsAddress(mounted, app, address))
    decreases app, n, 1
  {
    if n > 0 {
      AddressesOnce(mounted, app, n - 1, address);
      AddressesPartOnce(mounted, app, n - 1, address);
      hide IsAddress, AddressesPart;
      CountAppend(AddressesUpTo(mounted, app, n - 1), AddressesPart(mounted, app, n - 1), address);
    }
  }

  lemma {:induction false} AddressesPartOnce(mounted: set<nat>, app: App, j: nat, address: seq<nat>)
    requires j < |app.entries|
    ensures Count(AddressesPart(mounted, app, j), address) ==
            One(address != [] && address[0] == j && IsAddress(mounted, app, address))
    decreases app, j + 1, 0
  {
    if Mounts(mounted, app, j) {
      var child := app.entries[j].child;
      CountUnder(j, [[]] + AddressesUpTo(mounted, child, |child.entries|), address);
      if address != [] && address[0] == j {
        AllAddressesOnce(mounted, child, address[1..]);
      }
    }
  }

  /** Every mounted app is listed exactly once. */
  lemma AllAddressesOnce(mounted: set<nat>, app: App, address: seq<nat>)
    ensures Count(Addresses(mounted, app), address) == One(IsAddress(mounted, app, address))
    decreases app, |app.entries| + 1, 0
  {
    AddressesOnce(mounted, app, |app.entries|, address);
    CountAppend([[]], AddressesUpTo(mounted, app, |app.entries|), address);
    assert Count([[]], address) == Count([], address) + if [] == address then 1 else 0;
  }

  // ------------------------------------------------------------------ the traversal meets the reference

  lemma {:induction false} RoutesOfAppend(mounted: set<nat>, app: App, inherited: seq<Hook>, prefix: string,
                                          a: seq<seq<nat>>, b: seq<seq<nat>>)
    ensures RoutesOf(mounted, app, inherited, prefix, a + b) ==
            RoutesOf(mounted, app, inherited, prefix, a) + RoutesOf(mounted, app, inherited, prefix, b)
  {
    hide RoutesAt;
    if b == [] {
      assert a + b == a;
    } else {
      var last := |b| - 1;
      RoutesOfAppend(mounted, app, inherited, prefix, a, b[..last]);
      assert (a + b)[..|a + b| - 1] == a + b[..last];
    }
  }

  /** One step down: the child inherits everything but what was lifted from it. */
  lemma RoutesBelow(mounted: set<nat>, app: App, j: nat, inherited: seq<Hook>, prefix: string, address: seq<nat>)
    requires Mounts(mounted, app, j)
    ensures var child := app.entries[j].child;
            RoutesAt(mounted, app, inherited, prefix, [j] + address) ==
            RoutesAt(mounted, child, inherited + Without(Effective(mounted, app), child.id),
                     JoinPrefix(prefix, child.prefix), address)
  {
    hide Without, Effective, JoinPrefix;
    assert ([j] + address)[1..] == address;
  }

  lemma {:induction false} RoutesUnder(mounted: set<nat>, app: App, j: nat, inherited: seq<Hook>,
                                       prefix: string, list: seq<seq<nat>>)
    requires Mounts(mounted, app, j)
    ensures var child := app.entries[j].child;
            RoutesOf(mounted, app, inherited, prefix, Under(j, list)) ==
            RoutesOf(mounted, child, inherited + Without(Effective(mounted, app), child.id),
                     JoinPrefix(prefix, child.prefix), list)
  {
    hide Without, Effective, JoinPrefix, RoutesAt;
    if list != [] {
      var last := |list| - 1;
      RoutesUnder(mounted, app, j, inherited, prefix, list[..last]);
      RoutesBelow(mounted, app, j, inherited, prefix, list[last]);
      assert Under(j, list)[..last] == Under(j, list[..last]);
    }
  }

  lemma {:induction false} VisitIsAllUpTo(mounted: set<nat>, app: App, n: nat, inherited: seq<Hook>, prefix: string)
    requires n <= |app.entries|
    ensures VisitUpTo(mounted, app, n, inherited, prefix) ==
            RoutesOf(mounted, app, inherited, prefix, AddressesUpTo(mounted, app, n))
    decreases app, n, 1
  {
    hide VisitPart, AddressesPart, RoutesAt;
    if n > 0 {
      hide RoutesOf;
      VisitIsAllUpTo(mounted, app, n - 1, inherited, prefix);
      VisitIsAllPart(mounted, app, n - 1, inherited, prefix);
      RoutesOfAppend(mounted, app, inherited, prefix, AddressesUpTo(mounted, app, n - 1),
                     AddressesPart(mounted, app, n - 1));
    }
  }

  lemma {:induction false} VisitIsAllPart(mounted: set<nat>, app: App, j: nat, inherited: seq<Hook>, prefix: string)
    requires j < |app.entries|
    ensures VisitPart(mounted, app, j, inherited, prefix) ==
            RoutesOf(mounted, app, inherited, prefix, AddressesPart(mounted, app, j))
    decreases app, j + 1, 0
  {
    if Mounts(mounted, app, j) {
      var child := app.entries[j].child;
      VisitPartIs(mounted, app, j, inherited, prefix);
      hide Without, Effective, JoinPrefix, Visit;
      VisitIsAll(mounted, child, inherited + Without(Effective(mounted, app), child.id),
                 JoinPrefix(prefix, child.prefix));
      RoutesUnder(mounted, app, j, inherited, prefix, Addresses(mounted, child));
    }
  }

  lemma VisitPartIs(mounted: set<nat>, app: App, j: nat, inherited: seq<Hook>, prefix: string)
    requires Mounts(mounted, app, j)
    ensures var child := app.entries[j].child;
            VisitPart(mounted, app, j, inherited, prefix) ==
            Visit(mounted, child, inherited + Without(Effective(mounted, app), child.id),
                  JoinPrefix(prefix, child.prefix))
  {
  }

  lemma OwnRoutes(mounted: set<nat>, app: App, inherited: seq<Hook>, prefix: string)
    ensures RoutesOf(mounted, app, inherited, prefix, [[]]) ==
            CompiledAll(app.routes, prefix, inherited + HooksOf(Effective(mounted, app)))
  {
    hide CompiledAll, Effective, HooksOf;
    var here: seq<seq<nat>> := [[]];
    assert here[..0] == [] && RoutesOf(mounted, app, inherited, prefix, here[..0]) == [];
  }

  /** The traversal yields the routes of every mounted app, with its full prefix and its hooks. */
  lemma VisitIsAll(mounted: set<nat>, app: App, inherited: seq<Hook>, prefix: string)
    ensures Visit(mounted, app, inherited, prefix) ==
            RoutesOf(mounted, app, inherited, prefix, Addresses(mounted, app))
    decreases app, |app.entries| + 1, 0
  {
    VisitIsAllUpTo(mounted, app, |app.entries|, inherited, prefix);
    RoutesOfAppend(mounted, app, inherited, prefix, [[]], AddressesUpTo(mounted, app, |app.entries|));
    OwnRoutes(mounted, app, inherited, prefix);
    hide RoutesOf, RoutesAt, Effective, HooksOf, VisitUpTo, AddressesUpTo, CompiledAll;
  }
}
