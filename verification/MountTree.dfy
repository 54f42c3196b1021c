/**
 * How mounted apps are compiled: which hooks reach which routes, and in what order. `Effective`
 * lifts hooks out of mounted children by scope, `RouteHooks` pushes inherited hooks down the tree
 * while leaving out those lifted from the very child. The reference is a filter: all hook
 * registrations of the whole tree, each once, kept by one condition on two addresses (`Applies`).
 */
module MountTree {
  import opened Lists
  import opened Text

  datatype Scope = Local | Scoped | Global

  datatype Kind = Request | Transform | BeforeHandle | AfterHandle | MapResponse | Error | AfterResponse

  datatype Hook = Hook(fn: nat, kind: Kind, scope: Scope)

  /** `local` are the hooks given in the route options, by kind in the order the compiler reads them. */
  datatype Route = Route(verb: string, path: string, local: seq<Hook>, handler: nat)

  datatype Entry = HookEntry(hook: Hook) | Mount(child: App)

  /** `id` is the identity of the app object, `key` what its name and seed amount to. */
  datatype App = App(id: nat, key: Option<string>, prefix: string, entries: seq<Entry>, routes: seq<Route>)

  /** A hook together with the direct child it was lifted from. */
  datatype Lifted = Lifted(hook: Hook, from: Option<nat>)

  /** A hook as entry `index` of the app at address `home`. */
  datatype Registration = Registration(home: seq<nat>, index: nat, hook: Hook)

  // ------------------------------------------------------------------ lifting

  /** Own hooks plus hooks lifted from mounted children, in entry order. */
  function Effective(mounted: set<nat>, app: App): seq<Lifted> {
    EffectiveUpTo(mounted, app, |app.entries|)
  }

  function EffectiveUpTo(mounted: set<nat>, app: App, n: nat): seq<Lifted>
    requires n <= |app.entries|
    decreases app, n, 1
  {
    if n == 0 then []
    else
      EffectiveUpTo(mounted, app, n - 1) + LiftedPart(mounted, app, n - 1)
  }

  /** What entry `j` contributes. */
  function LiftedPart(mounted: set<nat>, app: App, j: nat): seq<Lifted>
    requires j < |app.entries|
    decreases app, j + 1, 0
  {
    match app.entries[j]
    case HookEntry(hook) => [Lifted(hook, None)]
    case Mount(child) =>
      if child.id !in mounted then [] else Lift(EffectiveUpTo(mounted, child, |child.entries|), child.id)
  }

  predicate Lifts(lifted: Lifted) {
    lifted.hook.scope == Global || (lifted.hook.scope == Scoped && lifted.from == None)
  }

  /** What a parent takes over from the child `from`: `scoped` one level, `global` every level. */
  function Lift(own: seq<Lifted>, from: nat): seq<Lifted> {
    if own == [] then []
    else
      var last := own[|own| - 1];
      Lift(own[..|own| - 1], from) + if Lifts(last) then [Lifted(last.hook, Some(from))] else []
  }

  function HooksOf(own: seq<Lifted>): seq<Hook> {
    seq(|own|, i requires 0 <= i < |own| => own[i].hook)
  }

  /** The hooks an app passes on to its child `id`: all but those lifted from that child. */
  function Without(own: seq<Lifted>, id: nat): seq<Hook> {
    if own == [] then []
    else
      var last := own[|own| - 1];
      Without(own[..|own| - 1], id) + if last.from == Some(id) then [] else [last.hook]
  }

  // ------------------------------------------------------------------ addresses

  predicate Mounts(mounted: set<nat>, app: App, j: nat) {
    j < |app.entries| && app.entries[j].Mount? && app.entries[j].child.id in mounted
  }

  /** The mounted apps below `app`, addressed by entry positions. */
  predicate IsAddress(mounted: set<nat>, app: App, address: seq<nat>)
    decreases address
  {
    address == [] ||
    (Mounts(mounted, app, address[0]) && IsAddress(mounted, app.entries[address[0]].child, address[1..]))
  }

  function AppAt(mounted: set<nat>, app: App, address: seq<nat>): App
    requires IsAddress(mounted, app, address)
    decreases address
  {
    if address == [] then app else AppAt(mounted, app.entries[address[0]].child, address[1..])
  }

  /** The hooks compiled into the routes of the app at `address`, given those inherited by `app`. */
  function RouteHooks(mounted: set<nat>, app: App, inherited: seq<Hook>, address: seq<nat>): seq<Hook>
    requires IsAddress(mounted, app, address)
    decreases address
  {
    if address == [] then inherited + HooksOf(Effective(mounted, app))
    else
      var child := app.entries[address[0]].child;
      RouteHooks(mounted, child, inherited + Without(Effective(mounted, app), child.id), address[1..])
  }

  /** The app objects mounted at and below `app`. */
  function Ids(mounted: set<nat>, app: App): set<nat> {
    {app.id} + IdsUpTo(mounted, app, |app.entries|)
  }

  function IdsUpTo(mounted: set<nat>, app: App, n: nat): set<nat>
    requires n <= |app.entries|
    decreases app, n
  {
    if n == 0 then {}
    else
      IdsUpTo(mounted, app, n - 1) +
      if Mounts(mounted, app, n - 1)
      then {app.entries[n - 1].child.id} +
           IdsUpTo(mounted, app.entries[n - 1].child, |app.entries[n - 1].child.entries|)
      else {}
  }

  /** Each app object is mounted once. */
  predicate IsTree(mounted: set<nat>, app: App) {
    app.id !in IdsUpTo(mounted, app, |app.entries|) && TreeUpTo(mounted, app, |app.entries|)
  }

  predicate TreeUpTo(mounted: set<nat>, app: App, n: nat)
    requires n <= |app.entries|
    decreases app, n
  {
    n == 0 ||
    (&& TreeUpTo(mounted, app, n - 1)
     && (Mounts(mounted, app, n - 1) ==>
           var child := app.entries[n - 1].child;
           && child.id !in IdsUpTo(mounted, child, |child.entries|)
           && TreeUpTo(mounted, child, |child.entries|)
           && Ids(mounted, child) !! IdsUpTo(mounted, app, n - 1)))
  }

  // ------------------------------------------------------------------ in which order

  lemma {:induction false} SameEntries(mounted: set<nat>, a: App, b: App, n: nat)
    requires n <= |a.entries| && n <= |b.entries| && a.entries[..n] == b.entries[..n]
    ensures EffectiveUpTo(mounted, a, n) == EffectiveUpTo(mounted, b, n)
  {
    if n > 0 {
      assert forall app: App :: n <= |app.entries| ==> app.entries[..n][..n - 1] == app.entries[..n - 1];
      assert a.entries[n - 1] == a.entries[..n][n - 1] && b.entries[n - 1] == b.entries[..n][n - 1];
      SameEntries(mounted, a, b, n - 1);
    }
  }

  /** Hooks come in the order in which they and the apps they are lifted from were added. */
  lemma AddedLast(mounted: set<nat>, app: App, entry: Entry)
    ensures var more := app.(entries := app.entries + [entry]);
            Effective(mounted, more) ==
            Effective(mounted, app) +
            match entry
            case HookEntry(hook) => [Lifted(hook, None)]
            case Mount(child) => if child.id in mounted then Lift(Effective(mounted, child), child.id) else []
  {
    var (more, n) := (app.(entries := app.entries + [entry]), |app.entries|);
    assert more.entries[..n] == app.entries[..n];
    SameEntries(mounted, app, more, n);
    assert Effective(mounted, more) == EffectiveUpTo(mounted, more, n) + LiftedPart(mounted, more, n);
  }

  /** Hooks of outer apps come before those of inner ones. */
  lemma {:induction false} OuterFirst(mounted: set<nat>, app: App, inherited: seq<Hook>, address: seq<nat>)
    requires IsAddress(mounted, app, address)
    ensures RouteHooks(mounted, app, inherited, address) == inherited + RouteHooks(mounted, app, [], address)
    decreases address
  {
    hide Effective, Without;
    if address != [] {
      var child := app.entries[address[0]].child;
      var passed := Without(Effective(mounted, app), child.id);
      OuterFirst(mounted, child, inherited + passed, address[1..]);
      OuterFirst(mounted, child, [] + passed, address[1..]);
      assert inherited + passed + RouteHooks(mounted, child, [], address[1..])
          == inherited + (passed + RouteHooks(mounted, child, [], address[1..]));
      assert [] + passed == passed;
    }
  }

  // ------------------------------------------------------------------ reference

  /**
   * A hook registered on the app at `home` reaches the routes of the app at `target`: in the
   * hook's own subtree, in its parent's subtree when scoped, anywhere when global.
   */
  predicate Applies(scope: Scope, home: seq<nat>, target: seq<nat>) {
    || home <= target
    || (scope == Scoped && home != [] && home[..|home| - 1] <= target)
    || scope == Global
  }

  /** All registrations of the subtree at `home`, in entry order, but not below entry `skip`. */
  function Registrations(mounted: set<nat>, app: App, n: nat, home: seq<nat>, skip: nat): seq<Registration>
    requires n <= |app.entries|
    decreases app, n, 1
  {
    if n == 0 then []
    else Registrations(mounted, app, n - 1, home, skip) + PartOf(mounted, app, n - 1, home, skip)
  }

  /** Those of entry `j`. */
  function PartOf(mounted: set<nat>, app: App, j: nat, home: seq<nat>, skip: nat): seq<Registration>
    requires j < |app.entries|
    decreases app, j + 1, 0
  {
    match app.entries[j]
    case HookEntry(hook) => [Registration(home, j, hook)]
    case Mount(child) =>
      if child.id !in mounted || j == skip then []
      else Registrations(mounted, child, |child.entries|, home + [j], |child.entries|)
  }

  /** All registrations seen from the app at `home + rest`: outer levels first, then entry order. */
  function Outward(mounted: set<nat>, app: App, home: seq<nat>, rest: seq<nat>): seq<Registration>
    requires IsAddress(mounted, app, rest)
    decreases rest
  {
    if rest == [] then Registrations(mounted, app, |app.entries|, home, |app.entries|)
    else
      Registrations(mounted, app, |app.entries|, home, rest[0]) +
      Outward(mounted, app.entries[rest[0]].child, home + [rest[0]], rest[1..])
  }

  /** The hooks of those registrations that reach `target`. */
  function Reaching(all: seq<Registration>, target: seq<nat>): seq<Hook> {
    if all == [] then []
    else
      var last := all[|all| - 1];
      Reaching(all[..|all| - 1], target) + if Applies(last.hook.scope, last.home, target) then [last.hook] else []
  }

  /** The hook `hook` is entry `index` of the app at `address`. */
  predicate IsRegistered(mounted: set<nat>, app: App, address: seq<nat>, index: nat, hook: Hook)
    decreases address
  {
    if address == [] then index < |app.entries| && app.entries[index] == HookEntry(hook)
    else
      Mounts(mounted, app, address[0]) &&
      IsRegistered(mounted, app.entries[address[0]].child, address[1..], index, hook)
  }

  // ------------------------------------------------------------------ every registration once

  lemma {:induction false} StartsAtHome(mounted: set<nat>, app: App, n: nat, home: seq<nat>, skip: nat, r: Registration)
    requires n <= |app.entries|
    requires r in Registrations(mounted, app, n, home, skip)
    ensures home <= r.home
    ensures r.home == home ==> r.index < n && app.entries[r.index] == HookEntry(r.hook)
    ensures r.home != home ==> r.home[|home|] < n && r.home[|home|] != skip
    decreases app, n
  {
    if r in Registrations(mounted, app, n - 1, home, skip) {
      StartsAtHome(mounted, app, n - 1, home, skip, r);
    } else {
      match app.entries[n - 1]
      case HookEntry(_) =>
      case Mount(child) =>
        StartsAtHome(mounted, child, |child.entries|, home + [n - 1], |child.entries|, r);
    }
  }

  /** Entry `address[0]` when it is below `n` and not skipped, or an own entry below `n`. */
  predicate InReach(n: nat, skip: nat, address: seq<nat>, index: nat) {
    if address == [] then index < n else address[0] < n && address[0] != skip
  }

  /** Whether entry `j` leads to the registration. */
  predicate ComesFrom(j: nat, skip: nat, address: seq<nat>, index: nat) {
    if address == [] then index == j else address[0] == j && j != skip
  }

  lemma {:induction false} RegisteredOnce(mounted: set<nat>, app: App, n: nat, home: seq<nat>, skip: nat,
                                          address: seq<nat>, index: nat, hook: Hook)
    requires n <= |app.entries|
    ensures Count(Registrations(mounted, app, n, home, skip), Registration(home + address, index, hook)) ==
            One(IsRegistered(mounted, app, address, index, hook) && InReach(n, skip, address, index))
    decreases app, n, 1
  {
    if n > 0 {
      RegisteredOnce(mounted, app, n - 1, home, skip, address, index, hook);
      PartOnce(mounted, app, n - 1, home, skip, address, index, hook);
      OneMore(mounted, app, n - 1, home, skip, IsRegistered(mounted, app, address, index, hook), address, index,
              Registration(home + address, index, hook));
    }
  }

  lemma OneMore(mounted: set<nat>, app: App, j: nat, home: seq<nat>, skip: nat,
                known: bool, address: seq<nat>, index: nat, r: Registration)
    requires j < |app.entries|
    requires Count(Registrations(mounted, app, j, home, skip), r) == One(known && InReach(j, skip, address, index))
    requires Count(PartOf(mounted, app, j, home, skip), r) == One(known && ComesFrom(j, skip, address, index))
    ensures Count(Registrations(mounted, app, j + 1, home, skip), r) ==
            One(known && InReach(j + 1, skip, address, index))
  {
    hide *;
    RegistrationsMore(mounted, app, j, home, skip);
    CountAppend(Registrations(mounted, app, j, home, skip), PartOf(mounted, app, j, home, skip), r);
    ReachMore(j, skip, known, address, index);
  }

  lemma RegistrationsMore(mounted: set<nat>, app: App, j: nat, home: seq<nat>, skip: nat)
    requires j < |app.entries|
    ensures Registrations(mounted, app, j + 1, home, skip) ==
            Registrations(mounted, app, j, home, skip) + PartOf(mounted, app, j, home, skip)
  {
  }

  lemma ReachMore(j: nat, skip: nat, known: bool, address: seq<nat>, index: nat)
    ensures One(known && InReach(j, skip, address, index)) + One(known && ComesFrom(j, skip, address, index)) ==
            One(known && InReach(j + 1, skip, address, index))
  {
  }

  lemma {:induction false} PartOnce(mounted: set<nat>, app: App, j: nat, home: seq<nat>, skip: nat,
                                    address: seq<nat>, index: nat, hook: Hook)
    requires j < |app.entries|
    ensures Count(PartOf(mounted, app, j, home, skip), Registration(home + address, index, hook)) ==
            One(IsRegistered(mounted, app, address, index, hook) && ComesFrom(j, skip, address, index))
    decreases app, j + 1, 0
  {
    var r := Registration(home + address, index, hook);
    match app.entries[j]
    case HookEntry(own) =>
      assert r == Registration(home, j, own) <==> address == [] && index == j && hook == own;
    case Mount(child) =>
      if address != [] && address[0] == j {
        RegisteredOnce(mounted, child, |child.entries|, home + [j], |child.entries|, address[1..], index, hook);
        assert home + [j] + address[1..] == home + address;
        RegisteredInside(mounted, child, address[1..], index, hook);
      } else if child.id in mounted && j != skip {
        Elsewhere(mounted, app, j, home, address, index, hook);
        CountIn(PartOf(mounted, app, j, home, skip), r);
      }
  }

  lemma RegisteredInside(mounted: set<nat>, app: App, address: seq<nat>, index: nat, hook: Hook)
    ensures IsRegistered(mounted, app, address, index, hook) ==> InReach(|app.entries|, |app.entries|, address, index)
  {
  }

  /** Below entry `j` there is no registration with an address through another entry. */
  lemma Elsewhere(mounted: set<nat>, app: App, j: nat, home: seq<nat>, address: seq<nat>, index: nat, hook: Hook)
    requires j < |app.entries| && app.entries[j].Mount?
    requires address == [] || address[0] != j
    ensures var child := app.entries[j].child;
            Registration(home + address, index, hook) !in
            Registrations(mounted, child, |child.entries|, home + [j], |child.entries|)
  {
    var child := app.entries[j].child;
    forall r | r in Registrations(mounted, child, |child.entries|, home + [j], |child.entries|)
      ensures r.home != home + address
    {
      StartsAtHome(mounted, child, |child.entries|, home + [j], |child.entries|, r);
      assert r.home[|home|] == j;
      assert address != [] ==> (home + address)[|home|] == address[0];
    }
  }

  // ------------------------------------------------------------------ lifting and pushing down = filtering

  lemma {:induction false} ReachingAppend(a: seq<Registration>, b: seq<Registration>, target: seq<nat>)
    ensures Reaching(a + b, target) == Reaching(a, target) + Reaching(b, target)
  {
    if b == [] {
      assert a + b == a;
    } else {
      var init, last := b[..|b| - 1], b[|b| - 1];
      var more := if Applies(last.hook.scope, last.home, target) then [last.hook] else [];
      hide *;
      assert b == init + [last] && a + b == a + init + [last];
      ReachingAppend(a, init, target);
      ReachingSnoc(init, last, target);
      ReachingSnoc(a + init, last, target);
      Assoc(Reaching(a, target), Reaching(init, target), more);
    }
  }

  lemma ReachingSnoc(all: seq<Registration>, last: Registration, target: seq<nat>)
    ensures Reaching(all + [last], target) ==
            Reaching(all, target) + if Applies(last.hook.scope, last.home, target) then [last.hook] else []
  {
    assert (all + [last])[..|all|] == all;
  }

  /** The hooks that keep lifting. */
  function Globals(own: seq<Lifted>): seq<Hook> {
    if own == [] then []
    else
      var last := own[|own| - 1];
      Globals(own[..|own| - 1]) + if last.hook.scope == Global then [last.hook] else []
  }

  lemma {:induction false} GlobalsAppend(a: seq<Lifted>, b: seq<Lifted>)
    ensures Globals(a + b) == Globals(a) + Globals(b)
  {
    if b == [] {
      assert a + b == a;
    } else {
      GlobalsAppend(a, b[..|b| - 1]);
      assert (a + b)[..|a + b| - 1] == a + b[..|b| - 1];
    }
  }

  lemma {:induction false} LiftAppend(a: seq<Lifted>, b: seq<Lifted>, from: nat)
    ensures Lift(a + b, from) == Lift(a, from) + Lift(b, from)
  {
    if b == [] {
      assert a + b == a;
    } else {
      LiftAppend(a, b[..|b| - 1], from);
      assert (a + b)[..|a + b| - 1] == a + b[..|b| - 1];
    }
  }

  lemma {:induction false} WithoutAppend(a: seq<Lifted>, b: seq<Lifted>, id: nat)
    ensures Without(a + b, id) == Without(a, id) + Without(b, id)
  {
    if b == [] {
      assert a + b == a;
    } else {
      var init, last := b[..|b| - 1], b[|b| - 1];
      var more := if last.from == Some(id) then [] else [last.hook];
      hide *;
      assert b == init + [last] && a + b == a + init + [last];
      WithoutAppend(a, init, id);
      WithoutSnoc(init, last, id);
      WithoutSnoc(a + init, last, id);
      Assoc(Without(a, id), Without(init, id), more);
    }
  }

  lemma WithoutSnoc(own: seq<Lifted>, last: Lifted, id: nat)
    ensures Without(own + [last], id) == Without(own, id) + if last.from == Some(id) then [] else [last.hook]
  {
    assert (own + [last])[..|own|] == own;
  }

  lemma HooksOfAppend(a: seq<Lifted>, b: seq<Lifted>)
    ensures HooksOf(a + b) == HooksOf(a) + HooksOf(b)
  {
  }

  lemma {:induction false} GlobalsLift(own: seq<Lifted>, from: nat)
    ensures Globals(Lift(own, from)) == Globals(own)
  {
    if own != [] {
      var last := own[|own| - 1];
      GlobalsLift(own[..|own| - 1], from);
      GlobalsAppend(Lift(own[..|own| - 1], from), if Lifts(last) then [Lifted(last.hook, Some(from))] else []);
    }
  }

  /** Hooks lifted a second time are the global ones. */
  lemma {:induction false} LiftLifted(own: seq<Lifted>, from: nat, again: nat)
    ensures HooksOf(Lift(Lift(own, from), again)) == Globals(own)
  {
    if own != [] {
      var last := own[|own| - 1];
      var one := if Lifts(last) then [Lifted(last.hook, Some(from))] else [];
      LiftLifted(own[..|own| - 1], from, again);
      LiftAppend(Lift(own[..|own| - 1], from), one, again);
      HooksOfAppend(Lift(Lift(own[..|own| - 1], from), again), Lift(one, again));
      assert one == [] ||
             Lift(one, again) == Lift([], again) + if Lifts(one[0]) then [Lifted(one[0].hook, Some(again))] else [];
    }
  }

  lemma {:induction false} WithoutLifted(own: seq<Lifted>, from: nat, id: nat)
    ensures Without(Lift(own, from), id) == if from == id then [] else HooksOf(Lift(own, from))
  {
    if own != [] {
      var last := own[|own| - 1];
      var one := if Lifts(last) then [Lifted(last.hook, Some(from))] else [];
      WithoutLifted(own[..|own| - 1], from, id);
      WithoutAppend(Lift(own[..|own| - 1], from), one, id);
      HooksOfAppend(Lift(own[..|own| - 1], from), one);
    }
  }

  /** In a subtree well away from the target only global hooks apply: those that keep lifting. */
  lemma {:induction false} AwayReach(mounted: set<nat>, app: App, n: nat, home: seq<nat>, skip: nat,
                                     top: seq<nat>, target: seq<nat>)
    requires n <= |app.entries| && n <= skip && top < home && !(top <= target)
    ensures Reaching(Registrations(mounted, app, n, home, skip), target) == Globals(EffectiveUpTo(mounted, app, n))
    decreases app, n
  {
    if n > 0 {
      AwayReach(mounted, app, n - 1, home, skip, top, target);
      ReachingAppend(Registrations(mounted, app, n - 1, home, skip), PartOf(mounted, app, n - 1, home, skip), target);
      GlobalsAppend(EffectiveUpTo(mounted, app, n - 1), LiftedPart(mounted, app, n - 1));
      match app.entries[n - 1]
      case HookEntry(hook) =>
        AwayOwn(hook, home, n - 1, top, target);
      case Mount(child) =>
        AwayReach(mounted, child, |child.entries|, home + [n - 1], |child.entries|, top, target);
        GlobalsLift(Effective(mounted, child), child.id);
    }
  }

  lemma AwayOwn(hook: Hook, home: seq<nat>, index: nat, top: seq<nat>, target: seq<nat>)
    requires top < home && !(top <= target)
    ensures Reaching([Registration(home, index, hook)], target) == Globals([Lifted(hook, None)])
  {
    assert top <= home[..|home| - 1];
  }

  /** In a subtree mounted beside the way to the target exactly the lifted hooks apply. */
  lemma {:induction false} BesideReach(mounted: set<nat>, app: App, n: nat, home: seq<nat>, skip: nat,
                                       target: seq<nat>, from: nat)
    requires n <= |app.entries| && n <= skip
    requires home != [] && home[..|home| - 1] <= target && !(home <= target)
    ensures Reaching(Registrations(mounted, app, n, home, skip), target) ==
            HooksOf(Lift(EffectiveUpTo(mounted, app, n), from))
    decreases app, n
  {
    hide PartOf, LiftedPart;
    if n > 0 {
      BesideReach(mounted, app, n - 1, home, skip, target, from);
      ReachingAppend(Registrations(mounted, app, n - 1, home, skip), PartOf(mounted, app, n - 1, home, skip), target);
      LiftAppend(EffectiveUpTo(mounted, app, n - 1), LiftedPart(mounted, app, n - 1), from);
      HooksOfAppend(Lift(EffectiveUpTo(mounted, app, n - 1), from), Lift(LiftedPart(mounted, app, n - 1), from));
      BesidePart(mounted, app, n - 1, home, skip, target, from);
    }
  }

  lemma BesidePart(mounted: set<nat>, app: App, j: nat, home: seq<nat>, skip: nat, target: seq<nat>, from: nat)
    requires j < |app.entries| && j < skip
    requires home != [] && home[..|home| - 1] <= target && !(home <= target)
    ensures Reaching(PartOf(mounted, app, j, home, skip), target) == HooksOf(Lift(LiftedPart(mounted, app, j), from))
  {
    match app.entries[j]
    case HookEntry(hook) =>
      assert Lift([Lifted(hook, None)], from) ==
             Lift([], from) + if Lifts(Lifted(hook, None)) then [Lifted(hook, Some(from))] else [];
    case Mount(child) =>
      AwayReach(mounted, child, |child.entries|, home + [j], |child.entries|, home, target);
      LiftLifted(Effective(mounted, child), child.id, from);
  }

  /** The way to `target` goes from the app at `home` through its entry `next`, the app `id`. */
  predicate Leads(mounted: set<nat>, app: App, home: seq<nat>, next: nat, id: nat, target: seq<nat>) {
    && IsTree(mounted, app)
    && Mounts(mounted, app, next) && app.entries[next].child.id == id
    && home + [next] <= target
  }

  /** On the way to the target: everything but what was lifted from the next app on the way. */
  lemma {:induction false} OnPathReach(mounted: set<nat>, app: App, n: nat, home: seq<nat>, next: nat, id: nat,
                                       target: seq<nat>)
    requires n <= |app.entries| && Leads(mounted, app, home, next, id, target)
    ensures Reaching(Registrations(mounted, app, n, home, next), target) == Without(EffectiveUpTo(mounted, app, n), id)
  {
    hide Leads, PartOf, LiftedPart;
    if n > 0 {
      OnPathReach(mounted, app, n - 1, home, next, id, target);
      ReachingAppend(Registrations(mounted, app, n - 1, home, next), PartOf(mounted, app, n - 1, home, next), target);
      WithoutAppend(EffectiveUpTo(mounted, app, n - 1), LiftedPart(mounted, app, n - 1), id);
      OnPathPart(mounted, app, n - 1, home, next, id, target);
    }
  }

  lemma OnPathPart(mounted: set<nat>, app: App, j: nat, home: seq<nat>, next: nat, id: nat, target: seq<nat>)
    requires j < |app.entries| && Leads(mounted, app, home, next, id, target)
    ensures Reaching(PartOf(mounted, app, j, home, next), target) == Without(LiftedPart(mounted, app, j), id)
  {
    match app.entries[j]
    case HookEntry(hook) =>
      assert Without([Lifted(hook, None)], id) == Without([], id) + [hook];
    case Mount(child) =>
      if child.id in mounted {
        WithoutLifted(Effective(mounted, child), child.id, id);
        if j != next {
          SiblingsDiffer(mounted, app, |app.entries|, j, next);
          assert target[|home|] == next;
          BesideReach(mounted, child, |child.entries|, home + [j], |child.entries|, target, child.id);
        }
      }
  }

  lemma {:induction false} IdsInclude(mounted: set<nat>, app: App, n: nat, j: nat)
    requires j < n <= |app.entries| && Mounts(mounted, app, j)
    ensures Ids(mounted, app.entries[j].child) <= IdsUpTo(mounted, app, n)
  {
    if j < n - 1 {
      IdsInclude(mounted, app, n - 1, j);
    }
  }

  lemma {:induction false} SiblingsDiffer(mounted: set<nat>, app: App, n: nat, i: nat, j: nat)
    requires n <= |app.entries| && TreeUpTo(mounted, app, n)
    requires i < n && j < n && i != j && Mounts(mounted, app, i) && Mounts(mounted, app, j)
    ensures app.entries[i].child.id != app.entries[j].child.id
  {
    if i < n - 1 && j < n - 1 {
      SiblingsDiffer(mounted, app, n - 1, i, j);
    } else {
      var low := if i < j then i else j;
      IdsInclude(mounted, app, n - 1, low);
      assert app.entries[low].child.id in Ids(mounted, app.entries[low].child);
    }
  }

  lemma {:induction false} TreeBelow(mounted: set<nat>, app: App, n: nat, j: nat)
    requires n <= |app.entries| && TreeUpTo(mounted, app, n) && j < n && Mounts(mounted, app, j)
    ensures IsTree(mounted, app.entries[j].child)
    ensures Ids(mounted, app.entries[j].child) !! IdsUpTo(mounted, app, j)
  {
    if j < n - 1 {
      TreeBelow(mounted, app, n - 1, j);
    }
  }

  /** At the target: own hooks and everything lifted into it. */
  lemma {:induction false} AtTargetReach(mounted: set<nat>, app: App, n: nat, home: seq<nat>, skip: nat)
    requires n <= |app.entries| && n <= skip
    ensures Reaching(Registrations(mounted, app, n, home, skip), home) == HooksOf(EffectiveUpTo(mounted, app, n))
  {
    hide PartOf, LiftedPart;
    if n > 0 {
      AtTargetReach(mounted, app, n - 1, home, skip);
      ReachingAppend(Registrations(mounted, app, n - 1, home, skip), PartOf(mounted, app, n - 1, home, skip), home);
      HooksOfAppend(EffectiveUpTo(mounted, app, n - 1), LiftedPart(mounted, app, n - 1));
      AtTargetPart(mounted, app, n - 1, home, skip);
    }
  }

  lemma AtTargetPart(mounted: set<nat>, app: App, j: nat, home: seq<nat>, skip: nat)
    requires j < |app.entries| && j < skip
    ensures Reaching(PartOf(mounted, app, j, home, skip), home) == HooksOf(LiftedPart(mounted, app, j))
  {
    match app.entries[j]
    case HookEntry(hook) =>
      assert Reaching([Registration(home, j, hook)], home) == Reaching([], home) + [hook];
    case Mount(child) =>
      BesideReach(mounted, child, |child.entries|, home + [j], |child.entries|, home, child.id);
  }

  /** The compiled hook list of every mounted app is the filtered list of all registrations. */
  lemma {:induction false} HooksReachRoutes(mounted: set<nat>, app: App, inherited: seq<Hook>, home: seq<nat>,
                                            rest: seq<nat>)
    requires IsTree(mounted, app) && IsAddress(mounted, app, rest)
    ensures RouteHooks(mounted, app, inherited, rest) ==
            inherited + Reaching(Outward(mounted, app, home, rest), home + rest)
    decreases rest
  {
    hide *;
    if rest == [] {
      AtTarget(mounted, app, inherited, home);
    } else {
      Below(mounted, app, inherited, home, rest);
      var child := app.entries[rest[0]].child;
      var passed := Without(Effective(mounted, app), child.id);
      var here := Registrations(mounted, app, |app.entries|, home, rest[0]);
      HooksReachRoutes(mounted, child, inherited + passed, home + [rest[0]], rest[1..]);
      ReachingAppend(here, Outward(mounted, child, home + [rest[0]], rest[1..]), home + rest);
    }
  }

  lemma AtTarget(mounted: set<nat>, app: App, inherited: seq<Hook>, home: seq<nat>)
    requires IsAddress(mounted, app, [])
    ensures RouteHooks(mounted, app, inherited, []) ==
            inherited + Reaching(Outward(mounted, app, home, []), home + [])
  {
    AtTargetReach(mounted, app, |app.entries|, home, |app.entries|);
    assert home + [] == home;
    hide Registrations, Reaching, HooksOf;
  }

  /** One app down: what is passed on are the hooks of this level that reach the target. */
  lemma Below(mounted: set<nat>, app: App, inherited: seq<Hook>, home: seq<nat>, rest: seq<nat>)
    requires IsTree(mounted, app) && IsAddress(mounted, app, rest) && rest != []
    ensures rest[0] < |app.entries| && app.entries[rest[0]].Mount?
    ensures var child := app.entries[rest[0]].child;
            var passed := Without(Effective(mounted, app), child.id);
            && IsTree(mounted, child) && IsAddress(mounted, child, rest[1..])
            && home + [rest[0]] + rest[1..] == home + rest
            && Reaching(Registrations(mounted, app, |app.entries|, home, rest[0]), home + rest) == passed
            && RouteHooks(mounted, app, inherited, rest) == RouteHooks(mounted, child, inherited + passed, rest[1..])
            && Outward(mounted, app, home, rest) ==
               Registrations(mounted, app, |app.entries|, home, rest[0]) +
               Outward(mounted, child, home + [rest[0]], rest[1..])
  {
    TreeBelow(mounted, app, |app.entries|, rest[0]);
    OnPathReach(mounted, app, |app.entries|, home, rest[0], app.entries[rest[0]].child.id, home + rest);
    hide Effective, Without, Reaching, Registrations, HooksOf, TreeUpTo, IdsUpTo;
    assert home + [rest[0]] + rest[1..] == home + rest;
  }

  // ------------------------------------------------------------------ exactly once

  lemma {:induction false} OutwardStarts(mounted: set<nat>, app: App, home: seq<nat>, rest: seq<nat>, r: Registration)
    requires IsAddress(mounted, app, rest) && r in Outward(mounted, app, home, rest)
    ensures home <= r.home
    decreases rest
  {
    if rest == [] {
      StartsAtHome(mounted, app, |app.entries|, home, |app.entries|, r);
    } else if r in Registrations(mounted, app, |app.entries|, home, rest[0]) {
      StartsAtHome(mounted, app, |app.entries|, home, rest[0], r);
    } else {
      OutwardStarts(mounted, app.entries[rest[0]].child, home + [rest[0]], rest[1..], r);
    }
  }

  /** Seen from any app, every registration of the tree is listed exactly once, and nothing else. */
  lemma {:induction false} OutwardOnce(mounted: set<nat>, app: App, home: seq<nat>, rest: seq<nat>,
                                       address: seq<nat>, index: nat, hook: Hook)
    requires IsAddress(mounted, app, rest)
    ensures Count(Outward(mounted, app, home, rest), Registration(home + address, index, hook)) ==
            One(IsRegistered(mounted, app, address, index, hook))
    decreases rest
  {
    var r := Registration(home + address, index, hook);
    RegisteredInside(mounted, app, address, index, hook);
    if rest == [] {
      RegisteredOnce(mounted, app, |app.entries|, home, |app.entries|, address, index, hook);
    } else {
      var child := app.entries[rest[0]].child;
      var below := Outward(mounted, child, home + [rest[0]], rest[1..]);
      RegisteredOnce(mounted, app, |app.entries|, home, rest[0], address, index, hook);
      CountAppend(Registrations(mounted, app, |app.entries|, home, rest[0]), below, r);
      if address != [] && address[0] == rest[0] {
        OutwardOnce(mounted, child, home + [rest[0]], rest[1..], address[1..], index, hook);
        assert home + [rest[0]] + address[1..] == home + address;
      } else {
        OutwardElsewhere(mounted, app, home, rest, address, index, hook);
        CountIn(below, r);
      }
    }
  }

  lemma OutwardElsewhere(mounted: set<nat>, app: App, home: seq<nat>, rest: seq<nat>, address: seq<nat>,
                         index: nat, hook: Hook)
    requires rest != [] && IsAddress(mounted, app, rest)
    requires address == [] || address[0] != rest[0]
    ensures Registration(home + address, index, hook) !in
            Outward(mounted, app.entries[rest[0]].child, home + [rest[0]], rest[1..])
  {
    var child := app.entries[rest[0]].child;
    forall r | r in Outward(mounted, child, home + [rest[0]], rest[1..])
      ensures r.home != home + address
    {
      OutwardStarts(mounted, child, home + [rest[0]], rest[1..], r);
      assert r.home[|home|] == rest[0];
      assert address != [] ==> (home + address)[|home|] == address[0];
    }
  }

  lemma {:induction false} CountReaching(all: seq<Registration>, target: seq<nat>, r: Registration)
    requires forall other :: other in all && other.hook == r.hook ==> other == r
    ensures Count(Reaching(all, target), r.hook) == if Applies(r.hook.scope, r.home, target) then Count(all, r) else 0
  {
    if all != [] {
      var last := all[|all| - 1];
      CountReaching(all[..|all| - 1], target, r);
      CountAppend(Reaching(all[..|all| - 1], target),
                  if Applies(last.hook.scope, last.home, target) then [last.hook] else [], r.hook);
      assert last in all;
    }
  }

  /** Entry `index` of the app at `address` is the only place `hook` is registered. */
  ghost predicate OnlyAt(mounted: set<nat>, root: App, address: seq<nat>, index: nat, hook: Hook) {
    && IsRegistered(mounted, root, address, index, hook)
    && forall a, i | IsRegistered(mounted, root, a, i, hook) :: a == address && i == index
  }

  lemma OnlyRegistration(mounted: set<nat>, root: App, target: seq<nat>, address: seq<nat>, index: nat, hook: Hook)
    requires IsAddress(mounted, root, target) && OnlyAt(mounted, root, address, index, hook)
    ensures var all := Outward(mounted, root, [], target);
            forall other :: other in all && other.hook == hook ==> other == Registration(address, index, hook)
  {
    var all := Outward(mounted, root, [], target);
    forall other | other in all && other.hook == hook
      ensures other == Registration(address, index, hook)
    {
      assert [] + other.home == other.home;
      OutwardOnce(mounted, root, [], target, other.home, other.index, hook);
      CountIn(all, other);
    }
  }

  /**
   * A hook registered in one place only is in the compiled list of the routes of the app at
   * `target` exactly once when its scope covers that app, and not at all otherwise.
   */
  lemma HookOnce(mounted: set<nat>, root: App, target: seq<nat>, address: seq<nat>, index: nat, hook: Hook)
    requires IsTree(mounted, root) && IsAddress(mounted, root, target)
    requires OnlyAt(mounted, root, address, index, hook)
    ensures Count(RouteHooks(mounted, root, [], target), hook) == One(Applies(hook.scope, address, target))
  {
    var all := Outward(mounted, root, [], target);
    OnlyRegistration(mounted, root, target, address, index, hook);
    OutwardOnce(mounted, root, [], target, address, index, hook);
    HooksReachRoutes(mounted, root, [], [], target);
    hide IsTree, IsAddress, Outward, RouteHooks, Reaching;
    assert [] + target == target && [] + address == address;
    assert [] + Reaching(all, target) == Reaching(all, target);
    CountReaching(all, target, Registration(address, index, hook));
  }
}
