/**
 * The compiled form an app keeps, stamped with a counter that every mutation of any app bumps:
 * it is never stale, also when the mutation happened on an app mounted far below.
 */
module AppCache {
  import opened Text
  import opened MountTree
  import opened RouteTable
  import opened AppCompiler
  import opened RouteAdding
  import RouteTrie
  import R = Router

  /** A filled router, and the hooks that apply when no route matches. */
  datatype Form = Form(router: R.Router<CompiledRoute>, lists: map<Kind, seq<Hook>>)

  datatype Stamped = Stamped(form: Form, at: nat)

  /** The routes of `root` and everything mounted in it. */
  function AllRoutes(root: App): seq<CompiledRoute> {
    RoutesOf(Included(root), root, [], JoinPrefix("", root.prefix), Addresses(Included(root), root))
  }

  /** What the router of `root` says to these routes: accepted, or why one was refused. */
  ghost function Verdict(root: App, strict: bool): AddResult {
    AddRoutes([], {}, strict, AllRoutes(root)).result
  }

  /** `form` is `root` compiled: its router was filled with all routes in order, and its lists are the root's hooks. */
  ghost predicate IsFormOf(form: Form, root: App, strict: bool)
    reads form.router
  {
    && form.router.Valid() && form.router.strict == strict && Verdict(root, strict) == Accepted
    && form.router.view.log == LogOf(strict, AllRoutes(root))
    && form.lists == ListsOf(RouteHooks(Included(root), root, [], []))
  }

  /** The app reached through the entries at `address`. */
  function Get(app: App, address: seq<nat>): Option<App>
    decreases address
  {
    if address == [] then Some(app)
    else if address[0] < |app.entries| && app.entries[address[0]].Mount?
    then Get(app.entries[address[0]].child, address[1..])
    else None
  }

  /** The tree after the app at `address` became `changed`. */
  function Put(app: App, address: seq<nat>, changed: App): App
    requires Get(app, address).Some?
    decreases address
  {
    if address == [] then changed
    else
      var child := app.entries[address[0]].child;
      app.(entries := app.entries[address[0] := Mount(Put(child, address[1..], changed))])
  }

  lemma {:induction false} GetPut(app: App, address: seq<nat>, changed: App)
    requires Get(app, address).Some?
    ensures Get(Put(app, address, changed), address) == Some(changed)
    decreases address
  {
    if address != [] {
      GetPut(app.entries[address[0]].child, address[1..], changed);
    }
  }

  /** A parent sees the change: mutating below it is mutating it. */
  lemma {:induction false} ParentSees(app: App, address: seq<nat>, below: seq<nat>, changed: App)
    requires Get(app, address + below).Some?
    ensures Get(app, address).Some? && Get(Get(app, address).value, below).Some?
    ensures Get(Put(app, address + below, changed), address) == Some(Put(Get(app, address).value, below, changed))
    decreases address
  {
    if address == [] {
      assert address + below == below;
    } else {
      assert (address + below)[1..] == address[1..] + below;
      ParentSees(app.entries[address[0]].child, address[1..], below, changed);
    }
  }

  /** The apps of one tree, each with its own cached form, and the shared counter. */
  class Apps {
    /** The `strictPath` setting of each app, by its id. */
    const strictPath: nat -> bool
    const decodeUri: string -> Option<string>
    var top: App
    var generation: nat
    var compiled: map<seq<nat>, Stamped>

    ghost function Routers(): set<R.Router<CompiledRoute>>
      reads this
    {
      set address | address in compiled :: compiled[address].form.router
    }

    /** A cached form stamped with the current generation is that of the app as it is. */
    ghost predicate Valid()
      reads this, Routers()
    {
      forall address :: address in compiled ==>
        && compiled[address].at <= generation
        && (compiled[address].at == generation ==>
              Get(top, address).Some? && IsCurrent(compiled[address].form, Get(top, address).value))
    }

    ghost predicate IsCurrent(form: Form, app: App)
      reads form.router
    {
      IsFormOf(form, app, strictPath(app.id))
    }

    constructor (top: App, strictPath: nat -> bool, decodeUri: string -> Option<string>)
      ensures Valid() && this.top == top && generation == 0 && compiled == map[]
    {
      this.strictPath, this.decodeUri := strictPath, decodeUri;
      this.top, generation, compiled := top, 0, map[];
    }

    /** `get`, `post`, …: appends a route to the app at `address`. */
    method Add(address: seq<nat>, route: Route)
      requires Valid() && Get(top, address).Some?
      modifies this
      ensures Valid() && compiled == old(compiled) && generation == old(generation) + 1
      ensures var app := old(Get(top, address).value);
              top == Put(old(top), address, app.(routes := app.routes + [route]))
    {
      var app := Get(top, address).value;
      top := Put(top, address, app.(routes := app.routes + [route]));
      generation := generation + 1;
    }

    /** Appends a hook. */
    method AddHook(address: seq<nat>, hook: Hook)
      requires Valid() && Get(top, address).Some?
      modifies this
      ensures Valid() && compiled == old(compiled) && generation == old(generation) + 1
      ensures var app := old(Get(top, address).value);
              top == Put(old(top), address, app.(entries := app.entries + [HookEntry(hook)]))
    {
      var app := Get(top, address).value;
      top := Put(top, address, app.(entries := app.entries + [HookEntry(hook)]));
      generation := generation + 1;
    }

    /** Mounts `child`, unless it is the app itself. */
    method Use(address: seq<nat>, child: App)
      requires Valid() && Get(top, address).Some?
      modifies this
      ensures Valid() && compiled == old(compiled)
      ensures var app := old(Get(top, address).value);
              if child.id == app.id then top == old(top) && generation == old(generation)
              else
                && top == Put(old(top), address, app.(entries := app.entries + [Mount(child)]))
                && generation == old(generation) + 1
    {
      var app := Get(top, address).value;
      if child.id == app.id { return; }
      top := Put(top, address, app.(entries := app.entries + [Mount(child)]));
      generation := generation + 1;
    }

    /**
     * The compiled form of the app at `address`, as of now. Where its router refuses a route there
     * is none, and nothing is cached, so the next call tries again.
     */
    method Compile(address: seq<nat>, ghost objects: map<nat, App>) returns (r: AddResult, form: Option<Form>)
      requires Valid() && Get(top, address).Some?
      requires var app := Get(top, address).value; Known(objects, app) && IsTree(Included(app), app)
      modifies this`compiled
      ensures Valid()
      ensures var app := Get(top, address).value;
              && r == Verdict(app, strictPath(app.id)) && (form.Some? <==> r == Accepted)
              && (form.Some? ==> IsCurrent(form.value, app))
      ensures form.None? ==> compiled == old(compiled)
      ensures form.Some? ==> compiled == old(compiled)[address := Stamped(form.value, generation)]
    {
      hide Verdict, IsCurrent, IsTree, Known, Included;
      var app := Get(top, address).value;
      if address in compiled && compiled[address].at == generation {
        CurrentAccepted(compiled[address].form, app);
        return Accepted, Some(compiled[address].form);
      }
      r, form := Fill(app, objects);
      if r == Accepted { compiled := compiled[address := Stamped(form.value, generation)]; }
      forall a | a in old(compiled) && old(compiled[a]).at == generation
        ensures IsCurrent(old(compiled[a]).form, Get(top, a).value)
      {
        assert old(IsCurrent(compiled[a].form, Get(top, a).value));
        assert unchanged(old(compiled[a]).form.router);
      }
    }

    lemma CurrentAccepted(form: Form, app: App)
      requires IsCurrent(form, app)
      ensures Verdict(app, strictPath(app.id)) == Accepted
    {
    }

    /** Fills a new router with the routes of `app`. */
    method Fill(app: App, ghost objects: map<nat, App>) returns (r: AddResult, form: Option<Form>)
      requires Known(objects, app) && IsTree(Included(app), app)
      ensures r == Verdict(app, strictPath(app.id)) && (form.Some? <==> r == Accepted)
      ensures form.Some? ==> fresh(form.value.router) && IsCurrent(form.value, app)
    {
      hide Known, IsTree, Included, AddRoutes, LogOf, RoutesOf, Addresses, JoinPrefix, RouteHooks, ListsOf,
           RouteTrie.Sound;
      var router := new R.Router<CompiledRoute>(strictPath(app.id), decodeUri);
      var lists: map<Kind, seq<Hook>>;
      r, lists := CompileApp(app, router, objects);
      form := if r == Accepted then Some(Form(router, lists)) else None;
    }
  }
}
