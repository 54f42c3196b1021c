/**
 * The container: the static analysis with its shared `seen` set, resolution into the singleton
 * and request maps, and the fast table in front of it.
 */
module Container {
  import opened Text
  import opened Dependencies
  import opened Resolution

  const REFLECTOR := Class(0)

  const NO_CONTEXT := Context(None, None, None)

  class Container {
    const meta: Metadata
    var providers: map<Token, Provider>
    var staticCache: map<Token, bool>
    var instances: map<Token, Value>
    var requestInstances: map<nat, map<Token, Value>>
    var requestContextIds: map<nat, nat>
    var fastTable: map<Token, Value>
    var resolutionStack: set<Token>
    /** The next fresh identity. */
    var nextId: nat

    constructor (meta: Metadata)
      ensures Coherent() && Clean() && this.meta == meta && providers == map[] && staticCache == map[]
              && resolutionStack == {}
      ensures instances.Keys == {REFLECTOR, ModuleRefToken} && fastTable.Keys == {REFLECTOR}
      ensures requestInstances == map[] && requestContextIds == map[]
    {
      this.meta := meta;
      providers, staticCache, requestInstances, requestContextIds, resolutionStack := map[], map[], map[], map[], {};
      instances := map[REFLECTOR := Object(0, false), ModuleRefToken := Object(1, false)];
      fastTable := map[REFLECTOR := Object(0, false)];
      nextId := 2;
    }

    function G(): Graph
      reads this`providers
    {
      Graph(meta, providers)
    }

    function Now(): Store
      reads this`instances, this`requestInstances, this`requestContextIds, this`nextId
    {
      Store(instances, requestInstances, requestContextIds, nextId)
    }

    // ----------------------------------------------------------------- static analysis

    /** Classes seen before are in progress (`busy`) or have no contextual dependency. */
    ghost predicate Explored(rank: Ranking, seen: set<Token>, busy: set<Token>)
      reads this`providers
    {
      forall s :: s in seen && s !in busy ==> !AnyContextual(G(), rank, ClassDeps(meta, s))
    }

    ghost predicate Above(rank: Ranking, busy: set<Token>, level: nat)
    {
      forall s :: s in busy ==> rank(s) > level
    }

    method ClassHasContextualDeps(target: Token, seen: set<Token>, ghost rank: Ranking, ghost busy: set<Token>)
      returns (r: bool, after: set<Token>)
      requires Acyclic(G(), rank) && Explored(rank, seen, busy) && Above(rank, busy, rank(target))
      ensures r == AnyContextual(G(), rank, ClassDeps(meta, target))
      ensures !r ==> Explored(rank, after, busy)
      decreases rank(target), 1
    {
      after := seen;
      if !target.Class? || target in seen { return false, after; }
      after := seen + {target};
      var tokens := ClassDeps(meta, target);
      var i := 0;
      while i < |tokens|
        invariant i <= |tokens| && Explored(rank, after, busy + {target})
        invariant forall k :: 0 <= k < i ==> !Contextual(G(), rank, tokens[k])
      {
        r, after := DependencyIsContextual(tokens[i], after, rank, busy + {target});
        if r { return; }
        i := i + 1;
      }
      r := false;
    }

    method DependencyIsContextual(token: Token, seen: set<Token>, ghost rank: Ranking, ghost busy: set<Token>)
      returns (r: bool, after: set<Token>)
      requires Acyclic(G(), rank) && Explored(rank, seen, busy) && Above(rank, busy, rank(token))
      ensures r == Contextual(G(), rank, token)
      ensures !r ==> Explored(rank, after, busy)
      decreases rank(token), 3
    {
      after := seen;
      ContextualIs(G(), rank, token);
      if token.RequestToken? || token.InquirerToken? { return true, after; }
      if token in providers {
        if ProviderScope(meta, providers[token]) == RequestScope { return true, after; }
        r, after := ProviderHasContextualDeps(token, seen, rank, busy);
        return;
      }
      if ClassScope(meta, token) == RequestScope { return true, after; }
      r, after := ClassHasContextualDeps(token, seen, rank, busy);
    }

    method ProviderHasContextualDeps(token: Token, seen: set<Token>, ghost rank: Ranking, ghost busy: set<Token>)
      returns (r: bool, after: set<Token>)
      requires Acyclic(G(), rank) && token in providers && Explored(rank, seen, busy) && Above(rank, busy, rank(token))
      ensures r == HasContextual(G(), rank, token)
      ensures !r ==> Explored(rank, after, busy)
      decreases rank(token), 2
    {
      after := seen;
      match providers[token]
      case ClassProvider(target, _) =>
        TargetLower(rank, token, target);
        r, after := ClassHasContextualDeps(target, seen, rank, busy);
      case ExistingProvider(target, _) =>
        TargetLower(rank, token, target);
        r, after := ClassHasContextualDeps(target, seen, rank, busy);
      case FactoryProvider(inject, _) =>
        var i := 0;
        while i < |inject|
          invariant i <= |inject| && Explored(rank, after, busy)
          invariant forall k :: 0 <= k < i ==> !Contextual(G(), rank, inject[k])
        {
          assert rank(Resolved(G(), token)[i]) < rank(token);
          r, after := DependencyIsContextual(inject[i], after, rank, busy);
          if r { return; }
          i := i + 1;
        }
        r := false;
      case ValueProvider(_) =>
        r := false;
    }

    lemma TargetLower(rank: Ranking, token: Token, target: Token)
      requires Acyclic(G(), rank) && token in providers
      requires providers[token].ClassProvider? ==> providers[token].useClass == target
      requires providers[token].ExistingProvider? ==> providers[token].useExisting == target
      requires providers[token].ClassProvider? || providers[token].ExistingProvider?
      ensures rank(target) <= rank(token)
    {
      if target != token { assert Resolved(G(), token)[0] == target; }
    }

    method IsStatic(token: Token, ghost rank: Ranking) returns (r: bool)
      requires Acyclic(G(), rank)
      modifies this`staticCache
      ensures r == if token in old(staticCache) then old(staticCache)[token] else Static(G(), rank, token)
      ensures staticCache == old(staticCache)[token := r]
    {
      if token in staticCache { return staticCache[token]; }
      ghost var none: set<Token> := {};
      var contextual: bool;
      var after: set<Token>;
      if token in providers {
        contextual, after := ProviderHasContextualDeps(token, {}, rank, none);
        r := ProviderScope(meta, providers[token]) == Default && !contextual;
      } else {
        contextual, after := ClassHasContextualDeps(token, {}, rank, none);
        r := ClassScope(meta, token) == Default && !contextual;
      }
      staticCache := staticCache[token := r];
    }

    // ----------------------------------------------------------------- what is kept

    /** What full resolution returns without doing anything; `None` where it has to build or refuse. */
    function Full(token: Token): Option<Value>
      reads this`providers, this`staticCache, this`instances
    {
      if IsSpecial(token) || token !in instances then None
      else if token in providers then
        if ProviderScope(meta, providers[token]) == Default && token in staticCache && staticCache[token]
        then Some(instances[token])
        else None
      else if token.Class? then Some(instances[token])
      else None
    }

    /** The fast table holds what full resolution would return, and cached answers fit the providers' scopes. */
    ghost predicate Coherent()
      reads this`fastTable, this`providers, this`staticCache, this`instances
    {
      && (forall t :: t in fastTable ==> fastTable[t] != UndefinedValue && Full(t) == Some(fastTable[t]))
      && forall t ::
         t in staticCache && staticCache[t] && t in providers ==> ProviderScope(meta, providers[t]) == Default
    }

    /** Where full resolution has an answer now, it is `r`; and a default-scope provider was analysed. */
    predicate Held(target: Token, r: Outcome)
      reads this`providers, this`staticCache, this`instances
    {
      && (r.Ok? ==> IsSpecial(target) || target in providers || target.Class?)
      && (r.Ok? && Full(target).Some? ==> Full(target) == Some(r.value))
      && (target in providers && !IsSpecial(target) && ProviderScope(meta, providers[target]) == Default ==>
          target in staticCache)
    }

    /** No singleton carries request state. */
    predicate Clean()
      reads this`instances
    {
      forall t :: t in instances ==> !IsTainted(instances[t])
    }

    /** The graph was complete before the first static check, and is one the analysis judges rightly. */
    ghost predicate Fixed(rank: Ranking)
      reads this`providers, this`staticCache
    {
      && Acyclic(G(), rank) && JudgesTargets(G(), rank)
      && (forall t :: t in staticCache ==> staticCache[t] == Static(G(), rank, t))
      && forall t :: t in providers && providers[t].ValueProvider? ==> !IsTainted(providers[t].value)
    }

    /** Resolution only adds: nothing cached is replaced, the tables in front stay. */
    twostate predicate Grew(rank: Ranking, bound: nat)
      reads this
    {
      && providers == old(providers) && fastTable == old(fastTable) && resolutionStack == old(resolutionStack)
      && (forall t :: t in old(staticCache) ==> t in staticCache && staticCache[t] == old(staticCache)[t])
      && (forall t :: t in old(instances) ==> t in instances && instances[t] == old(instances)[t])
      && forall t :: t in instances && t !in old(instances) ==> rank(t) < bound
    }

    /** Then singletons stay clean, and what needs no request is refused for no lack of one and carries none. */
    twostate predicate Sound(rank: Ranking, r: Outcome, free: bool)
      reads this
    {
      old(Fixed(rank) && Clean()) ==>
        && Fixed(rank) && Clean()
        && (free ==> r != NoContext && (r.Ok? ==> !IsTainted(r.value)))
    }

    // ----------------------------------------------------------------- resolution

    /** A request-scoped token; a class that was given an instance is not one. */
    predicate NeedsRequest(target: Token)
      reads this`providers, this`instances
    {
      !IsSpecial(target) && ScopeOf(G(), target) == RequestScope
      && (target in providers || (target.Class? && target !in instances))
    }

    /** The id of the request the context belongs to, made on first use. */
    method GetResolutionContextId(context: Context) returns (id: Option<nat>)
      modifies this`requestContextIds, this`nextId
      ensures id.Some? <==> context.contextId.Some? || context.request.Some?
      ensures id == IdOf(Now(), context)
      ensures KeysKept(old(Now()), Now(), context.request) && old(nextId) <= nextId
      ensures old(Numbered(Now())) ==> Numbered(Now())
    {
      if context.contextId.Some? { return context.contextId; }
      if context.request.None? { return None; }
      var request := context.request.value;
      if request !in requestContextIds {
        requestContextIds := requestContextIds[request := nextId];
        nextId := nextId + 1;
      }
      id := Some(requestContextIds[request]);
    }

    method Resolve(target: Token, context: Context, ghost rank: Ranking) returns (r: Outcome)
      requires Acyclic(G(), rank) && Above(rank, resolutionStack, rank(target))
      modifies this
      ensures Grew(rank, rank(target) + 1)
      ensures Moved(G(), rank, old(Now()), Now(), IdOf(Now(), context), context.request, rank(target) + 1)
      ensures Settles(G(), rank, Now(), context, old(nextId), target, r)
      ensures old(Coherent()) ==> Coherent()
      ensures Sound(rank, r, Free(G(), rank, target))
      ensures old(Full(target)).Some? ==> r == Ok(old(Full(target)).value)
      ensures Held(target, r)
      ensures old(NeedsRequest(target)) && Contextless(context) ==> r == NoContext && instances == old(instances)
      ensures target.RequestToken? ==>
                r == Ok(if context.request.Some? then Object(context.request.value, true) else UndefinedValue)
      ensures target.InquirerToken? ==>
                r == Ok(if context.inquirer.Some? then TokenValue(context.inquirer.value) else UndefinedValue)
      ensures r.Ok? && !IsSpecial(target) && Unkept(old(Now()), IdOf(Now(), context), target) ==>
                NewFor(G(), rank, old(Now()), Now(), context, target, r.value)
      ensures target in providers && providers[target].ValueProvider? && !IsSpecial(target)
              && old(Fixed(rank) && Clean()) && Unkept(old(Now()), IdOf(Now(), context), target) ==>
                r == Ok(providers[target].value)
      ensures r == NoContext ==> Contextless(context)
      ensures r == Unknown ==> !Bound(G(), rank, target)
      decreases rank(target), 5
    {
      hide Acyclic, JudgesTargets, Static, Above, Moved, Settles, KeysKept, NewFor, Bound;
      ghost var start := Now();
      if target.RequestToken? {
        r := Ok(if context.request.Some? then Object(context.request.value, true) else UndefinedValue);
        FromSpecial(G(), rank, start, start, context, rank(target) + 1, target, r.value);
        return;
      }
      if target.InquirerToken? {
        r := Ok(if context.inquirer.Some? then TokenValue(context.inquirer.value) else UndefinedValue);
        FromSpecial(G(), rank, start, start, context, rank(target) + 1, target, r.value);
        return;
      }
      if target.ModuleRefToken? {
        r := Ok(Object(nextId, false));
        FromSpecial(G(), rank, start, start.(nextId := nextId + 1), context, rank(target) + 1, target, r.value);
        nextId := nextId + 1;
        return;
      }
      if target in providers {
        r := ResolveProvider(target, context, rank);
        Told(G(), rank, start, Now(), context, rank(target) + 1, target, r);
        BoundValue(G(), rank, start, Now(), context, target, r);
        return;
      }
      if !target.Class? {
        FromNothing(G(), rank, start, context, rank(target) + 1, target);
        Told(G(), rank, start, start, context, rank(target) + 1, target, Unknown);
        return Unknown;
      }
      if target in instances {
        SameKeys(start, context.request);
        FromKept(G(), rank, start, start, context, rank(target) + 1, target, instances[target]);
        return Ok(instances[target]);
      }
      r := ResolveClass(target, context, rank);
      Told(G(), rank, start, Now(), context, rank(target) + 1, target, r);
    }

    /** A class without provider or instance. */
    method ResolveClass(target: Token, context: Context, ghost rank: Ranking) returns (r: Outcome)
      requires Acyclic(G(), rank) && Above(rank, resolutionStack, rank(target))
      requires target.Class? && target !in providers && target !in instances
      modifies this
      ensures Grew(rank, rank(target) + 1)
      ensures Moved(G(), rank, old(Now()), Now(), IdOf(Now(), context), context.request, rank(target) + 1)
      ensures Settles(G(), rank, Now(), context, old(nextId), target, r)
      ensures old(Coherent()) ==> Coherent()
      ensures Sound(rank, r, Free(G(), rank, target))
      ensures Held(target, r)
      ensures ScopeOf(G(), target) == RequestScope && Contextless(context) ==>
              r == NoContext && instances == old(instances)
      decreases rank(target), 4, 2
    {
      hide Acyclic, JudgesTargets, Free, Static, Above, Moved, Settles, SettlesNew;
      FreeHere(rank, target);
      var scope := ClassScope(meta, target);
      if scope == RequestScope {
        r := InContext(target, context, rank);
      } else if scope == Transient {
        ghost var start := Now();
        r := Create(target, context, false, rank);
        NothingToKeep(G(), rank, start, Now(), context, target, r);
      } else {
        r := ByAnalysis(target, context, rank);
      }
    }

    method ResolveProvider(target: Token, context: Context, ghost rank: Ranking) returns (r: Outcome)
      requires Acyclic(G(), rank) && Above(rank, resolutionStack, rank(target)) && target in providers
               && !IsSpecial(target)
      modifies this
      ensures Grew(rank, rank(target) + 1)
      ensures Moved(G(), rank, old(Now()), Now(), IdOf(Now(), context), context.request, rank(target) + 1)
      ensures Settles(G(), rank, Now(), context, old(nextId), target, r)
      ensures old(Coherent()) ==> Coherent()
      ensures Sound(rank, r, Free(G(), rank, target))
      ensures old(Full(target)).Some? ==> r == Ok(old(Full(target)).value)
      ensures Held(target, r)
      ensures ScopeOf(G(), target) == RequestScope && Contextless(context) ==>
              r == NoContext && instances == old(instances)
      decreases rank(target), 4, 2
    {
      hide Acyclic, JudgesTargets, Free, Static, Above, Moved, Settles, SettlesNew;
      FreeHere(rank, target);
      var scope := ProviderScope(meta, providers[target]);
      if scope == RequestScope {
        r := InContext(target, context, rank);
        return;
      }
      if scope == Transient {
        ghost var start := Now();
        r := Create(target, context, false, rank);
        NothingToKeep(G(), rank, start, Now(), context, target, r);
        return;
      }
      r := ByAnalysis(target, context, rank);
    }

    /** A default-scope token: a singleton when the analysis says static, else one per request. */
    method ByAnalysis(target: Token, context: Context, ghost rank: Ranking) returns (r: Outcome)
      requires Acyclic(G(), rank) && Above(rank, resolutionStack, rank(target)) && !IsSpecial(target)
      requires ScopeOf(G(), target) == Default && (target in providers || (target.Class? && target !in instances))
      modifies this
      ensures Grew(rank, rank(target) + 1)
      ensures Moved(G(), rank, old(Now()), Now(), IdOf(Now(), context), context.request, rank(target) + 1)
      ensures Settles(G(), rank, Now(), context, old(nextId), target, r)
      ensures old(Coherent()) ==> Coherent()
      ensures Sound(rank, r, Free(G(), rank, target))
      ensures target in providers && old(Full(target)).Some? ==> r == Ok(old(Full(target)).value)
      ensures Held(target, r)
      decreases rank(target), 4, 1
    {
      hide Acyclic, JudgesTargets, Free, Static, Above, Moved, Settles, SettlesNew;
      FreeHere(rank, target);
      var isStatic := CheckStatic(target, rank);
      if isStatic {
        r := Singleton(target, context, rank);
      } else {
        r := InContext(target, context, rank);
      }
    }

    /** `IsStatic` as a step of a resolution. */
    method CheckStatic(target: Token, ghost rank: Ranking) returns (r: bool)
      requires Acyclic(G(), rank)
      modifies this`staticCache
      ensures Grew(rank, 0) && instances == old(instances)
      ensures target in staticCache && staticCache[target] == r
      ensures target in old(staticCache) ==> r == old(staticCache)[target]
      ensures old(Coherent()) ==> Coherent()
      ensures old(Fixed(rank)) ==> Fixed(rank) && r == Static(G(), rank, target)
    {
      hide Acyclic, JudgesTargets;
      r := IsStatic(target, rank);
    }

    /** The one instance of a static token, created on first use. */
    method Singleton(target: Token, context: Context, ghost rank: Ranking) returns (r: Outcome)
      requires Acyclic(G(), rank) && Above(rank, resolutionStack, rank(target)) && !IsSpecial(target)
      requires target in staticCache && staticCache[target] && (target in providers || target.Class?)
      requires ScopeOf(G(), target) == Default
      modifies this
      ensures Grew(rank, rank(target) + 1)
      ensures Moved(G(), rank, old(Now()), Now(), IdOf(Now(), context), context.request, rank(target) + 1)
      ensures Settles(G(), rank, Now(), context, old(nextId), target, r)
      ensures old(Coherent()) ==> Coherent()
      ensures Sound(rank, r, Static(G(), rank, target))
      ensures target in old(instances) ==> r == Ok(old(instances)[target])
      ensures r.Ok? ==> target in instances && instances[target] == r.value
      ensures Held(target, r)
      decreases rank(target), 4, 0
    {
      hide Acyclic, JudgesTargets, Free, Static, Above, Moved, Settles, SettlesNew;
      FreeHere(rank, target);
      ghost var start := Now();
      if target in instances {
        SameKeys(start, context.request);
        FromKept(G(), rank, start, start, context, rank(target) + 1, target, instances[target]);
        return Ok(instances[target]);
      }
      NotInProgress(rank, target);
      if target !in providers && target in resolutionStack {
        // The circular dependency error: no run on an acyclic graph gets here.
        assert false;
      }
      r := Create(target, context, false, rank);
      if r.Ok? {
        KeepSingleton(G(), rank, start, Now(), context, target, r.value);
        instances := instances[target := r.value];
      } else {
        NothingToKeep(G(), rank, start, Now(), context, target, r);
      }
    }

    lemma NotInProgress(rank: Ranking, target: Token)
      requires Above(rank, resolutionStack, rank(target))
      ensures target !in resolutionStack
    {
    }

    lemma FreeHere(rank: Ranking, target: Token)
      requires Acyclic(G(), rank) && !IsSpecial(target)
      ensures JudgesTargets(G(), rank) ==>
              (Static(G(), rank, target) <==> Free(G(), rank, target) && ScopeOf(G(), target) == Default)
      ensures JudgesTargets(G(), rank) && Free(G(), rank, target) ==> ScopeOf(G(), target) != RequestScope
    {
      if JudgesTargets(G(), rank) { StaticIsFree(G(), rank, target); }
    }

    /** The instance of `target` kept for one request. */
    function HeldFor(id: nat, target: Token): Option<Value>
      reads this`requestInstances
    {
      if id in requestInstances && target in requestInstances[id] then Some(requestInstances[id][target]) else None
    }

    /** The instance of the request at hand: kept in its own map, refused without a request. */
    method InContext(target: Token, context: Context, ghost rank: Ranking) returns (r: Outcome)
      requires Acyclic(G(), rank) && Above(rank, resolutionStack, rank(target)) && !IsSpecial(target)
      requires ScopeOf(G(), target) != Transient && (target in providers || target.Class?)
      modifies this
      ensures Grew(rank, rank(target))
      ensures Moved(G(), rank, old(Now()), Now(), IdOf(Now(), context), context.request, rank(target) + 1)
      ensures Settles(G(), rank, Now(), context, old(nextId), target, r)
      ensures old(Coherent()) ==> Coherent()
      ensures Sound(rank, r, false)
      ensures Contextless(context) ==> r == NoContext && instances == old(instances)
      ensures context.contextId.Some? && old(HeldFor(context.contextId.value, target)).Some? ==>
                r == Ok(old(HeldFor(context.contextId.value, target)).value) && instances == old(instances)
      ensures r.Ok? && context.contextId.Some? ==> HeldFor(context.contextId.value, target) == Some(r.value)
      decreases rank(target), 3, 1
    {
      hide Acyclic, JudgesTargets, Free, Static, Above, Moved, Settles, KeysKept, Coherent, Fixed, Clean, Full;
      ghost var start := Now();
      var id := GetResolutionContextId(context);
      ghost var keyed := Now();
      if id.None? {
        Refused(G(), rank, start, keyed, context, rank(target) + 1, target);
        return NoContext;
      }
      r := ForRequest(id.value, target, context, rank);
      Keyed(G(), rank, start, keyed, Now(), context, rank(target) + 1, target, r);
    }

    /** The instance kept for the request with key `id`. */
    method ForRequest(id: nat, target: Token, context: Context, ghost rank: Ranking) returns (r: Outcome)
      requires Acyclic(G(), rank) && Above(rank, resolutionStack, rank(target)) && !IsSpecial(target)
      requires ScopeOf(G(), target) != Transient && (target in providers || target.Class?)
      requires IdOf(Now(), context) == Some(id)
      modifies this
      ensures Grew(rank, rank(target))
      ensures Moved(G(), rank, old(Now()), Now(), IdOf(Now(), context), context.request, rank(target) + 1)
      ensures Settles(G(), rank, Now(), context, old(nextId), target, r)
      ensures old(Coherent()) ==> Coherent()
      ensures Sound(rank, r, false)
      ensures old(HeldFor(id, target)).Some? ==>
                r == Ok(old(HeldFor(id, target)).value) && instances == old(instances)
      ensures r.Ok? ==> HeldFor(id, target) == Some(r.value)
      ensures r.Ok? && old(HeldFor(id, target)).None? && Assembles(G(), target) ==>
                r.value.Built? && r.value.perRequest
      decreases rank(target), 3, 0
    {
      hide Acyclic, JudgesTargets, Free, Static, Above, Moved, Settles, SettlesNew, KeysKept, Keeps, KeptFor;
      hide Coherent, Fixed, Clean, Full;
      ghost var start := Now();
      SameKeys(start, context.request);
      if id in requestInstances && target in requestInstances[id] {
        KeptScoped(G(), start, id, target);
        FromKept(G(), rank, start, start, context, rank(target) + 1, target, requestInstances[id][target]);
        return Ok(requestInstances[id][target]);
      }
      r := Create(target, context.(contextId := Some(id)), true, rank);
      ghost var made := Now();
      KeepForRequest(G(), rank, start, start, made, context, id, target, r);
      if r.Ok? {
        var scoped := if id in requestInstances then requestInstances[id] else map[];
        requestInstances := requestInstances[id := scoped[target := r.value]];
        assert Now() == WithScoped(made, id, target, r);
      }
    }

    method Create(target: Token, context: Context, perRequest: bool, ghost rank: Ranking) returns (r: Outcome)
      requires Acyclic(G(), rank) && Above(rank, resolutionStack, rank(target)) && !IsSpecial(target)
      requires target in providers || target.Class?
      modifies this
      ensures Grew(rank, rank(target))
      ensures Moved(G(), rank, old(Now()), Now(), IdOf(Now(), context), context.request, rank(target))
      ensures SettlesNew(G(), rank, Now(), context, old(nextId), target, r)
      ensures old(Coherent()) ==> Coherent()
      ensures Sound(rank, r, !perRequest && Free(G(), rank, target))
      ensures r.Ok? && Assembles(G(), target) ==> r.value.Built? && (r.value.perRequest <==> perRequest)
      decreases rank(target), 2
    {
      hide Acyclic, JudgesTargets, Free, Static, Coherent, Moved, Settles, SettlesNew, NewFor, Unkept, Bound;
      PartsOf(rank, target);
      ghost var start := Now();
      if target !in providers {
        r := Instantiate(target, context, perRequest, rank);
        return;
      }
      match providers[target]
      case ValueProvider(value) =>
        FromBinding(G(), rank, start, context, rank(target), target);
        r := Ok(value);
      case ClassProvider(useClass, _) =>
        if useClass == target {
          r := Instantiate(target, context, perRequest, rank);
        } else {
          assert Resolved(G(), target)[0] == useClass;
          r := Resolve(useClass, context, rank);
          AfterTarget(G(), rank, start, Now(), context, target, r);
        }
      case ExistingProvider(existing, _) =>
        assert Resolved(G(), target)[0] == existing;
        r := Resolve(existing, context, rank);
        AfterTarget(G(), rank, start, Now(), context, target, r);
      case FactoryProvider(inject, _) =>
        r := Call(target, inject, context.(inquirer := Some(target)), perRequest, rank);
        AnyInquirer(G(), rank, Now(), context, Some(target), start.nextId, target, r);
    }

    /** What is resolved for `target` ranks lower and is free when `target` is. */
    lemma PartsOf(rank: Ranking, target: Token)
      requires Acyclic(G(), rank) && Above(rank, resolutionStack, rank(target))
      ensures forall i :: 0 <= i < |Resolved(G(), target)| ==>
                rank(Resolved(G(), target)[i]) < rank(target)
                && Above(rank, resolutionStack, rank(Resolved(G(), target)[i]))
                && (Free(G(), rank, target) ==> Free(G(), rank, Resolved(G(), target)[i]))
      ensures ClassDeps(meta, target) == Resolved(G(), target) || target in providers
    {
    }

    /** Constructs a class from its resolved parameters; the class is in progress meanwhile. */
    method Instantiate(target: Token, context: Context, perRequest: bool, ghost rank: Ranking) returns (r: Outcome)
      requires Acyclic(G(), rank) && Above(rank, resolutionStack, rank(target))
               && ClassDeps(meta, target) == Resolved(G(), target)
      requires Assembles(G(), target) && !IsSpecial(target)
      modifies this
      ensures Grew(rank, rank(target))
      ensures Moved(G(), rank, old(Now()), Now(), IdOf(Now(), context), context.request, rank(target))
      ensures SettlesNew(G(), rank, Now(), context, old(nextId), target, r)
      ensures old(Coherent()) ==> Coherent()
      ensures Sound(rank, r, !perRequest && Free(G(), rank, target))
      ensures r.Ok? && Assembles(G(), target) ==> r.value.Built? && (r.value.perRequest <==> perRequest)
      decreases rank(target), 1
    {
      hide Acyclic, JudgesTargets, Free, Static, Moved, Settles, SettlesNew, Assembles;
      NotInProgress(rank, target);
      ghost var start := Now();
      resolutionStack := resolutionStack + {target};
      r := Call(target, ClassDeps(meta, target), context.(inquirer := Some(target)), perRequest, rank);
      AnyInquirer(G(), rank, Now(), context, Some(target), start.nextId, target, r);
      resolutionStack := resolutionStack - {target};
    }

    /** Resolves `tokens` and makes a new object of the results. */
    method Call(target: Token, tokens: seq<Token>, context: Context, perRequest: bool,
                ghost rank: Ranking) returns (r: Outcome)
      requires Acyclic(G(), rank) && tokens == Resolved(G(), target)
               && forall s :: s in resolutionStack ==> rank(s) >= rank(target)
      requires Assembles(G(), target) && !IsSpecial(target) && context.inquirer == Some(target)
      modifies this
      ensures Grew(rank, rank(target))
      ensures Moved(G(), rank, old(Now()), Now(), IdOf(Now(), context), context.request, rank(target))
      ensures SettlesNew(G(), rank, Now(), context, old(nextId), target, r)
      ensures old(Coherent()) ==> Coherent()
      ensures Sound(rank, r, !perRequest && Free(G(), rank, target))
      ensures r.Ok? && Assembles(G(), target) ==> r.value.Built? && (r.value.perRequest <==> perRequest)
      decreases rank(target), 0, 1
    {
      hide Acyclic, JudgesTargets, Free, Static, Coherent, Fixed, Clean, Moved, SettlesNew, PartsAnswer, Assembles,
           IsTainted, Untainted;
      ghost var start := Now();
      var refused, parts := ResolveAll(target, tokens, context, rank);
      if refused.Some? { return refused.value; }
      ghost var before := Now();
      Later(G(), rank, start, before, IdOf(before, context), context.request, rank(target));
      AllParts(G(), rank, start, before, context, target, parts, perRequest);
      TaintedBuilt(nextId, target, parts, perRequest);
      r := Ok(Built(nextId, target, parts, perRequest));
      nextId := nextId + 1;
    }

    /** Resolves `tokens` in order, up to the first that has no value. */
    method ResolveAll(target: Token, tokens: seq<Token>, context: Context, ghost rank: Ranking)
      returns (refused: Option<Outcome>, parts: seq<Value>)
      requires Acyclic(G(), rank) && tokens == Resolved(G(), target)
               && forall s :: s in resolutionStack ==> rank(s) >= rank(target)
      requires !IsSpecial(target) && context.inquirer == Some(target)
      modifies this
      ensures Grew(rank, rank(target))
      ensures Moved(G(), rank, old(Now()), Now(), IdOf(Now(), context), context.request, rank(target))
      ensures refused.Some? ==>
                !refused.value.Ok? && SettlesNew(G(), rank, Now(), context, old(nextId), target, refused.value)
      ensures refused.None? ==>
                |parts| == |tokens| && PartsAnswer(G(), rank, Now(), context, old(nextId), target, parts)
      ensures old(Coherent()) ==> Coherent()
      ensures old(Fixed(rank) && Clean()) ==>
                && Fixed(rank) && Clean()
                && (Free(G(), rank, target) ==> Untainted(parts) && refused != Some(NoContext))
      decreases rank(target), 0, 0
    {
      hide Acyclic, JudgesTargets, Free, Static, Coherent, Fixed, Clean, Moved, Settles, SettlesNew, PartsAnswer,
           IsTainted, Full, Held, NeedsRequest, Above, NewFor, Unkept, Bound;
      ghost var start := Now();
      MovedIdle(G(), rank, start, start, IdOf(start, context), context.request, rank(target));
      NoParts(G(), rank, start, context, start.nextId, target);
      parts := [];
      var i := 0;
      while i < |tokens|
        invariant i == |parts| <= |tokens| && Grew(rank, rank(target)) && (old(Coherent()) ==> Coherent())
        invariant Moved(G(), rank, start, Now(), IdOf(Now(), context), context.request, rank(target))
        invariant start.nextId <= nextId
        invariant PartsAnswer(G(), rank, Now(), context, start.nextId, target, parts)
        invariant old(Fixed(rank) && Clean()) ==> Fixed(rank) && Clean()
        invariant old(Fixed(rank) && Clean()) && Free(G(), rank, target) ==> Untainted(parts)
      {
        PartOf(rank, target, i);
        ghost var before := Now();
        var part := Resolve(tokens[i], context, rank);
        ResolvedOne(G(), rank, start, before, Now(), context, target, parts, part);
        if !part.Ok? { return Some(part), parts; }
        parts := parts + [part.value];
        i := i + 1;
      }
      refused := None;
    }

    predicate Untainted(parts: seq<Value>) {
      forall i :: 0 <= i < |parts| ==> !IsTainted(parts[i])
    }

    lemma TaintedBuilt(id: nat, target: Token, parts: seq<Value>, perRequest: bool)
      ensures IsTainted(Built(id, target, parts, perRequest)) <==> perRequest || !Untainted(parts)
    {
    }

    lemma PartOf(rank: Ranking, target: Token, i: nat)
      requires Acyclic(G(), rank) && i < |Resolved(G(), target)|
               && forall s :: s in resolutionStack ==> rank(s) >= rank(target)
      ensures var t := Resolved(G(), target)[i];
              rank(t) < rank(target) && Above(rank, resolutionStack, rank(t))
              && (Free(G(), rank, target) ==> Free(G(), rank, t))
    {
    }

    // ----------------------------------------------------------------- the front

    /** A hit in the fast table is what full resolution would return; static results are put there. */
    method Get(target: Token, ghost rank: Ranking) returns (r: Outcome)
      requires Acyclic(G(), rank) && Above(rank, resolutionStack, rank(target))
      modifies this
      ensures providers == old(providers) && resolutionStack == old(resolutionStack)
      ensures old(Coherent()) ==> Coherent() && Sound(rank, r, Free(G(), rank, target))
      ensures old(Coherent() && Full(target).Some?) ==> r == Ok(old(Full(target)).value)
      ensures old(Coherent()) && target in old(fastTable) ==> old(Full(target)).Some? && r == Ok(old(fastTable)[target])
      ensures r.Ok? && r.value != UndefinedValue && Frontable(target) ==> target in fastTable
      ensures old(Coherent()) && r.Ok? && !IsSpecial(target) && target !in old(instances) ==>
                NewFor(G(), rank, old(Now()), Now(), NO_CONTEXT, target, r.value)
      ensures old(Coherent() && Fixed(rank) && Clean() && target !in instances) && !IsSpecial(target) ==>
                target in providers && providers[target].ValueProvider? ==> r == Ok(providers[target].value)
    {
      Hits(target);
      if target in fastTable && fastTable[target] != UndefinedValue { return Ok(fastTable[target]); }
      hide Acyclic, JudgesTargets, Free, Static, Above, Coherent, Fixed, Held, Moved, Settles, Bound, NewFor;
      ghost var start := Now();
      r := Resolve(target, NO_CONTEXT, rank);
      NoKey(start, Now(), target);
      BoundValue(G(), rank, start, Now(), NO_CONTEXT, target, r);
      if r.Ok? && r.value != UndefinedValue && !IsSpecial(target) && target in instances {
        Backfill(target, r.value, rank);
      }
    }

    lemma Hits(target: Token)
      ensures Coherent() && target in fastTable ==> fastTable[target] != UndefinedValue && target in instances
    {
    }

    /** A token the fast table is for: static, and with an instance. */
    predicate Frontable(token: Token)
      reads this`providers, this`staticCache, this`instances
    {
      && token in instances && instances[token] != UndefinedValue && !IsSpecial(token)
      && (token in providers || token.Class?) && token in staticCache && staticCache[token]
    }

    /** Promotes the token just resolved to `value`, if it is static. */
    method Backfill(target: Token, value: Value, ghost rank: Ranking)
      requires Acyclic(G(), rank) && Held(target, Ok(value)) && value != UndefinedValue && !IsSpecial(target)
               && target in instances
      modifies this`staticCache, this`fastTable
      ensures old(Coherent()) ==> Coherent()
      ensures old(Fixed(rank)) ==> Fixed(rank)
      ensures target in staticCache
      ensures fastTable == if staticCache[target] then old(fastTable)[target := value] else old(fastTable)
    {
      hide Acyclic, JudgesTargets, Free, Static;
      var isStatic := CheckStatic(target, rank);
      if isStatic { fastTable := fastTable[target := value]; }
    }

    method Set(token: Token, value: Value)
      modifies this`instances, this`fastTable
      ensures old(Coherent()) ==> Coherent()
      ensures instances == old(instances)[token := value] && fastTable == old(fastTable) - {token}
      ensures old(Clean()) && !IsTainted(value) ==> Clean()
    {
      instances := instances[token := value];
      fastTable := fastTable - {token};
    }

    method AddProvider(token: Token, provider: Provider)
      modifies this`providers, this`staticCache, this`fastTable
      ensures old(Coherent()) ==> Coherent()
      ensures providers == old(providers)[token := provider]
      ensures staticCache == old(staticCache) - {token} && fastTable == old(fastTable) - {token}
    {
      providers := providers[token := provider];
      staticCache := staticCache - {token};
      fastTable := fastTable - {token};
    }

    method RegisterController(controller: Token)
      modifies this`staticCache, this`fastTable
      ensures old(Coherent()) ==> Coherent()
      ensures staticCache == old(staticCache) - {controller} && fastTable == old(fastTable) - {controller}
    {
      staticCache := staticCache - {controller};
      fastTable := fastTable - {controller};
    }

    method Reset()
      modifies this
      ensures Coherent() && Clean() && providers == map[] && staticCache == map[] && resolutionStack == {}
      ensures instances.Keys == {REFLECTOR, ModuleRefToken} && fastTable.Keys == {REFLECTOR}
      ensures requestInstances == map[] && requestContextIds == map[]
    {
      providers, staticCache, requestInstances, requestContextIds, resolutionStack := map[], map[], map[], map[], {};
      instances := map[REFLECTOR := Object(nextId, false), ModuleRefToken := Object(nextId + 1, false)];
      fastTable := map[REFLECTOR := instances[REFLECTOR]];
      nextId := nextId + 2;
    }

    predicate NoSpecialProvider()
      reads this`providers
    {
      forall t :: t in providers ==> !IsSpecial(t)
    }

    /** Puts one static token with an instance into the fast table. */
    method Promote(token: Token, ghost rank: Ranking)
      requires Acyclic(G(), rank) && token in instances && (token in providers || token.Class?)
      modifies this`staticCache, this`fastTable
      ensures old(Coherent()) && !IsSpecial(token) ==> Coherent()
      ensures old(Fixed(rank)) ==> Fixed(rank)
      ensures forall t :: t in old(staticCache) ==> t in staticCache && staticCache[t] == old(staticCache)[t]
      ensures instances[token] != UndefinedValue ==> token in staticCache
      ensures fastTable ==
              if instances[token] != UndefinedValue && staticCache[token] then old(fastTable)[token := instances[token]]
              else old(fastTable)
    {
      hide Acyclic, JudgesTargets, Free, Static;
      if instances[token] == UndefinedValue { return; }
      var isStatic := CheckStatic(token, rank);
      if isStatic { fastTable := fastTable[token := instances[token]]; }
    }

    /** Promotes what is static and there; right as long as no provider claims a special token. */
    method PrimeFastTable(ghost rank: Ranking)
      requires Acyclic(G(), rank)
      modifies this`staticCache, this`fastTable
      ensures old(Coherent()) && NoSpecialProvider() ==> Coherent()
      ensures old(Fixed(rank)) ==> Fixed(rank)
      ensures forall t :: Frontable(t) ==> t in fastTable
      ensures forall t :: t in instances && instances[t] != UndefinedValue && t in providers ==> t in staticCache
    {
      hide Acyclic, JudgesTargets, Free, Static, Coherent, Fixed;
      var tokens := providers.Keys;
      while tokens != {}
        invariant tokens <= providers.Keys && (old(Coherent()) && NoSpecialProvider() ==> Coherent())
        invariant forall t :: t in providers && t !in tokens && t in instances && instances[t] != UndefinedValue ==>
                    t in staticCache && (staticCache[t] ==> t in fastTable)
        invariant old(Fixed(rank)) ==> Fixed(rank)
        decreases |tokens|
      {
        var token :| token in tokens;
        tokens := tokens - {token};
        if token in instances { Promote(token, rank); }
      }
      tokens := instances.Keys;
      while tokens != {}
        invariant tokens <= instances.Keys && (old(Coherent()) && NoSpecialProvider() ==> Coherent())
        invariant forall t :: t in providers && t in instances && instances[t] != UndefinedValue ==>
                    t in staticCache && (staticCache[t] ==> t in fastTable)
        invariant forall t :: t in instances && t.Class? && t !in tokens && instances[t] != UndefinedValue ==>
                    t in fastTable || (t in staticCache && !staticCache[t])
        invariant old(Fixed(rank)) ==> Fixed(rank)
        decreases |tokens|
      {
        var token :| token in tokens;
        tokens := tokens - {token};
        if token !in fastTable && token.Class? { Promote(token, rank); }
      }
    }
  }
}
