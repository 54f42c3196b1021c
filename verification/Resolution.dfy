/**
 * What a resolution answers: which values stand for a token, given what is kept, and how the kept
 * values may change meanwhile. Pure: the container is in `Container`.
 */
module Resolution {
  import opened Text
  import opened Dependencies

  datatype Outcome = Ok(value: Value) | NoContext | Unknown

  /** `request` is the request object, `contextId` the key of its instance map once known. */
  datatype Context = Context(contextId: Option<nat>, request: Option<nat>, inquirer: Option<Token>)

  predicate Contextless(context: Context) {
    context.contextId.None? && context.request.None?
  }

  predicate IsSpecial(token: Token) {
    token.RequestToken? || token.InquirerToken? || token.ModuleRefToken?
  }

  /** The singletons and the instances kept for the request at hand. */
  datatype Kept = Kept(singletons: map<Token, Value>, scoped: map<Token, Value>)

  ghost predicate Grown(k: Kept, l: Kept) {
    && (forall t :: t in k.singletons ==> t in l.singletons && l.singletons[t] == k.singletons[t])
    && forall t :: t in k.scoped ==> t in l.scoped && l.scoped[t] == k.scoped[t]
  }

  /** `v` is kept for `t`, as its scope allows: transient values of providers are not kept at all. */
  predicate Keeps(g: Graph, k: Kept, t: Token, v: Value) {
    || (t in k.singletons && v == k.singletons[t] && (t in g.providers ==> ScopeOf(g, t) == Default))
    || (t in k.scoped && v == k.scoped[t] && ScopeOf(g, t) != Transient)
  }

  /**
   * `v` stands for `t`: the request, the inquirer, a new module reference, what is kept for `t`, or
   * for a transient token what is made for it.
   */
  ghost predicate Answers(g: Graph, rank: Ranking, k: Kept, request: Option<nat>, from: nat, t: Token,
                          inquirer: Option<Token>, v: Value)
    requires Acyclic(g, rank)
    decreases rank(t), 1
  {
    match t
    case RequestToken => v == if request.Some? then Object(request.value, true) else UndefinedValue
    case InquirerToken => v == if inquirer.Some? then TokenValue(inquirer.value) else UndefinedValue
    case ModuleRefToken => v.Object? && !v.tainted && v.id >= from
    case _ =>
      || Keeps(g, k, t, v)
      || (ScopeOf(g, t) == Transient && Made(g, rank, k, request, from, t, inquirer, v))
  }

  /**
   * `v` was made for `t`: the bound value, what stands for the target, or a new object of the class
   * or factory made of what stands for its dependencies, in order, with `t` as the inquirer.
   */
  ghost predicate Made(g: Graph, rank: Ranking, k: Kept, request: Option<nat>, from: nat, t: Token,
                       inquirer: Option<Token>, v: Value)
    requires Acyclic(g, rank)
    decreases rank(t), 0
  {
    if t in g.providers && g.providers[t].ValueProvider? then v == g.providers[t].value
    else if Target(g, t).Some? then
      TargetRanksLower(g, rank, t);
      Answers(g, rank, k, request, from, Target(g, t).value, inquirer, v)
    else
      && v.Built? && v.id >= from && v.maker == t && |v.parts| == |Resolved(g, t)|
      && forall i :: 0 <= i < |v.parts| ==>
           Answers(g, rank, k, request, from, Resolved(g, t)[i], Some(t), v.parts[i])
  }

  lemma TargetRanksLower(g: Graph, rank: Ranking, t: Token)
    requires Acyclic(g, rank) && Target(g, t).Some?
    ensures rank(Target(g, t).value) < rank(t)
  {
    assert Resolved(g, t)[0] == Target(g, t).value;
  }

  /** With more kept and an earlier start the same values stand for a token. */
  lemma {:induction false} AnswersGrow(g: Graph, rank: Ranking, k: Kept, l: Kept, request: Option<nat>, from: nat,
                                       start: nat, t: Token, inquirer: Option<Token>, v: Value)
    requires Acyclic(g, rank) && Grown(k, l) && start <= from
    requires Answers(g, rank, k, request, from, t, inquirer, v)
    ensures Answers(g, rank, l, request, start, t, inquirer, v)
    decreases rank(t), 1
  {
    if !IsSpecial(t) && !Keeps(g, k, t, v) {
      MadeGrows(g, rank, k, l, request, from, start, t, inquirer, v);
    }
    hide Acyclic, Made;
  }

  lemma {:induction false} MadeGrows(g: Graph, rank: Ranking, k: Kept, l: Kept, request: Option<nat>, from: nat,
                                     start: nat, t: Token, inquirer: Option<Token>, v: Value)
    requires Acyclic(g, rank) && Grown(k, l) && start <= from
    requires Made(g, rank, k, request, from, t, inquirer, v)
    ensures Made(g, rank, l, request, start, t, inquirer, v)
    decreases rank(t), 0
  {
    hide Answers, Grown;
    if t in g.providers && g.providers[t].ValueProvider? {
    } else if Target(g, t).Some? {
      TargetRanksLower(g, rank, t);
      AnswersGrow(g, rank, k, l, request, from, start, Target(g, t).value, inquirer, v);
    } else {
      forall i | 0 <= i < |v.parts|
        ensures Answers(g, rank, l, request, start, Resolved(g, t)[i], Some(t), v.parts[i])
      {
        AnswersGrow(g, rank, k, l, request, from, start, Resolved(g, t)[i], Some(t), v.parts[i]);
      }
    }
  }

  // ------------------------------------------------------------------ what is kept meanwhile

  /** `v` was made for `t`, whoever asked for it. */
  ghost predicate Arose(g: Graph, rank: Ranking, k: Kept, request: Option<nat>, from: nat, t: Token, v: Value)
    requires Acyclic(g, rank)
  {
    exists inquirer :: Made(g, rank, k, request, from, t, inquirer, v)
  }

  /** Whatever was kept since was made for its token. */
  ghost predicate AllArose(g: Graph, rank: Ranking, k: Kept, l: Kept, request: Option<nat>, from: nat)
    requires Acyclic(g, rank)
  {
    && (forall t :: t in l.singletons && t !in k.singletons ==> Arose(g, rank, l, request, from, t, l.singletons[t]))
    && forall t :: t in l.scoped && t !in k.scoped ==> Arose(g, rank, l, request, from, t, l.scoped[t])
  }

  lemma ArosesGrow(g: Graph, rank: Ranking, k: Kept, l: Kept, request: Option<nat>, from: nat, start: nat,
                   t: Token, v: Value)
    requires Acyclic(g, rank) && Grown(k, l) && start <= from && Arose(g, rank, k, request, from, t, v)
    ensures Arose(g, rank, l, request, start, t, v)
  {
    var inquirer :| Made(g, rank, k, request, from, t, inquirer, v);
    MadeGrows(g, rank, k, l, request, from, start, t, inquirer, v);
  }

  /** The maps of a container. */
  datatype Store = Store(
    instances: map<Token, Value>,
    scoped: map<nat, map<Token, Value>>,
    ids: map<nat, nat>,
    nextId: nat)

  /** The key of the context's instance map, once it has one. */
  function IdOf(s: Store, context: Context): Option<nat> {
    if context.contextId.Some? then context.contextId
    else if context.request.Some? && context.request.value in s.ids then Some(s.ids[context.request.value])
    else None
  }

  function ScopedFor(s: Store, id: nat): map<Token, Value> {
    if id in s.scoped then s.scoped[id] else map[]
  }

  function KeptFor(s: Store, id: Option<nat>): Kept {
    Kept(s.instances, if id.Some? then ScopedFor(s, id.value) else map[])
  }

  /**
   * A resolution for the request with key `id` leads from `s` to `t`: nothing kept is replaced or
   * dropped, what is new was made for its token and ranks below `bound`, nothing changes for other
   * requests, and the only key made is one for the request at hand.
   */
  ghost predicate Moved(g: Graph, rank: Ranking, s: Store, t: Store, id: Option<nat>, request: Option<nat>, bound: nat)
    requires Acyclic(g, rank)
  {
    && s.nextId <= t.nextId && KeysKept(s, t, request)
    && (forall other: nat :: Some(other) != id ==> ScopedFor(t, other) == ScopedFor(s, other))
    && Grown(KeptFor(s, id), KeptFor(t, id)) && NewBelow(rank, KeptFor(s, id), KeptFor(t, id), bound)
    && AllArose(g, rank, KeptFor(s, id), KeptFor(t, id), request, s.nextId)
  }

  ghost predicate KeysKept(s: Store, t: Store, request: Option<nat>) {
    && (forall r :: r in s.ids ==> r in t.ids && t.ids[r] == s.ids[r])
    && forall r :: r in t.ids && r !in s.ids ==> Some(r) == request && s.nextId <= t.ids[r] < t.nextId
  }

  ghost predicate NewBelow(rank: Ranking, k: Kept, l: Kept, bound: nat) {
    && (forall t :: t in l.singletons && t !in k.singletons ==> rank(t) < bound)
    && forall t :: t in l.scoped && t !in k.scoped ==> rank(t) < bound
  }

  /** Before a request has a key nothing is kept for it. */
  lemma MovedEarly(g: Graph, rank: Ranking, s: Store, t: Store, id: Option<nat>, request: Option<nat>, bound: nat)
    requires Acyclic(g, rank) && Moved(g, rank, s, t, None, request, bound)
    ensures Moved(g, rank, s, t, id, request, bound)
  {
    var (k, l) := (KeptFor(t, None), KeptFor(t, id));
    assert Grown(k, l);
    forall x | x in l.singletons && x !in s.instances
      ensures Arose(g, rank, l, request, s.nextId, x, l.singletons[x])
    {
      ArosesGrow(g, rank, k, l, request, s.nextId, s.nextId, x, l.singletons[x]);
    }
    hide Arose, Acyclic;
  }

  lemma AllAroseOn(g: Graph, rank: Ranking, k: Kept, l: Kept, m: Kept, request: Option<nat>, start: nat, from: nat)
    requires Acyclic(g, rank) && Grown(l, m) && start <= from
    requires AllArose(g, rank, k, l, request, start) && AllArose(g, rank, l, m, request, from)
    ensures AllArose(g, rank, k, m, request, start)
  {
    forall x | x in m.singletons && x !in k.singletons
      ensures Arose(g, rank, m, request, start, x, m.singletons[x])
    {
      if x in l.singletons {
        ArosesGrow(g, rank, l, m, request, start, start, x, l.singletons[x]);
      } else {
        ArosesGrow(g, rank, m, m, request, from, start, x, m.singletons[x]);
      }
    }
    forall x | x in m.scoped && x !in k.scoped
      ensures Arose(g, rank, m, request, start, x, m.scoped[x])
    {
      if x in l.scoped {
        ArosesGrow(g, rank, l, m, request, start, start, x, l.scoped[x]);
      } else {
        ArosesGrow(g, rank, m, m, request, from, start, x, m.scoped[x]);
      }
    }
    hide Arose, Acyclic;
  }

  lemma GrownOn(rank: Ranking, k: Kept, l: Kept, m: Kept, first: nat, second: nat, bound: nat)
    requires Grown(k, l) && Grown(l, m) && first <= bound && second <= bound
    requires NewBelow(rank, k, l, first) && NewBelow(rank, l, m, second)
    ensures Grown(k, m) && NewBelow(rank, k, m, bound)
  {
  }

  lemma KeysOn(s: Store, t: Store, u: Store, request: Option<nat>)
    requires KeysKept(s, t, request) && KeysKept(t, u, request) && s.nextId <= t.nextId <= u.nextId
    ensures KeysKept(s, u, request)
  {
  }

  /** One resolution in `context` after another. */
  lemma MovedOn(g: Graph, rank: Ranking, s: Store, t: Store, u: Store, context: Context, first: nat, second: nat,
                bound: nat)
    requires Acyclic(g, rank) && first <= bound && second <= bound
    requires Moved(g, rank, s, t, IdOf(t, context), context.request, first)
    requires Moved(g, rank, t, u, IdOf(u, context), context.request, second)
    ensures Moved(g, rank, s, u, IdOf(u, context), context.request, bound)
  {
    var id := IdOf(u, context);
    if IdOf(t, context) == None { MovedEarly(g, rank, s, t, id, context.request, first); }
    AllAroseOn(g, rank, KeptFor(s, id), KeptFor(t, id), KeptFor(u, id), context.request, s.nextId, t.nextId);
    GrownOn(rank, KeptFor(s, id), KeptFor(t, id), KeptFor(u, id), first, second, bound);
    KeysOn(s, t, u, context.request);
    hide Acyclic, AllArose, KeptFor, ScopedFor, NewBelow, Grown;
  }

  /** Nothing is kept, though identities were given out, one perhaps as the key of the request. */
  lemma MovedIdle(g: Graph, rank: Ranking, s: Store, t: Store, id: Option<nat>, request: Option<nat>, bound: nat)
    requires Acyclic(g, rank) && t.instances == s.instances && t.scoped == s.scoped
    requires s.nextId <= t.nextId && KeysKept(s, t, request)
    ensures Moved(g, rank, s, t, id, request, bound)
  {
  }

  /** Different requests have different keys, below the next fresh identity. */
  ghost predicate Numbered(s: Store) {
    && (forall r :: r in s.ids ==> s.ids[r] < s.nextId)
    && forall q, r :: q in s.ids && r in s.ids && s.ids[q] == s.ids[r] ==> q == r
  }

  /** They stay so, and what was kept for other requests stays as it was. */
  lemma OthersKept(g: Graph, rank: Ranking, s: Store, t: Store, context: Context, bound: nat)
    requires Acyclic(g, rank) && Numbered(s) && Moved(g, rank, s, t, IdOf(t, context), context.request, bound)
    ensures Numbered(t)
    ensures forall other :: other in s.ids && Some(other) != context.request && context.contextId == None ==>
              other in t.ids && t.ids[other] == s.ids[other] && ScopedFor(t, s.ids[other]) == ScopedFor(s, s.ids[other])
  {
    hide Acyclic, AllArose, KeptFor, NewBelow, Grown;
  }

  // ------------------------------------------------------------------ outcomes

  /** Everything resolved for `t` is bound, a class or special. */
  ghost predicate Bound(g: Graph, rank: Ranking, t: Token)
    requires Acyclic(g, rank)
    decreases rank(t)
  {
    IsSpecial(t) ||
    ((t in g.providers || t.Class?) && forall i :: 0 <= i < |Resolved(g, t)| ==> Bound(g, rank, Resolved(g, t)[i]))
  }

  /** The outcome for `t` in `context` when the store is `s` afterwards. */
  ghost predicate Settles(g: Graph, rank: Ranking, s: Store, context: Context, from: nat, t: Token, r: Outcome)
    requires Acyclic(g, rank)
  {
    match r
    case Ok(v) =>
      Answers(g, rank, KeptFor(s, IdOf(s, context)), context.request, from, t, context.inquirer, v)
    case NoContext => Contextless(context)
    case Unknown => !Bound(g, rank, t)
  }

  /** The same for a value just made. */
  ghost predicate SettlesNew(g: Graph, rank: Ranking, s: Store, context: Context, from: nat, t: Token, r: Outcome)
    requires Acyclic(g, rank)
  {
    match r
    case Ok(v) =>
      Made(g, rank, KeptFor(s, IdOf(s, context)), context.request, from, t, context.inquirer, v)
    case NoContext => Contextless(context)
    case Unknown => !Bound(g, rank, t)
  }

  // ------------------------------------------------------------------ steps of a resolution

  /** What resolving the target gives is what is made for the token. */
  lemma FromTarget(g: Graph, rank: Ranking, s: Store, context: Context, from: nat, t: Token, r: Outcome)
    requires Acyclic(g, rank) && Target(g, t).Some? && !IsSpecial(t)
    requires Settles(g, rank, s, context, from, Target(g, t).value, r)
    ensures SettlesNew(g, rank, s, context, from, t, r)
  {
    assert Resolved(g, t)[0] == Target(g, t).value;
    hide Acyclic, Answers;
  }

  /** A class or factory: who asks for it makes no difference. */
  ghost predicate Assembles(g: Graph, t: Token) {
    Target(g, t).None? && !(t in g.providers && g.providers[t].ValueProvider?)
  }

  lemma AnyInquirer(g: Graph, rank: Ranking, s: Store, context: Context, inquirer: Option<Token>, from: nat, t: Token,
                    r: Outcome)
    requires Acyclic(g, rank) && Assembles(g, t)
    requires SettlesNew(g, rank, s, context.(inquirer := inquirer), from, t, r)
    ensures SettlesNew(g, rank, s, context, from, t, r)
  {
    hide Acyclic, Answers, KeptFor, Bound;
  }

  /** The first parts are what stands for the first dependencies. */
  ghost predicate PartsAnswer(g: Graph, rank: Ranking, s: Store, context: Context, from: nat, t: Token,
                              parts: seq<Value>)
    requires Acyclic(g, rank)
  {
    && |parts| <= |Resolved(g, t)|
    && forall i :: 0 <= i < |parts| ==>
         Answers(g, rank, KeptFor(s, IdOf(s, context)), context.request, from, Resolved(g, t)[i], Some(t), parts[i])
  }

  lemma NoParts(g: Graph, rank: Ranking, s: Store, context: Context, from: nat, t: Token)
    requires Acyclic(g, rank)
    ensures PartsAnswer(g, rank, s, context, from, t, [])
  {
  }

  lemma Later(g: Graph, rank: Ranking, s: Store, t: Store, id: Option<nat>, request: Option<nat>, bound: nat)
    requires Acyclic(g, rank) && Moved(g, rank, s, t, id, request, bound)
    ensures s.nextId <= t.nextId
  {
  }

  lemma OnePart(g: Graph, rank: Ranking, s: Store, t: Store, u: Store, context: Context, bound: nat, x: Token,
                parts: seq<Value>, v: Value)
    requires Acyclic(g, rank) && |parts| < |Resolved(g, x)| && context.inquirer == Some(x)
    requires PartsAnswer(g, rank, t, context, s.nextId, x, parts) && s.nextId <= t.nextId
    requires Moved(g, rank, t, u, IdOf(u, context), context.request, bound)
    requires Settles(g, rank, u, context, t.nextId, Resolved(g, x)[|parts|], Ok(v))
    ensures PartsAnswer(g, rank, u, context, s.nextId, x, parts + [v])
  {
    var (k, l) := (KeptFor(t, IdOf(t, context)), KeptFor(u, IdOf(u, context)));
    assert Grown(k, l);
    forall i | 0 <= i < |parts|
      ensures Answers(g, rank, l, context.request, s.nextId, Resolved(g, x)[i], Some(x), parts[i])
    {
      AnswersGrow(g, rank, k, l, context.request, s.nextId, s.nextId, Resolved(g, x)[i], Some(x), parts[i]);
    }
    assert Grown(l, l);
    AnswersGrow(g, rank, l, l, context.request, t.nextId, s.nextId, Resolved(g, x)[|parts|], Some(x), v);
    hide Acyclic, Answers, Moved, Resolved, IdOf, KeptFor;
  }

  /** A dependency that has no value leaves none for the token. */
  lemma NoPart(g: Graph, rank: Ranking, s: Store, context: Context, from: nat, start: nat, x: Token, i: nat, r: Outcome)
    requires Acyclic(g, rank) && i < |Resolved(g, x)| && !r.Ok? && !IsSpecial(x)
    requires Settles(g, rank, s, context, from, Resolved(g, x)[i], r)
    ensures SettlesNew(g, rank, s, context, start, x, r)
  {
    hide Acyclic;
  }

  /** One more dependency of `x` was resolved, or has no value. */
  lemma ResolvedOne(g: Graph, rank: Ranking, s: Store, t: Store, u: Store, context: Context, x: Token,
                    parts: seq<Value>, part: Outcome)
    requires Acyclic(g, rank) && |parts| < |Resolved(g, x)| && context.inquirer == Some(x) && !IsSpecial(x)
    requires s.nextId <= t.nextId && rank(Resolved(g, x)[|parts|]) < rank(x)
    requires Moved(g, rank, s, t, IdOf(t, context), context.request, rank(x))
    requires PartsAnswer(g, rank, t, context, s.nextId, x, parts)
    requires Moved(g, rank, t, u, IdOf(u, context), context.request, rank(Resolved(g, x)[|parts|]) + 1)
    requires Settles(g, rank, u, context, t.nextId, Resolved(g, x)[|parts|], part)
    ensures Moved(g, rank, s, u, IdOf(u, context), context.request, rank(x)) && s.nextId <= u.nextId
    ensures part.Ok? ==> PartsAnswer(g, rank, u, context, s.nextId, x, parts + [part.value])
    ensures !part.Ok? ==> SettlesNew(g, rank, u, context, s.nextId, x, part)
  {
    var bound := rank(Resolved(g, x)[|parts|]) + 1;
    Later(g, rank, t, u, IdOf(u, context), context.request, bound);
    MovedOn(g, rank, s, t, u, context, rank(x), bound, rank(x));
    hide Acyclic, Moved, Settles, SettlesNew, PartsAnswer;
    if part.Ok? {
      OnePart(g, rank, s, t, u, context, bound, x, parts, part.value);
    } else {
      NoPart(g, rank, u, context, t.nextId, s.nextId, x, |parts|, part);
    }
  }

  /** All dependencies of `x` were resolved; the object made of them takes the next identity. */
  lemma AllParts(g: Graph, rank: Ranking, s: Store, t: Store, context: Context, x: Token, parts: seq<Value>,
                 perRequest: bool)
    requires Acyclic(g, rank) && Assembles(g, x) && |parts| == |Resolved(g, x)| && s.nextId <= t.nextId
    requires PartsAnswer(g, rank, t, context, s.nextId, x, parts)
    requires Moved(g, rank, s, t, IdOf(t, context), context.request, rank(x))
    ensures var u := t.(nextId := t.nextId + 1);
            && Moved(g, rank, s, u, IdOf(u, context), context.request, rank(x))
            && SettlesNew(g, rank, u, context, s.nextId, x, Ok(Built(t.nextId, x, parts, perRequest)))
  {
    var u := t.(nextId := t.nextId + 1);
    assert IdOf(u, context) == IdOf(t, context) && KeptFor(u, IdOf(u, context)) == KeptFor(t, IdOf(t, context));
    MovedIdle(g, rank, t, u, IdOf(u, context), context.request, rank(x));
    MovedOn(g, rank, s, t, u, context, rank(x), rank(x), rank(x));
    hide Acyclic, Answers, KeptFor, IdOf, Moved;
  }

  /** A transient value is not kept, and is what was made. */
  lemma NotKept(g: Graph, rank: Ranking, s: Store, context: Context, from: nat, x: Token, r: Outcome)
    requires Acyclic(g, rank) && !IsSpecial(x) && ScopeOf(g, x) == Transient
    requires SettlesNew(g, rank, s, context, from, x, r)
    ensures Settles(g, rank, s, context, from, x, r)
  {
    hide Acyclic, Made, Bound;
  }

  /** One more is kept: `v`, made for `x`. */
  ghost predicate OneMore(k: Kept, l: Kept, x: Token, v: Value) {
    || (x !in k.singletons && l == k.(singletons := k.singletons[x := v]))
    || (x !in k.scoped && l == k.(scoped := k.scoped[x := v]))
  }

  lemma OneMoreGrown(rank: Ranking, k: Kept, l: Kept, m: Kept, x: Token, v: Value)
    requires OneMore(l, m, x, v) && Grown(k, l) && NewBelow(rank, k, l, rank(x))
    ensures Grown(l, m) && Grown(k, m) && NewBelow(rank, k, m, rank(x) + 1)
  {
  }

  lemma OneMoreArose(g: Graph, rank: Ranking, l: Kept, m: Kept, request: Option<nat>, from: nat, x: Token, v: Value)
    requires Acyclic(g, rank) && OneMore(l, m, x, v) && Arose(g, rank, m, request, from, x, v)
    ensures AllArose(g, rank, l, m, request, from)
  {
    hide Arose, Acyclic;
  }

  lemma KeepOne(g: Graph, rank: Ranking, k: Kept, l: Kept, m: Kept, request: Option<nat>, from: nat, x: Token,
                inquirer: Option<Token>, v: Value)
    requires Acyclic(g, rank) && OneMore(l, m, x, v) && Made(g, rank, l, request, from, x, inquirer, v)
    requires Grown(k, l) && NewBelow(rank, k, l, rank(x)) && AllArose(g, rank, k, l, request, from)
    ensures Grown(k, m) && NewBelow(rank, k, m, rank(x) + 1) && AllArose(g, rank, k, m, request, from)
  {
    assert Arose(g, rank, l, request, from, x, v);
    hide *;
    OneMoreGrown(rank, k, l, m, x, v);
    ArosesGrow(g, rank, l, m, request, from, from, x, v);
    OneMoreArose(g, rank, l, m, request, from, x, v);
    AllAroseOn(g, rank, k, l, m, request, from, from);
  }

  /** Keeping the singleton just made. */
  lemma KeepSingleton(g: Graph, rank: Ranking, s: Store, t: Store, context: Context, x: Token, v: Value)
    requires Acyclic(g, rank) && !IsSpecial(x) && ScopeOf(g, x) == Default && x !in s.instances
    requires Moved(g, rank, s, t, IdOf(t, context), context.request, rank(x))
    requires SettlesNew(g, rank, t, context, s.nextId, x, Ok(v))
    ensures var u := t.(instances := t.instances[x := v]);
            && Moved(g, rank, s, u, IdOf(u, context), context.request, rank(x) + 1)
            && Settles(g, rank, u, context, s.nextId, x, Ok(v))
  {
    var u := t.(instances := t.instances[x := v]);
    var id := IdOf(t, context);
    assert x !in t.instances;
    assert KeptFor(u, id) == KeptFor(t, id).(singletons := t.instances[x := v]);
    KeepOne(g, rank, KeptFor(s, id), KeptFor(t, id), KeptFor(u, id), context.request, s.nextId, x,
                 context.inquirer, v);
    hide Acyclic, AllArose, Made, Grown, NewBelow, Bound;
  }

  /** Keeping the instance just made for a request. */
  lemma KeepScoped(g: Graph, rank: Ranking, s: Store, t: Store, context: Context, id: nat, x: Token, v: Value)
    requires Acyclic(g, rank) && !IsSpecial(x) && ScopeOf(g, x) != Transient && x !in ScopedFor(s, id)
    requires IdOf(t, context) == Some(id)
    requires Moved(g, rank, s, t, Some(id), context.request, rank(x))
    requires SettlesNew(g, rank, t, context, s.nextId, x, Ok(v))
    ensures var u := t.(scoped := t.scoped[id := ScopedFor(t, id)[x := v]]);
            && Moved(g, rank, s, u, Some(id), context.request, rank(x) + 1)
            && forall from :: Settles(g, rank, u, context, from, x, Ok(v))
  {
    var u := t.(scoped := t.scoped[id := ScopedFor(t, id)[x := v]]);
    var (k, l) := (KeptFor(s, Some(id)), KeptFor(t, Some(id)));
    assert x !in l.scoped;
    assert KeptFor(u, Some(id)) == l.(scoped := l.scoped[x := v]);
    KeepOne(g, rank, k, l, KeptFor(u, Some(id)), context.request, s.nextId, x, context.inquirer, v);
    hide Acyclic, AllArose, Made, Grown, NewBelow, Bound;
  }

  /** What is kept for a token is its outcome. */
  lemma FromKept(g: Graph, rank: Ranking, s: Store, t: Store, context: Context, bound: nat, x: Token, v: Value)
    requires Acyclic(g, rank) && !IsSpecial(x) && Keeps(g, KeptFor(t, IdOf(t, context)), x, v)
    requires t.instances == s.instances && t.scoped == s.scoped && s.nextId <= t.nextId
    requires KeysKept(s, t, context.request)
    ensures Moved(g, rank, s, t, IdOf(t, context), context.request, bound)
    ensures Settles(g, rank, t, context, s.nextId, x, Ok(v))
  {
    MovedIdle(g, rank, s, t, IdOf(t, context), context.request, bound);
    hide Acyclic, Moved, Keeps, KeptFor, KeysKept;
  }

  /** A special token is not kept. */
  lemma FromSpecial(g: Graph, rank: Ranking, s: Store, t: Store, context: Context, bound: nat, x: Token, v: Value)
    requires Acyclic(g, rank) && IsSpecial(x)
    requires t.instances == s.instances && t.scoped == s.scoped && t.ids == s.ids && s.nextId <= t.nextId
    requires x.RequestToken? ==>
               v == if context.request.Some? then Object(context.request.value, true) else UndefinedValue
    requires x.InquirerToken? ==>
               v == if context.inquirer.Some? then TokenValue(context.inquirer.value) else UndefinedValue
    requires x.ModuleRefToken? ==> v == Object(s.nextId, false)
    ensures Moved(g, rank, s, t, IdOf(t, context), context.request, bound)
    ensures Settles(g, rank, t, context, s.nextId, x, Ok(v))
  {
    MovedIdle(g, rank, s, t, IdOf(t, context), context.request, bound);
    hide Acyclic, Moved, KeptFor;
  }

  /** Nothing stands for a name that is not bound. */
  lemma FromNothing(g: Graph, rank: Ranking, s: Store, context: Context, bound: nat, x: Token)
    requires Acyclic(g, rank) && !IsSpecial(x) && !x.Class? && x !in g.providers
    ensures Moved(g, rank, s, s, IdOf(s, context), context.request, bound)
    ensures Settles(g, rank, s, context, s.nextId, x, Unknown)
  {
    MovedIdle(g, rank, s, s, IdOf(s, context), context.request, bound);
    hide Acyclic, Moved;
  }

  /** A bound value is what is made for its token. */
  lemma FromBinding(g: Graph, rank: Ranking, s: Store, context: Context, bound: nat, x: Token)
    requires Acyclic(g, rank) && x in g.providers && g.providers[x].ValueProvider?
    ensures Moved(g, rank, s, s, IdOf(s, context), context.request, bound)
    ensures SettlesNew(g, rank, s, context, s.nextId, x, Ok(g.providers[x].value))
  {
    MovedIdle(g, rank, s, s, IdOf(s, context), context.request, bound);
    hide Acyclic, Moved, Answers;
  }

  lemma MovedHigher(g: Graph, rank: Ranking, s: Store, t: Store, id: Option<nat>, request: Option<nat>, bound: nat,
                    higher: nat)
    requires Acyclic(g, rank) && Moved(g, rank, s, t, id, request, bound) && bound <= higher
    ensures Moved(g, rank, s, t, id, request, higher)
  {
    hide Acyclic, AllArose, Grown, KeptFor, ScopedFor, KeysKept;
  }

  /** A transient value, or none: nothing to keep. */
  lemma NothingToKeep(g: Graph, rank: Ranking, s: Store, t: Store, context: Context, x: Token, r: Outcome)
    requires Acyclic(g, rank) && !IsSpecial(x) && (r.Ok? ==> ScopeOf(g, x) == Transient)
    requires Moved(g, rank, s, t, IdOf(t, context), context.request, rank(x))
    requires SettlesNew(g, rank, t, context, s.nextId, x, r)
    ensures Moved(g, rank, s, t, IdOf(t, context), context.request, rank(x) + 1)
    ensures Settles(g, rank, t, context, s.nextId, x, r)
  {
    MovedHigher(g, rank, s, t, IdOf(t, context), context.request, rank(x), rank(x) + 1);
    hide Acyclic, Moved, Bound;
    if r.Ok? { NotKept(g, rank, t, context, s.nextId, x, r); }
  }

  /** The store after a value was made for the request with key `id`. */
  function WithScoped(s: Store, id: nat, x: Token, r: Outcome): Store {
    if r.Ok? then s.(scoped := s.scoped[id := ScopedFor(s, id)[x := r.value]]) else s
  }

  /** From `s` the request got its key, then something was made for `x` and, when there is a value, kept. */
  lemma KeepForRequest(g: Graph, rank: Ranking, s: Store, keyed: Store, t: Store, context: Context, id: nat, x: Token,
                       r: Outcome)
    requires Acyclic(g, rank) && !IsSpecial(x) && ScopeOf(g, x) != Transient && x !in ScopedFor(keyed, id)
    requires keyed.instances == s.instances && keyed.scoped == s.scoped && s.nextId <= keyed.nextId
    requires KeysKept(s, keyed, context.request) && IdOf(keyed, context) == Some(id)
    requires Moved(g, rank, keyed, t, Some(id), context.request, rank(x))
    requires SettlesNew(g, rank, t, context.(contextId := Some(id)), keyed.nextId, x, r)
    ensures var u := WithScoped(t, id, x, r);
            && Moved(g, rank, s, u, IdOf(u, context), context.request, rank(x) + 1)
            && Settles(g, rank, u, context, s.nextId, x, r)
  {
    var u := WithScoped(t, id, x, r);
    assert IdOf(t, context) == IdOf(u, context) == Some(id);
    SameKey(g, rank, t, context, id, keyed.nextId, x, r);
    MovedIdle(g, rank, s, keyed, Some(id), context.request, rank(x) + 1);
    hide Acyclic, Moved, Settles, SettlesNew, KeysKept;
    if r.Ok? {
      KeepScoped(g, rank, keyed, t, context, id, x, r.value);
    } else {
      NothingToKeep(g, rank, keyed, t, context, x, r);
      RefusedAnyway(g, rank, t, context, keyed.nextId, s.nextId, x, r);
    }
    MovedOn(g, rank, s, keyed, u, context, rank(x) + 1, rank(x) + 1, rank(x) + 1);
  }

  lemma SameKey(g: Graph, rank: Ranking, t: Store, context: Context, id: nat, from: nat, x: Token, r: Outcome)
    requires Acyclic(g, rank) && IdOf(t, context) == Some(id)
    requires SettlesNew(g, rank, t, context.(contextId := Some(id)), from, x, r)
    ensures SettlesNew(g, rank, t, context, from, x, r)
  {
    hide Acyclic, Made, Bound, KeptFor;
  }

  lemma RefusedAnyway(g: Graph, rank: Ranking, t: Store, context: Context, from: nat, start: nat, x: Token, r: Outcome)
    requires Acyclic(g, rank) && !r.Ok? && Settles(g, rank, t, context, from, x, r)
    ensures Settles(g, rank, t, context, start, x, r)
  {
  }

  lemma SameKeys(s: Store, request: Option<nat>)
    ensures KeysKept(s, s, request)
  {
  }

  lemma KeptScoped(g: Graph, s: Store, id: nat, x: Token)
    requires id in s.scoped && x in s.scoped[id] && ScopeOf(g, x) != Transient
    ensures Keeps(g, KeptFor(s, Some(id)), x, s.scoped[id][x])
  {
  }

  /** A context without a request is refused. */
  lemma Refused(g: Graph, rank: Ranking, s: Store, t: Store, context: Context, bound: nat, x: Token)
    requires Acyclic(g, rank) && Contextless(context)
    requires t.instances == s.instances && t.scoped == s.scoped && s.nextId <= t.nextId
    requires KeysKept(s, t, context.request)
    ensures Moved(g, rank, s, t, IdOf(t, context), context.request, bound)
    ensures Settles(g, rank, t, context, s.nextId, x, NoContext)
  {
    MovedIdle(g, rank, s, t, IdOf(t, context), context.request, bound);
    hide Acyclic, Moved;
  }

  /** From `s` the request got its key, and with it `x` was resolved. */
  lemma Keyed(g: Graph, rank: Ranking, s: Store, keyed: Store, t: Store, context: Context, bound: nat, x: Token,
              r: Outcome)
    requires Acyclic(g, rank)
    requires keyed.instances == s.instances && keyed.scoped == s.scoped && s.nextId <= keyed.nextId
    requires KeysKept(s, keyed, context.request)
    requires Moved(g, rank, keyed, t, IdOf(t, context), context.request, bound)
    requires Settles(g, rank, t, context, keyed.nextId, x, r)
    ensures Moved(g, rank, s, t, IdOf(t, context), context.request, bound)
    ensures Settles(g, rank, t, context, s.nextId, x, r)
  {
    MovedIdle(g, rank, s, keyed, IdOf(keyed, context), context.request, bound);
    MovedOn(g, rank, s, keyed, t, context, bound, bound, bound);
    if r.Ok? {
      var k := KeptFor(t, IdOf(t, context));
      assert Grown(k, k);
      AnswersGrow(g, rank, k, k, context.request, keyed.nextId, s.nextId, x, context.inquirer, r.value);
    }
    hide Acyclic, Moved, Answers, Bound, KeptFor;
  }

  /** The target of `x` was resolved. */
  lemma AfterTarget(g: Graph, rank: Ranking, s: Store, t: Store, context: Context, x: Token, r: Outcome)
    requires Acyclic(g, rank) && Target(g, x).Some? && !IsSpecial(x)
    requires Moved(g, rank, s, t, IdOf(t, context), context.request, rank(Target(g, x).value) + 1)
    requires Settles(g, rank, t, context, s.nextId, Target(g, x).value, r)
    ensures Moved(g, rank, s, t, IdOf(t, context), context.request, rank(x))
    ensures SettlesNew(g, rank, t, context, s.nextId, x, r)
  {
    TargetRanksLower(g, rank, x);
    MovedHigher(g, rank, s, t, IdOf(t, context), context.request, rank(Target(g, x).value) + 1, rank(x));
    FromTarget(g, rank, t, context, s.nextId, x, r);
    hide Acyclic, Moved, Settles, SettlesNew;
  }

  // ------------------------------------------------------------------ what is answered when nothing was kept

  /** Nothing is kept for `x`, neither as a singleton nor for the request with key `id`. */
  ghost predicate Unkept(s: Store, id: Option<nat>, x: Token) {
    x !in s.instances && x !in KeptFor(s, id).scoped
  }

  /**
   * What a token answers for which nothing was kept: a bound value itself; for an alias or a class
   * provider of another class what stands for the target; for a class or factory a new object made
   * of what stands for each of its dependencies.
   */
  ghost predicate NewFor(g: Graph, rank: Ranking, s: Store, t: Store, context: Context, x: Token, v: Value)
    requires Acyclic(g, rank)
  {
    var k := KeptFor(t, IdOf(t, context));
    && (x in g.providers && g.providers[x].ValueProvider? ==> v == g.providers[x].value)
    && (Target(g, x).Some? ==>
          exists inquirer :: Answers(g, rank, k, context.request, s.nextId, Target(g, x).value, inquirer, v))
    && (Assembles(g, x) ==>
          && v.Built? && v.id >= s.nextId && v.maker == x && |v.parts| == |Resolved(g, x)|
          && forall i :: 0 <= i < |v.parts| ==>
               Answers(g, rank, k, context.request, s.nextId, Resolved(g, x)[i], Some(x), v.parts[i]))
  }

  lemma IsNew(g: Graph, rank: Ranking, s: Store, t: Store, context: Context, bound: nat, x: Token, v: Value)
    requires Acyclic(g, rank) && !IsSpecial(x) && Unkept(s, IdOf(t, context), x)
    requires Moved(g, rank, s, t, IdOf(t, context), context.request, bound)
    requires Settles(g, rank, t, context, s.nextId, x, Ok(v))
    ensures NewFor(g, rank, s, t, context, x, v)
  {
    var (k, l) := (KeptFor(s, IdOf(t, context)), KeptFor(t, IdOf(t, context)));
    assert AllArose(g, rank, k, l, context.request, s.nextId) && x !in k.singletons && x !in k.scoped;
    if Keeps(g, l, x, v) {
      assert Arose(g, rank, l, context.request, s.nextId, x, v);
    } else {
      assert Made(g, rank, l, context.request, s.nextId, x, context.inquirer, v);
    }
    hide *;
    ArisesNew(g, rank, s, t, context, x, v);
  }

  lemma ArisesNew(g: Graph, rank: Ranking, s: Store, t: Store, context: Context, x: Token, v: Value)
    requires Acyclic(g, rank)
    requires Arose(g, rank, KeptFor(t, IdOf(t, context)), context.request, s.nextId, x, v)
    ensures NewFor(g, rank, s, t, context, x, v)
  {
    var inquirer :| Made(g, rank, KeptFor(t, IdOf(t, context)), context.request, s.nextId, x, inquirer, v);
    var k := KeptFor(t, IdOf(t, context));
    hide Acyclic, KeptFor, IdOf;
    if Target(g, x).Some? {
      assert Answers(g, rank, k, context.request, s.nextId, Target(g, x).value, inquirer, v);
    }
    if Assembles(g, x) {
      assert v.Built? && v.id >= s.nextId && v.maker == x && |v.parts| == |Resolved(g, x)|;
    }
  }

  /** An outcome says what was made, or why there is none. */
  lemma Told(g: Graph, rank: Ranking, s: Store, t: Store, context: Context, bound: nat, x: Token, r: Outcome)
    requires Acyclic(g, rank) && !IsSpecial(x)
    requires Moved(g, rank, s, t, IdOf(t, context), context.request, bound)
    requires Settles(g, rank, t, context, s.nextId, x, r)
    ensures r.Ok? && Unkept(s, IdOf(t, context), x) ==> NewFor(g, rank, s, t, context, x, r.value)
    ensures r == NoContext ==> Contextless(context)
    ensures r == Unknown ==> !Bound(g, rank, x)
  {
    hide Acyclic, Moved, Unkept, NewFor, Answers, Bound;
    if r.Ok? && Unkept(s, IdOf(t, context), x) { IsNew(g, rank, s, t, context, bound, x, r.value); }
  }

  /** Without a context there is no key, so only singletons can have been kept. */
  lemma NoKey(s: Store, t: Store, x: Token)
    ensures var none := Context(None, None, None);
            IdOf(t, none) == None && (x !in s.instances ==> Unkept(s, IdOf(t, none), x))
  {
  }

  /** A token bound to a value needs no request and is bound, so its answer is the value. */
  lemma BoundValue(g: Graph, rank: Ranking, s: Store, t: Store, context: Context, x: Token, r: Outcome)
    requires Acyclic(g, rank)
    ensures x in g.providers && g.providers[x].ValueProvider? && !IsSpecial(x) ==>
              && Free(g, rank, x) && Bound(g, rank, x)
              && (r.Ok? && NewFor(g, rank, s, t, context, x, r.value) ==> r == Ok(g.providers[x].value))
  {
    hide Acyclic;
  }
}
