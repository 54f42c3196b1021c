/**
 * The dependency graph of the container: what its depth-first "static" analysis looks for, what
 * resolving a token really visits, and when the two agree.
 */
module Dependencies {
  import opened Text

  datatype Scope = Default | RequestScope | Transient

  /** `Class` tokens are constructors; `Name` is any other token. */
  datatype Token = RequestToken | InquirerToken | ModuleRefToken | Class(id: nat) | Name(id: nat)

  /**
   * A value as the container sees it: an object given from outside, `tainted` when it is request
   * state; a token; or what a class or factory, `maker`, made of its parts, perhaps for one request.
   */
  datatype Value =
    | UndefinedValue
    | Object(id: nat, tainted: bool)
    | TokenValue(token: Token)
    | Built(id: nat, maker: Token, parts: seq<Value>, perRequest: bool)

  /** Request state: the request, the inquirer, and what was built from them or for one request. */
  predicate IsTainted(v: Value) {
    match v
    case UndefinedValue => false
    case Object(_, tainted) => tainted
    case TokenValue(_) => true
    case Built(_, _, parts, perRequest) => perRequest || exists i :: 0 <= i < |parts| && IsTainted(parts[i])
  }

  datatype Provider =
    | ClassProvider(useClass: Token, scope: Option<Scope>)
    | ValueProvider(value: Value)
    | FactoryProvider(inject: seq<Token>, scope: Option<Scope>)
    | ExistingProvider(useExisting: Token, scope: Option<Scope>)

  /** Constructor metadata, fixed when classes are declared. */
  datatype Metadata = Metadata(deps: map<nat, seq<Token>>, scopes: map<nat, Scope>)

  datatype Graph = Graph(meta: Metadata, providers: map<Token, Provider>)

  function ClassDeps(meta: Metadata, token: Token): seq<Token> {
    if token.Class? && token.id in meta.deps then meta.deps[token.id] else []
  }

  function ClassScope(meta: Metadata, token: Token): Scope {
    if token.Class? && token.id in meta.scopes then meta.scopes[token.id] else Default
  }

  function ProviderScope(meta: Metadata, p: Provider): Scope {
    match p
    case ValueProvider(_) => Default
    case FactoryProvider(_, scope) => if scope.Some? then scope.value else Default
    case ClassProvider(target, scope) => if scope.Some? then scope.value else ClassScope(meta, target)
    case ExistingProvider(target, scope) => if scope.Some? then scope.value else ClassScope(meta, target)
  }

  function ScopeOf(g: Graph, token: Token): Scope {
    if token in g.providers then ProviderScope(g.meta, g.providers[token]) else ClassScope(g.meta, token)
  }

  // ------------------------------------------------------------------ what the analysis looks at

  /** The tokens the analysis follows from `token`: for class and alias providers the target's own dependencies. */
  function Followed(g: Graph, token: Token): seq<Token> {
    if token !in g.providers then ClassDeps(g.meta, token)
    else FollowedFrom(g.meta, g.providers[token])
  }

  function FollowedFrom(meta: Metadata, p: Provider): seq<Token> {
    match p
    case ClassProvider(target, _) => ClassDeps(meta, target)
    case ExistingProvider(target, _) => ClassDeps(meta, target)
    case FactoryProvider(inject, _) => inject
    case ValueProvider(_) => []
  }

  /** The tokens resolving `token` resolves in turn. */
  function Resolved(g: Graph, token: Token): seq<Token> {
    if token !in g.providers then ClassDeps(g.meta, token)
    else
      match g.providers[token]
      case ClassProvider(target, _) => if target == token then ClassDeps(g.meta, target) else [target]
      case ExistingProvider(target, _) => [target]
      case FactoryProvider(inject, _) => inject
      case ValueProvider(_) => []
  }

  /** A provider's own scope counts; without one a class or alias provider has the scope of its target's class. */
  lemma ScopeIs(g: Graph, t: Token)
    ensures t !in g.providers && t.Class? && t.id in g.meta.scopes ==> ScopeOf(g, t) == g.meta.scopes[t.id]
    ensures t !in g.providers && !(t.Class? && t.id in g.meta.scopes) ==> ScopeOf(g, t) == Default
    ensures t in g.providers ==>
              match g.providers[t]
              case ValueProvider(_) => ScopeOf(g, t) == Default
              case FactoryProvider(_, None) => ScopeOf(g, t) == Default
              case FactoryProvider(_, Some(own)) => ScopeOf(g, t) == own
              case ClassProvider(_, Some(own)) => ScopeOf(g, t) == own
              case ExistingProvider(_, Some(own)) => ScopeOf(g, t) == own
              case ClassProvider(target, None) => ScopeOf(g, t) == ScopeOf(g.(providers := map[]), target)
              case ExistingProvider(target, None) => ScopeOf(g, t) == ScopeOf(g.(providers := map[]), target)
  {
  }

  /**
   * A class is made of its declared dependencies, a factory of those it lists; other providers
   * name one token or none.
   */
  lemma ResolvedIs(g: Graph, t: Token)
    ensures t.Class? && t.id in g.meta.deps && (t !in g.providers || g.providers[t] == ClassProvider(t, None)) ==>
              Resolved(g, t) == g.meta.deps[t.id]
    ensures t !in g.providers && !(t.Class? && t.id in g.meta.deps) ==> Resolved(g, t) == []
    ensures t in g.providers ==>
              match g.providers[t]
              case ValueProvider(_) => Resolved(g, t) == []
              case FactoryProvider(inject, _) => Resolved(g, t) == inject
              case ClassProvider(target, _) => target != t ==> Resolved(g, t) == [target]
              case ExistingProvider(target, _) => Resolved(g, t) == [target]
  {
  }

  type Ranking = Token -> nat

  /** No token depends on itself: dependencies rank lower. */
  ghost predicate Acyclic(g: Graph, rank: Ranking) {
    && (forall c, i :: 0 <= i < |ClassDeps(g.meta, c)| ==> rank(ClassDeps(g.meta, c)[i]) < rank(c))
    && (forall t, i :: 0 <= i < |Resolved(g, t)| ==> rank(Resolved(g, t)[i]) < rank(t))
  }

  predicate IsContextToken(token: Token) {
    token.RequestToken? || token.InquirerToken?
  }

  lemma FollowedLower(g: Graph, rank: Ranking, t: Token, i: nat)
    requires Acyclic(g, rank) && i < |Followed(g, t)|
    ensures rank(Followed(g, t)[i]) < rank(t)
  {
    if t in g.providers {
      match g.providers[t]
      case ClassProvider(target, _) =>
        if target != t { assert Resolved(g, t)[0] == target; }
      case ExistingProvider(target, _) =>
        assert Resolved(g, t)[0] == target;
      case FactoryProvider(inject, _) =>
        assert Resolved(g, t)[i] == inject[i];
      case ValueProvider(_) =>
    }
  }

  /** A context token, a request-scoped token or one with a contextual dependency. */
  ghost predicate Contextual(g: Graph, rank: Ranking, token: Token)
    decreases rank(token)
  {
    || IsContextToken(token) || ScopeOf(g, token) == RequestScope
    || exists t :: t in Followed(g, token) && rank(t) < rank(token) && Contextual(g, rank, t)
  }

  ghost predicate AnyContextual(g: Graph, rank: Ranking, tokens: seq<Token>) {
    exists t :: t in tokens && Contextual(g, rank, t)
  }

  ghost predicate HasContextual(g: Graph, rank: Ranking, token: Token) {
    AnyContextual(g, rank, Followed(g, token))
  }

  ghost predicate Static(g: Graph, rank: Ranking, token: Token) {
    ScopeOf(g, token) == Default && !HasContextual(g, rank, token)
  }

  lemma ContextualIs(g: Graph, rank: Ranking, token: Token)
    requires Acyclic(g, rank)
    ensures Contextual(g, rank, token) <==>
            IsContextToken(token) || ScopeOf(g, token) == RequestScope || HasContextual(g, rank, token)
  {
    forall i | 0 <= i < |Followed(g, token)|
      ensures rank(Followed(g, token)[i]) < rank(token)
    {
      FollowedLower(g, rank, token, i);
    }
  }

  // ------------------------------------------------------------------ static means nothing contextual is reachable

  predicate IsPath(g: Graph, path: seq<Token>) {
    forall i :: 0 <= i < |path| - 1 ==> path[i + 1] in Followed(g, path[i])
  }

  /** A dependency path of at least one edge to a context token or a request-scoped token. */
  predicate ReachesContext(g: Graph, token: Token, path: seq<Token>) {
    && |path| >= 2 && path[0] == token && IsPath(g, path)
    && (IsContextToken(path[|path| - 1]) || ScopeOf(g, path[|path| - 1]) == RequestScope)
  }

  lemma {:induction false} PathShows(g: Graph, rank: Ranking, token: Token, path: seq<Token>)
    requires Acyclic(g, rank) && ReachesContext(g, token, path)
    ensures HasContextual(g, rank, token)
    decreases |path|
  {
    ContextualIs(g, rank, path[1]);
    assert path[1] in Followed(g, path[0]);
    if |path| > 2 {
      forall i | 0 <= i < |path[1..]| - 1
        ensures path[1..][i + 1] in Followed(g, path[1..][i])
      {
        assert path[i + 2] in Followed(g, path[i + 1]);
      }
      PathShows(g, rank, path[1], path[1..]);
    }
    assert Contextual(g, rank, path[1]);
  }

  lemma {:induction false} PathExists(g: Graph, rank: Ranking, token: Token) returns (path: seq<Token>)
    requires Acyclic(g, rank) && HasContextual(g, rank, token)
    ensures ReachesContext(g, token, path)
    decreases rank(token)
  {
    var t :| t in Followed(g, token) && Contextual(g, rank, t);
    var i :| 0 <= i < |Followed(g, token)| && Followed(g, token)[i] == t;
    FollowedLower(g, rank, token, i);
    ContextualIs(g, rank, t);
    if IsContextToken(t) || ScopeOf(g, t) == RequestScope {
      path := [token, t];
    } else {
      var more := PathExists(g, rank, t);
      path := [token] + more;
      assert forall k :: 0 < k < |path| ==> path[k] == more[k - 1];
      assert path[1] == t;
    }
  }

  /** A token is static iff it has default scope and no dependency path leads to request state. */
  lemma StaticIsUnreachable(g: Graph, rank: Ranking, token: Token)
    requires Acyclic(g, rank)
    ensures Static(g, rank, token) <==>
            ScopeOf(g, token) == Default && forall path :: !ReachesContext(g, token, path)
  {
    if HasContextual(g, rank, token) {
      var path := PathExists(g, rank, token);
    } else {
      forall path
        ensures !ReachesContext(g, token, path)
      {
        if ReachesContext(g, token, path) { PathShows(g, rank, token, path); }
      }
    }
  }

  // ------------------------------------------------------------------ what resolution needs

  /** Nothing resolved for `token` is a context token or request-scoped. */
  ghost predicate Free(g: Graph, rank: Ranking, token: Token)
    requires Acyclic(g, rank)
    decreases rank(token)
  {
    && !IsContextToken(token) && ScopeOf(g, token) != RequestScope
    && forall i :: 0 <= i < |Resolved(g, token)| ==> Free(g, rank, Resolved(g, token)[i])
  }

  /** The other token a class or alias provider hands on to. */
  function Target(g: Graph, token: Token): Option<Token> {
    if token !in g.providers then None
    else
      match g.providers[token]
      case ClassProvider(target, _) => if target == token then None else Some(target)
      case ExistingProvider(target, _) => Some(target)
      case _ => None
  }

  /**
   * Resolution asks whether the target is contextual where the analysis asks it of the dependencies of
   * the target's class only. The answers must be the same, unless the token is contextual by itself.
   */
  ghost predicate JudgesTarget(g: Graph, rank: Ranking, token: Token) {
    Target(g, token).Some? && !IsContextToken(token) && ScopeOf(g, token) != RequestScope ==>
      var target := Target(g, token).value;
      AnyContextual(g, rank, ClassDeps(g.meta, target)) <==> Contextual(g, rank, target)
  }

  ghost predicate JudgesTargets(g: Graph, rank: Ranking) {
    forall token :: JudgesTarget(g, rank, token)
  }

  ghost predicate Judged(g: Graph, rank: Ranking, token: Token)
    requires Acyclic(g, rank)
  {
    Free(g, rank, token) <==> !Contextual(g, rank, token)
  }

  /** A token that hands on to a target is judged rightly iff the target is, as far as it is asked about. */
  lemma ThroughTarget(g: Graph, rank: Ranking, token: Token)
    requires Acyclic(g, rank) && Target(g, token).Some? && Judged(g, rank, Target(g, token).value)
    ensures Judged(g, rank, token) <==> JudgesTarget(g, rank, token)
  {
    var target := Target(g, token).value;
    ContextualIs(g, rank, token);
    assert Resolved(g, token) == [target] && Followed(g, token) == ClassDeps(g.meta, target);
    assert Free(g, rank, token) <==>
           !IsContextToken(token) && ScopeOf(g, token) != RequestScope && Free(g, rank, Resolved(g, token)[0]);
  }

  /** Any other token resolves what the analysis follows. */
  lemma WithoutTarget(g: Graph, rank: Ranking, token: Token)
    requires Acyclic(g, rank) && Target(g, token).None?
    requires forall i :: 0 <= i < |Resolved(g, token)| ==> Judged(g, rank, Resolved(g, token)[i])
    ensures Judged(g, rank, token)
  {
    ContextualIs(g, rank, token);
    assert Resolved(g, token) == Followed(g, token);
  }

  /** When all targets are judged rightly, the analysis and the resolution agree on a token. */
  lemma {:induction false} FreeIsNotContextual(g: Graph, rank: Ranking, token: Token)
    requires Acyclic(g, rank) && JudgesTargets(g, rank)
    ensures Free(g, rank, token) <==> !Contextual(g, rank, token)
    decreases rank(token)
  {
    forall i | 0 <= i < |Resolved(g, token)|
      ensures Judged(g, rank, Resolved(g, token)[i])
    {
      FreeIsNotContextual(g, rank, Resolved(g, token)[i]);
    }
    if Target(g, token).Some? {
      assert Resolved(g, token)[0] == Target(g, token).value;
      assert JudgesTarget(g, rank, token);
      ThroughTarget(g, rank, token);
    } else {
      WithoutTarget(g, rank, token);
    }
  }

  ghost predicate JudgedAll(g: Graph, rank: Ranking)
    requires Acyclic(g, rank)
  {
    forall token :: Judged(g, rank, token)
  }

  /** On every acyclic graph the analysis is right about all tokens if and only if it judges all targets rightly. */
  lemma {:induction false} AnalysisIsRight(g: Graph, rank: Ranking)
    requires Acyclic(g, rank)
    ensures JudgedAll(g, rank) <==> JudgesTargets(g, rank)
  {
    if JudgesTargets(g, rank) {
      forall token
        ensures Judged(g, rank, token)
      {
        FreeIsNotContextual(g, rank, token);
      }
      assert JudgedAll(g, rank);
    } else {
      var token :| !JudgesTarget(g, rank, token);
      if Judged(g, rank, Target(g, token).value) {
        ThroughTarget(g, rank, token);
        assert !Judged(g, rank, token);
      }
    }
  }

  /** So a token is static exactly when resolving it needs no request, unless it is transient. */
  lemma StaticIsFree(g: Graph, rank: Ranking, token: Token)
    requires Acyclic(g, rank) && JudgesTargets(g, rank) && !IsContextToken(token)
    ensures Static(g, rank, token) <==> Free(g, rank, token) && ScopeOf(g, token) == Default
    ensures Free(g, rank, token) ==> ScopeOf(g, token) != RequestScope
  {
    FreeIsNotContextual(g, rank, token);
    ContextualIs(g, rank, token);
    hide JudgesTargets, Acyclic;
  }

  /** A target bound to a value is judged rightly unless its own class has a contextual dependency. */
  lemma ValueTargetIsJudged(g: Graph, rank: Ranking, token: Token)
    requires Acyclic(g, rank) && Target(g, token).Some?
    requires var target := Target(g, token).value;
             target in g.providers && g.providers[target].ValueProvider? && !IsContextToken(target)
    requires !AnyContextual(g, rank, ClassDeps(g.meta, Target(g, token).value))
    ensures JudgesTarget(g, rank, token)
  {
    ContextualIs(g, rank, Target(g, token).value);
  }

  /** An unbound target is judged rightly unless its class's request scope is lost or it is a context token. */
  lemma UnboundTargetIsJudged(g: Graph, rank: Ranking, token: Token)
    requires Acyclic(g, rank) && Target(g, token).Some? && Target(g, token).value !in g.providers
    requires !IsContextToken(Target(g, token).value)
    requires ClassScope(g.meta, Target(g, token).value) == RequestScope ==> ScopeOf(g, token) == RequestScope
    ensures JudgesTarget(g, rank, token)
  {
    ContextualIs(g, rank, Target(g, token).value);
  }

  /** A contextual target whose class has no contextual dependency is missed: the token counts as static. */
  lemma MissedTarget(g: Graph, rank: Ranking, token: Token)
    requires Acyclic(g, rank) && Target(g, token).Some? && Judged(g, rank, Target(g, token).value)
    requires !IsContextToken(token) && ScopeOf(g, token) == Default
    requires Contextual(g, rank, Target(g, token).value)
    requires !AnyContextual(g, rank, ClassDeps(g.meta, Target(g, token).value))
    ensures Static(g, rank, token) && !Free(g, rank, token) && !JudgesTarget(g, rank, token)
  {
    ContextualIs(g, rank, token);
    ThroughTarget(g, rank, token);
  }

  function DemoRank(t: Token): nat {
    if t == Name(0) then 2 else if t == Name(1) then 1 else 0
  }

  function Narrowed(): Graph {
    Graph(Metadata(map[], map[1 := RequestScope]), map[Name(0) := ClassProvider(Class(1), Some(Default))])
  }

  /** The analysis trusts a class provider that narrows its class's request scope, and resolution cannot. */
  lemma NarrowedScopeIsMissed()
    ensures Acyclic(Narrowed(), DemoRank) && !JudgesTargets(Narrowed(), DemoRank)
    ensures Static(Narrowed(), DemoRank, Name(0)) && !Free(Narrowed(), DemoRank, Name(0))
  {
    var g := Narrowed();
    ContextualIs(g, DemoRank, Class(1));
    assert ScopeOf(g, Class(1)) == RequestScope;
    MissedTarget(g, DemoRank, Name(0));
  }

  function Rebound(): Graph {
    Graph(Metadata(map[], map[]),
          map[Name(0) := ExistingProvider(Name(1), None), Name(1) := FactoryProvider([RequestToken], None)])
  }

  /** It also misses what a rebound target needs: here an alias for a name whose factory takes the request. */
  lemma ReboundTargetIsMissed()
    ensures Acyclic(Rebound(), DemoRank) && !JudgesTargets(Rebound(), DemoRank)
    ensures Static(Rebound(), DemoRank, Name(0)) && !Free(Rebound(), DemoRank, Name(0))
  {
    var g := Rebound();
    assert Followed(g, Name(1))[0] == RequestToken && Contextual(g, DemoRank, RequestToken);
    ContextualIs(g, DemoRank, Name(1));
    assert !Free(g, DemoRank, Resolved(g, Name(1))[0]);
    MissedTarget(g, DemoRank, Name(0));
  }
}
