# Techne in Dafny

A model of the algorithmic cores of Techne, a Bun HTTP framework, with proofs. `dafny verify dfyconfig.toml`
checks the whole project. Code that updates state is modelled by classes and methods with loops, each proved
against a specification function; what the framework promises is proved about those functions as lemmas.

- **Router** (`Text`, `RoutePatterns`, `RouteMeaning`, `RouteSearch`, `RouteAdding`, `RouteTrie`, `Router`).
  Registrations form a log, and the reference is the flat list: of the registrations that match, the one that is
  least under literal before parameter before end of pattern before wildcard, left to right, and the first of equals.
  What matching, parameters and precedence are is also told on segments alone. The router object keeps an exact table
  and a mutable segment trie, searched by backtracking over character offsets. Its answer is the flat-list winner, its
  `params` are exactly the winner's.
- **App compiler** (`Lists`, `MountTree`, `RouteTable`, `RoutePrefixes`, `AppCompiler`, `AppCache`). Mounted apps form
  a tree. A route answers at the segments of all prefixes on the way to its app followed by its own. The reference for
  hooks is a filter: all hook registrations of the tree, each once, kept by one condition on the address of the hook
  and that of the route. Lifting by scope and pushing down minus what was lifted from the very child amounts to that
  filter; the traversal registers every route of every included app once; the cached form is never stale.
- **Request pipeline** (`Lifecycle`, `LifeCases`, `Pipeline`). The reference tells the life of a request in sequence,
  and case by case which phase follows which outcome and which hooks are called. The pipeline loops synchronously and
  suspends with a continuation when a call returns a promise; a function `later` says which calls do, and every run is
  the one the reference tells.
- **Rate limit** (`TokenBucket`, `RateLimit`, `RateRuns`). A bucket over exact reals and the insertion-ordered map
  with its cap, against a log of calls and a store that never evicts.
- **Schema-driven stringifier** (`Json`, `JsonReader`, `SchemaValues`, `EmittedCode`, `Stringifier`). The emitted
  code is a small syntax with an evaluator; its output is compared with standard JSON text (section 7 of RFC 8259),
  for which a reader is proved to be the inverse of the printer.
- **Job queue** (`Batch`, `BatchStore`, `Chain`, `ChainStore`). Step systems in which every `await` is a point where
  anything else may happen, with invariants over all runs, and the stores, builders and listeners as code.
- **Container** (`Dependencies`, `Resolution`, `Container`). The depth-first "static" analysis against reachability in
  the dependency graph, which values stand for a token, resolution into singletons and request instances, and the fast
  table in front.
- **Plugins** (`PluginRounds`, `PluginOrder`), **command suggestions** (`EditDistance`, `Suggestions`), **cookies**
  (`UriComponent`, `CookieText`, `RequestCookies`) and **request pools** (`Pool`).

Where something the code promises or suggests does not hold, the code is kept as it is, inputs for which it fails are
given, and the exact condition under which it holds is proved for all inputs:

- Router: a path rejected half-way leaves trie nodes, so a later path can be refused for a parameter name nobody
  registered (`RouteAdding.RejectedPathLeavesName`). A call of `add` leaves the answer to every later path as it was
  if and only if it made no new parameter node (`RouteAdding.LaterPathsAlike`). No `find` changes.
- Response-mapping hooks: `ctx.response` is set again after a hook that returned a promise, so a hook with another
  one after it shows whether it does (`Lifecycle.PromiseShows`), unless and only unless it leaves `ctx.response`
  alone when it returns nothing (`Lifecycle.PromiseInLife`).
- Rate limit: that few other keys came since the last call of a key does not hide the cap, also with the cap the
  store has (`RateRuns.LastGapInTheStore`). The cap is hidden at all moments of a run, in bucket and decisions, if
  and only if few other keys came in every gap between calls of the key and after the last (`RateRuns.KeptUpExactly`,
  `RateRuns.KeptUpDecides`).
- Stringifier: "correctness is always preserved" (src/schema/fast-stringify.ts:11-12) fails when an absent optional
  property has a name every object inherits, such as `toString` (`Stringifier.InheritedNameShows`), and for
  conforming values exactly then (`Stringifier.StringifiesConforming`). An object schema without properties prints
  braces for anything, right for the empty object only (`Stringifier.BracesForAnything`).
- Batch: the barrier waits for added jobs if and only if a job is unfinished when they are added
  (`Batch.AddOnlyInFlight`); later ones are overtaken (`Batch.LateJobsOvertaken`).
- Container: the analysis looks at the class of a provider's target where resolution goes to the target itself; it
  misses a narrowed scope (`Dependencies.NarrowedScopeIsMissed`) and a rebound target
  (`Dependencies.ReboundTargetIsMissed`). It is right about all tokens if and only if the two agree on every such
  target (`Dependencies.AnalysisIsRight`), which can be checked before anything is resolved.
- Cookies: an empty value of a signed name comes back as a bad signature; a written cookie is read back unchanged if
  and only if it is not that (`RequestCookies.ComesBack`).

## Main results

- `Router.Router.Find`: the answer of the trie router is the flat-list winner, with exactly its parameters; and
  `RouteMeaning.MatchesIs`, `RouteMeaning.ParamsAre`, `RouteMeaning.WinsIs`, `RouteMeaning.AcceptedIs`: what these
  words mean on segments. `RouteTrie.OrderInvisible`, `RouteAdding.LaterPathsAlike`: what order and rejected paths can
  change.
- `MountTree.HooksReachRoutes`, `RouteTable.HookOncePerRoute`, `RouteTable.VisitIsAll`, `RoutePrefixes.RouteMatches`,
  `AppCompiler.CompileApp`: which routes and hooks a tree of apps compiles to, and which requests they match.
  `AppCache.Apps.Compile`: the cached form is never stale.
- `Pipeline.Serve`: every run with promises is the sequential life of the request. `LifeCases.BeforeRouting`,
  `LifeCases.BodyRejected`, `LifeCases.DerivingEnds`, `LifeCases.InvalidStops`, `LifeCases.PreparingEnds`,
  `LifeCases.HandlerEnds`: how such a life goes, outcome by outcome. `Lifecycle.PromisesInvisible`,
  `Lifecycle.PromiseInLife`: promises do not show, and exactly when.
- `TokenBucket.RateBound`, `TokenBucket.ResetIsExact`, `RateLimit.InMemoryTokenBucketStore.Consume`,
  `RateRuns.KeptUpExactly`, `RateRuns.KeptUpDecides`, `RateRuns.StoreRate`: rate, headers and the cap.
- `Stringifier.StringifiesConforming` with `JsonReader.RoundTrip`: the emitted code prints standard text, exactly when
  no inherited name shows, and that text is read back.
- `Batch.Barrier`, `Batch.AddOnlyInFlight`, `Chain.Sequential`, `Chain.StoresAgree`: all interleavings of batches and
  chains, and both kinds of store.
- `Dependencies.StaticIsUnreachable`, `Dependencies.AnalysisIsRight`, `Container.Container.Resolve`,
  `Container.Container.Get`: what the analysis means, when it is right, what resolution answers and what it keeps.
- `PluginOrder.Flush` with `PluginRounds.LeftOverIffCycle`, `EditDistance.DistanceIsFewestEdits`,
  `RequestCookies.ComesBack`, `Pool.Bounded`.

## Model

| member | source | states |
|---|---|---|
| RoutePatterns.WinnerUnique | src/server/router.ts:103-145 | At most one registration of a log wins for a method and path: the precedence has no ties between different registrations. |
| RoutePatterns.SameRankSameSlot | src/server/router.ts:50-82 | Two registrations that match the same request with the same precedence occupy the same place of the router, so the first of them is the one kept. |
| RoutePatterns.ExactMatchesBySegment | src/server/router.ts:50-55 | For a request that starts with a slash, the exact table matches just when the path matches segment by segment, so static paths need no matching rule of their own. |
| RouteMeaning.MatchesIs | src/server/router.ts:103-145 | A path matches a request if and only if its segments fit those of the request: a last `*` takes any rest, `:x` any segment that is not empty, anything else itself. |
| RouteMeaning.ParamsAre | src/server/router.ts:133-143 | The parameters of a match, on segments: `:x` stands for its decoded segment, `*` for the decoded rest if there is one, and of two parameters of a name the first counts. |
| RouteMeaning.WinsIs | src/server/router.ts:118-145 | The winner, on segments: of the registrations that fit, the one that at the first difference has a literal before a parameter and anything before the wildcard, and the first of equals. |
| RoutePatterns.OrderIrrelevant | src/server/router.ts:42-145 | Of two logs with the same registrations, no two of them in one place, the same registration answers every request, in whatever order they were made. |
| RouteSearch.ParamsExact | src/server/router.ts:133-143 | The parameters of a match are exactly: for each name of the pattern its decoded segment, and `*` with the decoded remainder when the wildcard consumed one; nothing else. |
| RouteSearch.UnderCases | src/server/router.ts:118-145 | A match below a node goes through its literal child, its parameter child with a non-empty segment, or its wildcard, and each of these is a match. |
| RouteTrie.NoRegistration | src/server/router.ts:56-81 | Where the trie has no node nothing is registered at or below, for any remaining segments. |
| RouteSearch.SearchEnd | src/server/router.ts:124 | At the end of the path the best match below a node is its first value, else its first wildcard, else there is none. |
| RouteSearch.SearchLiteral | src/server/router.ts:128-132 | The best match below the literal child is the best below the node. |
| RouteSearch.SearchParam | src/server/router.ts:133-139 | When nothing matches below the literal child, the best match below the parameter child is the best below the node. |
| RouteSearch.SearchWildcard | src/server/router.ts:140-144 | When both children have none, the node's first wildcard is the best match, and without one there is none. |
| RouteSearch.ScanStep | src/server/router.ts:125-127 | Scanning from an offset to the next slash yields the first of the segments that splitting gives, and goes on at the rest; the segments joined are the remaining text. |
| RouteSearch.ScanEnd | src/server/router.ts:124 | An offset past the end of the path means no segments are left. |
| RouteSearch.ExactWins | src/server/router.ts:104-108 | The first registration of an exact path wins over every other match of the request, with no parameters. |
| RouteSearch.ExactBeats | src/server/router.ts:104-108 | An exact path is strictly before every pattern with parameters or wildcard that matches it. |
| RouteSearch.TopIsFlat | src/server/router.ts:109-112 | Without an exact hit, the best match of the whole trie is the winner of the flat list, and no match in the trie means no match in the list. |
| RouteTrie.SoundNames | src/server/router.ts:66-74 | In every reachable router, parameters registered at the same place share their name. |
| RouteTrie.OrderInvisible | src/server/router.ts:42-145 | Two routers that hold the same registrations, no two of them in one place, answer alike: for every method and path the same registration wins in both or nothing matches in both. |
| RouteTrie.AttachOk | src/server/router.ts:73-79 | Linking a fresh node below an existing one keeps the trie in step with the log. |
| RouteTrie.StoreOk | src/server/router.ts:63-82 | Storing a value only where there is none keeps in every slot the first registration of that slot. |
| RouteTrie.SoundExact | src/server/router.ts:50-55 | Adding to the exact table only what is not there keeps the first registration of every exact path. |
| RouteAdding.WalkStop | src/server/router.ts:59-82 | When the walk of `add` stops, the trie has the nodes the path calls for up to the first segment that cannot be added, and an accepted path ends at its own place. |
| RouteMeaning.NormalizeIs | src/server/router.ts:36-40 | A leading slash is put in front where there is none; unless strict, one trailing slash goes. |
| RouteMeaning.OptionalIs | src/server/router.ts:44 | A path has an optional parameter if and only if it is some base followed by `/:name?` with a name that is not empty and has no slash. |
| RouteMeaning.ExpandOptional | src/server/router.ts:44-49 | Such a path stands for what its base stands for, and then for itself without the mark. |
| RouteMeaning.ExpandOther | src/server/router.ts:42-49 | Any other path stands for itself, normalised. |
| RouteMeaning.AcceptedIs | src/server/router.ts:59-82 | A path is refused if and only if a wildcard is not its last segment or the name of a parameter is taken, and the first of these decides which error. |
| RouteAdding.LaterPathsAlike | src/server/router.ts:42-83 | After a call of `add`, accepted or rejected half-way, every later path is answered as without it if and only if the call made no parameter node that was not there. |
| RouteAdding.NoNewParamsAlike | src/server/router.ts:66-74 | New nodes that are not parameter nodes change the answer to no path. |
| RouteAdding.NewParamShows | src/server/router.ts:66-74 | For every path that makes a new parameter node there is a later path that was acceptable before and is refused for its parameter name after. |
| RouteAdding.RejectedPathLeavesName | src/server/router.ts:62-73 | An instance: after the rejected `/:x/*/b` the path `/:y`, acceptable before, is refused for its parameter name. |
| Router.Router.Add | src/server/router.ts:42-49 | One call registers the paths its optional parameters stand for, shortest first, up to the first rejection; a rejected path adds nothing to the log, so no `find` changes. |
| Router.Router.Register | src/server/router.ts:50-58 | A normalised path goes to the exact table or the trie; the log grows by it just when it is accepted, so that exactly the requests its segments fit find it. |
| Router.Router.RegisterSegments | src/server/router.ts:59-82 | The walk over the segments ends accepted, with a wildcard that is not last or with conflicting names, as the nodes there before decide. |
| Router.Router.Child | src/server/router.ts:73-79 | The child for a key exists afterwards, at its place, and nothing else changed. |
| Router.Router.Put | src/server/router.ts:63-82 | The value is recorded; an earlier value of the same slot stays. |
| Router.Router.Walk | src/server/router.ts:118-145 | Answers with the best match below the node, or none when nothing matches; parameters are exactly those of that match from this node on, untouched when there is none. |
| Router.Router.Lookup | src/server/router.ts:103-115 | For one method: the flat-list winner with exactly its parameters, or no registration matches and `params` stay. |
| Router.Router.Find | src/server/router.ts:89-98 | Without an answer nothing is registered that matches for the method, for ALL, or for GET when the method is HEAD; an answer is the winner of the method, of GET for HEAD when HEAD has no match, or of ALL when those before have none; `params` are the winner's. |
| Router.Router.Decoded | src/server/router.ts:17-24 | Skipping the decoder where there is no percent sign changes nothing; where it throws the segment stays as it is. |
| MountTree.RegisteredOnce | src/server/app.ts:480-493 | Listing the registrations of a subtree lists each of its hooks once and nothing else. |
| MountTree.OutwardOnce | src/server/app.ts:532-556 | Seen from any mounted app, every hook registration of the whole tree is listed exactly once. |
| MountTree.AwayReach | src/server/app.ts:486-492 | From a subtree away from the target exactly the hooks that keep lifting, the global ones, apply. |
| MountTree.BesideReach | src/server/app.ts:486-492 | From an app mounted beside the way to the target exactly the lifted hooks apply: its own scoped ones and all global ones. |
| MountTree.OnPathReach | src/server/app.ts:542-543 | On the way to the target everything applies but what was lifted from the next app on the way. |
| MountTree.AtTargetReach | src/server/app.ts:544-545 | At the target its own hooks and everything lifted into it apply. |
| MountTree.HooksReachRoutes | src/server/app.ts:472-557 | The hooks compiled into the routes of a mounted app are all registrations of the tree, outer levels first and then in entry order, kept by scope and address alone. |
| MountTree.AddedLast | src/server/app.ts:480-493 | Hooks come in the order in which they, or the apps they are lifted from, were added: one more entry adds its hooks behind all others. |
| MountTree.OuterFirst | src/server/app.ts:539-545 | What a route inherits comes before the hooks of the apps further in. |
| RouteTable.PathsAreRooted | src/server/app.ts:563-579 | Whatever prefixes and paths are given, every compiled path starts with a slash. |
| RouteTable.CountOfKind | src/server/app.ts:569-573 | Splitting by kind keeps every occurrence of a hook, in the list of its kind only. |
| RouteTable.OfKindKeepsOrder | src/server/app.ts:569-573 | Splitting by kind keeps the order and drops nothing but hooks of other kinds. |
| RouteTable.HookOncePerRoute | src/server/app.ts:472-573 | In a compiled route, a hook registered in one place and not local to the route is in the list of its kind exactly once if the route is in the hook's own subtree, in its parent's when scoped, or anywhere when global, zero times otherwise, and in no other list. |
| RouteTable.AllAddressesOnce | src/server/app.ts:551-555 | Every mounted app is listed exactly once by its address, and nothing else is. |
| RouteTable.VisitIsAll | src/server/app.ts:532-557 | The traversal yields the routes of every mounted app, each under the full prefix of its app and with the hooks that reach it; `RoutePrefixes` says what that prefix is. |
| RoutePrefixes.JoinPrefixIs | src/server/app.ts:563-567 | Joining a prefix appends its segments, less an empty last one. |
| RoutePrefixes.JoinPathIs | src/server/app.ts:575-579 | Joining a path appends its segments to those of the prefix; the empty path and the slash append none. |
| RoutePrefixes.CompiledSegments | src/server/app.ts:532-550 | The segments of a compiled path are those of all prefixes on the way from the root to the app, followed by those of the route. |
| RoutePrefixes.RouteMatches | src/server/app.ts:532-579 | A compiled route matches exactly the requests made of segments the prefixes on its way fit, outer ones first, followed by segments its own path fits. |
| AppCompiler.CollectSettles | src/server/app.ts:440-455 | Collecting keeps apps and keys distinct and leaves no visited app out unless an app with its key was taken. |
| AppCompiler.CollectedOnce | src/server/app.ts:440-463 | The root takes part; apps with the same key take part once; a mounted child of an included app is included unless an included app carries its key. |
| AppCompiler.MountedLast | src/server/app.ts:443-452 | Of apps with the same key the first one reached takes part: an app mounted last adds what is new below it, and nothing when its key was taken. |
| AppCompiler.IncludedTree | src/server/app.ts:509-510 | When every app object is mounted once, the included ones form a tree as well. |
| AppCompiler.RoutesLogged | src/server/app.ts:547-550 | A router filled with routes holds one registration for each path of each route, in order and nothing else; when a route is refused, a prefix of them. |
| AppCompiler.Compilation.CollectVisit | src/server/app.ts:443-452 | The loop with its set of seen keys computes the collection. |
| AppCompiler.Compilation.EffectiveHooks | src/server/app.ts:472-496 | With its cache the function returns own hooks and those lifted from included children, in entry order. |
| AppCompiler.Compilation.AddOwn | src/server/app.ts:547-550 | The routes of one app are added in order under their joined paths, up to the first refusal. |
| AppCompiler.Compilation.Visit | src/server/app.ts:532-556 | The traversal with its set of visited apps registers the routes of the whole subtree and marks exactly its apps. |
| AppCompiler.LiftInto | src/server/app.ts:486-492 | The loop appends exactly what lifts out of a child: scoped hooks of its own and all global ones. |
| AppCompiler.PassedOn | src/server/app.ts:542-543 | The loop appends the parent's hooks except those lifted from this child. |
| AppCompiler.SplitHooks | src/server/app.ts:569-573 | Pushing hook by hook yields, for each kind, the hooks of that kind in order. |
| AppCompiler.CompileRoute | src/server/app.ts:740-773 | A compiled route keeps path, method and handler, has for every kind the inherited hooks followed by the local ones, and parses a body unless its method is GET or HEAD. |
| AppCompiler.CompileApp | src/server/app.ts:508-561 | Compiling fills the router with exactly the routes of every included app, once each, with full prefix and reaching hooks; without a match the root's own and lifted hooks apply. |
| AppCache.ParentSees | src/server/app.ts:252-253 | Every app above sees a change made below it. |
| AppCache.Apps.Add | src/server/app.ts:228-233 | Adding a route changes that app only, and bumps the generation, so no compiled form counts as current any more. |
| AppCache.Apps.Use | src/server/app.ts:241-256 | Mounting appends the child and bumps the generation, unless the child is the app itself. |
| AppCache.Apps.Compile | src/server/app.ts:417-422 | The returned form, cached or not, is that of the app as it is now, wherever below it something changed: its router was filled with all routes in order; where the router refuses one the call fails and nothing is cached. |
| Lifecycle.MapsLikeFirst | src/server/app.ts:927-942 | When mapping hooks with another one after them leave `ctx.response` alone, mapping calls hooks until one answers, whichever return promises. |
| Lifecycle.PromisesInvisible | src/server/app.ts:775-991 | Which hooks and handlers return promises changes neither response nor final context nor the calls made and their order, under that proviso. |
| Lifecycle.PromiseInLife | src/server/app.ts:929-935 | The proviso is exact, hook by hook: a hook that returns nothing leaves `ctx.response` alone if and only if response and final context are the same whether it returns a promise, for every request to a server that maps with it and then with a hook that throws what it finds. |
| Lifecycle.AssigningShows | src/server/app.ts:929-935 | The same for the mapping phase alone. |
| Lifecycle.PromiseShows | src/server/app.ts:929-935 | An instance: a server whose responses differ when its first mapping hook, which assigns `ctx.response` and returns nothing, returns a promise. |
| Lifecycle.CalledInOrder | src/server/app.ts:883-893 | The hooks called are the first ones, once each and in order; all of them unless one answers or throws. |
| Lifecycle.DerivedInOrder | src/server/app.ts:853-867 | The derive hooks called are the first ones, once each and in order; all of them unless one answers with a reply or throws. |
| Lifecycle.ReplacedInOrder | src/server/app.ts:909-923 | After the handler every hook is called in order unless one throws. |
| LifeCases.FirstValueIs | src/server/app.ts:827-835 | Hooks are called in order until one returns a value or throws, and that is the outcome. |
| LifeCases.DeriveIs | src/server/app.ts:853-881 | What derive hooks return is merged into the context when it is an object; a reply or an error ends the list. |
| LifeCases.ReplaceIs | src/server/app.ts:903-925 | Hooks after the handler see the current value as `ctx.response` and replace it by what they return; an error ends the list. |
| LifeCases.ObserveIs | src/server/app.ts:944-954 | Hooks after the response are all called, whatever they return or throw. |
| LifeCases.RecoverIs | src/server/app.ts:963-991 | Error hooks that do not accept the error are passed over; the first that does answers with its value or a reply it throws, hands on an error it throws, and else lets the next go on; without one there is the fallback. |
| LifeCases.RecoverCalls | src/server/app.ts:963-991 | Error hooks are the only ones called while an error is handled. |
| LifeCases.BeforeRouting | src/server/app.ts:825-838 | The value of a request hook is the response; its error, or that of a request no route was found for, goes to the error hooks of the root; the root's hooks after the response follow. |
| LifeCases.BodyRejected | src/server/app.ts:842-850 | A body that cannot be read goes to the error hooks of the route; no derive hook, validation or handler is called. |
| LifeCases.DerivingEnds | src/server/app.ts:853-867 | A reply of a derive hook goes to the hooks after the handler, its error to the error hooks of the route. |
| LifeCases.InvalidStops | src/server/app.ts:868-872 | What does not validate goes to the error hooks of the route; no hook before or after the handler, no mapping hook and not the handler is called. |
| LifeCases.PreparingEnds | src/server/app.ts:883-893 | The value of a hook before the handler takes the place of the handler's, which is not called; its error goes to the error hooks. |
| LifeCases.HandlerEnds | src/server/app.ts:894-900 | Without one the static value, or what the handler returns, goes to the hooks after it and then to the mapping hooks; an error goes to the error hooks. |
| Pipeline.Invoke | src/server/app.ts:828-834 | A call that returns at once is the whole call of the reference; a promise leaves the hook started. |
| Pipeline.MapPhase | src/server/app.ts:927-942 | From any index the result, at once or when its promise settles, is that of mapping in sequence. |
| Pipeline.AfterPhase | src/server/app.ts:903-925 | From any index the result, at once or when its promise settles, is that of running the hooks after the handler in sequence and then mapping. |
| Pipeline.BeforePhase | src/server/app.ts:883-893 | From any index the result, at once or later, is that of running the hooks before the handler in sequence and then the handler, unless one answers. |
| Pipeline.HandlerPhase | src/server/app.ts:894-900 | The result, at once or later, is that of the static value or the handler and what follows it. |
| Pipeline.TransformPhase | src/server/app.ts:853-873 | From any index the result, at once or later, is that of running the derive hooks in sequence, merging what they return, then validating, unless one replies. |
| Pipeline.RequestPhase | src/server/app.ts:825-835 | From any index the result, at once or later, is that of running the request hooks in sequence and then routing, unless one answers. |
| Pipeline.RoutePhase | src/server/app.ts:836-850 | No route is an error; with a body to read the pipeline suspends; else it goes on. |
| Pipeline.Resume | src/server/app.ts:829-833 | Settling a promise goes on as the sequential reference does, and leaves a later phase or fewer hooks, so the pipeline ends. |
| Pipeline.Continue | src/server/app.ts:853-942 | Each continuation carries the settled value on as its phase would. |
| Pipeline.ErrorPhase | src/server/app.ts:963-991 | From any index the error loop, at once or when a promise settles or rejects, gives the recovery of the sequential reference. |
| Pipeline.Fail | src/server/app.ts:813-815 | An error is handled by the hooks of the matched route, or of the root without one, to a response. |
| Pipeline.RunAfterResponse | src/server/app.ts:944-954 | Every hook after the response is called in order and its errors are dropped. |
| Pipeline.Serve | src/server/app.ts:797-823 | Response, final context and calls in order of every run are those of the sequential life of the request. |
| TokenBucket.TokensInRange | src/security/rate-limit.ts:127-155 | Tokens stay between zero and `burst`. |
| TokenBucket.TokensAccounted | src/security/rate-limit.ts:141-155 | Over any calls, whatever the clock reads, tokens left plus calls allowed never exceed tokens at first plus what accrued. |
| TokenBucket.RateBound | src/security/rate-limit.ts:97-155 | In any span of time at most `burst + limit * span / windowMs` calls are allowed. |
| TokenBucket.ReadyExactly | src/security/rate-limit.ts:141-165 | With less than one token a later call is allowed if and only if the instant of the next token has come; a denied one leaves that instant as it is and reports it. |
| TokenBucket.ResetIsExact | src/security/rate-limit.ts:152-165 | After a denial every call before `resetMs` is denied and reports the same `resetMs`, however many there are, and a call is allowed if and only if it comes at or after it. |
| TokenBucket.RemainingIsExact | src/security/rate-limit.ts:152-157 | So many further calls at the same instant as `remaining` says are allowed, and no more. |
| TokenBucket.CallExactly | src/security/rate-limit.ts:121-166 | One call, in full: what it finds is the old tokens plus what accrued, up to `burst`; it is allowed just when that is at least one token and takes one; limit, remaining and, for an allowed call, `resetMs` equal to now are as reported. |
| TokenBucket.BurstAtOnce | src/security/rate-limit.ts:125-127 | A new key gets as many calls at once as whole tokens fit `burst`, and no more. |
| TokenBucket.SmallBurstNeverOpens | src/security/rate-limit.ts:152-163 | With `burst` below one no call is ever allowed. |
| RateLimit.BehindIsOthers | src/security/rate-limit.ts:137-139 | The keys behind a key are the other keys used since its last call. |
| RateLimit.TouchedIsNewest | src/security/rate-limit.ts:127-139 | Deleting and setting again, with eviction of the first entry, keeps the map at the most recently used keys up to the cap. |
| RateLimit.CappedIsRecent | src/security/rate-limit.ts:93-150 | In every run the bucket of a key is that of a store without cap fed the calls since the key last lost its bucket. |
| RateLimit.HasBucket | src/security/rate-limit.ts:127-136 | A key has a bucket if and only if fewer than the cap of other keys came since its last use. |
| RateLimit.InMap | src/security/rate-limit.ts:127-139 | The map holds exactly the keys that have a bucket. |
| RateLimit.SoundUse | src/security/rate-limit.ts:121-166 | Every call keeps keys, order and buckets of the map those the log determines. |
| RateRuns.KeptUpExactly | src/security/rate-limit.ts:93-150 | For every run: the bucket of a key is at all moments that of a store without cap if and only if fewer than the cap of other keys came between any two of its calls and after its last one. |
| RateRuns.LostBucketShows | src/security/rate-limit.ts:121-166 | A lost bucket is never equivalent to a kept one: at every time some policy decides the next call differently. |
| RateRuns.KeptUpDecides | src/security/rate-limit.ts:121-166 | For every run: at all moments every next call of a key, whatever its policy and time, would be decided as by a store without cap, if and only if the same holds of the other keys. |
| RateRuns.LastGapIsNotEnough | src/security/rate-limit.ts:128-135 | For every cap: that few other keys came since the last call of a key is not enough; two calls, as many other keys as the cap, and another call leave a bucket that decides differently. |
| RateRuns.LastGapInTheStore | src/security/rate-limit.ts:93-135 | Such a run with the cap of 10000 keys that the store has. |
| RateRuns.StoreRate | src/security/rate-limit.ts:121-166 | In any part of a run of the store in which a key keeps its bucket and has one policy, its allowed calls within a span of time are at most `burst + limit * span / windowMs`. |
| RateLimit.InMemoryTokenBucketStore.Fetch | src/security/rate-limit.ts:125-150 | The call finds a full bucket for a new key, else the refilled one, and its key is moved to the end; a full map gives up its first entry for a new key. |
| RateLimit.InMemoryTokenBucketStore.Consume | src/security/rate-limit.ts:121-166 | The decision is that of the capped bucket, the map never exceeds the cap, and what is evicted is the least recently used key, for a new one. |
| JsonReader.StringRoundTrip | src/schema/fast-stringify.ts:78 | Every string of code units, lone surrogates included, is read back from its escaped text. |
| JsonReader.RoundTrip | src/schema/fast-stringify.ts:24 | Reading the standard text of a value gives the value back and leaves what follows. |
| JsonReader.PrintInjective | src/schema/fast-stringify.ts:24 | Different values have different text. |
| Json.EmptyText | src/schema/fast-stringify.ts:24 | The standard text of null, true, false, and of the empty array and object. |
| Json.ArrayText | src/schema/fast-stringify.ts:24 | One more element goes before the closing bracket, behind a comma unless it is the first. |
| Json.ObjectText | src/schema/fast-stringify.ts:24 | One more member goes before the closing brace, its quoted key and a colon in front. |
| Json.ShortEscapes | src/schema/fast-stringify.ts:24 | Quote, backslash and five control characters have escapes of their own. |
| Json.EscapeIs | src/schema/fast-stringify.ts:24 | Other control characters and lone surrogates are written with four lower-case hex digits, any other code unit as it is. |
| Json.EscapeStep | src/schema/fast-stringify.ts:24 | A string is written unit by unit, surrogate pairs as they are. |
| Json.NotFiniteIsNull | src/schema/fast-stringify.ts:82-84 | A number that is not finite prints as null. |
| EmittedCode.SafeNeedsNoEscape | src/schema/fast-stringify.ts:46-57 | A string the safety function accepts needs no escaping. |
| Stringifier.PrintsArray | src/schema/fast-stringify.ts:86-97 | For a conforming array the emitted code yields standard text, or longer or no text where something inherited shows. |
| Stringifier.LoopPrints | src/schema/fast-stringify.ts:96 | From any iteration on, the loop writes the remaining elements with a comma before all but the first, unless something inherited shows. |
| Stringifier.PrintsObject | src/schema/fast-stringify.ts:98-126 | For a conforming object the emitted code yields standard text with declared keys in order, or longer or no text where something inherited shows. |
| Stringifier.PropsPrint | src/schema/fast-stringify.ts:109-123 | After the code for the first properties the text of their members is written, and `__first` says whether any was. |
| Stringifier.PrintsStandardText | src/schema/fast-stringify.ts:69-135 | At every node, for every conforming value: the emitted code evaluates to standard text if no absent optional property has an inherited name, and to no or longer text otherwise. |
| SchemaValues.ArrangeSame | src/schema/fast-stringify.ts:102-123 | Printing keys in order of declaration only moves keys: the value is the same up to their order. |
| SchemaValues.ArrangedInOrder | src/schema/fast-stringify.ts:111-123 | The keys of an arranged object come in the order of declaration. |
| SchemaValues.ObjectConforms | src/schema/fast-stringify.ts:98-114 | An object conforms if and only if its keys are all declared, the values there conform, and what is absent is not required or is marked as optional. |
| Stringifier.StringifiesConforming | src/schema/fast-stringify.ts:26-158 | For a conforming value the output is its standard text, keys in order of declaration, if and only if no absent optional property has an inherited name; reading it then gives the value back. |
| Stringifier.InheritedNameShows | src/schema/fast-stringify.ts:113-119 | For an optional string property with the name of any method of `Object.prototype`, or `__proto__`, the empty object is not printed as `{}`. |
| Stringifier.NullForObject | src/schema/fast-stringify.ts:109 | Where an object with properties is expected, null and undefined print as null. |
| Stringifier.NullForNotFinite | src/schema/fast-stringify.ts:81-84 | Where a number is expected, one that is not finite prints as null. |
| Stringifier.BracesForAnything | src/schema/fast-stringify.ts:103-105 | An object schema without properties prints braces for anything, which is right for the empty object only. |
| EmittedCode.TestAsciiSafe | src/schema/fast-stringify.ts:51-57 | The loop answers true exactly for printable ASCII without quote and backslash. |
| Stringifier.Compiler.BuildExpr | src/schema/fast-stringify.ts:69-135 | With its counter and helper list the generator builds the code the compiler function describes. |
| Stringifier.CompileStringifier | src/schema/fast-stringify.ts:26-158 | The compiled function is that code, with the safety function as first helper. |
| Batch.AllAccounted | src/mq/registry.ts:348-349 | Waiting, queued, completed and failed jobs make up the total; completed and failed alone do exactly when no job is unfinished. |
| Batch.FinishInv | src/mq/registry.ts:347-366 | Counting a final event fires the barrier just when it was the last unfinished job. |
| Batch.NextInv | src/mq/batch.ts:69-169 | Every step of every interleaving keeps the invariant, and the store entry is there when a listener needs it. |
| Batch.Barrier | src/mq/batch.ts:142-169 | At every moment of every run: counters and unfinished jobs make up the total; at most one firing; nothing is sent while a job is unfinished; `then` is sent only if asked for and no job failed, `catch` only if asked for and one did, `finally` only if asked for and last, none twice; and when nothing is left to do these are if-and-only-ifs and no entry is stored. |
| Batch.AddOnlyInFlight | src/mq/batch.ts:125-139 | At every moment of every run: in all runs that go on after adding jobs, nothing is sent and no firing begins while a job is unfinished, if and only if a job was unfinished when they were added. |
| Batch.LateJobsOvertaken | src/mq/batch.ts:125-169 | Jobs added when none is unfinished are overtaken: a run sends all callbacks before any of them is enqueued. |
| Batch.Progress | src/mq/batch.ts:91-97 | Every step of the system except adding jobs and cancelling comes closer to the end, so the barrier fires in every run that goes on. |
| BatchStore.MemoryBatchStore.Dispatch | src/mq/batch.ts:83-97 | The entry is stored before all jobs are enqueued in order with the batch's id; only an empty batch fires. |
| BatchStore.MemoryBatchStore.EnqueueAll | src/mq/batch.ts:91-97 | The loop enqueues all jobs in order, each with the id of the batch. |
| BatchStore.MemoryBatchStore.AddMore | src/mq/batch.ts:129-139 | The stored part changes as the step of the batch system says, and the jobs are enqueued. |
| BatchStore.MemoryBatchStore.OnFinal | src/mq/registry.ts:342-367 | The listener takes the step of the batch system and fires, with the number of failures, just when that step does. |
| BatchStore.MemoryBatchStore.Fire | src/mq/batch.ts:148-169 | The entry is removed, and `then` is sent when asked for and no job failed, `catch` when asked for and one did, and behind them `finally` when asked for. |
| BatchStore.FireIsFourSteps | src/mq/batch.ts:148-169 | Four steps of one firing with nothing in between are one run of the callback function. |
| Chain.StepTells | src/mq/registry.ts:276-318 | Every step of the live job's listener, with either store, keeps store, dispatched steps and outcomes in step. |
| Chain.TakenInOrder | src/mq/chain-store.ts:15-75 | The remaining steps come out one by one in order, the handler stays as long as anything is stored, and the entry goes with its last step when there is no handler. |
| Chain.Sequential | src/mq/registry.ts:268-320 | At every moment of every run: at most one job in flight, the dispatched steps are the first ones in order and one more than succeeded, at most one failed; at the end no entry is stored and the handler was dispatched once iff there is one and a step failed. |
| Chain.FailureIsFinal | src/mq/chain.ts:31-35 | After a final failure no later step is ever dispatched. |
| Chain.StepAgrees | src/mq/chain-store.ts:15-75 | Every step with the store that reads and writes back is either the read, which changes nothing the atomic store would show, or the same step of the atomic store. |
| Chain.StoresAgree | src/mq/chain-store.ts:15-75 | The runs with the atomic store are exactly the runs with the other one, told without the read between reading and writing back. |
| Chain.OutcomesDecide | src/mq/chain-store.ts:15-75 | What a finished chain has dispatched depends on the outcomes of its jobs alone, whichever the store. |
| Chain.Progress | src/mq/registry.ts:275-320 | Every step of the live job comes closer to the end. |
| ChainStore.MemoryChainStore.Next | src/mq/chain-store.ts:22-28 | Takes the first remaining step off the abstract queue; the entry goes when nothing could use it. |
| ChainStore.KeysDiffer | src/mq/chain-store.ts:42-44 | Different chains have different keys. |
| ChainStore.RedisChainStore.Save | src/mq/chain-store.ts:46-49 | The entry read back from the serialised text is the saved one; other chains stay. |
| ChainStore.RedisChainStore.Next | src/mq/chain-store.ts:51-63 | Takes the first remaining step off the abstract queue, writing the shorter entry back or deleting it when nothing could use it. |
| ChainStore.ChainBuilder.Dispatch | src/mq/chain.ts:44-69 | With either store: nothing for no step; one step goes out alone and unstored; a longer chain is saved without its first step before that goes out with the chain's id and index zero. |
| ChainStore.OnCompleted | src/mq/registry.ts:276-293 | With either store, takes the steps of the chain system: the next step goes out with the next index, or the entry is removed. |
| ChainStore.OnFailed | src/mq/registry.ts:295-319 | With either store, takes the steps of the chain system: the entry is removed and the handler goes out, outside the chain. |
| Dependencies.ContextualIs | src/core/container.ts:456-470 | On an acyclic graph a token is contextual iff it is a context token, request-scoped or follows a contextual one. |
| Dependencies.ScopeIs | src/core/container.ts:39-54 | A provider's own scope counts; without one a class or alias provider has the scope of its target's class, any other the default scope. |
| Dependencies.ResolvedIs | src/core/container.ts:297-405 | A class is made of its declared dependencies, a factory of those it lists, an alias or a class provider of another class of its target, a value of nothing. |
| Dependencies.PathShows | src/core/container.ts:440-494 | A dependency path to request state makes a token contextual. |
| Dependencies.PathExists | src/core/container.ts:440-494 | A contextual token has such a path. |
| Dependencies.StaticIsUnreachable | src/core/container.ts:203-220 | A token is static iff it has default scope and no dependency path leads to a context token or a request-scoped one. |
| Dependencies.AnalysisIsRight | src/core/container.ts:378-494 | On every acyclic graph the analysis is right about all tokens, that is, a token is contextual iff resolving it needs a request, if and only if for every class or alias provider that hands on to another token and is not contextual by itself, the target is contextual just when a dependency of its class is. |
| Dependencies.StaticIsFree | src/core/container.ts:203-220 | On such a graph a token is static iff it has default scope and resolving it needs no request. |
| Dependencies.UnboundTargetIsJudged | src/core/container.ts:473-479 | A target that is not bound itself meets the condition unless it is a context token or a request scope of its class is lost. |
| Dependencies.ValueTargetIsJudged | src/core/container.ts:473-479 | A target bound to a value meets the condition unless its own class has a contextual dependency. |
| Dependencies.MissedTarget | src/core/container.ts:203-220 | A contextual target whose class has no contextual dependency is missed: the token counts as static though resolving it needs a request. |
| Dependencies.NarrowedScopeIsMissed | src/core/container.ts:49-54 | An instance: a class provider with default scope over a request-scoped class. |
| Dependencies.ReboundTargetIsMissed | src/core/container.ts:477-479 | An instance: an alias whose target is bound to a factory that takes the request. |
| Container.Container.ClassHasContextualDeps | src/core/container.ts:440-471 | With its shared set of seen classes the search answers exactly whether a dependency of the class is contextual. |
| Container.Container.DependencyIsContextual | src/core/container.ts:456-470 | The search answers exactly whether one dependency is, by its provider or its class, a context token, request-scoped or has a contextual dependency. |
| Container.Container.ProviderHasContextualDeps | src/core/container.ts:473-494 | The search answers exactly whether something the analysis follows from a provider is contextual. |
| Container.Container.IsStatic | src/core/container.ts:203-220 | The cached answer if there is one, else the exact one, which is cached. |
| Container.Container.CheckStatic | src/core/container.ts:203-220 | Asking during a resolution replaces no cached answer, and on a graph fixed before the first check the answer is exact. |
| Resolution.OthersKept | src/core/container.ts:407-430 | Resolving for one request leaves keys and kept instances of all other requests as they were, and different requests have different keys. |
| Resolution.AnswersGrow | src/core/container.ts:222-405 | A value that stands for a token goes on standing for it while more is kept. |
| Resolution.IsNew | src/core/container.ts:378-405 | What a token answers for which nothing was kept: a bound value itself, for an alias or a class provider of another class what stands for the target, for a class or factory a new object made of what stands for each of its dependencies, in order, with the token as the inquirer. |
| Container.Container.GetResolutionContextId | src/core/container.ts:416-430 | A request gets a key on first use that no other request has, and keeps it. |
| Container.Container.Resolve | src/core/container.ts:222-295 | The request and the inquirer are those of the context; a token for which nothing is kept gives its bound value, what its target gives, or a new object made of what its dependencies give; cached instances are returned and never replaced; what is new is kept as the scope says; a request-scoped token is refused without a request, and none with one; on a graph that is fixed before the first check and whose targets the analysis judges rightly, singletons never carry request state and a token that needs no request is never refused for lack of one. |
| Container.Container.ResolveClass | src/core/container.ts:249-294 | For a class without provider or instance: nothing cached is replaced, a request-scoped one is refused without a request, and on such a graph singletons stay clean and what needs no request is not refused for lack of one. |
| Container.Container.ResolveProvider | src/core/container.ts:327-376 | For a bound token: a kept singleton is returned, nothing cached is replaced, a request-scoped one is refused without a request, and on such a graph singletons stay clean. |
| Container.Container.ByAnalysis | src/core/container.ts:352-375 | For a default-scope token: a kept singleton is returned, nothing cached is replaced, and on such a graph singletons stay clean and what needs no request is not refused for lack of one. |
| Container.Container.Singleton | src/core/container.ts:369-375 | A static token keeps the one instance made on first use and returns it from then on; it is clean on such a graph. |
| Container.Container.InContext | src/core/container.ts:331-346 | Without a request the token is refused; the instance of a request is kept and returned again for it, and those of other requests stay; singletons stay clean. |
| Container.Container.ForRequest | src/core/container.ts:335-346 | The instance kept for the request is returned, else one is made and kept for it; what a class or factory makes then counts as request state. |
| Container.Container.Create | src/core/container.ts:378-405 | For a bound value that very value, for an alias or a class provider of another class what resolving the target gives, for a class or factory a new object made of its resolved dependencies; nothing cached is replaced; for a token that needs no request the result carries no request state and is not refused for lack of one. |
| Container.Container.Instantiate | src/core/container.ts:297-325 | A new object of the class made of what its dependencies resolve to; nothing cached is replaced, the resolution stack is as before, and what needs no request carries no request state and is not refused for lack of one. |
| Container.Container.Call | src/core/container.ts:312-321 | A new object, with an identity not used before, made of the resolved parameters in order; nothing cached is replaced, and what needs no request carries no request state and is not refused for lack of one. |
| Container.Container.ResolveAll | src/core/container.ts:312-319 | The parameters are resolved in order, with the token as the inquirer, up to the first that has no value. |
| Container.Container.Get | src/core/container.ts:164-185 | A hit in the fast table is the very object full resolution would return in that state; a token without an instance gives its bound value, what its target gives or a new object; a static result is promoted to the fast table, which keeps it so. |
| Container.Container.AddProvider | src/core/container.ts:123-127 | Binding a token drops its cached answer and fast entry. |
| Container.Container.Promote | src/core/container.ts:142-161 | A token that has an instance is promoted just when it is static, and every fast entry stays what full resolution would return. |
| Container.Container.PrimeFastTable | src/core/container.ts:140-162 | Every static token with an instance is in the table afterwards, and every entry is what full resolution would return as long as no provider claims a special token. |
| PluginRounds.RoundIsLongestChain | src/core/techne-application.ts:519-543 | A plugin is registered in one round only, the length of its longest chain of dependencies, strictly after all of them. |
| PluginRounds.LeftOverIffCycle | src/core/techne-application.ts:545-552 | A plugin is left over if and only if a dependency cycle is reachable from it. |
| PluginRounds.ChainsAreShort | src/core/techne-application.ts:528-543 | No chain of dependencies is longer than the round of its last plugin. |
| PluginRounds.ChainExists | src/core/techne-application.ts:528-543 | A chain of dependencies of exactly the length of its round ends at every registered plugin. |
| PluginRounds.NoCycleBelow | src/core/techne-application.ts:545-551 | A plugin that got its turn leads into no dependency cycle. |
| PluginRounds.StuckReachesCycle | src/core/techne-application.ts:545-551 | A plugin that never gets its turn leads into a dependency cycle. |
| PluginOrder.NextIsRound | src/core/techne-application.ts:531-542 | The plugins whose counts reached zero during a round are the next round. |
| PluginOrder.PendingIs | src/core/techne-application.ts:491-494 | Every plugin of the queue is pending with its dependencies and its setup function, and no other is. |
| PluginOrder.IndexOne | src/core/techne-application.ts:502-517 | A plugin's pending dependencies are counted and listed in reverse; when asked for, its first unknown one is reported. |
| PluginOrder.Index | src/core/techne-application.ts:490-517 | The tables of the whole queue, or the first unknown dependency of the first plugin that has one; when asked for, none goes unnoticed. |
| PluginOrder.Release | src/core/techne-application.ts:532-540 | Counting down one registered plugin's dependents keeps counts and readiness right. |
| PluginOrder.ReleaseLayer | src/factory/techne-factory.ts:556-567 | After a whole layer the names collected are the next round. |
| PluginOrder.Register | src/core/techne-application.ts:391-444 | A plugin registered before is skipped, or refused when its setup function is another; else all dependencies must be registered, or the first missing one is reported. |
| PluginOrder.RegisterLayer | src/core/techne-application.ts:529 | All plugins of a layer are registered, or one that was ready fails for what the registry held at first. |
| PluginOrder.Layers | src/core/techne-application.ts:527-543 | Rounds are registered until none is ready: the loop ends, and counts what it registered. |
| PluginOrder.StuckNames | src/core/techne-application.ts:547-550 | The names reported are those with dependencies still missing, each once. |
| PluginOrder.Flush | src/core/techne-application.ts:486-553 | Either all are registered, with their setup functions and in the rounds of their longest chains, or the first unknown dependency, a missing one or a taken name is reported, or exactly the plugins that lead into a cycle are named. |
| EditDistance.Symmetric | src/console/console-registry.ts:75-90 | The distance is symmetric. |
| EditDistance.Zero | src/console/console-registry.ts:75-90 | It is zero between equal names only. |
| EditDistance.Triangle | src/console/console-registry.ts:75-90 | It satisfies the triangle inequality. |
| EditDistance.NoShorterScript | src/console/console-registry.ts:83-86 | No sequence of single-character edits is shorter than the distance, so taking the diagonal on a match loses nothing. |
| EditDistance.ScriptExists | src/console/console-registry.ts:83-86 | One of exactly that length exists. |
| EditDistance.DistanceIsFewestEdits | src/console/console-registry.ts:75-90 | The distance is the fewest insertions, deletions and substitutions. |
| EditDistance.Levenshtein | src/console/console-registry.ts:75-90 | The last cell of the table is the distance. |
| Suggestions.Place | src/console/console-registry.ts:70 | Sorting by distance keeps equally close names in registration order. |
| Suggestions.Suggest | src/console/console-registry.ts:65-72 | At most `max` names, all within distance three, closest first, and a name within three is left out only for a full list of names before it. |
| Suggestions.ClosestUnique | src/console/console-registry.ts:65-72 | There is only one list of suggestions with these properties. |
| Suggestions.ExactComesFirst | src/console/console-registry.ts:65-72 | A registered name is its own first suggestion. |
| UriComponent.RoundTrip | src/server/cookie.ts:53 | Decoding gives back every encoded string. |
| UriComponent.EncodedIsSafe | src/server/cookie.ts:91 | Encoded text has only unreserved characters and percent signs. |
| UriComponent.EncodeIs | src/server/cookie.ts:91 | Letters, digits and nine marks stay as they are and no other character does; these become one to four bytes, each a percent sign and two upper-case hex digits. |
| CookieText.ParseCookieHeader | src/server/cookie.ts:39-61 | The loop yields, for each key, the value of its first pair: trimmed, unquoted and decoded where possible. |
| CookieText.PairMeans | src/server/cookie.ts:42-60 | A piece with `=` gives the text before the first one, trimmed, as its name if that is not empty, and the text behind it, trimmed, without quotes and decoded where possible, as its value. |
| CookieText.SpaceIs | src/server/cookie.ts:45 | Trimming takes away exactly the white space and line ends of JavaScript. |
| CookieText.TimingSafeEqual | src/server/cookie.ts:84-88 | Accumulating the differences of all characters answers whether the texts are equal. |
| CookieText.UnsignCookie | src/server/cookie.ts:72-82 | The value in front of the last dot when the rest is its signature by a listed secret, else nothing. |
| CookieText.SplitsAtLastDot | src/server/cookie.ts:67-76 | A signed value splits at its last dot into value and signature. |
| CookieText.UnsignedIff | src/server/cookie.ts:67-82 | A text is accepted with a value if and only if that value is not empty and one of the secrets signed it. |
| CookieText.HeaderSplits | src/server/cookie.ts:42 | A `Cookie` header (section 4.2.1 of RFC 6265) splits at semicolons into its pairs. |
| CookieText.FirstWins | src/server/cookie.ts:45-46 | The first pair with a name decides its value. |
| CookieText.ReadBack | src/server/cookie.ts:39-61 | A percent-encoded value sent among other cookies with other names is read unchanged. |
| RequestCookies.KeepsPair | src/server/cookie.ts:90-103 | Whatever the attributes, the part up to the first semicolon is the name and the encoded value. |
| RequestCookies.ListsExactly | src/server/cookie.ts:90-103 | An attribute is among the parts behind the pair, with its text, if and only if it is set; so `HttpOnly` and `Secure` are there just when asked for. |
| RequestCookies.Capitalized | src/server/cookie.ts:105 | A word is written with its first letter as a capital and the others as small ones, nothing else changed. |
| RequestCookies.RemovedExpires | src/server/cookie.ts:188-193 | A removed cookie lists an expiry at the start of 1970 and `Max-Age=0`, whatever it had before. |
| RequestCookies.SignedIs | src/server/cookie.ts:143-152 | A name is signed if and only if there is a secret and all names are signed or it is listed. |
| RequestCookies.RequestCookies.GetState | src/server/cookie.ts:154-166 | The state left before, or the incoming value, checked when signed; a bad signature is refused and nothing kept. |
| RequestCookies.RequestCookies.Set | src/server/cookie.ts:174-187 | The cookie is written: the value if one is given, the attributes given, the others as they were. |
| RequestCookies.RequestCookies.Remove | src/server/cookie.ts:188-193 | The cookie is written with an empty value and expires at once; its other attributes stay. |
| RequestCookies.RequestCookies.SetCookieHeaders | src/server/cookie.ts:238-247 | One header per written cookie, in the order of first access, signed with the first secret unless empty. |
| RequestCookies.HeadersAre | src/server/cookie.ts:238-247 | The headers are those of the written cookies and no others. |
| RequestCookies.HeadersInOrder | src/server/cookie.ts:238-247 | They come in the order in which the cookies were first touched. |
| RequestCookies.ComesBack | src/server/cookie.ts:39-247 | A written cookie sent back among others with other names is read unchanged: any value when unsigned, exactly the non-empty ones when signed, as long as the signing secret is still listed. |
| Pool.NextInv | src/http/pool.ts:186-190 | Every settling of a thunk and every turn of a worker keeps all descriptors accounted for. |
| Pool.Bounded | src/http/pool.ts:170-192 | In every interleaving: there are as many workers as a positive bound allows, else one for each descriptor, and none stops while a descriptor is left; descriptors start in order and once each, no more run than the bound allows, every result is that of its descriptor, and all are there at the end when none was rejected. |
| Pool.Progress | src/http/pool.ts:187-189 | Every step comes closer to the end. |
| Pool.NameResults | src/http/pool.ts:194-197 | The loop enters the result of each named descriptor in order. |
| Pool.NamedIs | src/http/pool.ts:194-197 | A name stands for the result of the last descriptor that has it, and there are no other names. |

## Left out

Router:

- Trie nodes are values in one list and refer to each other by index; the source has an object per node.
- `decodeURIComponent` is any function that may fail; route values are never `undefined`; the parameter name
  `__proto__`, which an ordinary record treats specially, is not modelled; `parseQuery`.

Apps and pipeline:

- One app object mounted under two parents, and cyclic mounts, where lifting repeats or does not end.
- `AppCache.Apps`: the apps of one tree are one value with addresses, so an app shared by two roots is not covered.
- Decorations, the shared store, `listen`, cleanups, static values turned into prebuilt responses.
- Hooks and handlers are functions of the context: what a call does when called, and what it does until its result
  is there. What other requests do to shared state in between is not modelled. Reading the body, validation and
  `toResponse` are total functions.

Rate limit:

- Numbers are exact reals; policies have positive `limit` and `windowMs` and `burst` of at least zero; the key
  extractor, headers and proxy handling.

Stringifier:

- Values that do not conform to the schema, `Record` and open object schemas, `toJSON`, and objects without
  `Object.prototype`. Where an inherited property lands in code for an array or object the evaluator gives no text:
  the real code prints something or throws, in any case not the standard text.
- Emitted code is syntax, not text handed to `new Function`; the text of a finite number is given; the cache by
  schema identity.

Job queue:

- Every job has exactly one final event; jobs that call `release()`; drivers, retries and locks; a dispatch that
  fails.
- `addJobs` after the last job ended (`Batch.AddOnlyInFlight` says why); the flag set by `cancel` has no reader.
- Chain: a one-step chain does not store its handler (`ChainStore.ChainBuilder.Dispatch` keeps that).

Container:

- What a class or factory computes: a value it makes is known by its maker, its parts and a fresh identity.
- Dependency graphs have a ranking, so cycles and the circular-dependency error, which an acyclic graph never
  reaches, are out; constructors and factories do not throw; `clearContext`, `has` and `ModuleRef` itself.

Plugins, suggestions, cookies, pools:

- Names in one queue are distinct; setups succeed; peers of a failing plugin that `Promise.all` starts all the same;
  the factory's shortcut for a phase without dependencies, which registers in order.
- Registering, finding and listing commands; a negative `max`.
- Strings are sequences of Unicode scalar values, so lone surrogates are out; the signature is any function whose
  text has no dot; case mapping is that of ASCII; numbers and dates of attributes are given as text; the proxy of
  the jar.
- The progress callback of a pool, and copying names onto the result array, where a name such as `length` or `0`
  clashes with the array itself.

Decorators, metadata, the command line, generators, logging, telemetry, OpenAPI, client code and configuration are
not part of this model.
