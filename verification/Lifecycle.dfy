/**
 * The life of one request, told in sequence: every hook is called and finishes before the next
 * step. This is the reference for the pipeline that suspends at hooks returning promises; which
 * calls return one (`later`, by the number of calls before) matters only to the mapping phase.
 */
module Lifecycle {
  import opened Text

  /** JavaScript values as far as the pipeline tells them apart. */
  datatype Value =
    | Undefined
    | Plain(content: nat)
    | Fields(content: nat)
    | StatusResult(content: nat)
    | Response(content: nat)

  predicate IsReply(v: Value) {
    v.StatusResult? || v.Response?
  }

  /** The part of the context hooks read and write; `world` is everything but the two named fields. */
  datatype View<W> = View(world: W, response: Value, error: Value)

  datatype Outcome = Return(value: Value) | Throw(error: Value)

  datatype Step<W> = Step(view: View<W>, outcome: Outcome)

  /**
   * A hook or handler: what it does when called, and what it does until its result is there.
   * A synchronous one does both at once. `accepts` is the class filter of error hooks.
   */
  datatype Hook<!W> = Hook(id: nat, start: View<W> -> View<W>, finish: View<W> -> Step<W>, accepts: Value -> bool)

  datatype Handler<!W> = Run(hook: Hook<W>) | Static(value: Value)

  datatype Route<!W> = Route(
    transform: seq<Hook<W>>,
    beforeHandle: seq<Hook<W>>,
    handler: Handler<W>,
    afterHandle: seq<Hook<W>>,
    mapResponse: seq<Hook<W>>,
    error: seq<Hook<W>>,
    afterResponse: seq<Hook<W>>,
    /** Reads the body when there is one to read; the error when that fails. */
    body: W -> Option<(W, Option<Value>)>,
    /** Validates and converts params, query, headers and body; the error when that fails. */
    check: W -> (W, Option<Value>))

  datatype Server<!W> = Server(
    request: seq<Hook<W>>,
    error: seq<Hook<W>>,
    afterResponse: seq<Hook<W>>,
    find: W -> Option<(W, Route<W>)>,
    notFound: Value,
    /** `Object.assign(ctx, value)`. */
    assign: (View<W>, Value) -> View<W>,
    /** `toResponse`: the response and the context after it. */
    respond: (Value, W) -> (nat, W),
    /** `set.status` from an error, and from the final response. */
    failed: (W, Value) -> W,
    sealed: (W, nat) -> W,
    fallback: (Value, W) -> (nat, W))

  /** The context with the matched route and the ids of the hooks called so far. */
  datatype Ctx<!W> = Ctx(view: View<W>, route: Option<Route<W>>, trace: seq<nat>)

  function Call<W>(h: Hook<W>, c: Ctx<W>): (Ctx<W>, Outcome) {
    var step := h.finish(h.start(c.view));
    (c.(view := step.view, trace := c.trace + [h.id]), step.outcome)
  }

  function WithResponse<W>(c: Ctx<W>, value: Value): Ctx<W> {
    c.(view := c.view.(response := value))
  }

  // ------------------------------------------------------------------ running hooks in order

  datatype Ended<!W> = Ended(ctx: Ctx<W>, outcome: Outcome)

  /** Calls hooks until one returns a value or throws. */
  function FirstValue<W>(hooks: seq<Hook<W>>, c: Ctx<W>): Ended<W> {
    if hooks == [] then Ended(c, Return(Undefined))
    else
      var (after, outcome) := Call(hooks[0], c);
      if outcome == Return(Undefined) then FirstValue(hooks[1..], after) else Ended(after, outcome)
  }

  /**
   * `FirstValue` for the mapping phase. Here alone a promise shows: after a call that returned
   * one, `later` says which, `ctx.response` is set again for the hooks that follow.
   */
  function FirstMapped<W>(hooks: seq<Hook<W>>, c: Ctx<W>, value: Value, later: nat -> bool): Ended<W> {
    if hooks == [] then Ended(c, Return(Undefined))
    else
      var (after, outcome) := Call(hooks[0], c);
      if outcome == Return(Undefined)
      then
        var passed := if later(|c.trace|) && |hooks| > 1 then WithResponse(after, value) else after;
        FirstMapped(hooks[1..], passed, value, later)
      else Ended(after, outcome)
  }

  /** Calls hooks and merges what they return, until one returns a reply or throws. */
  function Derive<W>(s: Server<W>, hooks: seq<Hook<W>>, c: Ctx<W>): Ended<W> {
    if hooks == [] then Ended(c, Return(Undefined))
    else
      var (after, outcome) := Call(hooks[0], c);
      if outcome.Throw? || IsReply(outcome.value) then Ended(after, outcome)
      else Derive(s, hooks[1..], Merged(s, after, outcome.value))
  }

  function Merged<W>(s: Server<W>, c: Ctx<W>, value: Value): Ctx<W> {
    if value.Fields? then c.(view := s.assign(c.view, value)) else c
  }

  /** Calls hooks that see the response and may replace it. */
  function Replace<W>(hooks: seq<Hook<W>>, c: Ctx<W>): Ended<W> {
    if hooks == [] then Ended(c, Return(c.view.response))
    else
      var (after, outcome) := Call(hooks[0], c);
      match outcome
      case Throw(_) => Ended(after, outcome)
      case Return(v) => Replace(hooks[1..], if v == Undefined then after else WithResponse(after, v))
  }

  // ------------------------------------------------------------------ the phases

  /** How the request itself ends: with a response or with an error still to be handled. */
  datatype Answer<!W> = Answered(ctx: Ctx<W>, response: nat) | Failed(ctx: Ctx<W>, error: Value)

  function Respond<W>(s: Server<W>, c: Ctx<W>, value: Value): Answer<W> {
    var (response, world) := s.respond(value, c.view.world);
    Answered(c.(view := c.view.(world := world)), response)
  }

  function Served<W>(s: Server<W>, later: nat -> bool, c: Ctx<W>): Answer<W> {
    Requested(s, later, FirstValue(s.request, c))
  }

  function Requested<W>(s: Server<W>, later: nat -> bool, e: Ended<W>): Answer<W> {
    match e.outcome
    case Throw(error) => Failed(e.ctx, error)
    case Return(v) => if v != Undefined then Respond(s, e.ctx, v) else Routed(s, later, e.ctx)
  }

  function Routed<W>(s: Server<W>, later: nat -> bool, c: Ctx<W>): Answer<W> {
    match s.find(c.view.world)
    case None => Failed(c, s.notFound)
    case Some((world, route)) =>
      var matched := c.(view := c.view.(world := world), route := Some(route));
      match route.body(world)
      case None => Transformed(s, later, route, Derive(s, route.transform, matched))
      case Some(parsed) => Parsed(s, later, route, matched, parsed)
  }

  function Parsed<W>(s: Server<W>, later: nat -> bool, route: Route<W>, c: Ctx<W>, parsed: (W,
                     Option<Value>)): Answer<W> {
    var read := c.(view := c.view.(world := parsed.0));
    match parsed.1
    case Some(error) => Failed(read, error)
    case None => Transformed(s, later, route, Derive(s, route.transform, read))
  }

  function Transformed<W>(s: Server<W>, later: nat -> bool, route: Route<W>, e: Ended<W>): Answer<W> {
    match e.outcome
    case Throw(error) => Failed(e.ctx, error)
    case Return(v) => if v != Undefined then Handled(s, later, route, e.ctx, v) else Checked(s, later, route, e.ctx)
  }

  function Checked<W>(s: Server<W>, later: nat -> bool, route: Route<W>, c: Ctx<W>): Answer<W> {
    var (world, problem) := route.check(c.view.world);
    var valid := c.(view := c.view.(world := world));
    match problem
    case Some(error) => Failed(valid, error)
    case None => Prepared(s, later, route, FirstValue(route.beforeHandle, valid))
  }

  function Prepared<W>(s: Server<W>, later: nat -> bool, route: Route<W>, e: Ended<W>): Answer<W> {
    match e.outcome
    case Throw(error) => Failed(e.ctx, error)
    case Return(v) =>
      if v != Undefined then Handled(s, later, route, e.ctx, v)
      else
        match route.handler
        case Static(value) => Handled(s, later, route, e.ctx, value)
        case Run(hook) => var (after, outcome) := Call(hook, e.ctx); Ran(s, later, route, after, outcome)
  }

  function Ran<W>(s: Server<W>, later: nat -> bool, route: Route<W>, c: Ctx<W>, outcome: Outcome): Answer<W> {
    match outcome
    case Throw(error) => Failed(c, error)
    case Return(v) => Handled(s, later, route, c, v)
  }

  function Handled<W>(s: Server<W>, later: nat -> bool, route: Route<W>, c: Ctx<W>, value: Value): Answer<W> {
    if route.afterHandle == [] then Mapped(s, later, route, c, value)
    else Afterwards(s, later, route, Replace(route.afterHandle, WithResponse(c, value)))
  }

  function Afterwards<W>(s: Server<W>, later: nat -> bool, route: Route<W>, e: Ended<W>): Answer<W> {
    match e.outcome
    case Throw(error) => Failed(e.ctx, error)
    case Return(v) => Mapped(s, later, route, e.ctx, v)
  }

  function Mapped<W>(s: Server<W>, later: nat -> bool, route: Route<W>, c: Ctx<W>, value: Value): Answer<W> {
    if route.mapResponse == [] then Respond(s, c, value)
    else Replied(s, FirstMapped(route.mapResponse, WithResponse(c, value), value, later), value)
  }

  function Replied<W>(s: Server<W>, e: Ended<W>, value: Value): Answer<W> {
    match e.outcome
    case Throw(error) => Failed(e.ctx, error)
    case Return(v) => Respond(s, e.ctx, if v != Undefined then v else value)
  }

  // ------------------------------------------------------------------ errors and the end

  /** Error hooks in order; a hook that throws hands its error to the next one. */
  function Recover<W>(s: Server<W>, hooks: seq<Hook<W>>, c: Ctx<W>): (answer: Answer<W>)
    ensures answer.Answered?
    decreases |hooks|, 0
  {
    if hooks == [] then
      var (response, world) := s.fallback(c.view.error, c.view.world);
      Answered(c.(view := c.view.(world := world)), response)
    else if !hooks[0].accepts(c.view.error) then Recover(s, hooks[1..], c)
    else
      var (after, outcome) := Call(hooks[0], c);
      Recovered(s, hooks[1..], after, outcome)
  }

  function Recovered<W>(s: Server<W>, rest: seq<Hook<W>>, c: Ctx<W>, outcome: Outcome): (answer: Answer<W>)
    ensures answer.Answered?
    decreases |rest|, 1
  {
    match outcome
    case Throw(error) =>
      if IsReply(error) then Respond(s, c, error) else Recover(s, rest, c.(view := c.view.(error := error)))
    case Return(v) => if v != Undefined then Respond(s, c, v) else Recover(s, rest, c)
  }

  function ErrorHooks<W>(s: Server<W>, c: Ctx<W>): seq<Hook<W>> {
    if c.route.Some? then c.route.value.error else s.error
  }

  /** Every error ends in a response. */
  function Rescued<W>(s: Server<W>, c: Ctx<W>, error: Value): (answer: Answer<W>)
    ensures answer.Answered?
  {
    if IsReply(error) then Respond(s, c, error)
    else
      Recover(s, ErrorHooks(s, c), c.(view := c.view.(error := error, world := s.failed(c.view.world, error))))
  }

  /** Hooks after the response: their errors are dropped. */
  function Observe<W>(hooks: seq<Hook<W>>, c: Ctx<W>): Ctx<W> {
    if hooks == [] then c else Observe(hooks[1..], Call(hooks[0], c).0)
  }

  function Sealed<W>(s: Server<W>, c: Ctx<W>, response: nat): Ctx<W> {
    var closed := c.(view := c.view.(world := s.sealed(c.view.world, response), response := Response(response)));
    Observe(if c.route.Some? then c.route.value.afterResponse else s.afterResponse, closed)
  }

  /** The response to a request and the context when everything has run. */
  function Life<W>(s: Server<W>, later: nat -> bool, c: Ctx<W>): (nat, Ctx<W>) {
    var answer := Served(s, later, c);
    var last := if answer.Failed? then Rescued(s, answer.ctx, answer.error) else answer;
    (last.response, Sealed(s, last.ctx, last.response))
  }

  // ------------------------------------------------------------------ promises do not show

  /** A mapping hook that returns nothing leaves `ctx.response` alone. */
  ghost predicate KeepsResponse<W(!new)>(h: Hook<W>) {
    forall v: View<W> :: KeepsOn(h, v)
  }

  predicate KeepsOn<W>(h: Hook<W>, v: View<W>) {
    var step := h.finish(h.start(v));
    step.outcome == Return(Undefined) ==> step.view.response == v.response
  }

  /** Only hooks with another one after them matter. */
  ghost predicate MapsCleanly<W(!new)>(hooks: seq<Hook<W>>) {
    forall i: nat :: i + 1 < |hooks| ==> KeepsResponse(hooks[i])
  }

  ghost predicate ServesCleanly<W(!new)>(s: Server<W>) {
    forall w: W :: s.find(w).Some? ==> MapsCleanly(s.find(w).value.1.mapResponse)
  }

  lemma {:induction false} MapsLikeFirst<W(!new)>(hooks: seq<Hook<W>>, c: Ctx<W>, value: Value, later: nat -> bool)
    requires MapsCleanly(hooks) && c.view.response == value
    ensures FirstMapped(hooks, c, value, later) == FirstValue(hooks, c)
  {
    if hooks != [] {
      var (after, outcome) := Call(hooks[0], c);
      if outcome == Return(Undefined) && |hooks| > 1 {
        assert KeepsResponse(hooks[0]) && KeepsOn(hooks[0], c.view);
        assert WithResponse(after, value) == after;
        forall i: nat | i + 1 < |hooks[1..]|
          ensures KeepsResponse(hooks[1..][i])
        {
          assert hooks[1..][i] == hooks[i + 1];
        }
        MapsLikeFirst(hooks[1..], after, value, later);
      }
    }
  }

  lemma MappedSame<W(!new)>(s: Server<W>, route: Route<W>, c: Ctx<W>, value: Value,
                     one: nat -> bool, other: nat -> bool)
    requires MapsCleanly(route.mapResponse)
    ensures Mapped(s, one, route, c, value) == Mapped(s, other, route, c, value)
  {
    MapsLikeFirst(route.mapResponse, WithResponse(c, value), value, one);
    MapsLikeFirst(route.mapResponse, WithResponse(c, value), value, other);
  }

  lemma HandledSame<W(!new)>(s: Server<W>, route: Route<W>, c: Ctx<W>, value: Value,
                      one: nat -> bool, other: nat -> bool)
    requires MapsCleanly(route.mapResponse)
    ensures Handled(s, one, route, c, value) == Handled(s, other, route, c, value)
  {
    var e := Replace(route.afterHandle, WithResponse(c, value));
    MappedSame(s, route, c, value, one, other);
    if e.outcome.Return? {
      MappedSame(s, route, e.ctx, e.outcome.value, one, other);
    }
  }

  lemma PreparedSame<W(!new)>(s: Server<W>, route: Route<W>, e: Ended<W>, one: nat -> bool, other: nat -> bool)
    requires MapsCleanly(route.mapResponse)
    ensures Prepared(s, one, route, e) == Prepared(s, other, route, e)
  {
    hide Handled;
    if e.outcome.Return? {
      HandledSame(s, route, e.ctx, e.outcome.value, one, other);
      match route.handler
      case Static(value) => HandledSame(s, route, e.ctx, value, one, other);
      case Run(hook) =>
        var (after, outcome) := Call(hook, e.ctx);
        if outcome.Return? { HandledSame(s, route, after, outcome.value, one, other); }
    }
  }

  lemma TransformedSame<W(!new)>(s: Server<W>, route: Route<W>, e: Ended<W>, one: nat -> bool, other: nat -> bool)
    requires MapsCleanly(route.mapResponse)
    ensures Transformed(s, one, route, e) == Transformed(s, other, route, e)
  {
    hide Handled, Prepared, FirstValue;
    if e.outcome.Return? {
      HandledSame(s, route, e.ctx, e.outcome.value, one, other);
      var valid := e.ctx.(view := e.ctx.view.(world := route.check(e.ctx.view.world).0));
      PreparedSame(s, route, FirstValue(route.beforeHandle, valid), one, other);
    }
  }

  lemma RoutedSame<W(!new)>(s: Server<W>, c: Ctx<W>, one: nat -> bool, other: nat -> bool)
    requires ServesCleanly(s)
    ensures Routed(s, one, c) == Routed(s, other, c)
  {
    hide Transformed, Derive;
    if s.find(c.view.world).Some? {
      var (world, route) := s.find(c.view.world).value;
      var matched := c.(view := c.view.(world := world), route := Some(route));
      TransformedSame(s, route, Derive(s, route.transform, matched), one, other);
      if route.body(world).Some? {
        var read := matched.(view := matched.view.(world := route.body(world).value.0));
        TransformedSame(s, route, Derive(s, route.transform, read), one, other);
      }
    }
  }

  /**
   * Which hooks and handlers return promises changes neither the response nor the final context
   * nor the calls made, provided no mapping hook with another one after it assigns `ctx.response`.
   */
  lemma PromisesInvisible<W(!new)>(s: Server<W>, c: Ctx<W>, one: nat -> bool, other: nat -> bool)
    requires ServesCleanly(s)
    ensures Life(s, one, c) == Life(s, other, c)
  {
    hide Routed, FirstValue, Rescued, Sealed, ServesCleanly;
    var e := FirstValue(s.request, c);
    RoutedSame(s, e.ctx, one, other);
    assert Served(s, one, c) == Served(s, other, c);
  }

  predicate Never(call: nat) {
    false
  }

  predicate Always(call: nat) {
    true
  }

  /** A mapping hook that passes on what it finds in `ctx.response`. */
  function Tell<W>(): Hook<W> {
    Hook(0, (v: View<W>) => v, (v: View<W>) => Step(v, Throw(v.response)), e => true)
  }

  ghost predicate SameEitherWay<W>(h: Hook<W>, c: Ctx<W>) {
    FirstMapped([h, Tell()], c, c.view.response, Never) == FirstMapped([h, Tell()], c, c.view.response, Always)
  }

  /** The proviso is exact: a hook that assigns `ctx.response` and returns nothing gives its promise away. */
  lemma AssigningShows<W(!new)>(h: Hook<W>)
    ensures KeepsResponse(h) <==> forall c: Ctx<W> :: SameEitherWay(h, c)
  {
    forall v: View<W>
      ensures KeepsOn(h, v) <==> SameEitherWay(h, Ctx(v, None, []))
    {
      TellsApart(h, Ctx(v, None, []));
    }
    forall c: Ctx<W>
      ensures KeepsOn(h, c.view) <==> SameEitherWay(h, c)
    {
      TellsApart(h, c);
    }
    assert (forall v: View<W> :: KeepsOn(h, v)) ==> forall c: Ctx<W> :: SameEitherWay(h, c);
  }

  lemma TellsApart<W>(h: Hook<W>, c: Ctx<W>)
    ensures KeepsOn(h, c.view) <==> SameEitherWay(h, c)
  {
    var value := c.view.response;
    var (after, outcome) := Call(h, c);
    assert [h, Tell<W>()][1..] == [Tell<W>()];
    if outcome == Return(Undefined) {
      var kept := WithResponse(after, value);
      assert FirstMapped([h, Tell()], c, value, Never) == FirstMapped([Tell()], after, value, Never);
      assert FirstMapped([h, Tell()], c, value, Always) == FirstMapped([Tell()], kept, value, Always);
      assert FirstMapped([Tell()], after, value, Never).outcome == Throw(after.view.response);
      assert FirstMapped([Tell()], kept, value, Always).outcome == Throw(value);
      assert after.view.response == value ==> kept == after;
    }
  }

  /** A number for each value, to be the response made from it. */
  function Code(v: Value): nat {
    match v
    case Undefined => 0
    case Plain(n) => 4 * n + 1
    case Fields(n) => 4 * n + 2
    case StatusResult(n) => 4 * n + 3
    case Response(n) => 4 * n + 4
  }

  /** A server whose one route answers `value` and maps it with `h` and then a hook that tells what it finds. */
  function Showing<W>(h: Hook<W>, value: Value): Server<W> {
    Server([], [], [], (w: W) => Some((w, ShowingRoute(h, value))), Undefined, (v: View<W>, fields: Value) => v,
           (v: Value, w: W) => (Code(v), w), (w: W, error: Value) => w, (w: W, response: nat) => w,
           (error: Value, w: W) => (Code(error), w))
  }

  function ShowingRoute<W>(h: Hook<W>, value: Value): Route<W> {
    Route([], [], Static(value), [], [h, Tell()], [], [], (w: W) => None, (w: W) => (w, None))
  }

  ghost predicate LivesAlike<W>(s: Server<W>, c: Ctx<W>) {
    Life(s, Never, c) == Life(s, Always, c)
  }

  /** The context in which the route of this server calls its first mapping hook. */
  function Mapping<W>(h: Hook<W>, value: Value, c: Ctx<W>): Ctx<W> {
    WithResponse(c.(route := Some(ShowingRoute(h, value))), value)
  }

  lemma ServedIsMapped<W>(h: Hook<W>, value: Value, later: nat -> bool, c: Ctx<W>)
    ensures Served(Showing(h, value), later, c) ==
            Replied(Showing(h, value), FirstMapped([h, Tell()], Mapping(h, value, c), value, later), value)
  {
    var s, route := Showing(h, value), ShowingRoute(h, value);
    var matched := c.(route := Some(route));
    hide FirstMapped, Replied;
    assert Served(s, later, c) == Routed(s, later, c);
    assert Routed(s, later, c) == Transformed(s, later, route, Derive(s, [], matched));
    assert Derive(s, [], matched) == Ended(matched, Return(Undefined));
    assert Checked(s, later, route, matched) == Prepared(s, later, route, Ended(matched, Return(Undefined)));
  }

  /** The response of such a server tells the two kinds of hook apart just when the mapping does. */
  lemma ShownInLife<W>(h: Hook<W>, value: Value, c: Ctx<W>)
    ensures LivesAlike(Showing(h, value), c) <==> KeepsOn(h, View(c.view.world, value, c.view.error))
  {
    var m := Mapping(h, value, c);
    ServedIsMapped(h, value, Never, c);
    ServedIsMapped(h, value, Always, c);
    TellsApart(h, m);
    if !KeepsOn(h, m.view) {
      ThrownIsCoded(h, value, c, Never);
      ThrownIsCoded(h, value, c, Always);
    }
  }

  /** When the first mapping hook returns nothing the response is the code of what the second one finds. */
  lemma ThrownIsCoded<W>(h: Hook<W>, value: Value, c: Ctx<W>, later: nat -> bool)
    requires Call(h, Mapping(h, value, c)).1 == Return(Undefined)
    ensures var found := Call(h, Mapping(h, value, c)).0.view.response;
            Life(Showing(h, value), later, c).0 == Code(if later(|c.trace|) then value else found)
  {
    var s, m := Showing(h, value), Mapping(h, value, c);
    var (after, _) := Call(h, m);
    var passed := if later(|c.trace|) then WithResponse(after, value) else after;
    ServedIsMapped(h, value, later, c);
    assert [h, Tell<W>()][1..] == [Tell<W>()];
    assert FirstMapped([h, Tell()], m, value, later) == FirstMapped([Tell()], passed, value, later);
    assert FirstMapped([Tell()], passed, value, later).outcome == Throw(passed.view.response);
  }

  /**
   * So the proviso of `PromisesInvisible` is exact, hook by hook: one with another one after it never
   * shows in a response whether it returns a promise if and only if it leaves `ctx.response` alone.
   */
  lemma PromiseInLife<W(!new)>(h: Hook<W>)
    ensures KeepsResponse(h) <==> forall value, c: Ctx<W> :: LivesAlike(Showing(h, value), c)
  {
    forall v: View<W>
      ensures KeepsOn(h, v) <==> LivesAlike(Showing(h, v.response), Ctx(v, None, []))
    {
      ShownInLife(h, v.response, Ctx(v, None, []));
    }
    forall value, c: Ctx<W>
      ensures KeepsOn(h, View(c.view.world, value, c.view.error)) <==> LivesAlike(Showing(h, value), c)
    {
      ShownInLife(h, value, c);
    }
    hide LivesAlike, Showing;
  }

  /** A hook that replaces `ctx.response` and returns nothing. */
  function Assign<W>(value: Value): Hook<W> {
    Hook(1, (v: View<W>) => v, (v: View<W>) => Step(v.(response := value), Return(Undefined)), e => true)
  }

  /** As a synchronous hook it changes what the next one sees, as an asynchronous one it does not. */
  lemma PromiseShows<W>(c: Ctx<W>)
    ensures Life(Showing(Assign<W>(Plain(1)), Plain(0)), Never, c) !=
            Life(Showing(Assign<W>(Plain(1)), Plain(0)), Always, c)
  {
    ShownInLife(Assign<W>(Plain(1)), Plain(0), c);
  }

  // ------------------------------------------------------------------ calls in order

  function Ids<W>(hooks: seq<Hook<W>>): seq<nat> {
    seq(|hooks|, i requires 0 <= i < |hooks| => hooks[i].id)
  }

  /** The hooks called are the first `k`, once each and in order; all when none answers. */
  ghost predicate Called<W>(hooks: seq<Hook<W>>, c: Ctx<W>, e: Ended<W>, k: nat) {
    k <= |hooks| && e.ctx.trace == c.trace + Ids(hooks[..k])
  }

  lemma {:induction false} CalledInOrder<W>(hooks: seq<Hook<W>>, c: Ctx<W>) returns (k: nat)
    ensures Called(hooks, c, FirstValue(hooks, c), k)
    ensures k < |hooks| ==> FirstValue(hooks, c).outcome != Return(Undefined)
  {
    k := 0;
    if hooks != [] {
      var (after, outcome) := Call(hooks[0], c);
      k := 1;
      assert hooks[..1] == [hooks[0]];
      if outcome == Return(Undefined) {
        var n := CalledInOrder(hooks[1..], after);
        k := n + 1;
        assert Ids(hooks[..k]) == [hooks[0].id] + Ids(hooks[1..][..n]);
      }
    }
  }

  lemma {:induction false} DerivedInOrder<W>(s: Server<W>, hooks: seq<Hook<W>>, c: Ctx<W>) returns (k: nat)
    ensures Called(hooks, c, Derive(s, hooks, c), k)
    ensures k < |hooks| ==> Derive(s, hooks, c).outcome != Return(Undefined)
  {
    k := 0;
    if hooks != [] {
      var (after, outcome) := Call(hooks[0], c);
      k := 1;
      assert hooks[..1] == [hooks[0]];
      if !(outcome.Throw? || IsReply(outcome.value)) {
        var n := DerivedInOrder(s, hooks[1..], Merged(s, after, outcome.value));
        k := n + 1;
        assert Ids(hooks[..k]) == [hooks[0].id] + Ids(hooks[1..][..n]);
      }
    }
  }

  /** After the handler every hook is called unless one throws. */
  lemma {:induction false} ReplacedInOrder<W>(hooks: seq<Hook<W>>, c: Ctx<W>) returns (k: nat)
    ensures Called(hooks, c, Replace(hooks, c), k)
    ensures k < |hooks| ==> Replace(hooks, c).outcome.Throw?
  {
    k := 0;
    if hooks != [] {
      var (after, outcome) := Call(hooks[0], c);
      k := 1;
      assert hooks[..1] == [hooks[0]];
      if outcome.Return? {
        var n := ReplacedInOrder(
          hooks[1..], if outcome.value == Undefined then after else WithResponse(after, outcome.value));
        k := n + 1;
        assert Ids(hooks[..k]) == [hooks[0].id] + Ids(hooks[1..][..n]);
      }
    }
  }
}
