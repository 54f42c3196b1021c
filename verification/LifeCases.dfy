/**
 * The life of a request case by case: which phase follows which outcome, what each list of hooks
 * does, and which lists handle an error and the end. `Lifecycle` tells the same as one function.
 */
module LifeCases {
  import opened Text
  import opened Lifecycle

  // ------------------------------------------------------------------ lists of hooks

  /** Hooks are called in order until one returns a value or throws; that is the outcome. */
  lemma {:induction false} FirstValueIs<W>(a: seq<Hook<W>>, h: Hook<W>, c: Ctx<W>)
    ensures FirstValue([], c) == Ended(c, Return(Undefined))
    ensures var e := FirstValue(a, c);
            FirstValue(a + [h], c) ==
            if e.outcome != Return(Undefined) then e else Ended(Call(h, e.ctx).0, Call(h, e.ctx).1)
  {
    if a == [] {
      assert [] + [h] == [h] && [h][1..] == [];
    } else {
      assert (a + [h])[1..] == a[1..] + [h];
      FirstValueIs(a[1..], h, Call(a[0], c).0);
    }
  }

  /** What derive hooks return is merged when it is fields; a reply or an error ends the list. */
  lemma {:induction false} DeriveIs<W>(s: Server<W>, a: seq<Hook<W>>, h: Hook<W>, c: Ctx<W>)
    ensures Derive(s, [], c) == Ended(c, Return(Undefined))
    ensures var e := Derive(s, a, c);
            var (after, outcome) := Call(h, e.ctx);
            Derive(s, a + [h], c) ==
            if e.outcome != Return(Undefined) then e
            else if outcome.Throw? || outcome.value.StatusResult? || outcome.value.Response? then Ended(after, outcome)
            else if outcome.value.Fields? then
              Ended(after.(view := s.assign(after.view, outcome.value)), Return(Undefined))
            else Ended(after, Return(Undefined))
  {
    if a == [] {
      assert [] + [h] == [h] && [h][1..] == [];
    } else {
      var (after, outcome) := Call(a[0], c);
      assert (a + [h])[1..] == a[1..] + [h];
      if !(outcome.Throw? || IsReply(outcome.value)) { DeriveIs(s, a[1..], h, Merged(s, after, outcome.value)); }
    }
  }

  /** Hooks after the handler see the current value and replace it by what they return; an error ends the list. */
  lemma {:induction false} ReplaceIs<W>(a: seq<Hook<W>>, h: Hook<W>, c: Ctx<W>)
    ensures Replace([], c) == Ended(c, Return(c.view.response))
    ensures var e := Replace(a, c);
            var (after, outcome) := Call(h, e.ctx);
            Replace(a + [h], c) ==
            if e.outcome.Throw? then e
            else if outcome.Throw? then Ended(after, outcome)
            else if outcome.value == Undefined then Ended(after, Return(after.view.response))
            else Ended(after.(view := after.view.(response := outcome.value)), Return(outcome.value))
  {
    if a == [] {
      assert [] + [h] == [h] && [h][1..] == [];
    } else {
      var (after, outcome) := Call(a[0], c);
      assert (a + [h])[1..] == a[1..] + [h];
      if outcome.Return? {
        ReplaceIs(a[1..], h, if outcome.value == Undefined then after else WithResponse(after, outcome.value));
      }
    }
  }

  /** Hooks after the response are all called, whatever they return or throw. */
  lemma {:induction false} ObserveIs<W>(a: seq<Hook<W>>, h: Hook<W>, c: Ctx<W>)
    ensures Observe([], c) == c
    ensures Observe(a + [h], c) == Call(h, Observe(a, c)).0
    ensures Observe(a, c).trace == c.trace + Ids(a)
  {
    if a == [] {
      assert [] + [h] == [h] && [h][1..] == [];
    } else {
      assert (a + [h])[1..] == a[1..] + [h];
      ObserveIs(a[1..], h, Call(a[0], c).0);
      assert Ids(a) == [a[0].id] + Ids(a[1..]);
    }
  }

  predicate NoneAccepts<W>(hooks: seq<Hook<W>>, error: Value) {
    forall i :: 0 <= i < |hooks| ==> !hooks[i].accepts(error)
  }

  /**
   * Error hooks that do not accept the error are passed over. The first that does is called: its
   * value or the reply it throws answers, an error it throws is the error for those after it, and
   * without an answer they go on with what it left. Without a hook to go on there is the fallback.
   */
  lemma {:induction false} RecoverIs<W>(s: Server<W>, pre: seq<Hook<W>>, h: Hook<W>, post: seq<Hook<W>>, c: Ctx<W>)
    requires NoneAccepts(pre, c.view.error)
    ensures var (response, world) := s.fallback(c.view.error, c.view.world);
            Recover(s, pre, c) == Answered(c.(view := c.view.(world := world)), response)
    ensures h.accepts(c.view.error) ==>
              var (after, outcome) := Call(h, c);
              Recover(s, pre + [h] + post, c) ==
              match outcome
              case Return(Undefined) => Recover(s, post, after)
              case Return(value) => Respond(s, after, value)
              case Throw(StatusResult(_)) => Respond(s, after, outcome.error)
              case Throw(Response(_)) => Respond(s, after, outcome.error)
              case Throw(error) => Recover(s, post, after.(view := after.view.(error := error)))
  {
    hide Respond, Call;
    var all := pre + [h] + post;
    if pre == [] {
      assert all == [h] + post && all[0] == h && all[1..] == post;
      if h.accepts(c.view.error) {
        var (after, outcome) := Call(h, c);
        assert Recover(s, all, c) == Recovered(s, post, after, outcome);
      }
    } else {
      assert all[1..] == pre[1..] + [h] + post;
      assert NoneAccepts(pre[1..], c.view.error);
      RecoverIs(s, pre[1..], h, post, c);
    }
  }

  /** Error hooks are the only ones called. */
  lemma {:induction false} RecoverCalls<W>(s: Server<W>, hooks: seq<Hook<W>>, c: Ctx<W>) returns (calls: seq<nat>)
    ensures Recover(s, hooks, c).ctx.trace == c.trace + calls && Recover(s, hooks, c).ctx.route == c.route
    ensures forall id :: id in calls ==> id in Ids(hooks)
    ensures NoneAccepts(hooks, c.view.error) ==> calls == []
    decreases |hooks|
  {
    calls := [];
    if hooks != [] {
      var (after, outcome) := Call(hooks[0], c);
      assert Ids(hooks) == [hooks[0].id] + Ids(hooks[1..]);
      assert NoneAccepts(hooks, c.view.error) ==> NoneAccepts(hooks[1..], c.view.error);
      if !hooks[0].accepts(c.view.error) {
        calls := RecoverCalls(s, hooks[1..], c);
      } else if outcome == Return(Undefined) {
        var more := RecoverCalls(s, hooks[1..], after);
        calls := [hooks[0].id] + more;
      } else if outcome.Throw? && !IsReply(outcome.error) {
        var more := RecoverCalls(s, hooks[1..], after.(view := after.view.(error := outcome.error)));
        calls := [hooks[0].id] + more;
      } else {
        calls := [hooks[0].id];
      }
    }
  }

  // ------------------------------------------------------------------ how a life ends

  /** The response is final: status and `ctx.response` are set, and the hooks in `after` see it. */
  ghost predicate Concludes<W>(s: Server<W>, x: Ctx<W>, response: nat, after: seq<Hook<W>>, life: (nat, Ctx<W>)) {
    && life.0 == response
    && var last := x.(view := x.view.(world := s.sealed(x.view.world, response), response := Response(response)));
       life.1.trace == x.trace + Ids(after) && life.1.route == x.route && life.1 == Observe(after, last)
  }

  /** `value` is made into the response. */
  ghost predicate RespondsWith<W>(s: Server<W>, x: Ctx<W>, value: Value, after: seq<Hook<W>>, life: (nat, Ctx<W>)) {
    var (response, world) := s.respond(value, x.view.world);
    Concludes(s, x.(view := x.view.(world := world)), response, after, life)
  }

  /** `error` as the error hooks find it. */
  function WithError<W>(s: Server<W>, x: Ctx<W>, error: Value): Ctx<W> {
    x.(view := x.view.(error := error, world := s.failed(x.view.world, error)))
  }

  /**
   * A thrown reply is the response. Any other error goes to the hooks in `errors`; nothing but
   * these and the hooks in `after` is called any more, and with none that accepts it there is the fallback.
   */
  ghost predicate FailsWith<W>(s: Server<W>, x: Ctx<W>, error: Value, errors: seq<Hook<W>>,
                                     after: seq<Hook<W>>, life: (nat, Ctx<W>)) {
    && OnlyCalls(x, Ids(errors), Ids(after), life)
    && (error.StatusResult? || error.Response? ==> RespondsWith(s, x, error, after, life))
    && (!error.StatusResult? && !error.Response? ==>
          var found := WithError(s, x, error);
          && Rescues(s, found, errors, after, life)
          && (NoneAccepts(errors, error) ==>
                var (response, world) := s.fallback(error, found.view.world);
                Concludes(s, found.(view := found.view.(world := world)), response, after, life)))
  }

  /** The recovery by `errors` from `found` is the response. */
  ghost predicate Rescues<W>(s: Server<W>, found: Ctx<W>, errors: seq<Hook<W>>, after: seq<Hook<W>>,
                             life: (nat, Ctx<W>)) {
    var answer := Recover(s, errors, found);
    Concludes(s, answer.ctx, answer.response, after, life)
  }

  /** After `x` only `some` are called, and then all of `last`. */
  ghost predicate OnlyCalls<W>(x: Ctx<W>, some: seq<nat>, last: seq<nat>, life: (nat, Ctx<W>)) {
    exists calls: seq<nat> :: life.1.trace == x.trace + calls + last && forall id :: id in calls ==> id in some
  }

  /** The error and after-response hooks of the matched route, or of the root when there is none. */
  function Errors<W>(s: Server<W>, route: Option<Route<W>>): seq<Hook<W>> {
    match route case None => s.error case Some(r) => r.error
  }

  function Afters<W>(s: Server<W>, route: Option<Route<W>>): seq<Hook<W>> {
    match route case None => s.afterResponse case Some(r) => r.afterResponse
  }

  lemma Conclude<W>(s: Server<W>, x: Ctx<W>, response: nat)
    ensures Concludes(s, x, response, Afters(s, x.route), (response, Sealed(s, x, response)))
  {
    var last := x.(view := x.view.(world := s.sealed(x.view.world, response), response := Response(response)));
    if Afters(s, x.route) != [] {
      ObserveIs(Afters(s, x.route), Afters(s, x.route)[0], last);
    }
    ObserveKeeps(Afters(s, x.route), last);
  }

  lemma {:induction false} ObserveKeeps<W>(hooks: seq<Hook<W>>, c: Ctx<W>)
    ensures Observe(hooks, c).route == c.route
  {
    if hooks != [] {
      ObserveKeeps(hooks[1..], Call(hooks[0], c).0);
    }
  }

  /** What `Life` makes of an answer. */
  function Finished<W>(s: Server<W>, answer: Answer<W>): (nat, Ctx<W>) {
    var last := if answer.Failed? then Rescued(s, answer.ctx, answer.error) else answer;
    (last.response, Sealed(s, last.ctx, last.response))
  }

  lemma FinishedResponse<W>(s: Server<W>, x: Ctx<W>, value: Value)
    ensures RespondsWith(s, x, value, Afters(s, x.route), Finished(s, Respond(s, x, value)))
  {
    var (response, world) := s.respond(value, x.view.world);
    Conclude(s, x.(view := x.view.(world := world)), response);
    hide Sealed, Concludes;
  }

  lemma FinishedError<W>(s: Server<W>, x: Ctx<W>, error: Value)
    ensures FailsWith(s, x, error, Errors(s, x.route), Afters(s, x.route), Finished(s, Failed(x, error)))
  {
    var (errors, after) := (Errors(s, x.route), Afters(s, x.route));
    var life := Finished(s, Failed(x, error));
    if IsReply(error) {
      FinishedResponse(s, x, error);
      assert life.1.trace == x.trace + [] + Ids(after);
    } else {
      var found := WithError(s, x, error);
      var answer := Recover(s, errors, found);
      var calls := RecoverCalls(s, errors, found);
      Conclude(s, answer.ctx, answer.response);
      assert life.1.trace == x.trace + calls + Ids(after);
      if NoneAccepts(errors, error) { Fallback(s, errors, found); }
      hide Sealed, Recover, Concludes;
    }
  }

  lemma Fallback<W>(s: Server<W>, hooks: seq<Hook<W>>, c: Ctx<W>)
    requires NoneAccepts(hooks, c.view.error)
    ensures var (response, world) := s.fallback(c.view.error, c.view.world);
            Recover(s, hooks, c) == Answered(c.(view := c.view.(world := world)), response)
  {
    if hooks != [] { RecoverIs(s, hooks, hooks[0], [], c); }
  }

  // ------------------------------------------------------------------ keeping the route

  lemma {:induction false} FirstValueKeeps<W>(hooks: seq<Hook<W>>, c: Ctx<W>)
    ensures FirstValue(hooks, c).ctx.route == c.route
  {
    if hooks != [] {
      FirstValueKeeps(hooks[1..], Call(hooks[0], c).0);
    }
  }

  lemma {:induction false} FirstMappedKeeps<W>(hooks: seq<Hook<W>>, c: Ctx<W>, value: Value, later: nat -> bool)
    ensures FirstMapped(hooks, c, value, later).ctx.route == c.route
  {
    if hooks != [] {
      var (after, outcome) := Call(hooks[0], c);
      var passed := if later(|c.trace|) && |hooks| > 1 then WithResponse(after, value) else after;
      FirstMappedKeeps(hooks[1..], passed, value, later);
    }
  }

  lemma {:induction false} DeriveKeeps<W>(s: Server<W>, hooks: seq<Hook<W>>, c: Ctx<W>)
    ensures Derive(s, hooks, c).ctx.route == c.route
  {
    if hooks != [] {
      var (after, outcome) := Call(hooks[0], c);
      if outcome.Return? { DeriveKeeps(s, hooks[1..], Merged(s, after, outcome.value)); }
    }
  }

  lemma {:induction false} ReplaceKeeps<W>(hooks: seq<Hook<W>>, c: Ctx<W>)
    ensures Replace(hooks, c).ctx.route == c.route
  {
    if hooks != [] {
      var (after, outcome) := Call(hooks[0], c);
      if outcome.Return? {
        ReplaceKeeps(hooks[1..], if outcome.value == Undefined then after else WithResponse(after, outcome.value));
      }
    }
  }

  // ------------------------------------------------------------------ the way through the phases

  /** No request hook answers and the router finds `route`; `m` is the context then. */
  ghost predicate Finds<W>(s: Server<W>, c: Ctx<W>, route: Route<W>, m: Ctx<W>) {
    var e := FirstValue(s.request, c);
    && e.outcome == Return(Undefined) && s.find(e.ctx.view.world).Some?
    && var (world, found) := s.find(e.ctx.view.world).value;
       found == route && m == e.ctx.(view := e.ctx.view.(world := world), route := Some(route))
  }

  /** There is no body to read, or it is read; `b` is the context then. */
  ghost predicate Reads<W>(route: Route<W>, m: Ctx<W>, b: Ctx<W>) {
    match route.body(m.view.world)
    case None => b == m
    case Some((world, problem)) => problem == None && b == m.(view := m.view.(world := world))
  }

  /** No derive hook answers or throws. */
  ghost predicate Derives<W>(s: Server<W>, route: Route<W>, b: Ctx<W>, d: Ctx<W>) {
    Derive(s, route.transform, b) == Ended(d, Return(Undefined))
  }

  /** Params, query, headers and body are valid; `v` is the context with what they were converted to. */
  ghost predicate Validates<W>(route: Route<W>, d: Ctx<W>, v: Ctx<W>) {
    route.check(d.view.world).1 == None && v == d.(view := d.view.(world := route.check(d.view.world).0))
  }

  /** No hook before the handler answers or throws. */
  ghost predicate Prepares<W>(route: Route<W>, v: Ctx<W>, p: Ctx<W>) {
    FirstValue(route.beforeHandle, v) == Ended(p, Return(Undefined))
  }

  /** Error in `x` on the matched route. */
  ghost predicate FailsOn<W>(s: Server<W>, route: Route<W>, x: Ctx<W>, error: Value, life: (nat, Ctx<W>)) {
    FailsWith(s, x, error, route.error, route.afterResponse, life)
  }

  /** `value` goes to the mapping hooks; the first that answers, or else `value`, is made into the response. */
  ghost predicate Maps<W>(s: Server<W>, later: nat -> bool, route: Route<W>, x: Ctx<W>, value: Value,
                          life: (nat, Ctx<W>)) {
    if route.mapResponse == [] then RespondsWith(s, x, value, route.afterResponse, life)
    else
      var e := FirstMapped(route.mapResponse, WithResponse(x, value), value, later);
      match e.outcome
      case Throw(error) => FailsOn(s, route, e.ctx, error, life)
      case Return(v) => RespondsWith(s, e.ctx, if v == Undefined then value else v, route.afterResponse, life)
  }

  /** `value` goes to the hooks after the handler and what they make of it to the mapping hooks. */
  ghost predicate HandsOn<W>(s: Server<W>, later: nat -> bool, route: Route<W>, x: Ctx<W>, value: Value,
                             life: (nat, Ctx<W>)) {
    if route.afterHandle == [] then Maps(s, later, route, x, value, life)
    else
      var e := Replace(route.afterHandle, WithResponse(x, value));
      match e.outcome
      case Throw(error) => FailsOn(s, route, e.ctx, error, life)
      case Return(v) => Maps(s, later, route, e.ctx, v, life)
  }

  lemma MapsIs<W>(s: Server<W>, later: nat -> bool, route: Route<W>, x: Ctx<W>, value: Value)
    requires x.route == Some(route)
    ensures Maps(s, later, route, x, value, Finished(s, Mapped(s, later, route, x, value)))
  {
    if route.mapResponse == [] {
      FinishedResponse(s, x, value);
    } else {
      var e := FirstMapped(route.mapResponse, WithResponse(x, value), value, later);
      FirstMappedKeeps(route.mapResponse, WithResponse(x, value), value, later);
      match e.outcome
      case Throw(error) => FinishedError(s, e.ctx, error);
      case Return(v) => FinishedResponse(s, e.ctx, if v == Undefined then value else v);
    }
    hide Finished, Respond, FailsWith, RespondsWith, FirstMapped;
  }

  lemma HandsOnIs<W>(s: Server<W>, later: nat -> bool, route: Route<W>, x: Ctx<W>, value: Value)
    requires x.route == Some(route)
    ensures HandsOn(s, later, route, x, value, Finished(s, Handled(s, later, route, x, value)))
  {
    if route.afterHandle == [] {
      MapsIs(s, later, route, x, value);
    } else {
      var e := Replace(route.afterHandle, WithResponse(x, value));
      ReplaceKeeps(route.afterHandle, WithResponse(x, value));
      match e.outcome
      case Throw(error) => FinishedError(s, e.ctx, error);
      case Return(v) => MapsIs(s, later, route, e.ctx, v);
    }
    hide Finished, Maps, Mapped, FailsWith, Replace;
  }

  // ------------------------------------------------------------------ the cases

  lemma LifeIsFinished<W>(s: Server<W>, later: nat -> bool, c: Ctx<W>)
    ensures Life(s, later, c) == Finished(s, Served(s, later, c))
  {
  }

  /**
   * The value of a request hook is the response, its error goes to the error hooks of the root, and
   * so does the error of a request no route was found for.
   */
  lemma BeforeRouting<W>(s: Server<W>, later: nat -> bool, c: Ctx<W>)
    requires c.route == None
    ensures var (e, life) := (FirstValue(s.request, c), Life(s, later, c));
            match e.outcome
            case Throw(error) => FailsWith(s, e.ctx, error, s.error, s.afterResponse, life)
            case Return(v) =>
              && (v != Undefined ==> RespondsWith(s, e.ctx, v, s.afterResponse, life))
              && (v == Undefined && s.find(e.ctx.view.world) == None ==>
                    FailsWith(s, e.ctx, s.notFound, s.error, s.afterResponse, life))
  {
    var e := FirstValue(s.request, c);
    FirstValueKeeps(s.request, c);
    match e.outcome {
      case Throw(error) => FinishedError(s, e.ctx, error);
      case Return(v) =>
        if v != Undefined {
          FinishedResponse(s, e.ctx, v);
        } else if s.find(e.ctx.view.world) == None {
          FinishedError(s, e.ctx, s.notFound);
        }
    }
    hide Finished, FailsWith, RespondsWith, FirstValue, Respond;
    LifeIsFinished(s, later, c);
  }

  /** A body that cannot be read is an error: no derive hook, validation or handler. */
  lemma BodyRejected<W>(s: Server<W>, later: nat -> bool, c: Ctx<W>, route: Route<W>, m: Ctx<W>)
    requires Finds(s, c, route, m) && route.body(m.view.world).Some? && route.body(m.view.world).value.1.Some?
    ensures var (world, error) := (route.body(m.view.world).value.0, route.body(m.view.world).value.1.value);
            FailsOn(s, route, m.(view := m.view.(world := world)), error, Life(s, later, c))
  {
    var (world, error) := (route.body(m.view.world).value.0, route.body(m.view.world).value.1.value);
    FinishedError(s, m.(view := m.view.(world := world)), error);
    hide Finished, FailsWith, FirstValue, Transformed;
    LifeIsFinished(s, later, c);
  }

  lemma LifeFromRead<W>(s: Server<W>, later: nat -> bool, c: Ctx<W>, route: Route<W>, m: Ctx<W>, b: Ctx<W>)
    requires Finds(s, c, route, m) && Reads(route, m, b)
    ensures Life(s, later, c) == Finished(s, Transformed(s, later, route, Derive(s, route.transform, b)))
    ensures Derive(s, route.transform, b).ctx.route == Some(route)
  {
    DeriveKeeps(s, route.transform, b);
    hide Finished, FirstValue, Transformed, Derive;
    LifeIsFinished(s, later, c);
  }

  /** A reply of a derive hook goes to the hooks after the handler, its error to the error hooks. */
  lemma DerivingEnds<W>(s: Server<W>, later: nat -> bool, c: Ctx<W>, route: Route<W>, m: Ctx<W>, b: Ctx<W>)
    requires Finds(s, c, route, m) && Reads(route, m, b)
    ensures var (e, life) := (Derive(s, route.transform, b), Life(s, later, c));
            match e.outcome
            case Throw(error) => FailsOn(s, route, e.ctx, error, life)
            case Return(v) => v != Undefined ==> HandsOn(s, later, route, e.ctx, v, life)
  {
    var e := Derive(s, route.transform, b);
    LifeFromRead(s, later, c, route, m, b);
    match e.outcome {
      case Throw(error) => FinishedError(s, e.ctx, error);
      case Return(v) => if v != Undefined { HandsOnIs(s, later, route, e.ctx, v); }
    }
    hide Finished, FailsWith, HandsOn, Derive, Handled;
  }

  /**
   * What does not validate is an error: no hook before or after the handler, no mapping hook and
   * not the handler is called.
   */
  lemma InvalidStops<W>(s: Server<W>, later: nat -> bool, c: Ctx<W>, route: Route<W>, m: Ctx<W>, b: Ctx<W>, d: Ctx<W>)
    requires Finds(s, c, route, m) && Reads(route, m, b) && Derives(s, route, b, d)
    requires route.check(d.view.world).1.Some?
    ensures var (world, problem) := route.check(d.view.world);
            FailsOn(s, route, d.(view := d.view.(world := world)), problem.value, Life(s, later, c))
  {
    var (world, problem) := route.check(d.view.world);
    LifeFromRead(s, later, c, route, m, b);
    FinishedError(s, d.(view := d.view.(world := world)), problem.value);
    hide Finished, FailsWith, Derive;
  }

  lemma LifeFromValid<W>(s: Server<W>, later: nat -> bool, c: Ctx<W>, route: Route<W>, m: Ctx<W>, b: Ctx<W>,
                         d: Ctx<W>, v: Ctx<W>)
    requires Finds(s, c, route, m) && Reads(route, m, b) && Derives(s, route, b, d) && Validates(route, d, v)
    ensures Life(s, later, c) == Finished(s, Prepared(s, later, route, FirstValue(route.beforeHandle, v)))
    ensures FirstValue(route.beforeHandle, v).ctx.route == Some(route)
  {
    LifeFromRead(s, later, c, route, m, b);
    FirstValueKeeps(route.beforeHandle, v);
    hide Finished, Derive, FirstValue, Prepared;
  }

  /** The value of a hook before the handler takes the place of the handler's, which is not called. */
  lemma PreparingEnds<W>(s: Server<W>, later: nat -> bool, c: Ctx<W>, route: Route<W>, m: Ctx<W>, b: Ctx<W>,
                         d: Ctx<W>, v: Ctx<W>)
    requires Finds(s, c, route, m) && Reads(route, m, b) && Derives(s, route, b, d) && Validates(route, d, v)
    ensures var (e, life) := (FirstValue(route.beforeHandle, v), Life(s, later, c));
            match e.outcome
            case Throw(error) => FailsOn(s, route, e.ctx, error, life)
            case Return(value) => value != Undefined ==> HandsOn(s, later, route, e.ctx, value, life)
  {
    var e := FirstValue(route.beforeHandle, v);
    LifeFromValid(s, later, c, route, m, b, d, v);
    match e.outcome {
      case Throw(error) => FinishedError(s, e.ctx, error);
      case Return(value) => if value != Undefined { HandsOnIs(s, later, route, e.ctx, value); }
    }
    hide Finished, FailsWith, HandsOn, FirstValue, Handled;
  }

  /** Without one the static value or the handler's goes to the hooks after it. */
  lemma HandlerEnds<W>(s: Server<W>, later: nat -> bool, c: Ctx<W>, route: Route<W>, m: Ctx<W>, b: Ctx<W>,
                       d: Ctx<W>, v: Ctx<W>, p: Ctx<W>)
    requires Finds(s, c, route, m) && Reads(route, m, b) && Derives(s, route, b, d) && Validates(route, d, v)
    requires Prepares(route, v, p)
    ensures var life := Life(s, later, c);
            match route.handler
            case Static(value) => HandsOn(s, later, route, p, value, life)
            case Run(hook) =>
              var (after, outcome) := Call(hook, p);
              match outcome
              case Throw(error) => FailsOn(s, route, after, error, life)
              case Return(value) => HandsOn(s, later, route, after, value, life)
  {
    LifeFromValid(s, later, c, route, m, b, d, v);
    match route.handler {
      case Static(value) => HandsOnIs(s, later, route, p, value);
      case Run(hook) =>
        var (after, outcome) := Call(hook, p);
        if outcome.Throw? {
          FinishedError(s, after, outcome.error);
        } else {
          HandsOnIs(s, later, route, after, outcome.value);
        }
    }
    hide Finished, FailsWith, HandsOn, FirstValue, Handled;
  }
}
