/**
 * The request pipeline as it runs: each phase loops synchronously over its hooks and suspends
 * with a continuation when a call returns a promise. `later` says which calls do, by the number
 * of calls before. Every run is the one `Lifecycle.Life` describes.
 */
module Pipeline {
  import opened Text
  import opened Lifecycle

  /** Where to go on when the promise of a hook settles. */
  datatype Cont<!W> =
    | InRequest(i: nat, hook: Hook<W>)
    | InBody(route: Route<W>, parsed: (W, Option<Value>))
    | InTransform(route: Route<W>, i: nat, hook: Hook<W>)
    | InBefore(route: Route<W>, i: nat, hook: Hook<W>)
    | InHandler(route: Route<W>, hook: Hook<W>)
    | InAfter(route: Route<W>, i: nat, hook: Hook<W>)
    | InMap(route: Route<W>, value: Value, i: nat, hook: Hook<W>)

  datatype Result<!W> = Done(response: nat) | Threw(error: Value) | Wait(next: Cont<W>)

  /** What a call gives at once: its outcome, or a promise. */
  datatype Called = Now(outcome: Outcome) | Promised

  /** The request context every hook receives. */
  class Context<W> {
    var c: Ctx<W>

    constructor (c: Ctx<W>)
      ensures this.c == c
    {
      this.c := c;
    }
  }

  /** The call of a hook up to its result or its promise. */
  method Invoke<W>(h: Hook<W>, x: Context<W>, later: nat -> bool) returns (r: Called)
    modifies x
    ensures r.Promised? <==> later(|old(x.c.trace)|)
    ensures r.Now? ==> (x.c, r.outcome) == Call(h, old(x.c))
    ensures r.Promised? ==> x.c == Started(h, old(x.c))
  {
    var promised := later(|x.c.trace|);
    x.c := Started(h, x.c);
    if promised { return Promised; }
    var outcome := Settle(h, x);
    r := Now(outcome);
  }

  function Started<W>(h: Hook<W>, c: Ctx<W>): Ctx<W> {
    c.(view := h.start(c.view), trace := c.trace + [h.id])
  }

  function Settled<W>(h: Hook<W>, c: Ctx<W>): (Ctx<W>, Outcome) {
    var step := h.finish(c.view);
    (c.(view := step.view), step.outcome)
  }

  method Settle<W>(h: Hook<W>, x: Context<W>) returns (outcome: Outcome)
    modifies x
    ensures (x.c, outcome) == Settled(h, old(x.c))
  {
    var step := h.finish(x.c.view);
    x.c := x.c.(view := step.view);
    outcome := step.outcome;
  }

  // ------------------------------------------------------------------ what a result stands for

  function Rest<T>(hooks: seq<T>, i: nat): seq<T> {
    if i <= |hooks| then hooks[i..] else []
  }

  /** The answer of the lifecycle when it goes on from `r`. */
  function Meaning<W>(s: Server<W>, later: nat -> bool, r: Result<W>, c: Ctx<W>): Answer<W> {
    match r
    case Done(response) => Answered(c, response)
    case Threw(error) => Failed(c, error)
    case Wait(InBody(route, parsed)) => Parsed(s, later, route, c, parsed)
    case Wait(next) =>
      var (after, outcome) := Settled(next.hook, c);
      Onward(s, later, next, after, outcome)
  }

  /** How the lifecycle goes on after the outcome of a suspended hook. */
  function Onward<W>(s: Server<W>, later: nat -> bool, next: Cont<W>, c: Ctx<W>, outcome: Outcome): Answer<W>
    requires !next.InBody?
  {
    match next
    case InRequest(i, _) => Requested(s, later, AfterOne(s.request, i + 1, c, outcome))
    case InTransform(route, i, _) => Transformed(s, later, route, AfterDerive(s, route.transform, i + 1, c, outcome))
    case InBefore(route, i, _) => Prepared(s, later, route, AfterOne(route.beforeHandle, i + 1, c, outcome))
    case InHandler(route, _) => Ran(s, later, route, c, outcome)
    case InAfter(route, i, _) => Afterwards(s, later, route, AfterReplace(route.afterHandle, i + 1, c, outcome))
    case InMap(route, value, i, _) =>
      if outcome == Return(Undefined) then MapFrom(s, later, route, c, value, i + 1)
      else Replied(s, Ended(c, outcome), value)
  }

  /** `FirstValue` once the hook before `i` has answered. */
  function AfterOne<W>(hooks: seq<Hook<W>>, i: nat, c: Ctx<W>, outcome: Outcome): Ended<W> {
    if outcome == Return(Undefined) then FirstValue(Rest(hooks, i), c) else Ended(c, outcome)
  }

  function AfterDerive<W>(s: Server<W>, hooks: seq<Hook<W>>, i: nat, c: Ctx<W>, outcome: Outcome): Ended<W> {
    if outcome.Throw? || IsReply(outcome.value) then Ended(c, outcome)
    else Derive(s, Rest(hooks, i), Merged(s, c, outcome.value))
  }

  function AfterReplace<W>(hooks: seq<Hook<W>>, i: nat, c: Ctx<W>, outcome: Outcome): Ended<W> {
    match outcome
    case Throw(_) => Ended(c, outcome)
    case Return(v) => Replace(Rest(hooks, i), if v == Undefined then c else WithResponse(c, v))
  }

  /** Later phases and fewer hooks to go make the rank smaller. */
  function Phase<W>(r: Result<W>): nat {
    match r
    case Wait(InRequest(_, _)) => 7
    case Wait(InBody(_, _)) => 6
    case Wait(InTransform(_, _, _)) => 5
    case Wait(InBefore(_, _, _)) => 4
    case Wait(InHandler(_, _)) => 3
    case Wait(InAfter(_, _, _)) => 2
    case Wait(InMap(_, _, _, _)) => 1
    case _ => 0
  }

  function Left<W>(s: Server<W>, r: Result<W>): int {
    match r
    case Wait(InRequest(i, _)) => |s.request| - i
    case Wait(InTransform(route, i, _)) => |route.transform| - i
    case Wait(InBefore(route, i, _)) => |route.beforeHandle| - i
    case Wait(InAfter(route, i, _)) => |route.afterHandle| - i
    case Wait(InMap(route, _, i, _)) => |route.mapResponse| - i
    case _ => 0
  }

  /** Every suspended state waits for a hook of its list. */
  predicate Sane<W>(s: Server<W>, r: Result<W>) {
    match r
    case Wait(InRequest(i, _)) => i < |s.request|
    case Wait(InTransform(route, i, _)) => i < |route.transform|
    case Wait(InBefore(route, i, _)) => i < |route.beforeHandle|
    case Wait(InAfter(route, i, _)) => i < |route.afterHandle|
    case Wait(InMap(route, _, i, _)) => i < |route.mapResponse|
    case _ => true
  }

  predicate Within<W>(s: Server<W>, r: Result<W>, phase: nat, left: int) {
    Phase(r) < phase || (Phase(r) == phase && Left(s, r) <= left)
  }

  // ------------------------------------------------------------------ the reference from the middle of a phase

  function MapFrom<W>(s: Server<W>,
                      later: nat -> bool, route: Route<W>, c: Ctx<W>, value: Value, from: nat): Answer<W> {
    Replied(s, FirstMapped(Rest(route.mapResponse, from),
                           if from < |route.mapResponse| then WithResponse(c, value) else c,
                           value, later), value)
  }

  function AfterFrom<W>(s: Server<W>,
                        later: nat -> bool, route: Route<W>, c: Ctx<W>, value: Value, from: nat): Answer<W> {
    if from < |route.afterHandle|
    then Afterwards(s, later, route, Replace(Rest(route.afterHandle, from), WithResponse(c, value)))
    else Mapped(s, later, route, c, value)
  }

  lemma MapFromStart<W>(s: Server<W>, later: nat -> bool, route: Route<W>, c: Ctx<W>, value: Value)
    ensures MapFrom(s, later, route, c, value, 0) == Mapped(s, later, route, c, value)
  {
  }

  lemma AfterFromStart<W>(s: Server<W>, later: nat -> bool, route: Route<W>, c: Ctx<W>, value: Value)
    ensures AfterFrom(s, later, route, c, value, 0) == Handled(s, later, route, c, value)
  {
  }

  lemma StartedSettled<W>(h: Hook<W>, c: Ctx<W>)
    ensures Settled(h, Started(h, c)) == Call(h, c)
  {
  }

  /** Calling hook `i` and going on after its outcome. */
  lemma FirstStep<W>(hooks: seq<Hook<W>>, i: nat, c: Ctx<W>)
    requires i < |hooks|
    ensures FirstValue(Rest(hooks, i), c) == AfterOne(hooks, i + 1, Call(hooks[i], c).0, Call(hooks[i], c).1)
    ensures Settled(hooks[i], Started(hooks[i], c)) == Call(hooks[i], c)
  {
    assert hooks[i..][1..] == hooks[i + 1..];
  }

  lemma DeriveStep<W>(s: Server<W>, hooks: seq<Hook<W>>, i: nat, c: Ctx<W>)
    requires i < |hooks|
    ensures Derive(s, Rest(hooks, i), c) == AfterDerive(s, hooks, i + 1, Call(hooks[i], c).0, Call(hooks[i], c).1)
    ensures Settled(hooks[i], Started(hooks[i], c)) == Call(hooks[i], c)
  {
    assert hooks[i..][1..] == hooks[i + 1..];
  }

  lemma ReplaceStep<W>(hooks: seq<Hook<W>>, i: nat, c: Ctx<W>)
    requires i < |hooks|
    ensures Replace(Rest(hooks, i), c) == AfterReplace(hooks, i + 1, Call(hooks[i], c).0, Call(hooks[i], c).1)
    ensures Settled(hooks[i], Started(hooks[i], c)) == Call(hooks[i], c)
  {
    assert hooks[i..][1..] == hooks[i + 1..];
  }

  lemma NoneLeft<W>(s: Server<W>, later: nat -> bool, hooks: seq<Hook<W>>, c: Ctx<W>, value: Value)
    ensures FirstMapped(Rest(hooks, |hooks|), c, value, later) == Ended(c, Return(Undefined))
    ensures FirstValue(Rest(hooks, |hooks|), c) == Ended(c, Return(Undefined))
    ensures Derive(s, Rest(hooks, |hooks|), c) == Ended(c, Return(Undefined))
    ensures Replace(Rest(hooks, |hooks|), c) == Ended(c, Return(c.view.response))
  {
  }

  /** Calling mapping hook `i` and going on, at once or after its promise. */
  lemma MapStep<W>(s: Server<W>, later: nat -> bool, route: Route<W>, i: nat, c: Ctx<W>, value: Value)
    requires i < |route.mapResponse|
    ensures var h := route.mapResponse[i];
            var (after, outcome) := Call(h, c);
            && Settled(h, Started(h, c)) == Call(h, c)
            && (outcome != Return(Undefined) ==>
                FirstMapped(Rest(route.mapResponse, i), c, value, later) == Ended(after, outcome))
            && (outcome == Return(Undefined) && !later(|c.trace|) ==>
                  FirstMapped(Rest(route.mapResponse, i), c, value, later) ==
                  FirstMapped(Rest(route.mapResponse, i + 1), after, value, later))
            && (outcome == Return(Undefined) && later(|c.trace|) ==>
                  Replied(s, FirstMapped(Rest(route.mapResponse, i), c, value, later), value) ==
                  MapFrom(s, later, route, after, value, i + 1))
  {
    StartedSettled(route.mapResponse[i], c);
    hide Call, Settled, Started, Replied;
    assert route.mapResponse[i..][1..] == route.mapResponse[i + 1..];
  }

  // ------------------------------------------------------------------ the phases

  method Finish<W>(s: Server<W>, x: Context<W>, value: Value) returns (r: Result<W>)
    modifies x
    ensures r.Done? && Answered(x.c, r.response) == Respond(s, old(x.c), value)
  {
    var (response, world) := s.respond(value, x.c.view.world);
    x.c := x.c.(view := x.c.view.(world := world));
    r := Done(response);
  }

  method MapPhase<W>(s: Server<W>, route: Route<W>, x: Context<W>, value: Value, from: nat, later: nat -> bool)
    returns (r: Result<W>)
    requires from <= |route.mapResponse|
    modifies x
    ensures Meaning(s, later, r, x.c) == MapFrom(s, later, route, old(x.c), value, from)
    ensures Sane(s, r) && Within(s, r, 1, |route.mapResponse| - from)
  {
    hide Call, Settled, Started, FirstMapped, Respond;
    var hooks := route.mapResponse;
    if |hooks| > from {
      x.c := WithResponse(x.c, value);
      ghost var start := x.c;
      var i := from;
      while i < |hooks|
        invariant from <= i <= |hooks|
        invariant FirstMapped(Rest(hooks, from), start, value, later) == FirstMapped(Rest(hooks, i), x.c, value, later)
      {
        MapStep(s, later, route, i, x.c, value);
        var called := Invoke(hooks[i], x, later);
        if called.Promised? { return Wait(InMap(route, value, i, hooks[i])); }
        if called.outcome.Throw? { return Threw(called.outcome.error); }
        if called.outcome.value != Undefined {
          r := Finish(s, x, called.outcome.value);
          return;
        }
        i := i + 1;
      }
    }
    NoneLeft(s, later, hooks, x.c, value);
    r := Finish(s, x, value);
  }

  method AfterPhase<W>(s: Server<W>, route: Route<W>, x: Context<W>, value: Value, from: nat, later: nat -> bool)
    returns (r: Result<W>)
    requires from <= |route.afterHandle|
    modifies x
    ensures Meaning(s, later, r, x.c) == AfterFrom(s, later, route, old(x.c), value, from)
    ensures Sane(s, r) && Within(s, r, 2, |route.afterHandle| - from)
  {
    hide Call, Settled, Started, Replace, Mapped, MapFrom;
    var hooks := route.afterHandle;
    var result := value;
    if |hooks| > from {
      x.c := WithResponse(x.c, value);
      ghost var start := x.c;
      var i := from;
      while i < |hooks|
        invariant from <= i <= |hooks|
        invariant Replace(Rest(hooks, from), start) == Replace(Rest(hooks, i), x.c)
      {
        ReplaceStep(hooks, i, x.c);
        var called := Invoke(hooks[i], x, later);
        if called.Promised? { return Wait(InAfter(route, i, hooks[i])); }
        if called.outcome.Throw? { return Threw(called.outcome.error); }
        if called.outcome.value != Undefined { x.c := WithResponse(x.c, called.outcome.value); }
        i := i + 1;
      }
      result := x.c.view.response;
      NoneLeft(s, later, hooks, x.c, Undefined);
    }
    MapFromStart(s, later, route, x.c, result);
    r := MapPhase(s, route, x, result, 0, later);
  }

  method BeforePhase<W>(s: Server<W>, route: Route<W>, x: Context<W>, from: nat, later: nat -> bool)
    returns (r: Result<W>)
    requires from <= |route.beforeHandle|
    modifies x
    ensures Meaning(s, later, r, x.c) == Prepared(s, later, route, FirstValue(Rest(route.beforeHandle, from), old(x.c)))
    ensures Sane(s, r) && Within(s, r, 4, |route.beforeHandle| - from)
  {
    hide Call, Settled, Started, FirstValue, Handled, AfterFrom;
    var hooks := route.beforeHandle;
    ghost var start := x.c;
    var i := from;
    while i < |hooks|
      invariant from <= i <= |hooks|
      invariant FirstValue(Rest(hooks, from), start) == FirstValue(Rest(hooks, i), x.c)
    {
      FirstStep(hooks, i, x.c);
      var called := Invoke(hooks[i], x, later);
      if called.Promised? { return Wait(InBefore(route, i, hooks[i])); }
      if called.outcome.Throw? { return Threw(called.outcome.error); }
      if called.outcome.value != Undefined {
        AfterFromStart(s, later, route, x.c, called.outcome.value);
        r := AfterPhase(s, route, x, called.outcome.value, 0, later);
        return;
      }
      i := i + 1;
    }
    NoneLeft(s, later, hooks, x.c, Undefined);
    r := HandlerPhase(s, route, x, later);
  }

  /** The static value, or the handler's. */
  method HandlerPhase<W>(s: Server<W>, route: Route<W>, x: Context<W>, later: nat -> bool) returns (r: Result<W>)
    modifies x
    ensures Meaning(s, later, r, x.c) == Prepared(s, later, route, Ended(old(x.c), Return(Undefined)))
    ensures Sane(s, r) && Within(s, r, 3, 0)
  {
    hide Call, Settled, Started, Handled, AfterFrom;
    if route.handler.Static? {
      AfterFromStart(s, later, route, x.c, route.handler.value);
      r := AfterPhase(s, route, x, route.handler.value, 0, later);
      return;
    }
    var hook := route.handler.hook;
    StartedSettled(hook, x.c);
    var called := Invoke(hook, x, later);
    if called.Promised? { return Wait(InHandler(route, hook)); }
    if called.outcome.Throw? { return Threw(called.outcome.error); }
    AfterFromStart(s, later, route, x.c, called.outcome.value);
    r := AfterPhase(s, route, x, called.outcome.value, 0, later);
  }

  method TransformPhase<W>(s: Server<W>, route: Route<W>, x: Context<W>, from: nat, later: nat -> bool)
    returns (r: Result<W>)
    requires from <= |route.transform|
    modifies x
    ensures Meaning(s, later, r, x.c) == Transformed(s, later, route, Derive(s, Rest(route.transform, from), old(x.c)))
    ensures Sane(s, r) && Within(s, r, 5, |route.transform| - from)
  {
    hide Call, Settled, Started, Derive, Handled, AfterFrom, Prepared, FirstValue;
    var hooks := route.transform;
    ghost var start := x.c;
    var i := from;
    while i < |hooks|
      invariant from <= i <= |hooks|
      invariant Derive(s, Rest(hooks, from), start) == Derive(s, Rest(hooks, i), x.c)
    {
      DeriveStep(s, hooks, i, x.c);
      var called := Invoke(hooks[i], x, later);
      if called.Promised? { return Wait(InTransform(route, i, hooks[i])); }
      if called.outcome.Throw? { return Threw(called.outcome.error); }
      var early := ApplyDerived(s, x, called.outcome.value);
      if early != Undefined {
        AfterFromStart(s, later, route, x.c, early);
        r := AfterPhase(s, route, x, early, 0, later);
        return;
      }
      i := i + 1;
    }
    NoneLeft(s, later, hooks, x.c, Undefined);
    var (world, problem) := route.check(x.c.view.world);
    x.c := x.c.(view := x.c.view.(world := world));
    if problem.Some? { return Threw(problem.value); }
    assert Rest(route.beforeHandle, 0) == route.beforeHandle;
    r := BeforePhase(s, route, x, 0, later);
  }

  /** Merges what a derive hook returned; answers with the value when it is a reply. */
  method ApplyDerived<W>(s: Server<W>, x: Context<W>, value: Value) returns (early: Value)
    modifies x
    ensures x.c == Merged(s, old(x.c), value)
    ensures early == if IsReply(value) then value else Undefined
  {
    if value.Undefined? || value.Plain? { return Undefined; }
    if IsReply(value) { return value; }
    x.c := x.c.(view := s.assign(x.c.view, value));
    early := Undefined;
  }

  method RequestPhase<W>(s: Server<W>, x: Context<W>, from: nat, later: nat -> bool) returns (r: Result<W>)
    requires from <= |s.request|
    modifies x
    ensures Meaning(s, later, r, x.c) == Requested(s, later, FirstValue(Rest(s.request, from), old(x.c)))
    ensures Sane(s, r) && Within(s, r, 7, |s.request| - from)
  {
    hide Call, Settled, Started, FirstValue, Routed;
    var hooks := s.request;
    ghost var start := x.c;
    var i := from;
    while i < |hooks|
      invariant from <= i <= |hooks|
      invariant FirstValue(Rest(hooks, from), start) == FirstValue(Rest(hooks, i), x.c)
    {
      FirstStep(hooks, i, x.c);
      var called := Invoke(hooks[i], x, later);
      if called.Promised? { return Wait(InRequest(i, hooks[i])); }
      if called.outcome.Throw? { return Threw(called.outcome.error); }
      if called.outcome.value != Undefined {
        r := Finish(s, x, called.outcome.value);
        return;
      }
      i := i + 1;
    }
    NoneLeft(s, later, hooks, x.c, Undefined);
    r := RoutePhase(s, x, later);
  }

  /** Finds the route and starts reading the body when there is one. */
  method RoutePhase<W>(s: Server<W>, x: Context<W>, later: nat -> bool) returns (r: Result<W>)
    modifies x
    ensures Meaning(s, later, r, x.c) == Routed(s, later, old(x.c))
    ensures Sane(s, r) && Within(s, r, 6, 0)
  {
    hide Transformed, Derive;
    var found := s.find(x.c.view.world);
    if found.None? { return Threw(s.notFound); }
    var (world, route) := found.value;
    x.c := x.c.(view := x.c.view.(world := world), route := Some(route));
    var body := route.body(world);
    if body.Some? { return Wait(InBody(route, body.value)); }
    assert Rest(route.transform, 0) == route.transform;
    r := TransformPhase(s, route, x, 0, later);
  }

  /** The promise settles: the continuation runs. */
  method Resume<W>(s: Server<W>, x: Context<W>, next: Cont<W>, later: nat -> bool) returns (r: Result<W>)
    requires Sane(s, Wait(next))
    modifies x
    ensures Meaning(s, later, r, x.c) == Meaning(s, later, Wait(next), old(x.c))
    ensures Sane(s, r)
    ensures Within(s, r, Phase(Wait(next)), Left(s, Wait(next)) - 1)
  {
    hide FirstValue, Derive, Replace, Handled, Routed, Transformed, Prepared;
    if next.InBody? {
      x.c := x.c.(view := x.c.view.(world := next.parsed.0));
      if next.parsed.1.Some? { return Threw(next.parsed.1.value); }
      assert Rest(next.route.transform, 0) == next.route.transform;
      r := TransformPhase(s, next.route, x, 0, later);
      return;
    }
    var outcome := Settle(next.hook, x);
    RejectionEnds(s, later, next, x.c, outcome);
    if outcome.Throw? { return Threw(outcome.error); }
    r := Continue(s, x, next, outcome.value, later);
  }

  /** The continuation of a hook that answered with `v`. */
  method Continue<W>(s: Server<W>, x: Context<W>, next: Cont<W>, v: Value, later: nat -> bool) returns (r: Result<W>)
    requires !next.InBody? && Sane(s, Wait(next))
    modifies x
    ensures Meaning(s, later, r, x.c) == Onward(s, later, next, old(x.c), Return(v))
    ensures Sane(s, r)
    ensures Within(s, r, Phase(Wait(next)), Left(s, Wait(next)) - 1)
  {
    hide FirstValue, Derive, Replace, Handled, Routed, Checked, Respond, Mapped, MapFrom, AfterFrom;
    match next
    case InRequest(i, _) =>
      if v != Undefined {
        r := Finish(s, x, v);
      } else {
        r := RequestPhase(s, x, i + 1, later);
      }
    case InTransform(route, i, _) =>
      var early := ApplyDerived(s, x, v);
      if early != Undefined {
        AfterFromStart(s, later, route, x.c, early);
        r := AfterPhase(s, route, x, early, 0, later);
      } else {
        r := TransformPhase(s, route, x, i + 1, later);
      }
    case InBefore(route, i, _) =>
      if v != Undefined {
        AfterFromStart(s, later, route, x.c, v);
        r := AfterPhase(s, route, x, v, 0, later);
      } else {
        r := BeforePhase(s, route, x, i + 1, later);
      }
    case InHandler(route, _) =>
      AfterFromStart(s, later, route, x.c, v);
      r := AfterPhase(s, route, x, v, 0, later);
    case InAfter(route, i, _) =>
      if v != Undefined { x.c := WithResponse(x.c, v); }
      AfterFromMiddle(s, later, route, x.c, i + 1);
      r := AfterPhase(s, route, x, x.c.view.response, i + 1, later);
    case InMap(route, value, i, _) =>
      if v != Undefined {
        r := Finish(s, x, v);
      } else {
        r := MapPhase(s, route, x, value, i + 1, later);
      }
  }

  lemma RejectionEnds<W>(s: Server<W>, later: nat -> bool, next: Cont<W>, c: Ctx<W>, outcome: Outcome)
    requires !next.InBody?
    ensures outcome.Throw? ==> Onward(s, later, next, c, outcome) == Failed(c, outcome.error)
  {
  }

  /** Entering the after phase again with the current response changes nothing. */
  lemma AfterFromMiddle<W>(s: Server<W>, later: nat -> bool, route: Route<W>, c: Ctx<W>, i: nat)
    requires i <= |route.afterHandle|
    ensures AfterFrom(s, later, route, c, c.view.response, i) ==
            Afterwards(s, later, route, Replace(Rest(route.afterHandle, i), c))
  {
    assert WithResponse(c, c.view.response) == c;
  }

  // ------------------------------------------------------------------ errors

  datatype ErrorResult = Recovering(i: nat) | Rescue(response: nat)

  function ErrorMeaning<W>(s: Server<W>, hooks: seq<Hook<W>>, r: ErrorResult, c: Ctx<W>): Answer<W> {
    match r
    case Rescue(response) => Answered(c, response)
    case Recovering(i) =>
      if i < |hooks| then
        var (after, outcome) := Settled(hooks[i], c);
        Recovered(s, hooks[i + 1..], after, outcome)
      else Recover(s, [], c)
  }

  lemma RecoverStep<W>(s: Server<W>, hooks: seq<Hook<W>>, i: nat, c: Ctx<W>)
    requires i < |hooks|
    ensures Recover(s, hooks[i..], c) ==
            if !hooks[i].accepts(c.view.error) then Recover(s, hooks[i + 1..], c)
            else Recovered(s, hooks[i + 1..], Call(hooks[i], c).0, Call(hooks[i], c).1)
    ensures Settled(hooks[i], Started(hooks[i], c)) == Call(hooks[i], c)
  {
    assert hooks[i..][1..] == hooks[i + 1..];
  }

  method ErrorPhase<W>(s: Server<W>, hooks: seq<Hook<W>>, x: Context<W>, from: nat,
                       later: nat -> bool) returns (r: ErrorResult)
    requires from <= |hooks|
    modifies x
    ensures ErrorMeaning(s, hooks, r, x.c) == Recover(s, hooks[from..], old(x.c))
    ensures r.Recovering? ==> from <= r.i < |hooks|
  {
    hide Call, Settled, Started, Recover, Respond;
    ghost var start := x.c;
    var i := from;
    while i < |hooks|
      invariant from <= i <= |hooks|
      invariant Recover(s, hooks[from..], start) == Recover(s, hooks[i..], x.c)
    {
      RecoverStep(s, hooks, i, x.c);
      if hooks[i].accepts(x.c.view.error) {
        var called := Invoke(hooks[i], x, later);
        if called.Promised? { return Recovering(i); }
        var ended := Judge(s, x, called.outcome);
        if ended.Some? { return Rescue(ended.value); }
      }
      i := i + 1;
    }
    r := Default(s, x);
    assert hooks[i..] == [];
  }

  /** A value or a thrown reply answers; a thrown error is the new error; nothing goes on. */
  method Judge<W>(s: Server<W>, x: Context<W>, outcome: Outcome) returns (ended: Option<nat>)
    modifies x
    ensures ended.Some? ==> forall rest :: Recovered(s, rest, old(x.c), outcome) == Answered(x.c, ended.value)
    ensures ended.None? ==> forall rest :: Recovered(s, rest, old(x.c), outcome) == Recover(s, rest, x.c)
  {
    hide Recover;
    if outcome.Return? {
      if outcome.value == Undefined { return None; }
      var r := Finish(s, x, outcome.value);
      return Some(r.response);
    }
    if IsReply(outcome.error) {
      var r := Finish(s, x, outcome.error);
      return Some(r.response);
    }
    x.c := x.c.(view := x.c.view.(error := outcome.error));
    ended := None;
  }

  method Default<W>(s: Server<W>, x: Context<W>) returns (r: ErrorResult)
    modifies x
    ensures r.Rescue? && Answered(x.c, r.response) == Recover(s, [], old(x.c))
  {
    var (response, world) := s.fallback(x.c.view.error, x.c.view.world);
    x.c := x.c.(view := x.c.view.(world := world));
    r := Rescue(response);
  }

  /** Handles an error to the end, resuming whenever an error hook promised its answer. */
  method Fail<W>(s: Server<W>, x: Context<W>, error: Value, later: nat -> bool) returns (response: nat)
    modifies x
    ensures Answered(x.c, response) == Rescued(s, old(x.c), error)
  {
    hide Recover, Settled, Respond;
    if IsReply(error) {
      var r := Finish(s, x, error);
      return r.response;
    }
    var hooks := if x.c.route.Some? then x.c.route.value.error else s.error;
    x.c := x.c.(view := x.c.view.(error := error, world := s.failed(x.c.view.world, error)));
    ghost var start := x.c;
    assert hooks[0..] == hooks;
    var r := ErrorPhase(s, hooks, x, 0, later);
    while r.Recovering?
      invariant r.Recovering? ==> r.i < |hooks|
      invariant ErrorMeaning(s, hooks, r, x.c) == Recover(s, hooks, start)
      decreases if r.Recovering? then |hooks| - r.i else 0
    {
      var i := r.i;
      var outcome := Settle(hooks[i], x);
      var ended := Judge(s, x, outcome);
      if ended.Some? {
        r := Rescue(ended.value);
      } else {
        r := ErrorPhase(s, hooks, x, i + 1, later);
      }
    }
    response := r.response;
  }

  // ------------------------------------------------------------------ the whole request

  /** `runAfterResponse`: awaits each hook and drops its error. */
  method RunAfterResponse<W>(hooks: seq<Hook<W>>, x: Context<W>, later: nat -> bool)
    modifies x
    ensures x.c == Observe(hooks, old(x.c))
  {
    ghost var start := x.c;
    var i := 0;
    while i < |hooks|
      invariant i <= |hooks| && Observe(hooks, start) == Observe(hooks[i..], x.c)
    {
      StartedSettled(hooks[i], x.c);
      assert hooks[i..][1..] == hooks[i + 1..];
      var called := Invoke(hooks[i], x, later);
      if called.Promised? { var _ := Settle(hooks[i], x); }
      i := i + 1;
    }
    assert hooks[i..] == [];
  }

  /** Serves a request: response, final context and calls in order are those of the lifecycle. */
  method Serve<W>(s: Server<W>, x: Context<W>, later: nat -> bool) returns (response: nat)
    modifies x
    ensures (response, x.c) == Life(s, later, old(x.c))
  {
    hide Sane, Meaning, Requested, FirstValue, Rescued, Observe;
    ghost var start := x.c;
    assert Rest(s.request, 0) == s.request;
    var r := RequestPhase(s, x, 0, later);
    while r.Wait?
      invariant Sane(s, r) && Meaning(s, later, r, x.c) == Served(s, later, start)
      decreases Phase(r), Left(s, r)
    {
      LeftIsLeft(s, r);
      r := Resume(s, x, r.next, later);
    }
    Ending(s, later, r, x.c);
    if r.Threw? {
      response := Fail(s, x, r.error, later);
    } else {
      response := r.response;
    }
    x.c := x.c.(view := x.c.view.(world := s.sealed(x.c.view.world, response), response := Response(response)));
    RunAfterResponse(if x.c.route.Some? then x.c.route.value.afterResponse else s.afterResponse, x, later);
  }

  lemma LeftIsLeft<W>(s: Server<W>, r: Result<W>)
    requires Sane(s, r)
    ensures Left(s, r) >= 0
  {
  }

  lemma Ending<W>(s: Server<W>, later: nat -> bool, r: Result<W>, c: Ctx<W>)
    ensures r.Done? ==> Meaning(s, later, r, c) == Answered(c, r.response)
    ensures r.Threw? ==> Meaning(s, later, r, c) == Failed(c, r.error)
  {
  }
}
