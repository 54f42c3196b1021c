/**
 * A sequential chain as a step system: the store holds the remaining steps, the listeners fetch
 * the next one, and every `await` is a point where anything else may happen. Both stores, the one
 * whose `next` is atomic and the one that reads and writes back, are covered.
 */
module Chain {
  import opened Lists
  import opened Text

  /** A job to dispatch. */
  type Spec = nat

  datatype Entry = Entry(steps: seq<Spec>, catchSpec: Option<Spec>)

  // ------------------------------------------------------------------ the queue of remaining steps

  /** `next`: the first remaining step, and the entry after it; gone when nothing could use it any more. */
  function TakeNext(stored: Option<Entry>): (Option<Spec>, Option<Entry>) {
    if stored.None? || stored.value.steps == [] then (None, stored)
    else
      var e := stored.value;
      (Some(e.steps[0]), Kept(Entry(e.steps[1..], e.catchSpec)))
  }

  function Kept(e: Entry): Option<Entry> {
    if e.steps == [] && e.catchSpec.None? then None else Some(e)
  }

  function CatchOf(stored: Option<Entry>): Option<Spec> {
    if stored.None? then None else stored.value.catchSpec
  }

  /**
   * The remaining steps come out one by one in order; the handler stays as long as anything is
   * stored; and the entry goes with its last step when there is no handler to keep.
   */
  lemma TakenInOrder(steps: seq<Spec>, catchSpec: Option<Spec>)
    ensures TakeNext(None) == (None, None) && TakeNext(Some(Entry([], catchSpec))) == (None, Some(Entry([], catchSpec)))
    ensures |steps| > 1 ==>
              TakeNext(Some(Entry(steps, catchSpec))) == (Some(steps[0]), Some(Entry(steps[1..], catchSpec)))
    ensures |steps| == 1 ==>
              TakeNext(Some(Entry(steps, catchSpec))) ==
              (Some(steps[0]), if catchSpec.None? then None else Some(Entry([], catchSpec)))
    ensures CatchOf(Some(Entry(steps, catchSpec))) == catchSpec && CatchOf(None) == None
  {
    if |steps| == 1 { assert steps[1..] == []; }
  }

  // ------------------------------------------------------------------ the system

  /** What is going on with one job of the chain, up to the end of its listener. */
  datatype Flight =
    | Advancing(i: nat, spec: Spec)
    | Running(i: nat)
    | Completing(i: nat)
    | Fetched(i: nat, entry: Option<Entry>)
    | CleaningUp
    | Failing
    | Caught(handler: Option<Spec>)
    | Cleaned(handler: Option<Spec>)
    | Done

  datatype State = State(stored: Option<Entry>, flights: seq<Flight>, dispatched: seq<Spec>, handlers: seq<Spec>,
                         outcomes: seq<bool>)

  /** `dispatch` once the remaining steps are saved. */
  function Saved(steps: seq<Spec>, catchSpec: Option<Spec>): State
    requires |steps| >= 2
  {
    State(Some(Entry(steps[1..], catchSpec)), [Advancing(0, steps[0])], [], [], [])
  }

  /** One step: the store and records after it, what the flight became, and the flight of a job just dispatched. */
  datatype Moved = Moved(state: State, flight: Flight, begun: seq<Flight>)

  /** `ok` is the final event of a running job, `atomic` the kind of store. */
  function Step(s: State, flight: Flight, ok: bool, atomic: bool): Moved {
    match flight
    case Advancing(i, spec) => Moved(s.(dispatched := s.dispatched + [spec]), Done, [Running(i)])
    case Running(i) => Moved(s.(outcomes := s.outcomes + [ok]), if ok then Completing(i) else Failing, [])
    case Completing(i) => if atomic then Took(s, i, s.stored) else Moved(s, Fetched(i, s.stored), [])
    case Fetched(i, entry) => Took(s, i, entry)
    case CleaningUp => Moved(s.(stored := None), Done, [])
    case Failing => Moved(s, Caught(CatchOf(s.stored)), [])
    case Caught(handler) => Moved(s.(stored := None), Cleaned(handler), [])
    case Cleaned(handler) => Moved(if handler.Some? then s.(handlers := s.handlers + [handler.value]) else s, Done, [])
    case Done => Moved(s, Done, [])
  }

  /** The rest of `next` on the entry it read. */
  function Took(s: State, i: nat, entry: Option<Entry>): Moved {
    var (next, after) := TakeNext(entry);
    match next
    case None => Moved(s, CleaningUp, [])
    case Some(spec) => Moved(s.(stored := after), Advancing(i + 1, spec), [])
  }

  /** Where one step of flight `k` leads. */
  function Move(s: State, k: nat, ok: bool, atomic: bool): State
    requires k < |s.flights|
  {
    var m := Step(s, s.flights[k], ok, atomic);
    m.state.(flights := s.flights[k := m.flight] + m.begun)
  }

  // ------------------------------------------------------------------ what every run keeps

  /** The store entry once step `i` was fetched. */
  function EntryAfter(steps: seq<Spec>, catchSpec: Option<Spec>, i: nat): Option<Entry>
    requires i < |steps|
  {
    Kept(Entry(steps[i + 1..], catchSpec))
  }

  function Successes(n: nat): (r: seq<bool>)
    ensures |r| == n && false !in r
  {
    if n == 0 then [] else Successes(n - 1) + [true]
  }

  /** The state as its one live flight tells it. */
  predicate Tells(s: State, live: Flight, steps: seq<Spec>, catchSpec: Option<Spec>) {
    var d := |s.dispatched|;
    && d <= |steps| && s.dispatched == steps[..d]
    && (!live.Done? ==> s.handlers == [])
    && match live
       case Advancing(i, spec) =>
         i == d < |steps| && spec == steps[d] && s.outcomes == Successes(d)
         && s.stored == EntryAfter(steps, catchSpec, d)
       case Running(i) =>
         i == d - 1 && s.outcomes == Successes(d - 1) && s.stored == EntryAfter(steps, catchSpec, d - 1)
       case Completing(i) => i == d - 1 && s.outcomes == Successes(d) && s.stored == EntryAfter(steps, catchSpec, d - 1)
       case Fetched(i, entry) =>
         i == d - 1 && s.outcomes == Successes(d) && entry == s.stored == EntryAfter(steps, catchSpec, d - 1)
       case CleaningUp => d == |steps| && s.outcomes == Successes(d)
       case Failing =>
         d > 0 && s.outcomes == Successes(d - 1) + [false] && s.stored == EntryAfter(steps, catchSpec, d - 1)
       case Caught(handler) => d > 0 && s.outcomes == Successes(d - 1) + [false] && handler == catchSpec
       case Cleaned(handler) =>
         d > 0 && s.outcomes == Successes(d - 1) + [false] && handler == catchSpec && s.stored.None?
       case Done => d > 0 && s.stored.None? && Ended(s, steps, catchSpec)
  }

  /** All steps ran and succeeded, or one failed and only the handler came after it. */
  predicate Ended(s: State, steps: seq<Spec>, catchSpec: Option<Spec>)
    requires |s.dispatched| > 0
  {
    || (s.dispatched == steps && s.outcomes == Successes(|steps|) && s.handlers == [])
    || (s.outcomes == Successes(|s.dispatched| - 1) + [false]
        && s.handlers == if catchSpec.Some? then [catchSpec.value] else [])
  }

  /** At most one flight is live: the last. */
  predicate Inv(s: State, steps: seq<Spec>, catchSpec: Option<Spec>) {
    && |s.flights| > 0
    && (forall k :: 0 <= k < |s.flights| - 1 ==> s.flights[k].Done?)
    && Tells(s, s.flights[|s.flights| - 1], steps, catchSpec)
  }

  lemma SavedInv(steps: seq<Spec>, catchSpec: Option<Spec>)
    requires |steps| >= 2
    ensures Inv(Saved(steps, catchSpec), steps, catchSpec)
  {
  }

  lemma MoveInv(s: State, k: nat, ok: bool, atomic: bool, steps: seq<Spec>, catchSpec: Option<Spec>)
    requires Inv(s, steps, catchSpec) && k < |s.flights| && |steps| >= 2
    ensures Inv(Move(s, k, ok, atomic), steps, catchSpec)
  {
    var flight := s.flights[k];
    if flight.Done? {
      assert s.flights[k := Done] + [] == s.flights;
      assert Move(s, k, ok, atomic) == s;
    } else {
      StepTells(s, flight, ok, atomic, steps, catchSpec);
      var m := Step(s, flight, ok, atomic);
      hide Step, Tells;
      assert |m.begun| <= 1 && Move(s, k, ok, atomic) == m.state.(flights := s.flights[k := m.flight] + m.begun);
    }
  }

  lemma StepTells(s: State, flight: Flight, ok: bool, atomic: bool, steps: seq<Spec>, catchSpec: Option<Spec>)
    requires Tells(s, flight, steps, catchSpec) && !flight.Done? && |steps| >= 2
    ensures var m := Step(s, flight, ok, atomic);
            && |m.begun| <= 1 && (m.begun != [] ==> m.flight.Done?)
            && forall flights ::
               Tells(m.state.(flights := flights), if m.begun == [] then m.flight else m.begun[0], steps, catchSpec)
  {
    var d := |s.dispatched|;
    match flight
    case Advancing(_, _) =>
      assert steps[..d + 1] == steps[..d] + [steps[d]];
      hide Ended, EntryAfter, Successes;
    case Running(_) =>
      hide Ended, EntryAfter;
    case Completing(i) =>
      TookTells(s, i, steps, catchSpec);
      hide Took, Ended, EntryAfter, Successes;
    case Fetched(i, _) =>
      TookTells(s, i, steps, catchSpec);
      hide Took, Ended, EntryAfter, Successes;
    case CleaningUp =>
      assert steps[..d] == steps;
      hide EntryAfter;
    case Failing => FailingTells(s, steps, catchSpec);
    case Caught(_) => hide Ended, EntryAfter, Successes;
    case Cleaned(_) => hide EntryAfter;
  }

  lemma FailingTells(s: State, steps: seq<Spec>, catchSpec: Option<Spec>)
    requires Tells(s, Failing, steps, catchSpec)
    ensures Tells(s, Caught(CatchOf(s.stored)), steps, catchSpec)
  {
  }

  lemma TookTells(s: State, i: nat, steps: seq<Spec>, catchSpec: Option<Spec>)
    requires Tells(s, Completing(i), steps, catchSpec)
    ensures var m := Took(s, i, s.stored);
            m.begun == [] && forall flights :: Tells(m.state.(flights := flights), m.flight, steps, catchSpec)
  {
    var d := |s.dispatched|;
    if d < |steps| {
      assert steps[d..][0] == steps[d] && steps[d..][1..] == steps[d + 1..];
    }
    hide Ended, Successes;
  }

  // ------------------------------------------------------------------ whole runs

  datatype Event = Event(k: nat, ok: bool)

  predicate Live(s: State, k: nat) {
    k < |s.flights| && !s.flights[k].Done?
  }

  predicate IsRun(states: seq<State>, events: seq<Event>, atomic: bool) {
    && |states| == |events| + 1
    && forall i :: 0 <= i < |events| ==>
         Live(states[i], events[i].k) && states[i + 1] == Move(states[i], events[i].k, events[i].ok, atomic)
  }

  lemma {:induction false} RunInv(states: seq<State>, events: seq<Event>, atomic: bool, steps: seq<Spec>,
                                  catchSpec: Option<Spec>, i: nat)
    requires |steps| >= 2 && IsRun(states, events, atomic) && states[0] == Saved(steps, catchSpec) && i < |states|
    ensures Inv(states[i], steps, catchSpec)
  {
    if i == 0 {
      SavedInv(steps, catchSpec);
    } else {
      RunInv(states, events, atomic, steps, catchSpec, i - 1);
      MoveInv(states[i - 1], events[i - 1].k, events[i - 1].ok, atomic, steps, catchSpec);
    }
  }

  predicate Quiet(s: State) {
    forall k :: 0 <= k < |s.flights| ==> s.flights[k].Done?
  }

  lemma {:induction false} CountSuccesses(n: nat)
    ensures Count(Successes(n), true) == n && Count(Successes(n), false) == 0
  {
    if n > 0 {
      CountSuccesses(n - 1);
    }
  }

  lemma CountOf(outcomes: seq<bool>, n: nat)
    requires outcomes == Successes(n) || outcomes == Successes(n) + [false]
    ensures Count(outcomes, true) == n && Count(outcomes, false) == |outcomes| - n
  {
    CountSuccesses(n);
    assert (Successes(n) + [false])[..n] == Successes(n);
  }

  /**
   * At most one job of the chain is in flight; the steps dispatched are the first ones, in order,
   * one more than have succeeded (or the same number while the next is being dispatched or all
   * have run); at most one failed; and at the end nothing is stored, and the handler was sent once
   * if there is one and a step failed.
   */
  predicate InOrder(s: State, steps: seq<Spec>, catchSpec: Option<Spec>) {
    var (won, lost) := (Count(s.outcomes, true), Count(s.outcomes, false));
    && (forall a, b :: 0 <= a < |s.flights| && 0 <= b < |s.flights| && Live(s, a) && Live(s, b) ==> a == b)
    && s.dispatched <= steps && lost <= 1
    && won <= |s.dispatched| <= won + 1
    && (lost == 1 ==> |s.dispatched| == won + 1)
    && (Quiet(s) ==>
          && s.stored.None?
          && (lost == 0 ==> s.dispatched == steps && s.handlers == [])
          && (lost == 1 ==> s.handlers == if catchSpec.Some? then [catchSpec.value] else []))
  }

  lemma InvInOrder(s: State, steps: seq<Spec>, catchSpec: Option<Spec>)
    requires Inv(s, steps, catchSpec)
    ensures InOrder(s, steps, catchSpec)
  {
    var live := s.flights[|s.flights| - 1];
    TellsOutcomes(s, live, steps, catchSpec);
    hide Tells, Successes, Count;
  }

  lemma TellsOutcomes(s: State, live: Flight, steps: seq<Spec>, catchSpec: Option<Spec>)
    requires Tells(s, live, steps, catchSpec)
    ensures var (won, lost) := (Count(s.outcomes, true), Count(s.outcomes, false));
            && s.dispatched <= steps && lost <= 1
            && won <= |s.dispatched| <= won + 1
            && (lost == 1 ==> |s.dispatched| == won + 1)
            && (live.Done? ==>
                  && s.stored.None?
                  && (lost == 0 ==> s.dispatched == steps && s.handlers == [])
                  && (lost == 1 ==> s.handlers == if catchSpec.Some? then [catchSpec.value] else []))
  {
    CountOf(s.outcomes, if s.outcomes != [] && !s.outcomes[|s.outcomes| - 1] then |s.outcomes| - 1 else |s.outcomes|);
    hide Count, EntryAfter;
  }

  /** So it is at every moment of every run, with either store. */
  lemma Sequential(states: seq<State>, events: seq<Event>, atomic: bool, steps: seq<Spec>,
                   catchSpec: Option<Spec>, i: nat)
    requires |steps| >= 2 && IsRun(states, events, atomic) && states[0] == Saved(steps, catchSpec) && i < |states|
    ensures InOrder(states[i], steps, catchSpec)
  {
    RunInv(states, events, atomic, steps, catchSpec, i);
    InvInOrder(states[i], steps, catchSpec);
  }

  lemma LastMove(states: seq<State>, events: seq<Event>, atomic: bool, j: nat)
    requires IsRun(states, events, atomic) && 0 < j < |states|
    ensures |events| == |states| - 1 && Live(states[j - 1], events[j - 1].k)
    ensures states[j] == Move(states[j - 1], events[j - 1].k, events[j - 1].ok, atomic)
  {
    hide Move;
    assert states[j - 1 + 1] == states[j];
  }

  /** A failure ends the chain: no later step is dispatched, whatever happens after. */
  lemma {:induction false} FailureIsFinal(states: seq<State>, events: seq<Event>, atomic: bool, steps: seq<Spec>,
                                          catchSpec: Option<Spec>, i: nat, j: nat)
    requires |steps| >= 2 && IsRun(states, events, atomic) && states[0] == Saved(steps, catchSpec) && i <= j < |states|
    requires false in states[i].outcomes
    ensures states[j].dispatched == states[i].dispatched && states[j].outcomes == states[i].outcomes
    decreases j - i
  {
    hide *;
    if i < j {
      FailureIsFinal(states, events, atomic, steps, catchSpec, i, j - 1);
      RunInv(states, events, atomic, steps, catchSpec, j - 1);
      LastMove(states, events, atomic, j);
      AfterFailure(states[j - 1], events[j - 1].k, events[j - 1].ok, atomic, steps, catchSpec);
    }
  }

  lemma AfterFailure(s: State, k: nat, ok: bool, atomic: bool, steps: seq<Spec>, catchSpec: Option<Spec>)
    requires Inv(s, steps, catchSpec) && Live(s, k) && false in s.outcomes
    ensures Move(s, k, ok, atomic).dispatched == s.dispatched && Move(s, k, ok, atomic).outcomes == s.outcomes
  {
    hide EntryAfter, Ended, TakeNext;
  }

  /** What a finished chain has dispatched is decided by the outcomes of its jobs, whichever the store. */
  lemma OutcomesDecide(a: State, b: State, steps: seq<Spec>, catchSpec: Option<Spec>)
    requires Inv(a, steps, catchSpec) && Inv(b, steps, catchSpec) && Quiet(a) && Quiet(b) && a.outcomes == b.outcomes
    ensures a.dispatched == b.dispatched && a.handlers == b.handlers && a.stored == b.stored == None
  {
    assert |Successes(|a.dispatched| - 1) + [false]| == |a.dispatched|;
    assert false in (Successes(|a.dispatched| - 1) + [false]) && false in (Successes(|b.dispatched| - 1) + [false]);
  }

  // ------------------------------------------------------------------ progress

  function ToGo(s: State, steps: seq<Spec>): int {
    var rest := 5 * (|steps| - |s.dispatched|);
    if |s.flights| == 0 then 0
    else
      match s.flights[|s.flights| - 1]
      case Advancing(_, _) => rest + 4
      case Running(_) => rest + 8
      case Completing(_) => rest + 7
      case Fetched(_, _) => rest + 6
      case Failing => rest + 3
      case Caught(_) => rest + 2
      case Cleaned(_) => rest + 1
      case CleaningUp => rest + 1
      case Done => rest
  }

  /** Every step of the live flight comes closer to the end. */
  lemma Progress(s: State, k: nat, ok: bool, atomic: bool, steps: seq<Spec>, catchSpec: Option<Spec>)
    requires Inv(s, steps, catchSpec) && Live(s, k) && |steps| >= 2
    ensures 0 <= ToGo(Move(s, k, ok, atomic), steps) < ToGo(s, steps)
  {
    MoveInv(s, k, ok, atomic, steps, catchSpec);
  }

  // ------------------------------------------------------------------ the two stores have the same runs

  /** A job whose listener has read the entry and not written it back looks like one that has not read it. */
  function Unread(flight: Flight): Flight {
    if flight.Fetched? then Completing(flight.i) else flight
  }

  /** A state of a run with the reading and writing store, as the atomic store would show it. */
  function Abs(s: State): State {
    s.(flights := seq(|s.flights|, k requires 0 <= k < |s.flights| => Unread(s.flights[k])))
  }

  /** A step with the reading and writing store is the read, which shows nothing, or the step of the atomic store. */
  lemma StepAgrees(s: State, k: nat, ok: bool, steps: seq<Spec>, catchSpec: Option<Spec>)
    requires Inv(s, steps, catchSpec) && Live(s, k)
    ensures if s.flights[k].Completing? then Abs(Move(s, k, ok, false)) == Abs(s)
            else Live(Abs(s), k) && Abs(Move(s, k, ok, false)) == Move(Abs(s), k, ok, true)
  {
    var m := Step(s, s.flights[k], ok, false);
    FlightAgrees(s, s.flights[k], ok);
    hide Tells, Step;
    assert Abs(Move(s, k, ok, false)).flights == Abs(s).flights[k := Unread(m.flight)] + m.begun;
    assert Abs(s).flights[k := Abs(s).flights[k]] + [] == Abs(s).flights;
  }

  lemma FlightAgrees(s: State, flight: Flight, ok: bool)
    requires flight.Fetched? ==> flight.entry == s.stored
    ensures var m := Step(s, flight, ok, false);
            && (forall x :: x in m.begun ==> !x.Fetched?)
            && if flight.Completing? then m == Moved(s, Fetched(flight.i, s.stored), [])
               else forall flights ::
                      var t := Step(s.(flights := flights), Unread(flight), ok, true);
                      t.state == m.state.(flights := flights) && t.begun == m.begun && t.flight == Unread(m.flight)
  {
  }

  /** The states of a run as the atomic store shows them, without the steps that show nothing. */
  function Shown(states: seq<State>): (r: seq<State>)
    requires |states| > 0
    ensures |r| > 0 && r[0] == Abs(states[0]) && r[|r| - 1] == Abs(states[|states| - 1])
  {
    var last := |states| - 1;
    if last == 0 then [Abs(states[0])]
    else if Abs(states[last]) == Abs(states[last - 1]) then Shown(states[..last])
    else Shown(states[..last]) + [Abs(states[last])]
  }

  lemma ShownSnoc(states: seq<State>, s: State)
    requires |states| > 0
    ensures Shown(states + [s]) ==
            if Abs(s) == Abs(states[|states| - 1]) then Shown(states) else Shown(states) + [Abs(s)]
  {
    assert (states + [s])[..|states|] == states;
  }

  lemma RunSnoc(states: seq<State>, events: seq<Event>, atomic: bool, e: Event, s: State)
    requires IsRun(states, events, atomic) && Live(states[|events|], e.k)
             && s == Move(states[|events|], e.k, e.ok, atomic)
    ensures IsRun(states + [s], events + [e], atomic)
  {
    hide Live, Move;
  }

  /** A longer run is a shorter one and a step. */
  lemma RunInit(states: seq<State>, events: seq<Event>, atomic: bool)
    returns (init: seq<State>, before: seq<Event>, e: Event, s: State)
    requires IsRun(states, events, atomic) && events != []
    ensures states == init + [s] && events == before + [e] && init[0] == states[0]
    ensures IsRun(init, before, atomic) && Live(init[|before|], e.k) && s == Move(init[|before|], e.k, e.ok, atomic)
  {
    var n := |events|;
    init, before, e, s := states[..n], events[..n - 1], events[n - 1], states[n];
    hide Live, Move;
  }

  /** A step that leads closer to the end changes the state. */
  lemma StepShows(s: State, k: nat, ok: bool, atomic: bool, steps: seq<Spec>, catchSpec: Option<Spec>)
    requires Inv(s, steps, catchSpec) && Live(s, k) && |steps| >= 2
    ensures Move(s, k, ok, atomic) != s
  {
    Progress(s, k, ok, atomic, steps, catchSpec);
  }

  /** Every run with the reading and writing store is shown as a run with the atomic one. */
  lemma {:induction false} ShownIsRun(states: seq<State>, events: seq<Event>, steps: seq<Spec>, catchSpec: Option<Spec>)
    returns (shown: seq<Event>)
    requires |steps| >= 2 && IsRun(states, events, false) && states[0] == Saved(steps, catchSpec)
    ensures IsRun(Shown(states), shown, true) && Shown(states)[0] == Saved(steps, catchSpec)
    decreases |events|
  {
    if events == [] {
      shown := [];
      assert Abs(states[0]) == states[0];
    } else {
      var init, before, e, s := RunInit(states, events, false);
      var last := init[|before|];
      shown := ShownIsRun(init, before, steps, catchSpec);
      RunInv(init, before, false, steps, catchSpec, |before|);
      StepAgrees(last, e.k, e.ok, steps, catchSpec);
      ShownSnoc(init, s);
      hide Abs, Move, Live, Inv, Shown;
      if Abs(s) != Abs(last) {
        RunSnoc(Shown(init), shown, true, e, Abs(s));
        shown := shown + [e];
      }
    }
  }

  /** Every run with the atomic store is shown by a run with the reading and writing one. */
  lemma {:induction false} RunIsShown(shown: seq<State>, events: seq<Event>, steps: seq<Spec>, catchSpec: Option<Spec>)
    returns (states: seq<State>, all: seq<Event>)
    requires |steps| >= 2 && IsRun(shown, events, true) && shown[0] == Saved(steps, catchSpec)
    ensures IsRun(states, all, false) && states[0] == Saved(steps, catchSpec)
    ensures states[|all|] == shown[|events|] && Abs(shown[|events|]) == shown[|events|] && Shown(states) == shown
    decreases |events|
  {
    if events == [] {
      states, all := shown, [];
      assert Abs(states[0]) == states[0];
    } else {
      var init, before, e, s := RunInit(shown, events, true);
      states, all := RunIsShown(init, before, steps, catchSpec);
      var last := init[|before|];
      RunInv(init, before, true, steps, catchSpec, |before|);
      AtomicStep(last, e.k, e.ok, steps, catchSpec);
      var t := Move(last, e.k, e.ok, false);
      ShownSnoc(states, t);
      hide Abs, Move, Live, Inv, Shown;
      RunSnoc(states, all, false, e, t);
      states, all := states + [t], all + [e];
      if last.flights[e.k].Completing? {
        ShownSnoc(states, s);
        RunSnoc(states, all, false, e, s);
        states, all := states + [s], all + [e];
      }
    }
  }

  /** A step of the atomic store is the same step of the other, or its read and what follows it. */
  lemma AtomicStep(s: State, k: nat, ok: bool, steps: seq<Spec>, catchSpec: Option<Spec>)
    requires Inv(s, steps, catchSpec) && Live(s, k) && |steps| >= 2 && Abs(s) == s
    ensures var t := Move(s, k, ok, false);
            && Move(s, k, ok, true) != s && Abs(Move(s, k, ok, true)) == Move(s, k, ok, true)
            && if s.flights[k].Completing? then
                 Abs(t) == s && Live(t, k) && Move(t, k, ok, false) == Move(s, k, ok, true)
               else
                 t == Move(s, k, ok, true)
  {
    var t := Move(s, k, ok, false);
    StepShows(s, k, ok, true, steps, catchSpec);
    StepAgrees(s, k, ok, steps, catchSpec);
    assert s.flights[k] == Unread(s.flights[k]);
    if s.flights[k].Completing? {
      MoveInv(s, k, ok, false, steps, catchSpec);
      StepAgrees(t, k, ok, steps, catchSpec);
    }
  }

  ghost predicate HasRun(states: seq<State>, atomic: bool, steps: seq<Spec>, catchSpec: Option<Spec>)
    requires |steps| >= 2
  {
    exists events :: IsRun(states, events, atomic) && states[0] == Saved(steps, catchSpec)
  }

  ghost predicate IsShown(shown: seq<State>, steps: seq<Spec>, catchSpec: Option<Spec>)
    requires |steps| >= 2
  {
    exists states :: HasRun(states, false, steps, catchSpec) && Shown(states) == shown
  }

  /** The runs with the atomic store are exactly those the reading and writing store shows. */
  lemma StoresAgree(shown: seq<State>, steps: seq<Spec>, catchSpec: Option<Spec>)
    requires |steps| >= 2
    ensures HasRun(shown, true, steps, catchSpec) <==> IsShown(shown, steps, catchSpec)
  {
    if HasRun(shown, true, steps, catchSpec) {
      var events :| IsRun(shown, events, true) && shown[0] == Saved(steps, catchSpec);
      var states, all := RunIsShown(shown, events, steps, catchSpec);
      assert HasRun(states, false, steps, catchSpec);
    }
    if IsShown(shown, steps, catchSpec) {
      var states :| HasRun(states, false, steps, catchSpec) && Shown(states) == shown;
      var events :| IsRun(states, events, false) && states[0] == Saved(steps, catchSpec);
      var kept := ShownIsRun(states, events, steps, catchSpec);
    }
    hide Shown, IsRun;
  }
}
