/**
 * The batch barrier as a step system: jobs are enqueued, finish and are added in any interleaving,
 * and the callbacks are fired in steps between which anything else may happen.
 */
module Batch {
  import opened Text

  /** A job counted in the total: not yet on the queue, on it, or at its one final event. */
  datatype Phase = Waiting | Queued | Succeeded | Failed

  datatype Callback = ThenJob | CatchJob | FinallyJob

  type Callbacks = set<Callback>

  datatype Stored = Stored(total: int, completed: int, failed: int, cancelled: bool, callbacks: Callbacks)

  /** How far one run of `fireBatchCallbacks` got; `failed` is the number it was given. */
  datatype Firing =
    | Started(failed: int)
    | Fetched(failed: int, found: Option<Callbacks>)
    | Cleaned(failed: int, found: Option<Callbacks>)
    | HandlerSent(callbacks: Callbacks)
    | Over

  datatype State = State(stored: Option<Stored>, jobs: map<nat, Phase>, firings: seq<Firing>, sent: seq<Callback>)

  // ------------------------------------------------------------------ counting

  function Having(jobs: map<nat, Phase>, phase: Phase): set<nat> {
    set j | j in jobs && jobs[j] == phase
  }

  function OpenJobs(jobs: map<nat, Phase>): set<nat> {
    set j | j in jobs && (jobs[j] == Waiting || jobs[j] == Queued)
  }

  predicate Unfinished(jobs: map<nat, Phase>) {
    OpenJobs(jobs) != {}
  }

  lemma MovedOne(jobs: map<nat, Phase>, j: nat, phase: Phase, p: Phase)
    requires j in jobs && jobs[j] != phase
    ensures |Having(jobs[j := phase], p)| ==
            |Having(jobs, p)| + (if p == phase then 1 else if p == jobs[j] then -1 else 0)
  {
    var now := jobs[j := phase];
    if p == phase {
      assert Having(now, p) == Having(jobs, p) + {j};
    } else if p == jobs[j] {
      assert Having(now, p) == Having(jobs, p) - {j};
    } else {
      assert Having(now, p) == Having(jobs, p);
    }
  }

  lemma Moved(jobs: map<nat, Phase>, j: nat, phase: Phase)
    requires j in jobs && jobs[j] != phase
    ensures var now := jobs[j := phase];
            && |now| == |jobs|
            && forall p ::
               |Having(now, p)| == |Having(jobs, p)| + (if p == phase then 1 else if p == jobs[j] then -1 else 0)
  {
    assert jobs[j := phase].Keys == jobs.Keys;
    forall p
      ensures |Having(jobs[j := phase], p)| ==
              |Having(jobs, p)| + (if p == phase then 1 else if p == jobs[j] then -1 else 0)
    {
      MovedOne(jobs, j, phase, p);
    }
    hide Having;
  }

  lemma DisjointSum(a: set<nat>, b: set<nat>, whole: set<nat>)
    requires a !! b && whole == a + b
    ensures |whole| == |a| + |b|
  {
  }

  /** Completed and failed make up the total exactly when no job is unfinished. */
  lemma AllAccounted(jobs: map<nat, Phase>)
    ensures |jobs| ==
            |Having(jobs, Waiting)| + |Having(jobs, Queued)| + |Having(jobs, Succeeded)| + |Having(jobs, Failed)|
    ensures |Having(jobs, Succeeded)| + |Having(jobs, Failed)| == |jobs| <==> !Unfinished(jobs)
  {
    var ended := Having(jobs, Succeeded) + Having(jobs, Failed);
    DisjointSum(Having(jobs, Waiting), Having(jobs, Queued), OpenJobs(jobs));
    DisjointSum(Having(jobs, Succeeded), Having(jobs, Failed), ended);
    DisjointSum(OpenJobs(jobs), ended, jobs.Keys);
    hide Having, OpenJobs;
    assert |jobs| == |jobs.Keys|;
  }

  // ------------------------------------------------------------------ the steps

  /** `BatchBuilder.dispatch` up to the store entry; an empty batch fires at once. */
  function Created(ids: set<nat>, callbacks: Callbacks): State {
    State(Some(Stored(|ids|, 0, 0, false, callbacks)), map j | j in ids :: Waiting,
          if ids == {} then [Started(0)] else [], [])
  }

  function Enqueue(s: State, j: nat): State
    requires j in s.jobs && s.jobs[j] == Waiting
  {
    s.(jobs := s.jobs[j := Queued])
  }

  /** The listener of the final event of job `j`: count, and fire when that made the total. */
  function Finish(s: State, j: nat, ok: bool): State
    requires j in s.jobs && s.jobs[j] == Queued && s.stored.Some?
  {
    var b := s.stored.value;
    var counted := if ok then b.(completed := b.completed + 1) else b.(failed := b.failed + 1);
    State(Some(counted), s.jobs[j := if ok then Succeeded else Failed],
          if counted.completed + counted.failed == counted.total
          then s.firings + [Started(counted.failed)] else s.firings,
          s.sent)
  }

  /** `addJobs`: the total grows before any of the jobs is enqueued. */
  function AddJobs(s: State, ids: set<nat>): State {
    s.(stored := (match s.stored case None => None case Some(b) => Some(b.(total := b.total + |ids|))),
       jobs := s.jobs + (map j | j in ids :: Waiting))
  }

  /** `cancel` only sets a flag. */
  function Cancel(s: State): State {
    s.(stored := match s.stored case None => None case Some(b) => Some(b.(cancelled := true)))
  }

  /** What one dispatch sends for the outcome. */
  function Handler(failed: int, callbacks: Callbacks): seq<Callback> {
    (if failed == 0 && ThenJob in callbacks then [ThenJob] else []) +
    (if failed > 0 && CatchJob in callbacks then [CatchJob] else [])
  }

  function Last(callbacks: Callbacks): seq<Callback> {
    if FinallyJob in callbacks then [FinallyJob] else []
  }

  /** The next step of one firing. */
  function Advance(s: State, k: nat): State
    requires k < |s.firings| && !s.firings[k].Over?
  {
    match s.firings[k]
    case Started(failed) =>
      s.(firings := s.firings[k := Fetched(failed, match s.stored case None => None case Some(b) => Some(b.callbacks))])
    case Fetched(failed, callbacks) =>
      s.(stored := None, firings := s.firings[k := Cleaned(failed, callbacks)])
    case Cleaned(_, None) =>
      s.(firings := s.firings[k := Over])
    case Cleaned(failed, Some(callbacks)) =>
      s.(firings := s.firings[k := HandlerSent(callbacks)], sent := s.sent + Handler(failed, callbacks))
    case HandlerSent(callbacks) =>
      s.(firings := s.firings[k := Over], sent := s.sent + Last(callbacks))
  }

  datatype Event =
    | EnqueueEvent(j: nat)
    | FinishEvent(j: nat, ok: bool)
    | AddEvent(ids: set<nat>)
    | CancelEvent
    | AdvanceEvent(k: nat)

  /** Jobs are added while one is unfinished, and are new. */
  predicate Enabled(s: State, e: Event) {
    match e
    case EnqueueEvent(j) => j in s.jobs && s.jobs[j] == Waiting
    case FinishEvent(j, _) => j in s.jobs && s.jobs[j] == Queued
    case AddEvent(ids) => Unfinished(s.jobs) && ids !! s.jobs.Keys
    case CancelEvent => true
    case AdvanceEvent(k) => k < |s.firings| && !s.firings[k].Over?
  }

  // ------------------------------------------------------------------ what every run keeps

  /** The counters are those of the jobs. */
  predicate Counted(s: State) {
    s.stored.Some? ==>
      && s.stored.value.total == |s.jobs|
      && s.stored.value.completed == |Having(s.jobs, Succeeded)|
      && s.stored.value.failed == |Having(s.jobs, Failed)|
  }

  function FailedJobs(s: State): nat {
    |Having(s.jobs, Failed)|
  }

  /** Where the one firing stands. */
  predicate OnCourse(s: State, callbacks: Callbacks)
    requires |s.firings| == 1
  {
    match s.firings[0]
    case Started(failed) => failed == FailedJobs(s) && s.stored.Some? && s.sent == []
    case Fetched(failed, found) => failed == FailedJobs(s) && s.stored.Some? && found == Some(callbacks) && s.sent == []
    case Cleaned(failed, found) => failed == FailedJobs(s) && s.stored.None? && found == Some(callbacks) && s.sent == []
    case HandlerSent(found) => s.stored.None? && found == callbacks && s.sent == Handler(FailedJobs(s), callbacks)
    case Over => s.stored.None? && s.sent == Handler(FailedJobs(s), callbacks) + Last(callbacks)
  }

  /** Before the last job ends nothing fires; from then on there is exactly one firing. */
  predicate Inv(s: State, callbacks: Callbacks) {
    && Counted(s)
    && (s.stored.Some? ==> s.stored.value.callbacks == callbacks)
    && if Unfinished(s.jobs) then s.stored.Some? && s.firings == [] && s.sent == []
       else |s.firings| == 1 && OnCourse(s, callbacks)
  }

  lemma CreatedInv(ids: set<nat>, callbacks: Callbacks)
    ensures Inv(Created(ids, callbacks), callbacks)
  {
    var s := Created(ids, callbacks);
    assert s.jobs.Keys == ids;
    assert Having(s.jobs, Succeeded) == {} && Having(s.jobs, Failed) == {};
    assert OpenJobs(s.jobs) == ids;
  }

  function Next(s: State, e: Event): State
    requires Enabled(s, e) && (e.FinishEvent? ==> s.stored.Some?)
  {
    match e
    case EnqueueEvent(j) => Enqueue(s, j)
    case FinishEvent(j, ok) => Finish(s, j, ok)
    case AddEvent(ids) => AddJobs(s, ids)
    case CancelEvent => Cancel(s)
    case AdvanceEvent(k) => Advance(s, k)
  }

  lemma StillUnfinished(jobs: map<nat, Phase>, j: nat)
    requires j in jobs && (jobs[j] == Waiting || jobs[j] == Queued)
    ensures Unfinished(jobs)
  {
    assert j in OpenJobs(jobs);
  }

  /** Every step keeps the invariant, and the store entry is there whenever a listener needs it. */
  lemma NextInv(s: State, e: Event, callbacks: Callbacks)
    requires Inv(s, callbacks) && Enabled(s, e)
    ensures e.FinishEvent? ==> s.stored.Some?
    ensures Inv(Next(s, e), callbacks)
  {
    match e
    case EnqueueEvent(j) =>
      StillUnfinished(s.jobs, j);
      Moved(s.jobs, j, Queued);
      StillUnfinished(s.jobs[j := Queued], j);
    case FinishEvent(j, ok) =>
      FinishInv(s, j, ok, callbacks);
    case AddEvent(ids) =>
      AddInv(s, ids, callbacks);
    case CancelEvent =>
    case AdvanceEvent(k) =>
      assert Having(Advance(s, k).jobs, Failed) == Having(s.jobs, Failed);
  }

  lemma FinishInv(s: State, j: nat, ok: bool, callbacks: Callbacks)
    requires Inv(s, callbacks) && j in s.jobs && s.jobs[j] == Queued
    ensures s.stored.Some? && Inv(Finish(s, j, ok), callbacks)
  {
    StillUnfinished(s.jobs, j);
    Moved(s.jobs, j, if ok then Succeeded else Failed);
    AllAccounted(s.jobs[j := if ok then Succeeded else Failed]);
    hide Unfinished, Having;
  }

  lemma AddInv(s: State, ids: set<nat>, callbacks: Callbacks)
    requires Inv(s, callbacks) && Unfinished(s.jobs) && ids !! s.jobs.Keys
    ensures Inv(AddJobs(s, ids), callbacks)
  {
    var t := AddJobs(s, ids);
    DisjointSum(s.jobs.Keys, ids, t.jobs.Keys);
    assert |t.jobs| == |t.jobs.Keys| && |s.jobs| == |s.jobs.Keys|;
    assert Having(t.jobs, Succeeded) == Having(s.jobs, Succeeded) && Having(t.jobs, Failed) == Having(s.jobs, Failed);
    assert OpenJobs(s.jobs) <= OpenJobs(t.jobs);
    hide Having, OpenJobs;
  }

  // ------------------------------------------------------------------ whole runs

  /** The states of a run in which every event was possible in turn. */
  ghost predicate IsRun(states: seq<State>, events: seq<Event>) {
    && |states| == |events| + 1
    && forall i :: 0 <= i < |events| ==> Leads(states[i], events[i], states[i + 1])
  }

  ghost predicate Leads(s: State, e: Event, t: State) {
    Enabled(s, e) && (e.FinishEvent? ==> s.stored.Some?) && t == Next(s, e)
  }

  lemma {:induction false} RunKeepsInv(states: seq<State>, events: seq<Event>, callbacks: Callbacks, i: nat)
    requires IsRun(states, events) && Inv(states[0], callbacks) && i < |states|
    ensures Inv(states[i], callbacks)
  {
    if i > 0 {
      RunKeepsInv(states, events, callbacks, i - 1);
      assert Leads(states[i - 1], events[i - 1], states[i]);
      NextInv(states[i - 1], events[i - 1], callbacks);
    }
  }

  lemma RunInv(states: seq<State>, events: seq<Event>, ids: set<nat>, callbacks: Callbacks, i: nat)
    requires IsRun(states, events) && states[0] == Created(ids, callbacks) && i < |states|
    ensures Inv(states[i], callbacks)
  {
    CreatedInv(ids, callbacks);
    RunKeepsInv(states, events, callbacks, i);
  }

  /** What a batch sends in all: `then` iff no job failed, `catch` iff one did, `finally` in any case. */
  function Owed(s: State, callbacks: Callbacks): seq<Callback> {
    Handler(FailedJobs(s), callbacks) + Last(callbacks)
  }

  ghost predicate SomeFailed(s: State) {
    exists j :: j in s.jobs && s.jobs[j] == Failed
  }

  /** `then` only without a failed job, `catch` only with one, `finally` in any case and last; nothing twice. */
  ghost predicate SentInOrder(s: State, callbacks: Callbacks) {
    && (ThenJob in s.sent ==> ThenJob in callbacks && !SomeFailed(s))
    && (CatchJob in s.sent ==> CatchJob in callbacks && SomeFailed(s))
    && (FinallyJob in s.sent ==> FinallyJob in callbacks)
    && (forall i :: 0 <= i < |s.sent| && s.sent[i] == FinallyJob ==> i == |s.sent| - 1)
    && forall i, j :: 0 <= i < j < |s.sent| ==> s.sent[i] != s.sent[j]
  }

  /** Everything that was asked for and fits the outcome was sent. */
  ghost predicate SentAll(s: State, callbacks: Callbacks) {
    && (ThenJob in s.sent <==> ThenJob in callbacks && !SomeFailed(s))
    && (CatchJob in s.sent <==> CatchJob in callbacks && SomeFailed(s))
    && (FinallyJob in s.sent <==> FinallyJob in callbacks)
  }

  lemma FailedCount(s: State)
    ensures FailedJobs(s) > 0 <==> SomeFailed(s)
  {
    var failed := Having(s.jobs, Failed);
    if SomeFailed(s) {
      var j :| j in s.jobs && s.jobs[j] == Failed;
      assert j in failed;
    } else {
      assert failed == {};
    }
  }

  lemma OwedParts(s: State, callbacks: Callbacks)
    ensures var first := if SomeFailed(s) then CatchJob else ThenJob;
            Owed(s, callbacks) ==
            (if first in callbacks then [first] else []) + (if FinallyJob in callbacks then [FinallyJob] else [])
  {
    FailedCount(s);
    hide FailedJobs, SomeFailed;
  }

  lemma OwedIs(s: State, callbacks: Callbacks)
    ensures s.sent <= Owed(s, callbacks) ==> SentInOrder(s, callbacks)
    ensures s.sent == Owed(s, callbacks) ==> SentAll(s, callbacks)
  {
    var all, first := Owed(s, callbacks), if SomeFailed(s) then CatchJob else ThenJob;
    OwedParts(s, callbacks);
    hide Owed, SomeFailed;
    if s.sent <= all {
      assert |s.sent| > 0 ==> s.sent[0] == all[0];
      assert |s.sent| > 1 ==> s.sent[1] == all[1] == FinallyJob && s.sent[0] == first;
    }
  }

  /**
   * At every moment of every run: the counters are those of the jobs that ended, and with the
   * unfinished ones make up the total; nothing is sent while a job is unfinished; of the callbacks
   * only those asked for that fit the outcome are sent, in order and once each; and when nothing is
   * left to do, all of them were, and no entry is stored.
   */
  lemma Barrier(states: seq<State>, events: seq<Event>, ids: set<nat>, callbacks: Callbacks, i: nat)
    requires IsRun(states, events) && states[0] == Created(ids, callbacks) && i < |states|
    ensures var s := states[i];
            && (s.stored.Some? ==>
                  var b := s.stored.value;
                  && b.completed == |Having(s.jobs, Succeeded)| && b.failed == |Having(s.jobs, Failed)|
                  && b.total == b.completed + b.failed + |Having(s.jobs, Waiting)| + |Having(s.jobs, Queued)|)
            && |s.firings| <= 1
            && (Unfinished(s.jobs) ==> s.sent == [] && s.firings == [])
            && SentInOrder(s, callbacks)
            && (Quiet(s) ==> SentAll(s, callbacks) && s.stored.None?)
  {
    var s := states[i];
    RunInv(states, events, ids, callbacks, i);
    AllAccounted(s.jobs);
    OwedIs(s, callbacks);
    if Quiet(s) {
      Settled(s, callbacks);
    }
    hide SentInOrder, SentAll, Unfinished;
  }

  /** Nothing is left to do but adding jobs and cancelling. */
  ghost predicate Quiet(s: State) {
    forall e: Event :: e.AddEvent? || e.CancelEvent? || !Enabled(s, e)
  }

  lemma Settled(s: State, callbacks: Callbacks)
    requires Inv(s, callbacks) && Quiet(s)
    ensures s.sent == Owed(s, callbacks) && s.stored.None?
  {
    assert !Enabled(s, AdvanceEvent(0));
    forall j | j in s.jobs
      ensures s.jobs[j] != Waiting && s.jobs[j] != Queued
    {
      assert !Enabled(s, EnqueueEvent(j)) && !Enabled(s, FinishEvent(j, true));
    }
    assert OpenJobs(s.jobs) == {};
  }

  // ------------------------------------------------------------------ jobs added too late

  /** While a job is unfinished no firing has begun and nothing was sent. */
  predicate HoldsBack(s: State) {
    Unfinished(s.jobs) ==> s.firings == [] && s.sent == []
  }

  /** The barrier waits for every job in every run that goes on from `s`. */
  ghost predicate KeepsWaiting(s: State) {
    forall states, events, i :: IsRun(states, events) && states[0] == s && 0 <= i < |states| ==> HoldsBack(states[i])
  }

  /** At any moment of any run: the barrier waits for jobs added then if and only if some job is unfinished. */
  lemma AddOnlyInFlight(states: seq<State>, events: seq<Event>, ids: set<nat>, callbacks: Callbacks,
                        i: nat, added: set<nat>)
    requires IsRun(states, events) && states[0] == Created(ids, callbacks) && i < |states|
    requires added !! states[i].jobs.Keys && added != {}
    ensures KeepsWaiting(AddJobs(states[i], added)) <==> Unfinished(states[i].jobs)
  {
    var (s, t) := (states[i], AddJobs(states[i], added));
    RunInv(states, events, ids, callbacks, i);
    if Unfinished(s.jobs) {
      AddInv(s, added, callbacks);
      forall more, after, j | IsRun(more, after) && more[0] == t && 0 <= j < |more|
        ensures HoldsBack(more[j])
      {
        RunKeepsInv(more, after, callbacks, j);
      }
    } else {
      var j :| j in added;
      StillUnfinished(t.jobs, j);
      assert IsRun([t], []) && !HoldsBack([t][0]);
    }
  }

  /** Jobs added later are overtaken: a run goes on to send all callbacks before any of them is even enqueued. */
  lemma LateJobsOvertaken(s: State, callbacks: Callbacks, added: set<nat>)
    returns (states: seq<State>, events: seq<Event>)
    requires Inv(s, callbacks) && !Unfinished(s.jobs) && added !! s.jobs.Keys
    ensures IsRun(states, events) && states[0] == AddJobs(s, added)
    ensures forall j :: j in added ==> j in states[|events|].jobs && states[|events|].jobs[j] == Waiting
    ensures states[|events|].sent == Owed(s, callbacks)
  {
    var t := AddJobs(s, added);
    assert Having(t.jobs, Failed) == Having(s.jobs, Failed);
    states, events := FiringGoesOn(t, callbacks);
  }

  /** A firing on its course can go on to its end whatever the jobs do. */
  lemma {:induction false} FiringGoesOn(s: State, callbacks: Callbacks) returns (states: seq<State>, events: seq<Event>)
    requires |s.firings| == 1 && OnCourse(s, callbacks)
    requires s.stored.Some? ==> s.stored.value.callbacks == callbacks
    ensures IsRun(states, events) && states[0] == s
    ensures states[|events|].jobs == s.jobs && states[|events|].sent == Owed(s, callbacks)
    decreases Steps(s.firings[0])
  {
    if s.firings[0].Over? {
      states, events := [s], [];
    } else {
      var e := AdvanceEvent(0);
      var t := Next(s, e);
      var more, after := FiringGoesOn(t, callbacks);
      states, events := [s] + more, [e] + after;
      RunCons(s, e, more, after);
    }
  }

  lemma RunCons(s: State, e: Event, states: seq<State>, events: seq<Event>)
    requires IsRun(states, events) && Leads(s, e, states[0])
    ensures IsRun([s] + states, [e] + events)
  {
    hide Leads;
    forall i | 0 <= i < |events| + 1
      ensures Leads(([s] + states)[i], ([e] + events)[i], ([s] + states)[i + 1])
    {
      if i > 0 { assert Leads(states[i - 1], events[i - 1], states[i]); }
    }
  }

  // ------------------------------------------------------------------ progress

  function Steps(f: Firing): nat {
    match f
    case Started(_) => 4
    case Fetched(_, _) => 3
    case Cleaned(_, _) => 2
    case HandlerSent(_) => 1
    case Over => 0
  }

  /** Steps still to come: two per job to enqueue, one per job on the queue, then the firing. */
  function ToCome(s: State): nat {
    2 * |Having(s.jobs, Waiting)| + |Having(s.jobs, Queued)| +
    if Unfinished(s.jobs) then 5 else if s.firings == [] then 0 else Steps(s.firings[0])
  }

  /** Every step but these two comes closer to the end, so the barrier fires in every run that goes on. */
  lemma Progress(s: State, e: Event, callbacks: Callbacks)
    requires Inv(s, callbacks) && Enabled(s, e) && !e.AddEvent? && !e.CancelEvent?
    ensures (e.FinishEvent? ==> s.stored.Some?) && ToCome(Next(s, e)) < ToCome(s)
  {
    NextInv(s, e, callbacks);
    match e
    case EnqueueEvent(j) =>
      StillUnfinished(s.jobs, j);
      Moved(s.jobs, j, Queued);
      StillUnfinished(s.jobs[j := Queued], j);
    case FinishEvent(j, ok) =>
      StillUnfinished(s.jobs, j);
      Moved(s.jobs, j, if ok then Succeeded else Failed);
      hide Unfinished, Having;
    case AdvanceEvent(k) =>
  }
}
