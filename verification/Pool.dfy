/**
 * The bounded-concurrency runner as a step system: workers share one counter, and thunks settle
 * in any order. `outcome` gives what descriptor `i` resolves to.
 */
module Pool {
  import opened Lists
  import opened Text

  /** A worker waits for its thunk, or has written its result and is about to look for more. */
  datatype Worker = Running(i: nat) | Between(i: nat) | Finished | Died(i: nat)

  datatype State<T> = State(next: nat, workers: seq<Worker>, started: seq<nat>, results: map<nat, T>)

  /** How many workers `n` descriptors get: one each, unless the bound is smaller and positive. */
  function WorkersFor(n: nat, concurrency: int): nat {
    if concurrency <= 0 || concurrency >= n then n else concurrency
  }

  /** Every worker takes its first descriptor before any thunk settles. */
  function Start<T>(n: nat, concurrency: int): State<T> {
    var w := WorkersFor(n, concurrency);
    State(w, seq(w, k requires 0 <= k < w => Running(k)), seq(w, k requires 0 <= k < w => k), map[])
  }

  datatype Event = Resolve(k: nat) | Reject(k: nat) | Continue(k: nat)

  predicate Enabled<T>(s: State<T>, e: Event) {
    e.k < |s.workers| && match e
                         case Resolve(k) => s.workers[k].Running?
                         case Reject(k) => s.workers[k].Running?
                         case Continue(k) => s.workers[k].Between?
  }

  function Next<T>(s: State<T>, e: Event, n: nat, outcome: nat -> T): State<T>
    requires Enabled(s, e)
  {
    match e
    case Resolve(k) =>
      var i := s.workers[k].i;
      s.(workers := s.workers[k := Between(i)], results := s.results[i := outcome(i)])
    case Reject(k) =>
      s.(workers := s.workers[k := Died(s.workers[k].i)])
    case Continue(k) =>
      if s.next < n
      then s.(next := s.next + 1, workers := s.workers[k := Running(s.next)], started := s.started + [s.next])
      else s.(workers := s.workers[k := Finished])
  }

  // ------------------------------------------------------------------ counting workers

  lemma {:induction false} CountUpdate(workers: seq<Worker>, k: nat, now: Worker, w: Worker)
    requires k < |workers|
    ensures Count(workers[k := now], w) + (if workers[k] == w then 1 else 0) ==
            Count(workers, w) + if now == w then 1 else 0
  {
    var last := |workers| - 1;
    if k < last {
      CountUpdate(workers[..last], k, now, w);
      assert workers[k := now][..last] == workers[..last][k := now];
    } else {
      assert workers[k := now][..last] == workers[..last];
    }
  }

  // ------------------------------------------------------------------ what every run keeps

  /** Descriptor `i` has been started: it is with one worker that waits, or it has a result, or it was rejected. */
  predicate Accounted<T>(s: State<T>, i: nat) {
    Count(s.workers, Running(i)) + One(i in s.results) + Count(s.workers, Died(i)) == One(i < s.next)
  }

  predicate BetweenIsDone<T>(s: State<T>) {
    forall k :: 0 <= k < |s.workers| && s.workers[k].Between? ==> s.workers[k].i in s.results
  }

  ghost predicate Inv<T>(s: State<T>, n: nat, concurrency: int, outcome: nat -> T) {
    && |s.workers| == WorkersFor(n, concurrency) <= s.next <= n
    && s.started == seq(s.next, i => i)
    && (forall i: nat :: Accounted(s, i))
    && (forall i :: i in s.results ==> s.results[i] == outcome(i))
    && BetweenIsDone(s)
    && ((exists k :: 0 <= k < |s.workers| && s.workers[k].Finished?) ==> s.next == n)
  }

  lemma {:induction false} FirstWorkers(w: nat, i: nat)
    ensures Count(seq(w, k requires 0 <= k < w => Running(k)), Running(i)) == One(i < w)
    ensures Count(seq(w, k requires 0 <= k < w => Running(k)), Died(i)) == 0
  {
    if w > 0 {
      FirstWorkers(w - 1, i);
      var all := seq(w, k requires 0 <= k < w => Running(k));
      assert all[..w - 1] == seq(w - 1, k requires 0 <= k < w - 1 => Running(k));
    }
  }

  lemma StartInv<T>(n: nat, concurrency: int, outcome: nat -> T)
    ensures Inv(Start<T>(n, concurrency), n, concurrency, outcome)
  {
    var s := Start<T>(n, concurrency);
    forall i: nat
      ensures Accounted(s, i)
    {
      FirstWorkers(WorkersFor(n, concurrency), i);
    }
  }

  lemma NextAccounted<T>(s: State<T>, e: Event, n: nat, outcome: nat -> T, i: nat)
    requires Enabled(s, e) && (forall j: nat :: Accounted(s, j)) && s.next <= n
    ensures Accounted(Next(s, e, n, outcome), i)
  {
    var k := e.k;
    var now := Next(s, e, n, outcome).workers[k];
    assert Accounted(s, i);
    CountUpdate(s.workers, k, now, Running(i));
    CountUpdate(s.workers, k, now, Died(i));
    if e.Resolve? {
      CountIn(s.workers, Running(s.workers[k].i));
      assert Accounted(s, s.workers[k].i);
    }
    hide Count;
  }

  lemma NextInv<T>(s: State<T>, e: Event, n: nat, concurrency: int, outcome: nat -> T)
    requires Inv(s, n, concurrency, outcome) && Enabled(s, e)
    ensures Inv(Next(s, e, n, outcome), n, concurrency, outcome)
  {
    forall i: nat
      ensures Accounted(Next(s, e, n, outcome), i)
    {
      NextAccounted(s, e, n, outcome, i);
    }
    hide Accounted;
  }

  // ------------------------------------------------------------------ whole runs

  ghost predicate Leads<T>(s: State<T>, e: Event, t: State<T>, n: nat, outcome: nat -> T) {
    Enabled(s, e) && t == Next(s, e, n, outcome)
  }

  ghost predicate IsRun<T>(states: seq<State<T>>, events: seq<Event>, n: nat, outcome: nat -> T) {
    && |states| == |events| + 1
    && forall i :: 0 <= i < |events| ==> Leads(states[i], events[i], states[i + 1], n, outcome)
  }

  lemma {:induction false} RunInv<T>(states: seq<State<T>>, events: seq<Event>, n: nat, concurrency: int,
                                     outcome: nat -> T, i: nat)
    requires IsRun(states, events, n, outcome) && states[0] == Start(n, concurrency) && i < |states|
    ensures Inv(states[i], n, concurrency, outcome)
  {
    if i == 0 {
      StartInv(n, concurrency, outcome);
    } else {
      RunInv(states, events, n, concurrency, outcome, i - 1);
      assert Leads(states[i - 1], events[i - 1], states[i], n, outcome);
      NextInv(states[i - 1], events[i - 1], n, concurrency, outcome);
    }
  }

  /** How many workers wait for a thunk. */
  function Active(workers: seq<Worker>): (count: nat)
    ensures count <= |workers|
  {
    if workers == [] then 0 else Active(workers[..|workers| - 1]) + One(workers[|workers| - 1].Running?)
  }

  predicate Quiet<T>(s: State<T>) {
    forall k :: 0 <= k < |s.workers| ==> s.workers[k].Finished? || s.workers[k].Died?
  }

  predicate NoneDied<T>(s: State<T>) {
    forall k :: 0 <= k < |s.workers| ==> !s.workers[k].Died?
  }

  /**
   * At every moment of every run: descriptors were started in order, each once; there are as many
   * workers as a positive bound allows, or one for each descriptor, and none stops while a
   * descriptor is left; no more are running than the bound allows; every result is that of its
   * descriptor. When all workers are through and no thunk was rejected, every descriptor has its
   * result.
   */
  lemma Bounded<T>(states: seq<State<T>>, events: seq<Event>, n: nat, concurrency: int, outcome: nat -> T, i: nat)
    requires IsRun(states, events, n, outcome) && states[0] == Start(n, concurrency) && i < |states|
    ensures var s := states[i];
            && s.started == seq(s.next, j => j) && s.next <= n
            && |s.workers| == (if 0 < concurrency < n then concurrency else n)
            && (s.next < n ==> forall k :: 0 <= k < |s.workers| ==> !s.workers[k].Finished?)
            && (concurrency > 0 ==> Active(s.workers) <= concurrency)
            && (forall j :: j in s.results ==> j < s.next && s.results[j] == outcome(j))
            && (Quiet(s) && NoneDied(s) ==> s.next == n && forall j: nat :: j in s.results <==> j < n)
  {
    var s := states[i];
    RunInv(states, events, n, concurrency, outcome, i);
    forall j: nat
      ensures j in s.results ==> j < s.next
      ensures Quiet(s) && NoneDied(s) ==> (j in s.results <==> j < s.next)
    {
      assert Accounted(s, j);
      CountIn(s.workers, Running(j));
      CountIn(s.workers, Died(j));
    }
    assert |s.workers| == 0 ==> s.next == n;
    assert Quiet(s) && NoneDied(s) && |s.workers| > 0 ==> s.workers[0].Finished?;
  }

  function Weight(w: Worker): nat {
    match w
    case Running(_) => 2
    case Between(_) => 1
    case _ => 0
  }

  function Weights(workers: seq<Worker>): nat {
    if workers == [] then 0 else Weights(workers[..|workers| - 1]) + Weight(workers[|workers| - 1])
  }

  lemma {:induction false} WeightsUpdate(workers: seq<Worker>, k: nat, now: Worker)
    requires k < |workers|
    ensures Weights(workers[k := now]) + Weight(workers[k]) == Weights(workers) + Weight(now)
  {
    var last := |workers| - 1;
    if k < last {
      WeightsUpdate(workers[..last], k, now);
      assert workers[k := now][..last] == workers[..last][k := now];
    } else {
      assert workers[k := now][..last] == workers[..last];
    }
  }

  /** Every step comes closer to the end. */
  lemma Progress<T>(s: State<T>, e: Event, n: nat, outcome: nat -> T)
    requires Enabled(s, e) && s.next <= n
    ensures var t := Next(s, e, n, outcome);
            t.next <= n && 2 * (n - t.next) + Weights(t.workers) < 2 * (n - s.next) + Weights(s.workers)
  {
    WeightsUpdate(s.workers, e.k, Next(s, e, n, outcome).workers[e.k]);
  }

  // ------------------------------------------------------------------ named results

  datatype Descriptor = Descriptor(index: nat, key: Option<string>)

  predicate Resolved<T>(descriptors: seq<Descriptor>, results: map<nat, T>) {
    forall i :: 0 <= i < |descriptors| ==> descriptors[i].index in results
  }

  /** The results under the names given, entered in order. */
  function Named<T>(descriptors: seq<Descriptor>, results: map<nat, T>): map<string, T>
    requires Resolved(descriptors, results)
  {
    if descriptors == [] then map[]
    else
      var d := descriptors[|descriptors| - 1];
      var before := Named(descriptors[..|descriptors| - 1], results);
      if d.key.Some? then before[d.key.value := results[d.index]] else before
  }

  method NameResults<T>(descriptors: seq<Descriptor>, results: map<nat, T>) returns (named: map<string, T>)
    requires Resolved(descriptors, results)
    ensures named == Named(descriptors, results)
  {
    named := map[];
    var n := 0;
    while n < |descriptors|
      invariant n <= |descriptors| && named == Named(descriptors[..n], results)
    {
      assert descriptors[..n + 1][..n] == descriptors[..n];
      var d := descriptors[n];
      if d.key.Some? { named := named[d.key.value := results[d.index]]; }
      n := n + 1;
    }
    assert descriptors[..n] == descriptors;
  }

  /** Descriptor `i` has the name, and no later one has. */
  predicate IsLast(descriptors: seq<Descriptor>, i: nat, key: string) {
    i < |descriptors| && descriptors[i].key == Some(key)
    && forall j :: i < j < |descriptors| ==> descriptors[j].key != Some(key)
  }

  /** A name stands for the last descriptor that has it, and other names are not there. */
  lemma {:induction false} NamedIs<T>(descriptors: seq<Descriptor>, results: map<nat, T>, key: string)
    requires Resolved(descriptors, results)
    ensures forall i: nat :: IsLast(descriptors, i, key) ==>
              key in Named(descriptors, results) && Named(descriptors, results)[key] == results[descriptors[i].index]
    ensures key in Named(descriptors, results) ==> exists i: nat :: IsLast(descriptors, i, key)
  {
    if descriptors != [] {
      var last := |descriptors| - 1;
      var init := descriptors[..last];
      NamedIs(init, results, key);
      forall i: nat
        ensures IsLast(descriptors, i, key) <==>
                if descriptors[last].key == Some(key) then i == last else IsLast(init, i, key)
      {
        assert forall j :: 0 <= j < last ==> init[j] == descriptors[j];
      }
      assert descriptors[last].key == Some(key) ==> IsLast(descriptors, last, key);
      hide IsLast;
    }
  }
}
