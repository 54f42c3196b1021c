/**
 * The batch store, the builder, the handle and the listeners as they run, each against the step
 * of the batch system it takes.
 */
module BatchStore {
  import opened Text
  import opened Batch

  datatype QueuedJob = QueuedJob(job: nat, batchId: string)

  /** The in-memory store together with the queue everything is dispatched to. */
  class MemoryBatchStore {
    var store: map<string, Stored>
    var queue: seq<QueuedJob>
    var sent: seq<Callback>

    constructor ()
      ensures store == map[] && queue == [] && sent == []
    {
      store, queue, sent := map[], [], [];
    }

    /** The part of a batch's state the store holds. */
    function StoredOf(id: string): Option<Stored>
      reads this
    {
      if id in store then Some(store[id]) else None
    }

    method Create(id: string, total: nat, callbacks: Callbacks)
      modifies this`store
      ensures store == old(store)[id := Stored(total, 0, 0, false, callbacks)]
    {
      store := store[id := Stored(total, 0, 0, false, callbacks)];
    }

    method IncrementCompleted(id: string) returns (progress: Stored)
      requires id in store
      modifies this`store
      ensures var b := old(store)[id]; progress == b.(completed := b.completed + 1)
      ensures store == old(store)[id := progress]
    {
      progress := store[id];
      progress := progress.(completed := progress.completed + 1);
      store := store[id := progress];
    }

    method IncrementFailed(id: string) returns (progress: Stored)
      requires id in store
      modifies this`store
      ensures var b := old(store)[id]; progress == b.(failed := b.failed + 1)
      ensures store == old(store)[id := progress]
    {
      progress := store[id];
      progress := progress.(failed := progress.failed + 1);
      store := store[id := progress];
    }

    method IncrementTotal(id: string, delta: nat)
      modifies this`store
      ensures store ==
              if id in old(store) then old(store)[id := old(store)[id].(total := old(store)[id].total + delta)]
              else old(store)
    {
      if id in store { store := store[id := store[id].(total := store[id].total + delta)]; }
    }

    method Cleanup(id: string)
      modifies this`store
      ensures store == old(store) - {id}
    {
      store := store - {id};
    }

    /** Stores the entry, then enqueues the jobs one by one; an empty batch fires at once. */
    method Dispatch(id: string, jobs: seq<nat>, callbacks: Callbacks) returns (fires: bool)
      modifies this`store, this`queue
      ensures store == old(store)[id := Stored(|jobs|, 0, 0, false, callbacks)]
      ensures queue == old(queue) + Tagged(jobs, id)
      ensures fires <==> jobs == []
    {
      Create(id, |jobs|, callbacks);
      if |jobs| == 0 { return true; }
      EnqueueAll(id, jobs);
      fires := false;
    }

    method EnqueueAll(id: string, jobs: seq<nat>)
      modifies this`queue
      ensures queue == old(queue) + Tagged(jobs, id)
    {
      var i := 0;
      while i < |jobs|
        invariant i <= |jobs| && queue == old(queue) + Tagged(jobs[..i], id)
      {
        assert Tagged(jobs[..i + 1], id) == Tagged(jobs[..i], id) + [QueuedJob(jobs[i], id)];
        queue := queue + [QueuedJob(jobs[i], id)];
        i := i + 1;
      }
      assert jobs[..i] == jobs;
    }

    /** `addJobs`: total first. */
    method AddMore(id: string, jobs: seq<nat>, ghost s: State)
      requires s.stored == StoredOf(id) && (forall i, j :: 0 <= i < j < |jobs| ==> jobs[i] != jobs[j])
      modifies this`store, this`queue
      ensures StoredOf(id) == AddJobs(s, Members(jobs)).stored
      ensures queue == old(queue) + Tagged(jobs, id)
      ensures forall other :: other != id ==> StoredOf(other) == old(StoredOf(other))
    {
      IncrementTotal(id, |jobs|);
      SetSize(jobs);
      EnqueueAll(id, jobs);
    }

    /** The listener of a final event: counts it, and says with how many failures to fire, if at all. */
    method OnFinal(id: string, j: nat, ok: bool, ghost s: State) returns (fire: Option<int>)
      requires s.stored == StoredOf(id) && s.stored.Some? && j in s.jobs && s.jobs[j] == Queued
      modifies this`store
      ensures StoredOf(id) == Finish(s, j, ok).stored
      ensures Finish(s, j, ok).firings == s.firings + (if fire.Some? then [Started(fire.value)] else [])
      ensures forall other :: other != id ==> StoredOf(other) == old(StoredOf(other))
    {
      var progress: Stored;
      if ok {
        progress := IncrementCompleted(id);
      } else {
        progress := IncrementFailed(id);
      }
      fire := if progress.completed + progress.failed == progress.total then Some(progress.failed) else None;
    }

    /** `fireBatchCallbacks` without anything in between: the entry goes, then the jobs are sent. */
    method Fire(id: string, failed: int)
      modifies this`store, this`sent
      ensures store == old(store) - {id}
      ensures sent == old(sent) +
                      match old(StoredOf(id))
                      case None => []
                      case Some(b) => Handler(failed, b.callbacks) + Last(b.callbacks)
      ensures old(StoredOf(id)).Some? ==>
                var callbacks := old(StoredOf(id)).value.callbacks;
                sent == old(sent) + (if failed == 0 && ThenJob in callbacks then [ThenJob] else [])
                                  + (if failed > 0 && CatchJob in callbacks then [CatchJob] else [])
                                  + (if FinallyJob in callbacks then [FinallyJob] else [])
    {
      var found := if id in store then Some(store[id].callbacks) else None;
      Cleanup(id);
      if found.None? { return; }
      var callbacks := found.value;
      if failed == 0 && ThenJob in callbacks { sent := sent + [ThenJob]; }
      if failed > 0 && CatchJob in callbacks { sent := sent + [CatchJob]; }
      if FinallyJob in callbacks { sent := sent + [FinallyJob]; }
    }
  }

  function Tagged(jobs: seq<nat>, id: string): (r: seq<QueuedJob>)
    ensures |r| == |jobs| && forall i :: 0 <= i < |jobs| ==> r[i].job == jobs[i] && r[i].batchId == id
  {
    seq(|jobs|, i requires 0 <= i < |jobs| => QueuedJob(jobs[i], id))
  }

  function Members(jobs: seq<nat>): set<nat> {
    set j | j in jobs
  }

  lemma {:induction false} SetSize(jobs: seq<nat>)
    requires forall i, j :: 0 <= i < j < |jobs| ==> jobs[i] != jobs[j]
    ensures |Members(jobs)| == |jobs|
  {
    if jobs != [] {
      var last := |jobs| - 1;
      SetSize(jobs[..last]);
      assert Members(jobs) == Members(jobs[..last]) + {jobs[last]};
      assert jobs[last] !in Members(jobs[..last]);
    }
  }

  /** Four steps of one firing with nothing in between are one run of `Fire`. */
  lemma FireIsFourSteps(s: State, k: nat, failed: int)
    requires k < |s.firings| && s.firings[k] == Started(failed) && s.stored.Some?
    ensures var b := s.stored.value;
            var t := Advance(Advance(Advance(Advance(s, k), k), k), k);
            t == State(None, s.jobs, s.firings[k := Over], s.sent + (Handler(failed, b.callbacks) + Last(b.callbacks)))
  {
  }
}
