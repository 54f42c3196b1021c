/**
 * The two chain stores, one over a map of entries and one over a key-value client holding
 * serialised entries, and the builder that fills them. Both keep the abstract queue of `Chain`.
 */
module ChainStore {
  import opened Text
  import opened Chain

  class MemoryChainStore {
    var store: map<string, Entry>

    constructor ()
      ensures store == map[]
    {
      store := map[];
    }

    function Stored(id: string): Option<Entry>
      reads this
    {
      if id in store then Some(store[id]) else None
    }

    method Save(id: string, steps: seq<Spec>, catchSpec: Option<Spec>)
      modifies this
      ensures Stored(id) == Some(Entry(steps, catchSpec))
      ensures forall other :: other != id ==> Stored(other) == old(Stored(other))
    {
      store := store[id := Entry(steps, catchSpec)];
    }

    method Next(id: string) returns (next: Option<Spec>)
      modifies this
      ensures (next, Stored(id)) == TakeNext(old(Stored(id)))
      ensures forall other :: other != id ==> Stored(other) == old(Stored(other))
    {
      if id !in store || |store[id].steps| == 0 { return None; }
      var entry := store[id];
      next := Some(entry.steps[0]);
      entry := entry.(steps := entry.steps[1..]);
      store := store[id := entry];
      if |entry.steps| == 0 && entry.catchSpec.None? { store := store - {id}; }
    }

    method Catch(id: string) returns (handler: Option<Spec>)
      ensures handler == CatchOf(Stored(id))
    {
      handler := if id in store then store[id].catchSpec else None;
    }

    method Cleanup(id: string)
      modifies this
      ensures Stored(id) == None
      ensures forall other :: other != id ==> Stored(other) == old(Stored(other))
    {
      store := store - {id};
    }
  }

  /** `JSON.stringify` and `JSON.parse` on entries: what is written is read back. */
  datatype Codec = Codec(encode: Entry -> string, decode: string -> Option<Entry>) {
    ghost predicate Faithful() {
      forall e: Entry :: Reads(e)
    }

    predicate Reads(e: Entry) {
      encode(e) != "" && decode(encode(e)) == Some(e)
    }
  }

  function KeyOf(id: string): string {
    "chain:" + id
  }

  lemma KeysDiffer(a: string, b: string)
    requires KeyOf(a) == KeyOf(b)
    ensures a == b
  {
    assert KeyOf(a)[6..] == a && KeyOf(b)[6..] == b;
  }

  class RedisChainStore {
    const codec: Codec
    /** The client's keys and values. */
    var client: map<string, string>

    /** Every value under a chain key was written by this store. */
    ghost predicate Valid()
      reads this
    {
      && codec.Faithful()
      && forall id :: KeyOf(id) in client ==> exists e :: client[KeyOf(id)] == codec.encode(e)
    }

    constructor (codec: Codec)
      requires codec.Faithful()
      ensures Valid() && client == map[] && this.codec == codec
    {
      this.codec, client := codec, map[];
    }

    function Stored(id: string): Option<Entry>
      reads this
    {
      if KeyOf(id) in client then codec.decode(client[KeyOf(id)]) else None
    }

    /** Writing or deleting one key leaves the other chains alone. */
    twostate lemma OthersKept(id: string)
      requires codec.Faithful() && client - {KeyOf(id)} == old(client) - {KeyOf(id)}
      ensures forall other :: other != id ==> Stored(other) == old(Stored(other))
    {
      forall other | other != id
        ensures Stored(other) == old(Stored(other))
      {
        if KeyOf(other) == KeyOf(id) { KeysDiffer(other, id); }
        assert KeyOf(other) in client - {KeyOf(id)} <==> KeyOf(other) in old(client) - {KeyOf(id)};
        assert KeyOf(other) in client ==> (client - {KeyOf(id)})[KeyOf(other)] == client[KeyOf(other)];
      }
    }

    method Save(id: string, steps: seq<Spec>, catchSpec: Option<Spec>)
      requires Valid()
      modifies this
      ensures Valid() && Stored(id) == Some(Entry(steps, catchSpec))
      ensures forall other :: other != id ==> Stored(other) == old(Stored(other))
    {
      Write(id, Entry(steps, catchSpec));
    }

    method Write(id: string, entry: Entry)
      requires Valid()
      modifies this
      ensures Valid() && Stored(id) == Some(entry)
      ensures forall other :: other != id ==> Stored(other) == old(Stored(other))
    {
      assert codec.Reads(entry);
      client := client[KeyOf(id) := codec.encode(entry)];
      OthersKept(id);
    }

    method Delete(id: string)
      requires Valid()
      modifies this
      ensures Valid() && Stored(id) == None
      ensures forall other :: other != id ==> Stored(other) == old(Stored(other))
    {
      client := client - {KeyOf(id)};
      OthersKept(id);
    }

    method Next(id: string) returns (next: Option<Spec>)
      requires Valid()
      modifies this
      ensures Valid() && (next, Stored(id)) == TakeNext(old(Stored(id)))
      ensures forall other :: other != id ==> Stored(other) == old(Stored(other))
    {
      if KeyOf(id) !in client { return None; }
      var raw := codec.decode(client[KeyOf(id)]);
      ghost var e :| client[KeyOf(id)] == codec.encode(e);
      assert codec.Reads(e);
      var entry := raw.value;
      if |entry.steps| == 0 { return None; }
      next := Some(entry.steps[0]);
      entry := entry.(steps := entry.steps[1..]);
      if |entry.steps| == 0 && entry.catchSpec.None? {
        Delete(id);
      } else {
        Write(id, entry);
      }
    }

    method Catch(id: string) returns (handler: Option<Spec>)
      requires Valid()
      ensures handler == CatchOf(Stored(id))
    {
      if KeyOf(id) !in client { return None; }
      var raw := codec.decode(client[KeyOf(id)]);
      ghost var e :| client[KeyOf(id)] == codec.encode(e);
      assert codec.Reads(e);
      handler := raw.value.catchSpec;
    }

    method Cleanup(id: string)
      requires Valid()
      modifies this
      ensures Valid() && Stored(id) == None
      ensures forall other :: other != id ==> Stored(other) == old(Stored(other))
    {
      Delete(id);
    }
  }

  // ------------------------------------------------------------------ either store

  /** What builder and listeners know of a store: one of the two. */
  datatype ChainStore = InMemory(memory: MemoryChainStore) | InRedis(redis: RedisChainStore) {
    ghost function Held(): object {
      match this case InMemory(m) => m case InRedis(r) => r
    }

    ghost predicate Valid()
      reads Held()
    {
      InRedis? ==> redis.Valid()
    }

    ghost function Stored(id: string): Option<Entry>
      reads Held()
    {
      match this case InMemory(m) => m.Stored(id) case InRedis(r) => r.Stored(id)
    }

    method Save(id: string, steps: seq<Spec>, catchSpec: Option<Spec>)
      requires Valid()
      modifies Held()
      ensures Valid() && Stored(id) == Some(Entry(steps, catchSpec))
      ensures forall other :: other != id ==> Stored(other) == old(Stored(other))
    {
      match this {
        case InMemory(m) => m.Save(id, steps, catchSpec);
        case InRedis(r) => r.Save(id, steps, catchSpec);
      }
    }

    method Next(id: string) returns (next: Option<Spec>)
      requires Valid()
      modifies Held()
      ensures Valid() && (next, Stored(id)) == TakeNext(old(Stored(id)))
      ensures forall other :: other != id ==> Stored(other) == old(Stored(other))
    {
      match this {
        case InMemory(m) => next := m.Next(id);
        case InRedis(r) => next := r.Next(id);
      }
    }

    method Catch(id: string) returns (handler: Option<Spec>)
      requires Valid()
      ensures handler == CatchOf(Stored(id))
    {
      match this {
        case InMemory(m) => handler := m.Catch(id);
        case InRedis(r) => handler := r.Catch(id);
      }
    }

    method Cleanup(id: string)
      requires Valid()
      modifies Held()
      ensures Valid() && Stored(id) == None
      ensures forall other :: other != id ==> Stored(other) == old(Stored(other))
    {
      match this {
        case InMemory(m) => m.Cleanup(id);
        case InRedis(r) => r.Cleanup(id);
      }
    }
  }

  // ------------------------------------------------------------------ the builder

  /** A dispatched job, with its chain and its place in it. */
  datatype Sent = Sent(spec: Spec, chain: Option<(string, nat)>)

  class ChainBuilder {
    const steps: seq<Spec>
    var catchSpec: Option<Spec>

    constructor (steps: seq<Spec>)
      ensures this.steps == steps && catchSpec == None
    {
      this.steps, catchSpec := steps, None;
    }

    method Catch(handler: Spec)
      modifies this
      ensures catchSpec == Some(handler)
    {
      catchSpec := Some(handler);
    }

    /** Saves the rest of a longer chain, then dispatches its first step; shorter ones are not stored. */
    method Dispatch(id: string, store: ChainStore) returns (sent: seq<Sent>)
      requires store.Valid()
      modifies store.Held()
      ensures store.Valid()
      ensures |steps| < 2 ==> unchanged(store.Held())
      ensures |steps| == 0 ==> sent == []
      ensures |steps| == 1 ==> sent == [Sent(steps[0], None)]
      ensures |steps| >= 2 ==>
                && store.Stored(id) == Saved(steps, catchSpec).stored
                && var first := Saved(steps, catchSpec).flights[0];
                   sent == [Sent(first.spec, Some((id, first.i)))]
      ensures forall other :: other != id ==> store.Stored(other) == old(store.Stored(other))
    {
      if |steps| == 0 { return []; }
      if |steps| == 1 { return [Sent(steps[0], None)]; }
      store.Save(id, steps[1..], catchSpec);
      sent := [Sent(steps[0], Some((id, 0)))];
    }
  }

  // ------------------------------------------------------------------ the listeners

  function SpecsOf(sent: seq<Sent>): seq<Spec> {
    seq(|sent|, i requires 0 <= i < |sent| => sent[i].spec)
  }

  /** After step `i` completed: the next one, or nothing left. Two moves of its flight with nothing in between. */
  method OnCompleted(store: ChainStore, id: string, i: nat, ghost s: State,
                     ghost k: nat) returns (sent: seq<Sent>)
    requires k < |s.flights| && s.flights[k] == Completing(i) && s.stored == store.Stored(id)
    requires store.Valid()
    modifies store.Held()
    ensures store.Valid()
    ensures var t := Move(Move(s, k, true, true), k, true, true);
            store.Stored(id) == t.stored && s.dispatched + SpecsOf(sent) == t.dispatched
    ensures forall x :: x in sent ==> x.chain == Some((id, i + 1))
    ensures forall other :: other != id ==> store.Stored(other) == old(store.Stored(other))
  {
    var next := store.Next(id);
    if next.None? {
      store.Cleanup(id);
      return [];
    }
    sent := [Sent(next.value, Some((id, i + 1)))];
  }

  /** After a final failure: the handler if there is one, and no entry is left. Three moves of its flight. */
  method OnFailed(store: ChainStore, id: string, ghost s: State, ghost k: nat) returns (sent: seq<Sent>)
    requires k < |s.flights| && s.flights[k] == Failing && s.stored == store.Stored(id)
    requires store.Valid()
    modifies store.Held()
    ensures store.Valid()
    ensures var t := Move(Move(Move(s, k, true, true), k, true, true), k, true, true);
            store.Stored(id) == t.stored && s.handlers + SpecsOf(sent) == t.handlers
    ensures forall x :: x in sent ==> x.chain == None
    ensures forall other :: other != id ==> store.Stored(other) == old(store.Stored(other))
  {
    var handler := store.Catch(id);
    store.Cleanup(id);
    if handler.None? { return []; }
    sent := [Sent(handler.value, None)];
  }
}
