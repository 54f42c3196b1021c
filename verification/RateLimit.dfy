/**
 * The in-memory store: one insertion-ordered map of buckets with a cap. Its buckets are those of
 * an unbounded store except where a key lost its bucket: after as many other keys as the cap.
 */
module RateLimit {
  import opened Lists
  import opened Text
  import opened TokenBucket

  const LRU_CAP: nat := 10_000

  datatype Request = Request(key: string, policy: Policy, now: int)

  // ------------------------------------------------------------------ lists of distinct keys

  function Drop(keys: seq<string>, key: string): seq<string> {
    if keys == [] then []
    else Drop(keys[..|keys| - 1], key) + if keys[|keys| - 1] == key then [] else [keys[|keys| - 1]]
  }

  /** The keys after the one and only `key`. */
  function Behind(keys: seq<string>, key: string): set<string> {
    if keys == [] || keys[|keys| - 1] == key then {}
    else Behind(keys[..|keys| - 1], key) + {keys[|keys| - 1]}
  }

  /** The last `cap` keys. */
  function Newest(keys: seq<string>, cap: nat): seq<string> {
    if |keys| <= cap then keys else keys[|keys| - cap..]
  }

  /** What the definitions say of a list with one more key. */
  lemma Snoc(keys: seq<string>, last: string, key: string)
    ensures Unique(keys + [last]) <==> Unique(keys) && last !in keys
    ensures Drop(keys + [last], key) == if last == key then Drop(keys, key) else Drop(keys, key) + [last]
    ensures Behind(keys + [last], key) == if last == key then {} else Behind(keys, key) + {last}
    ensures forall cap: nat :: cap > 0 ==> Newest(keys + [last], cap) == Newest(keys, cap - 1) + [last]
  {
    assert (keys + [last])[..|keys|] == keys;
  }

  lemma Nil(key: string)
    ensures Unique<string>([]) && Drop([], key) == [] && Behind([], key) == {}
  {
  }

  lemma Parts(keys: seq<string>) returns (init: seq<string>, last: string)
    requires keys != []
    ensures keys == init + [last] && |init| < |keys|
  {
    init, last := keys[..|keys| - 1], keys[|keys| - 1];
  }

  lemma {:induction false} DropKeeps(keys: seq<string>, key: string)
    requires Unique(keys)
    ensures Unique(Drop(keys, key))
    ensures forall k :: k in Drop(keys, key) <==> k in keys && k != key
    ensures key !in keys ==> Drop(keys, key) == keys
    ensures key in keys ==> |Drop(keys, key)| == |keys| - 1
    decreases |keys|
  {
    hide Unique, Drop;
    Nil(key);
    if keys != [] {
      var init, last := Parts(keys);
      Snoc(init, last, key);
      DropKeeps(init, key);
      Snoc(Drop(init, key), last, key);
    }
  }

  lemma {:induction false} DropAppend(a: seq<string>, b: seq<string>, key: string)
    ensures Drop(a + b, key) == Drop(a, key) + Drop(b, key)
  {
    if b == [] {
      assert a + b == a;
    } else {
      DropAppend(a, b[..|b| - 1], key);
      assert (a + b)[..|a + b| - 1] == a + b[..|b| - 1];
    }
  }

  lemma {:induction false} DropAbsent(keys: seq<string>, key: string)
    requires key !in keys
    ensures Drop(keys, key) == keys
  {
    if keys != [] {
      DropAbsent(keys[..|keys| - 1], key);
    }
  }

  lemma {:induction false} UniqueParts(a: seq<string>, b: seq<string>, key: string)
    requires Unique(a + b) && key in b
    ensures key !in a
    decreases |b|
  {
    var init, last := Parts(b);
    Snoc(a + init, last, key);
    assert a + b == a + init + [last];
    hide Unique;
    if key != last {
      UniqueParts(a, init, key);
    }
  }

  lemma {:induction false} BehindInside(keys: seq<string>, key: string)
    ensures Behind(keys, key) <= (set k | k in keys) - {key}
  {
    if keys != [] && keys[|keys| - 1] != key {
      BehindInside(keys[..|keys| - 1], key);
    }
  }

  lemma {:induction false} BehindDrop(keys: seq<string>, key: string, gone: string)
    requires Unique(keys) && key in keys && key != gone
    ensures Behind(Drop(keys, gone), key) == Behind(keys, key) - {gone}
    decreases |keys|
  {
    hide Unique, Drop, Behind;
    var init, last := Parts(keys);
    Snoc(init, last, key);
    Snoc(init, last, gone);
    Snoc(Drop(init, gone), last, key);
    if last == gone {
      DropAbsent(init, gone);
      BehindInside(init, key);
      assert gone !in Behind(init, key);
    } else if last != key {
      BehindDrop(init, key, gone);
    }
  }

  /** A key is among the newest `cap` exactly when fewer than `cap` others came after it. */
  lemma {:induction false} NewestByBehind(keys: seq<string>, key: string, cap: nat)
    requires Unique(keys) && key in keys
    ensures key in Newest(keys, cap) <==> |Behind(keys, key)| < cap
    decreases |keys|
  {
    var init, last := Parts(keys);
    Snoc(init, last, key);
    if cap > 0 && last != key {
      BehindInside(init, key);
      hide Unique, Behind, Newest;
      NewestByBehind(init, key, cap - 1);
      assert last !in Behind(init, key);
    }
  }

  // ------------------------------------------------------------------ keys by their last use

  /** All keys ever used, each once, by their last use. */
  function Recency(log: seq<Request>): seq<string> {
    if log == [] then []
    else
      var key := log[|log| - 1].key;
      Drop(Recency(log[..|log| - 1]), key) + [key]
  }

  /** The other keys used since the last use of `key`. */
  function OthersSince(log: seq<Request>, key: string): set<string> {
    if log == [] || log[|log| - 1].key == key then {}
    else OthersSince(log[..|log| - 1], key) + {log[|log| - 1].key}
  }

  predicate Used(log: seq<Request>, key: string) {
    log != [] && (log[|log| - 1].key == key || Used(log[..|log| - 1], key))
  }

  lemma {:induction false} RecencyUnique(log: seq<Request>, key: string)
    ensures Unique(Recency(log))
    ensures key in Recency(log) <==> Used(log, key)
  {
    if log != [] {
      var before, last := Recency(log[..|log| - 1]), log[|log| - 1].key;
      hide Unique, Drop;
      RecencyUnique(log[..|log| - 1], key);
      DropKeeps(before, last);
      Snoc(Drop(before, last), last, key);
    }
  }

  lemma {:induction false} BehindIsOthers(log: seq<Request>, key: string)
    requires Used(log, key)
    ensures Behind(Recency(log), key) == OthersSince(log, key)
  {
    var before, last := Recency(log[..|log| - 1]), log[|log| - 1].key;
    hide Unique, Drop, Behind;
    RecencyUnique(log[..|log| - 1], key);
    DropKeeps(before, last);
    Snoc(Drop(before, last), last, key);
    if last != key {
      BehindIsOthers(log[..|log| - 1], key);
      BehindDrop(before, key, last);
    }
  }

  // ------------------------------------------------------------------ the map

  /** Delete and set again; a new key that finds the map full deletes the oldest entry first. */
  function Touched(order: seq<string>, key: string, cap: nat): seq<string> {
    if key in order then Drop(order, key) + [key]
    else (if |order| >= cap && order != [] then order[1..] else order) + [key]
  }

  /** The order of the map is the recency of the log, cut to the cap. */
  lemma TouchedIsNewest(log: seq<Request>, request: Request, cap: nat)
    requires cap > 0
    ensures Touched(Newest(Recency(log), cap), request.key, cap) == Newest(Recency(log + [request]), cap)
  {
    var keys, key := Recency(log), request.key;
    assert (log + [request])[..|log|] == log;
    RecencyUnique(log, key);
    hide Unique, Drop, Touched;
    if |keys| <= cap {
      AllTouched(keys, key, cap);
    } else {
      var older, newer := keys[..|keys| - cap], keys[|keys| - cap..];
      assert keys == older + newer;
      NewestTouched(older, newer, key, cap);
    }
  }

  lemma AllTouched(keys: seq<string>, key: string, cap: nat)
    requires Unique(keys) && |keys| <= cap && cap > 0
    ensures Touched(keys, key, cap) == Newest(Drop(keys, key) + [key], cap)
  {
    DropKeeps(keys, key);
    hide Unique, Drop;
    assert key !in keys && |keys| == cap ==> (keys + [key])[1..] == keys[1..] + [key];
  }

  lemma NewestTouched(older: seq<string>, newer: seq<string>, key: string, cap: nat)
    requires Unique(older + newer) && |newer| == cap > 0
    ensures Touched(newer, key, cap) == Newest(Drop(older + newer, key) + [key], cap)
  {
    DropAppend(older, newer, key);
    hide Unique, Drop;
    if key in newer {
      UniqueParts(older, newer, key);
      DropAbsent(older, key);
      UniquePart(older, newer);
      DropKeeps(newer, key);
      assert (older + Drop(newer, key) + [key])[|older|..] == Drop(newer, key) + [key];
    } else {
      DropAbsent(newer, key);
      var d := Drop(older, key);
      assert (d + newer + [key])[|d| + 1..] == newer[1..] + [key];
    }
  }

  lemma {:induction false} UniquePart(a: seq<string>, b: seq<string>)
    requires Unique(a + b)
    ensures Unique(b)
    decreases |b|
  {
    if b != [] {
      var init, last := Parts(b);
      assert a + b == a + init + [last];
      Snoc(a + init, last, last);
      Snoc(init, last, last);
      hide Unique;
      UniquePart(a, init);
    }
  }

  // ------------------------------------------------------------------ the buckets

  predicate AllUsable(log: seq<Request>) {
    forall i :: 0 <= i < |log| ==> Usable(log[i].policy)
  }

  /** The bucket of `key` when buckets are never given up. */
  function Unbounded(log: seq<Request>, key: string): Option<Bucket>
    requires AllUsable(log)
  {
    if log == [] then None
    else
      var before, last := Unbounded(log[..|log| - 1], key), log[|log| - 1];
      if last.key == key then Some(Use(before, last.policy, last.now).0) else before
  }

  /** The bucket of `key` when it is given up after `cap` other keys. */
  function Capped(log: seq<Request>, key: string, cap: nat): Option<Bucket>
    requires AllUsable(log)
  {
    if log == [] then None
    else
      var before, last := Capped(log[..|log| - 1], key, cap), log[|log| - 1];
      if last.key == key then Some(Use(before, last.policy, last.now).0)
      else if |OthersSince(log, key)| >= cap then None
      else before
  }

  /** Between two calls of `key`, and since the last one, fewer than `cap` other keys came by. */
  predicate KeptUp(log: seq<Request>, key: string, cap: nat) {
    log == [] ||
    (KeptUp(log[..|log| - 1], key, cap) && (Used(log, key) ==> |OthersSince(log, key)| < cap))
  }

  /** Then the cap does not show: bucket, and so every decision, are those of the unbounded store. */
  lemma {:induction false} CapInvisible(log: seq<Request>, key: string, cap: nat)
    requires AllUsable(log) && KeptUp(log, key, cap) && cap > 0
    ensures Capped(log, key, cap) == Unbounded(log, key)
  {
    if log != [] {
      CapInvisible(log[..|log| - 1], key, cap);
      NeverUsed(log, key);
    }
  }

  lemma {:induction false} NeverUsed(log: seq<Request>, key: string)
    requires AllUsable(log)
    ensures !Used(log, key) ==> Unbounded(log, key) == None
  {
    if log != [] {
      NeverUsed(log[..|log| - 1], key);
    }
  }

  /** The calls of `log` since `key` last lost its bucket. */
  function SinceLoss(log: seq<Request>, key: string, cap: nat): seq<Request> {
    if log == [] then []
    else if log[|log| - 1].key != key && |OthersSince(log, key)| >= cap then []
    else SinceLoss(log[..|log| - 1], key, cap) + [log[|log| - 1]]
  }

  lemma {:induction false} SinceLossUsable(log: seq<Request>, key: string, cap: nat)
    requires AllUsable(log)
    ensures AllUsable(SinceLoss(log, key, cap))
  {
    if log != [] {
      SinceLossUsable(log[..|log| - 1], key, cap);
    }
  }

  /** In every run the capped bucket is the unbounded one of the calls since the last loss. */
  lemma {:induction false} CappedIsRecent(log: seq<Request>, key: string, cap: nat)
    requires AllUsable(log)
    ensures AllUsable(SinceLoss(log, key, cap))
    ensures Capped(log, key, cap) == Unbounded(SinceLoss(log, key, cap), key)
  {
    SinceLossUsable(log, key, cap);
    if log != [] {
      CappedIsRecent(log[..|log| - 1], key, cap);
      var before := SinceLoss(log[..|log| - 1], key, cap);
      assert (before + [log[|log| - 1]])[..|before|] == before;
    }
  }

  lemma OneMore(log: seq<Request>, r: Request, key: string, cap: nat)
    requires AllUsable(log) && Usable(r.policy)
    ensures AllUsable(log + [r])
    ensures Unbounded(log + [r], key) ==
            if r.key == key then Some(Use(Unbounded(log, key), r.policy, r.now).0) else Unbounded(log, key)
    ensures OthersSince(log + [r], key) == if r.key == key then {} else OthersSince(log, key) + {r.key}
    ensures Capped(log + [r], key, cap) ==
            if r.key == key then Some(Use(Capped(log, key, cap), r.policy, r.now).0)
            else if |OthersSince(log + [r], key)| >= cap then None else Capped(log, key, cap)
  {
    assert (log + [r])[..|log|] == log;
  }

  /** A key has a bucket exactly when fewer than `cap` other keys came since it was last used. */
  lemma {:induction false} HasBucket(log: seq<Request>, key: string, cap: nat)
    requires AllUsable(log) && cap > 0
    ensures Capped(log, key, cap).Some? <==> Used(log, key) && |OthersSince(log, key)| < cap
  {
    if log != [] {
      HasBucket(log[..|log| - 1], key, cap);
      Larger(OthersSince(log[..|log| - 1], key), log[|log| - 1].key);
    }
  }

  lemma Larger(s: set<string>, x: string)
    ensures |s + {x}| >= |s|
  {
    assert s + {x} == s + ({x} - s);
  }

  /** So the map holds exactly the keys that have a bucket. */
  lemma InMap(log: seq<Request>, key: string, cap: nat)
    requires AllUsable(log) && cap > 0
    ensures key in Newest(Recency(log), cap) <==> Capped(log, key, cap).Some?
  {
    hide Capped, OthersSince;
    RecencyUnique(log, key);
    HasBucket(log, key, cap);
    if Used(log, key) {
      BehindIsOthers(log, key);
      NewestByBehind(Recency(log), key, cap);
    } else {
      assert forall k :: k in Newest(Recency(log), cap) ==> k in Recency(log);
    }
  }

  // ------------------------------------------------------------------ the store

  /** The JavaScript map: its keys in insertion order, and the values. */
  datatype Buckets = Buckets(order: seq<string>, states: map<string, Bucket>)

  /** The map holds the capped bucket of every key that has one, in order of last use. */
  ghost predicate Sound(b: Buckets, log: seq<Request>, cap: nat) {
    && AllUsable(log)
    && b.order == Newest(Recency(log), cap)
    && (forall key :: key in b.states <==> key in b.order)
    && forall key :: key in b.states ==> Capped(log, key, cap) == Some(b.states[key])
  }

  function Get(states: map<string, Bucket>, key: string): Option<Bucket> {
    if key in states then Some(states[key]) else None
  }

  /** A new key finds the map full. */
  predicate Evicts(order: seq<string>, key: string, cap: nat) {
    key !in order && |order| >= cap && order != []
  }

  lemma TouchedMembers(order: seq<string>, key: string, cap: nat, k: string)
    requires Unique(order)
    ensures k in Touched(order, key, cap) <==> k == key || (k in order && (Evicts(order, key, cap) ==> k != order[0]))
  {
    if key in order {
      DropKeeps(order, key);
    } else if Evicts(order, key, cap) {
      assert order == [order[0]] + order[1..];
      if k in order[1..] { UniqueParts([order[0]], order[1..], k); }
    }
  }

  lemma OrderUnique(b: Buckets, log: seq<Request>, cap: nat)
    requires Sound(b, log, cap)
    ensures Unique(b.order) && |b.order| <= cap
  {
    RecencyUnique(log, "");
    var keys := Recency(log);
    if |keys| > cap {
      assert keys == keys[..|keys| - cap] + b.order;
      UniquePart(keys[..|keys| - cap], b.order);
    }
  }

  /** The bucket a call finds is the capped one of the calls before. */
  lemma SoundGet(b: Buckets, log: seq<Request>, cap: nat, key: string)
    requires Sound(b, log, cap) && cap > 0
    ensures Get(b.states, key) == Capped(log, key, cap) && (key in b.states <==> key in b.order)
  {
    hide Recency, Capped, Newest;
    InMap(log, key, cap);
  }

  /** The map after a call. */
  function Next(b: Buckets, cap: nat, r: Request): Buckets
    requires Usable(r.policy)
  {
    Buckets(Touched(b.order, r.key, cap),
            (if Evicts(b.order, r.key, cap) then b.states - {b.order[0]} else b.states)
              [r.key := Use(Get(b.states, r.key), r.policy, r.now).0])
  }

  lemma NextAt(b: Buckets, log: seq<Request>, cap: nat, r: Request, key: string)
    requires Sound(b, log, cap) && cap > 0 && Usable(r.policy) && AllUsable(log + [r])
    requires Next(b, cap, r).order == Newest(Recency(log + [r]), cap)
    ensures var next := Next(b, cap, r);
            && (key in next.states <==> key in next.order)
            && (key in next.states ==> Capped(log + [r], key, cap) == Some(next.states[key]))
  {
    var more := log + [r];
    assert more[..|log|] == log;
    OrderUnique(b, log, cap);
    SoundGet(b, log, cap, r.key);
    SoundGet(b, log, cap, key);
    InMap(more, key, cap);
    TouchedMembers(b.order, r.key, cap, key);
    hide Sound, Recency, Newest, Use, Unique, Touched, Usable, AllUsable, OthersSince;
  }

  /** One call keeps the map sound. */
  lemma SoundUse(b: Buckets, log: seq<Request>, cap: nat, r: Request)
    requires Sound(b, log, cap) && cap > 0 && Usable(r.policy)
    ensures Sound(Next(b, cap, r), log + [r], cap)
  {
    assert AllUsable(log + [r]);
    TouchedIsNewest(log, r, cap);
    forall key
      ensures key in Next(b, cap, r).states <==> key in Next(b, cap, r).order
      ensures key in Next(b, cap, r).states ==> Capped(log + [r], key, cap) == Some(Next(b, cap, r).states[key])
    {
      NextAt(b, log, cap, r, key);
    }
    hide Capped, Recency, Newest, Use, Usable, AllUsable, Touched;
  }

  class InMemoryTokenBucketStore {
    var order: seq<string>
    var states: map<string, Bucket>
    /** All calls so far. */
    ghost var log: seq<Request>

    ghost predicate Valid()
      reads this
    {
      Sound(Buckets(order, states), log, LRU_CAP)
    }

    constructor ()
      ensures Valid() && log == []
    {
      order, states, log := [], map[], [];
    }

    /** The bucket the call finds, with its key moved to the end of the map. */
    method Fetch(key: string, policy: Policy, now: int) returns (state: Bucket)
      requires Usable(policy) && (key in states <==> key in order)
      modifies this`order, this`states
      ensures state == Found(Get(old(states), key), policy, now)
      ensures order == Touched(old(order), key, LRU_CAP)
      ensures states == if Evicts(old(order), key, LRU_CAP) then old(states) - {old(order)[0]} else old(states)
    {
      if key !in states {
        if |order| >= LRU_CAP {
          if |order| > 0 {
            states := states - {order[0]};
            order := order[1..];
          }
        }
        state := Bucket(policy.burst, now);
        order := order + [key];
      } else {
        state := states[key];
        order := Drop(order, key) + [key];
        var elapsed := now - state.lastRefillMs;
        if elapsed > 0 {
          state := Bucket(Min(policy.burst, state.tokens + Refill(policy, elapsed)), now);
        }
      }
    }

    /** The decision of the capped bucket; what is given up for a new key is the least recently used. */
    method Consume(key: string, policy: Policy, now: int) returns (d: Decision)
      requires Valid() && Usable(policy)
      modifies this
      ensures Valid() && log == old(log) + [Request(key, policy, now)]
      ensures d == Use(Capped(old(log), key, 10_000), policy, now).1
      ensures |order| <= 10_000
      ensures forall gone :: gone in old(order) && gone !in order ==> LeastRecent(old(order), key, gone)
    {
      hide Sound, Capped, Touched, Found, WaitMs;
      ghost var before := Buckets(order, states);
      OrderUnique(before, log, LRU_CAP);
      SoundGet(before, log, LRU_CAP, key);
      SoundUse(before, log, LRU_CAP, Request(key, policy, now));
      OnlyLeastRecent(before.order, key);
      var state := Fetch(key, policy, now);
      ghost var found := state;
      var allowed := state.tokens >= 1.0;
      if allowed { state := state.(tokens := state.tokens - 1.0); }
      states := states[key := state];
      var remaining := state.tokens.Floor;
      if remaining < 0 { remaining := 0; }
      var tokensNeeded := if allowed then 0.0 else 1.0 - state.tokens;
      d := Decision(allowed, remaining, now + WaitMs(tokensNeeded, policy), policy.limit);
      assert (state, d) == Decide(found, policy, now);
      log := log + [Request(key, policy, now)];
      OrderUnique(Buckets(order, states), log, LRU_CAP);
    }
  }

  /** The map was full, the key is new, and `gone` came first in the map. */
  predicate LeastRecent(order: seq<string>, key: string, gone: string) {
    |order| == 10_000 && key !in order && gone == order[0]
  }

  lemma OnlyLeastRecent(order: seq<string>, key: string)
    requires Unique(order) && |order| <= LRU_CAP
    ensures forall gone :: gone in order && gone !in Touched(order, key, LRU_CAP) ==> LeastRecent(order, key, gone)
  {
    forall gone | gone in order && gone !in Touched(order, key, LRU_CAP)
      ensures LeastRecent(order, key, gone)
    {
      TouchedMembers(order, key, LRU_CAP, gone);
    }
  }
}
