/**
 * Whole runs of the capped store: exactly when the cap shows, in buckets and in decisions, and the
 * sustained rate of a key that keeps its bucket.
 */
module RateRuns {
  import opened Lists
  import opened Text
  import opened TokenBucket
  import opened RateLimit

  // ------------------------------------------------------------------ when the cap shows

  /** At no moment of the run does the bucket of `key` differ from that of a store without cap. */
  ghost predicate BucketsAgree(log: seq<Request>, key: string, cap: nat)
    requires AllUsable(log)
  {
    forall i: nat :: i <= |log| ==> Capped(log[..i], key, cap) == Unbounded(log[..i], key)
  }

  /** At no moment would any call of `key` be decided differently. */
  ghost predicate DecisionsAgree(log: seq<Request>, key: string, cap: nat)
    requires AllUsable(log)
  {
    forall i: nat, p: Policy, now: int :: i <= |log| && Usable(p) ==> SameDecision(log[..i], key, cap, p, now)
  }

  predicate SameDecision(log: seq<Request>, key: string, cap: nat, p: Policy, now: int)
    requires AllUsable(log) && Usable(p)
  {
    Use(Capped(log, key, cap), p, now).1 == Use(Unbounded(log, key), p, now).1
  }

  lemma {:induction false} UsedHasBucket(log: seq<Request>, key: string)
    requires AllUsable(log) && Used(log, key)
    ensures Unbounded(log, key).Some?
  {
    if log[|log| - 1].key != key {
      UsedHasBucket(log[..|log| - 1], key);
    }
  }

  lemma {:induction false} KeptUpBefore(log: seq<Request>, key: string, cap: nat, i: nat)
    requires KeptUp(log, key, cap) && i <= |log|
    ensures KeptUp(log[..i], key, cap)
  {
    if i < |log| {
      KeptUpBefore(log[..|log| - 1], key, cap, i);
      assert log[..|log| - 1][..i] == log[..i];
    } else {
      assert log[..i] == log;
    }
  }

  /** Where the condition first fails, the bucket is lost here and kept without cap. */
  lemma {:induction false} LostSomewhere(log: seq<Request>, key: string, cap: nat) returns (i: nat)
    requires AllUsable(log) && !KeptUp(log, key, cap) && cap > 0
    ensures i <= |log| && Capped(log[..i], key, cap).None? && Unbounded(log[..i], key).Some?
  {
    if KeptUp(log[..|log| - 1], key, cap) {
      i := |log|;
      assert log[..i] == log;
      HasBucket(log, key, cap);
      UsedHasBucket(log, key);
    } else {
      i := LostSomewhere(log[..|log| - 1], key, cap);
      assert log[..|log| - 1][..i] == log[..i];
    }
  }

  /** The cap stays invisible exactly while fewer than `cap` other keys come between and after the calls of `key`. */
  lemma KeptUpExactly(log: seq<Request>, key: string, cap: nat)
    requires AllUsable(log) && cap > 0
    ensures KeptUp(log, key, cap) <==> BucketsAgree(log, key, cap)
  {
    if KeptUp(log, key, cap) {
      forall i: nat | i <= |log|
        ensures Capped(log[..i], key, cap) == Unbounded(log[..i], key)
      {
        KeptUpBefore(log, key, cap, i);
        CapInvisible(log[..i], key, cap);
      }
    } else {
      var i := LostSomewhere(log, key, cap);
      assert Capped(log[..i], key, cap) != Unbounded(log[..i], key);
    }
  }

  // ------------------------------------------------------------------ in decisions

  /** What bucket `b` would hold at `now` without bound, at one token a millisecond. */
  function Grown(b: Bucket, now: int): real {
    if now > b.lastRefillMs then b.tokens + (now - b.lastRefillMs) as real else b.tokens
  }

  /** At every time there is a policy under which a lost bucket decides differently from the kept one. */
  lemma LostBucketShows(b: Bucket, now: int)
    requires b.tokens >= 0.0
    ensures var p := Policy(1.0, 1.0, Grown(b, now) + 2.0);
            Usable(p) && Use(None, p, now).1 != Use(Some(b), p, now).1
  {
    var p := Policy(1.0, 1.0, Grown(b, now) + 2.0);
    var kept := Found(Some(b), p, now);
    assert Refill(p, now - b.lastRefillMs) == (now - b.lastRefillMs) as real;
    assert kept.tokens == Grown(b, now) && Found(None, p, now).tokens == kept.tokens + 2.0;
    hide Found;
    assert Use(None, p, now).1.remaining == (kept.tokens + 1.0).Floor;
    if kept.tokens >= 1.0 {
      assert Use(Some(b), p, now).1.remaining == (kept.tokens - 1.0).Floor;
    }
  }

  lemma {:induction false} NoDebt(log: seq<Request>, key: string)
    requires AllUsable(log)
    ensures Unbounded(log, key).Some? ==> Unbounded(log, key).value.tokens >= 0.0
  {
    if log != [] {
      var before, last := Unbounded(log[..|log| - 1], key), log[|log| - 1];
      NoDebt(log[..|log| - 1], key);
      if last.key == key && before.Some? && last.now > before.value.lastRefillMs {
        RefillGrows(last.policy, last.now - before.value.lastRefillMs);
      }
      hide Refill;
    }
  }

  /** The condition is exact for decisions as well. */
  lemma KeptUpDecides(log: seq<Request>, key: string, cap: nat)
    requires AllUsable(log) && cap > 0
    ensures KeptUp(log, key, cap) <==> DecisionsAgree(log, key, cap)
  {
    KeptUpExactly(log, key, cap);
    if !KeptUp(log, key, cap) {
      var i := LostSomewhere(log, key, cap);
      NoDebt(log[..i], key);
      var b := Unbounded(log[..i], key).value;
      LostBucketShows(b, 0);
      hide Use, Usable, Unbounded, Capped, KeptUp;
      assert !SameDecision(log[..i], key, cap, Policy(1.0, 1.0, Grown(b, 0) + 2.0), 0);
    }
  }

  // ------------------------------------------------------------------ the last gap alone

  /** One call for each of `keys`. */
  function Calls(keys: seq<string>, p: Policy): seq<Request> {
    if keys == [] then [] else Calls(keys[..|keys| - 1], p) + [Request(keys[|keys| - 1], p, 0)]
  }

  function Members(keys: seq<string>): set<string> {
    set k | k in keys
  }

  lemma {:induction false} MembersSize(keys: seq<string>)
    requires Unique(keys)
    ensures |Members(keys)| == |keys|
  {
    if keys != [] {
      MembersSize(keys[..|keys| - 1]);
      assert Members(keys) == Members(keys[..|keys| - 1]) + {keys[|keys| - 1]};
    }
  }

  /** Calls of other keys leave the bucket of `key` alone, but for the cap. */
  lemma {:induction false} OthersPass(log: seq<Request>, key: string, keys: seq<string>, p: Policy)
    requires AllUsable(log) && Usable(p) && key !in keys
    ensures AllUsable(log + Calls(keys, p))
    ensures Unbounded(log + Calls(keys, p), key) == Unbounded(log, key)
    ensures OthersSince(log + Calls(keys, p), key) == OthersSince(log, key) + Members(keys)
  {
    if keys == [] {
      assert log + Calls(keys, p) == log;
    } else {
      var init, last := keys[..|keys| - 1], Request(keys[|keys| - 1], p, 0);
      assert Calls(keys, p) == Calls(init, p) + [last];
      assert Members(keys) == Members(init) + {last.key} && last.key != key;
      hide *;
      OthersPass(log, key, init, p);
      OneMore(log + Calls(init, p), last, key, 1);
      assert log + Calls(keys, p) == log + Calls(init, p) + [last];
    }
  }

  /** `key` twice, then the other keys, then `key` again. */
  function WithGap(key: string, others: seq<string>, p: Policy): seq<Request> {
    [Request(key, p, 0), Request(key, p, 0)] + Calls(others, p) + [Request(key, p, 0)]
  }

  /**
   * That few other keys came since the last call of a key alone is not enough: with any cap, an
   * earlier loss still shows. Here a second call after the gap passes, which it would not without the cap.
   */
  lemma LastGapIsNotEnough(key: string, others: seq<string>, cap: nat)
    requires cap > 0 && |others| == cap && Unique(others) && key !in others
    ensures var p := Policy(1.0, 1.0, 2.0); var log := WithGap(key, others, p);
            && AllUsable(log) && OthersSince(log, key) == {}
            && Use(Capped(log, key, cap), p, 0).1.allowed && !Use(Unbounded(log, key), p, 0).1.allowed
  {
    var p := Policy(1.0, 1.0, 2.0);
    var a := Request(key, p, 0);
    TwoTokens(p);
    NoCalls(key, cap);
    MembersSize(others);
    var gap := [a, a] + Calls(others, p);
    hide *;
    OneMore([], a, key, cap);
    OneMore([a], a, key, cap);
    assert [] + [a] == [a] && [a] + [a] == [a, a];
    OthersPass([a, a], key, others, p);
    assert {} + Members(others) == Members(others);
    HasBucket(gap, key, cap);
    OneMore(gap, a, key, cap);
    IsGap(key, others, p);
  }

  lemma IsGap(key: string, others: seq<string>, p: Policy)
    ensures WithGap(key, others, p) ==
            [Request(key, p, 0), Request(key, p, 0)] + Calls(others, p) + [Request(key, p, 0)]
  {
  }

  lemma TwoTokens(p: Policy)
    requires p == Policy(1.0, 1.0, 2.0)
    ensures Usable(p)
    ensures Use(None, p, 0).0 == Bucket(1.0, 0) && Use(Some(Bucket(1.0, 0)), p, 0).0 == Bucket(0.0, 0)
    ensures Use(Some(Bucket(1.0, 0)), p, 0).1.allowed && !Use(Some(Bucket(0.0, 0)), p, 0).1.allowed
  {
  }

  lemma NoCalls(key: string, cap: nat)
    ensures AllUsable([]) && Unbounded([], key) == None && Capped([], key, cap) == None && OthersSince([], key) == {}
  {
  }

  /** `n` keys: `b`, `bb`, `bbb`, … */
  function ManyKeys(n: nat): (keys: seq<string>)
    ensures |keys| == n && forall k :: k in keys ==> k != "" && k[0] == 'b' && |k| <= n
  {
    if n == 0 then [] else ManyKeys(n - 1) + [seq(n, i => 'b')]
  }

  lemma {:induction false} ManyKeysDiffer(n: nat)
    ensures Unique(ManyKeys(n))
  {
    if n > 0 {
      ManyKeysDiffer(n - 1);
      assert ManyKeys(n)[..n - 1] == ManyKeys(n - 1);
    }
  }

  /** The run with the cap of the store: 10,003 calls, then one that passes though two tokens are spent. */
  lemma LastGapInTheStore()
    ensures var p := Policy(1.0, 1.0, 2.0); var log := WithGap("a", ManyKeys(LRU_CAP), p);
            && AllUsable(log) && |OthersSince(log, "a")| < LRU_CAP
            && Use(Capped(log, "a", LRU_CAP), p, 0).1.allowed && !Use(Unbounded(log, "a"), p, 0).1.allowed
  {
    ManyKeysDiffer(LRU_CAP);
    assert LRU_CAP > 0;
    hide *;
    LastGapIsNotEnough("a", ManyKeys(LRU_CAP), LRU_CAP);
  }

  // ------------------------------------------------------------------ the sustained rate in the store

  /** The clock readings of the calls of `key`. */
  function TimesOf(log: seq<Request>, key: string): seq<int> {
    if log == [] then []
    else TimesOf(log[..|log| - 1], key) + if log[|log| - 1].key == key then [log[|log| - 1].now] else []
  }

  /** All calls of `key` come with the policy `p`. */
  predicate OnePolicy(log: seq<Request>, key: string, p: Policy) {
    forall i :: 0 <= i < |log| && log[i].key == key ==> log[i].policy == p
  }

  predicate Between(log: seq<Request>, key: string, start: int, end: int) {
    forall i :: 0 <= i < |log| && log[i].key == key ==> start <= log[i].now <= end
  }

  /** How many calls of `key` in `span`, coming after `before`, the store allows. */
  function AllowedIn(before: seq<Request>, span: seq<Request>, key: string, cap: nat): nat
    requires AllUsable(before) && AllUsable(span)
  {
    if span == [] then 0
    else
      var init, last := span[..|span| - 1], span[|span| - 1];
      AllowedIn(before, init, key, cap) +
      if last.key == key && Use(Capped(before + init, key, cap), last.policy, last.now).1.allowed then 1 else 0
  }

  /** One call more in the span. */
  lemma SpanMore(before: seq<Request>, init: seq<Request>, r: Request, key: string, cap: nat)
    requires AllUsable(before) && AllUsable(init) && Usable(r.policy)
    ensures AllUsable(init + [r])
    ensures Unbounded(before + (init + [r]), key) ==
            if r.key == key then Some(Use(Unbounded(before + init, key), r.policy, r.now).0)
            else Unbounded(before + init, key)
    ensures TimesOf(init + [r], key) == TimesOf(init, key) + if r.key == key then [r.now] else []
    ensures AllowedIn(before, init + [r], key, cap) ==
            AllowedIn(before, init, key, cap) +
            if r.key == key && Use(Capped(before + init, key, cap), r.policy, r.now).1.allowed then 1 else 0
  {
    assert (init + [r])[..|init|] == init;
    assert before + (init + [r]) == before + init + [r];
    OneMore(before + init, r, key, 1);
    hide Use, Unbounded, Capped;
  }

  lemma TimeMore(b: Option<Bucket>, p: Policy, times: seq<int>, now: int)
    requires Usable(p)
    ensures After(b, p, times + [now]) == Some(Use(After(b, p, times), p, now).0)
    ensures Allowed(b, p, times + [now]) ==
            Allowed(b, p, times) + if Use(After(b, p, times), p, now).1.allowed then 1 else 0
  {
    assert (times + [now])[..|times|] == times;
    hide Use;
  }

  lemma SpanParts(span: seq<Request>, key: string, p: Policy) returns (init: seq<Request>, last: Request)
    requires span != [] && AllUsable(span) && OnePolicy(span, key, p)
    ensures span == init + [last] && |init| < |span|
    ensures AllUsable(init) && OnePolicy(init, key, p) && Usable(last.policy) && (last.key == key ==> last.policy == p)
  {
    init, last := span[..|span| - 1], span[|span| - 1];
    hide Usable;
  }

  lemma KeptUpPart(before: seq<Request>, init: seq<Request>, last: Request, key: string, cap: nat)
    requires KeptUp(before + (init + [last]), key, cap)
    ensures KeptUp(before + init, key, cap)
  {
    assert (before + (init + [last]))[..|before + init|] == before + init;
  }

  lemma AllUsableBoth(a: seq<Request>, b: seq<Request>)
    requires AllUsable(a) && AllUsable(b)
    ensures AllUsable(a + b)
  {
    hide Usable;
  }

  lemma {:induction false} BucketOfTimes(before: seq<Request>, span: seq<Request>, key: string, p: Policy)
    requires AllUsable(before) && AllUsable(span) && Usable(p) && OnePolicy(span, key, p)
    ensures AllUsable(before + span)
    ensures Unbounded(before + span, key) == After(Unbounded(before, key), p, TimesOf(span, key))
    decreases |span|
  {
    if span == [] {
      assert before + span == before;
    } else {
      var init, last := SpanParts(span, key, p);
      hide *;
      BucketOfTimes(before, init, key, p);
      SpanMore(before, init, last, key, 1);
      TimeMore(Unbounded(before, key), p, TimesOf(init, key), last.now);
      assert TimesOf(init, key) + [] == TimesOf(init, key);
    }
  }

  lemma {:induction false} AllowedOfTimes(before: seq<Request>, span: seq<Request>, key: string, p: Policy, cap: nat)
    requires AllUsable(before) && AllUsable(span) && Usable(p) && OnePolicy(span, key, p)
    requires KeptUp(before + span, key, cap) && cap > 0
    ensures AllowedIn(before, span, key, cap) == Allowed(Unbounded(before, key), p, TimesOf(span, key))
    decreases |span|
  {
    if span != [] {
      var init, last := SpanParts(span, key, p);
      KeptUpPart(before, init, last, key, cap);
      hide *;
      assert TimesOf(init, key) + [] == TimesOf(init, key);
      AllUsableBoth(before, init);
      AllowedOfTimes(before, init, key, p, cap);
      CapInvisible(before + init, key, cap);
      BucketOfTimes(before, init, key, p);
      SpanMore(before, init, last, key, cap);
      TimeMore(Unbounded(before, key), p, TimesOf(init, key), last.now);
    }
  }

  lemma {:induction false} TimesBetween(log: seq<Request>, key: string, start: int, end: int)
    requires Between(log, key, start, end)
    ensures forall t :: t in TimesOf(log, key) ==> start <= t <= end
  {
    if log != [] {
      TimesBetween(log[..|log| - 1], key, start, end);
    }
  }

  /** A key with one policy and no call after `start` has a bucket in range, refilled no later. */
  lemma {:induction false} BucketFits(log: seq<Request>, key: string, p: Policy, start: int)
    requires AllUsable(log) && Usable(p) && OnePolicy(log, key, p)
    requires forall i :: 0 <= i < |log| && log[i].key == key ==> log[i].now <= start
    ensures var b := Unbounded(log, key); b.Some? ==> InRange(b.value, p) && b.value.lastRefillMs <= start
  {
    if log != [] {
      BucketFits(log[..|log| - 1], key, p, start);
      TokensInRange(Unbounded(log[..|log| - 1], key), p, log[|log| - 1].now);
      hide InRange, Refill;
    }
  }

  lemma NoTimes(b: Option<Bucket>, p: Policy)
    requires Usable(p)
    ensures Allowed(b, p, []) == 0 && p.burst >= 0.0
  {
  }

  /**
   * The sustained rate in the store: of the calls on one key from `start` to `end`, after any earlier
   * ones, at most `burst + limit * (end - start) / windowMs` are allowed, as long as the key keeps its
   * bucket and its policy.
   */
  lemma StoreRate(before: seq<Request>, span: seq<Request>, key: string, p: Policy, cap: nat, start: int, end: int)
    requires AllUsable(before) && AllUsable(span) && Usable(p) && start <= end && cap > 0
    requires OnePolicy(before, key, p) && OnePolicy(span, key, p) && KeptUp(before + span, key, cap)
    requires forall i :: 0 <= i < |before| && before[i].key == key ==> before[i].now <= start
    requires Between(span, key, start, end)
    ensures AllowedIn(before, span, key, cap) as real <= p.burst + Refill(p, end - start)
  {
    var b, times := Unbounded(before, key), TimesOf(span, key);
    NoTimes(b, p);
    AllowedOfTimes(before, span, key, p, cap);
    BucketFits(before, key, p, start);
    TimesBetween(span, key, start, end);
    RefillGrows(p, end - start);
    hide *;
    if times != [] {
      assert times[0] in times && forall i :: 0 <= i < |times| ==> times[i] in times;
      RateBound(b, p, times, times[0], end);
      RefillMonotone(p, end - times[0], end - start);
    }
  }
}
