/**
 * The token bucket of one key over exact reals: how many calls get through in a span of time,
 * and when a denied caller is let in again.
 */
module TokenBucket {
  import opened Text

  datatype Policy = Policy(limit: real, windowMs: real, burst: real)

  datatype Bucket = Bucket(tokens: real, lastRefillMs: int)

  datatype Decision = Decision(allowed: bool, remaining: int, resetMs: int, limit: real)

  function Ceil(x: real): int {
    -(-x).Floor
  }

  function Min(a: real, b: real): real {
    if a <= b then a else b
  }

  /** What accrues in `ms` milliseconds. */
  function Refill(p: Policy, ms: int): real
    requires p.windowMs > 0.0
  {
    (ms as real / p.windowMs) * p.limit
  }

  /** The bucket a call at `now` finds: a full one for a new key, else the last one refilled. */
  function Found(b: Option<Bucket>, p: Policy, now: int): Bucket
    requires p.windowMs > 0.0
  {
    match b
    case None => Bucket(p.burst, now)
    case Some(last) =>
      if now - last.lastRefillMs > 0
      then Bucket(Min(p.burst, last.tokens + Refill(p, now - last.lastRefillMs)), now)
      else last
  }

  /** How long until `needed` tokens have accrued, in whole milliseconds. */
  function WaitMs(needed: real, p: Policy): int
    requires p.limit > 0.0
  {
    Ceil((needed / p.limit) * p.windowMs)
  }

  function Decide(found: Bucket, p: Policy, now: int): (Bucket, Decision)
    requires p.limit > 0.0
  {
    var allowed := found.tokens >= 1.0;
    var left := if allowed then found.(tokens := found.tokens - 1.0) else found;
    var needed := if allowed then 0.0 else 1.0 - left.tokens;
    (left, Decision(allowed, if left.tokens.Floor > 0 then left.tokens.Floor else 0,
                    now + WaitMs(needed, p), p.limit))
  }

  predicate Usable(p: Policy) {
    p.limit > 0.0 && p.windowMs > 0.0 && p.burst >= 0.0
  }

  /** One call. */
  function Use(b: Option<Bucket>, p: Policy, now: int): (Bucket, Decision)
    requires Usable(p)
  {
    Decide(Found(b, p, now), p, now)
  }

  predicate InRange(b: Bucket, p: Policy) {
    0.0 <= b.tokens <= p.burst
  }

  // ------------------------------------------------------------------ arithmetic

  lemma RefillAdds(p: Policy, a: int, b: int)
    requires p.windowMs > 0.0
    ensures Refill(p, a + b) == Refill(p, a) + Refill(p, b)
  {
    var w := p.windowMs;
    assert (a + b) as real / w == a as real / w + b as real / w by {
      assert ((a + b) as real / w) * w == (a as real / w + b as real / w) * w;
    }
  }

  lemma RefillGrows(p: Policy, ms: int)
    requires Usable(p) && ms >= 0
    ensures Refill(p, ms) >= 0.0
  {
    assert ms as real / p.windowMs >= 0.0;
  }

  // ------------------------------------------------------------------ the rate over a run

  lemma TokensInRange(b: Option<Bucket>, p: Policy, now: int)
    requires Usable(p) && (b.Some? ==> InRange(b.value, p))
    ensures InRange(Use(b, p, now).0, p)
  {
    if b.Some? && now - b.value.lastRefillMs > 0 {
      RefillGrows(p, now - b.value.lastRefillMs);
    }
  }

  /** The bucket after calls at `times`. */
  function After(b: Option<Bucket>, p: Policy, times: seq<int>): (r: Option<Bucket>)
    requires Usable(p)
    ensures b.Some? ==> r.Some?
  {
    if times == [] then b
    else Some(Use(After(b, p, times[..|times| - 1]), p, times[|times| - 1]).0)
  }

  function Allowed(b: Option<Bucket>, p: Policy, times: seq<int>): nat
    requires Usable(p)
  {
    if times == [] then 0
    else
      var last := |times| - 1;
      Allowed(b, p, times[..last]) + if Use(After(b, p, times[..last]), p, times[last]).1.allowed then 1 else 0
  }

  /** Tokens only come from refilling: those left and those spent, in any order of clock readings. */
  lemma {:induction false} TokensAccounted(b: Bucket, p: Policy, times: seq<int>)
    requires Usable(p) && InRange(b, p)
    ensures var after := After(Some(b), p, times).value;
            && InRange(after, p) && after.lastRefillMs >= b.lastRefillMs
            && after.tokens + Allowed(Some(b), p, times) as real <=
               b.tokens + Refill(p, after.lastRefillMs - b.lastRefillMs)
  {
    if times == [] {
      RefillGrows(p, 0);
    } else {
      var last := |times| - 1;
      TokensAccounted(b, p, times[..last]);
      var before := After(Some(b), p, times[..last]).value;
      TokensInRange(Some(before), p, times[last]);
      if times[last] > before.lastRefillMs {
        RefillAdds(p, before.lastRefillMs - b.lastRefillMs, times[last] - before.lastRefillMs);
      }
      hide Refill, InRange, Usable;
    }
  }

  lemma {:induction false} LatestReading(b: Bucket, p: Policy, times: seq<int>, bound: int)
    requires Usable(p) && b.lastRefillMs <= bound && forall i :: 0 <= i < |times| ==> times[i] <= bound
    ensures After(Some(b), p, times).value.lastRefillMs <= bound
  {
    if times != [] {
      LatestReading(b, p, times[..|times| - 1], bound);
    }
  }

  /**
   * The sustained rate: of the calls on one key from `start` to `end`, the first of which finds
   * the bucket `b` or none, at most `burst + limit * (end - start) / windowMs` are allowed.
   */
  lemma RateBound(b: Option<Bucket>, p: Policy, times: seq<int>, start: int, end: int)
    requires Usable(p) && (b.Some? ==> InRange(b.value, p) && b.value.lastRefillMs <= start)
    requires times != [] && times[0] == start && forall i :: 0 <= i < |times| ==> times[i] <= end
    ensures Allowed(b, p, times) as real <= p.burst + Refill(p, end - start)
  {
    var found := Found(b, p, start);
    FoundFits(b, p, start);
    hide Refill, Found, Allowed, After, Usable;
    SameFromFound(b, p, times);
    TokensAccounted(found, p, times);
    assert times[0] <= end;
    LatestReading(found, p, times, end);
    var after := After(Some(found), p, times).value;
    RefillMonotone(p, after.lastRefillMs - start, end - start);
  }

  lemma RefillMonotone(p: Policy, a: int, b: int)
    requires Usable(p) && a <= b
    ensures Refill(p, a) <= Refill(p, b)
  {
    RefillAdds(p, a, b - a);
    RefillGrows(p, b - a);
  }

  lemma FoundFits(b: Option<Bucket>, p: Policy, now: int)
    requires Usable(p) && (b.Some? ==> InRange(b.value, p) && b.value.lastRefillMs <= now)
    ensures InRange(Found(b, p, now), p) && Found(b, p, now).lastRefillMs == now && Found(b, p, now).tokens <= p.burst
  {
    if b.Some? && now > b.value.lastRefillMs { RefillGrows(p, now - b.value.lastRefillMs); }
  }

  /** Starting from the bucket the first call finds changes nothing. */
  lemma {:induction false} SameFromFound(b: Option<Bucket>, p: Policy, times: seq<int>)
    requires Usable(p) && times != []
    ensures var found := Some(Found(b, p, times[0]));
            After(found, p, times) == After(b, p, times) && Allowed(found, p, times) == Allowed(b, p, times)
  {
    var last := |times| - 1;
    if last > 0 {
      SameFromFound(b, p, times[..last]);
    } else {
      assert times[..last] == [];
    }
  }

  // ------------------------------------------------------------------ the reset time

  /** The instant at which the bucket holds one token. */
  function ReadyAt(b: Bucket, p: Policy): real
    requires Usable(p)
  {
    b.lastRefillMs as real + ((1.0 - b.tokens) / p.limit) * p.windowMs
  }

  lemma RefillTo(p: Policy, missing: real, ms: int)
    requires Usable(p)
    ensures Refill(p, ms) >= missing <==> ms as real >= (missing / p.limit) * p.windowMs
    ensures ((missing - Refill(p, ms)) / p.limit) * p.windowMs == (missing / p.limit) * p.windowMs - ms as real
  {
    var l, w := p.limit, p.windowMs;
    var x := ms as real / w;
    assert x * w == ms as real;
    var y := missing / l;
    assert y * l == missing;
    assert (missing - x * l) / l == y - x by {
      assert (y - x) * l == missing - x * l;
    }
    assert (y - x) * w == y * w - x * w;
    assert x * l >= y * l <==> x >= y;
    assert x * w >= y * w <==> x >= y;
  }

  /** A later call that finds less than one token is denied, moves nothing and reports the same reset. */
  lemma ReadyExactly(b: Bucket, p: Policy, now: int)
    requires Usable(p) && p.burst >= 1.0 && b.tokens < 1.0 && b.lastRefillMs <= now
    ensures var (after, d) := Use(Some(b), p, now);
            && (d.allowed <==> now as real >= ReadyAt(b, p))
            && (!d.allowed ==> ReadyAt(after, p) == ReadyAt(b, p) && after.tokens < 1.0
                               && after.lastRefillMs == now && d.resetMs == Ceil(ReadyAt(b, p)))
  {
    var ms := now - b.lastRefillMs;
    RefillTo(p, 1.0 - b.tokens, ms);
    var (after, d) := Use(Some(b), p, now);
    if ms > 0 {
      hide Refill;
      if !d.allowed {
        assert after.tokens == b.tokens + Refill(p, ms);
        CeilShift(((1.0 - after.tokens) / p.limit) * p.windowMs, now);
      }
    } else {
      assert ms == 0 && Found(Some(b), p, now) == b;
      CeilShift(((1.0 - b.tokens) / p.limit) * p.windowMs, now);
    }
  }

  lemma CeilShift(x: real, n: int)
    ensures Ceil(n as real + x) == n + Ceil(x)
  {
    assert -(n as real + x) == -x - n as real;
  }

  lemma PollsBefore(start: int, polls: seq<int>, next: int)
    requires Nondecreasing(start, polls + [next])
    ensures Nondecreasing(start, polls) && start <= next && (polls != [] ==> polls[|polls| - 1] <= next)
  {
    var all := polls + [next];
    assert all[|polls|] == next && forall i :: 0 <= i < |polls| ==> all[i] == polls[i];
  }

  lemma CeilReached(x: real, n: int)
    ensures n as real >= x <==> n >= Ceil(x)
  {
  }

  predicate Nondecreasing(start: int, times: seq<int>) {
    forall i :: 0 <= i < |times| ==> start <= times[i] && (i > 0 ==> times[i - 1] <= times[i])
  }

  /**
   * After a denial every poll before `resetMs` is denied and reports the same `resetMs`, however
   * many there are, and the first call at or after it is allowed.
   */
  lemma {:induction false} ResetIsExact(b: Option<Bucket>, p: Policy, now: int, polls: seq<int>, next: int)
    requires Usable(p) && p.burst >= 1.0 && (b.Some? ==> b.value.lastRefillMs <= now)
    requires !Use(b, p, now).1.allowed
    requires Nondecreasing(now, polls + [next])
    requires forall i :: 0 <= i < |polls| ==> polls[i] < Use(b, p, now).1.resetMs
    ensures var denied := Use(b, p, now); var d := Use(After(Some(denied.0), p, polls), p, next).1;
            && (d.allowed <==> next >= denied.1.resetMs)
            && (!d.allowed ==> d.resetMs == denied.1.resetMs)
  {
    hide Use, ReadyAt, Usable, Ceil, After, Nondecreasing;
    var denied := Use(b, p, now);
    DenialStart(b, p, now);
    PollsBefore(now, polls, next);
    PollsKeep(denied.0, p, now, polls, ReadyAt(denied.0, p));
    var after := After(Some(denied.0), p, polls).value;
    ReadyExactly(after, p, next);
    CeilReached(ReadyAt(denied.0, p), next);
  }

  lemma DenialStart(b: Option<Bucket>, p: Policy, now: int)
    requires Usable(p) && p.burst >= 1.0 && (b.Some? ==> b.value.lastRefillMs <= now)
    requires !Use(b, p, now).1.allowed
    ensures var (after, d) := Use(b, p, now);
            after.tokens < 1.0 && after.lastRefillMs == now && d.resetMs == Ceil(ReadyAt(after, p))
  {
    CeilShift(((1.0 - Use(b, p, now).0.tokens) / p.limit) * p.windowMs, now);
  }

  lemma {:induction false} PollsKeep(b: Bucket, p: Policy, now: int, polls: seq<int>, ready: real)
    requires Usable(p) && p.burst >= 1.0 && b.tokens < 1.0 && b.lastRefillMs == now && ReadyAt(b, p) == ready
    requires Nondecreasing(now, polls) && forall i :: 0 <= i < |polls| ==> polls[i] < Ceil(ready)
    ensures var after := After(Some(b), p, polls).value;
            && after.tokens < 1.0 && ReadyAt(after, p) == ready
            && after.lastRefillMs == if polls == [] then now else polls[|polls| - 1]
  {
    if polls != [] {
      var last := |polls| - 1;
      PollsKeep(b, p, now, polls[..last], ready);
      ReadyExactly(After(Some(b), p, polls[..last]).value, p, polls[last]);
    }
  }

  // ------------------------------------------------------------------ what remains

  predicate AllAt(times: seq<int>, now: int) {
    forall i :: 0 <= i < |times| ==> times[i] == now
  }

  function Fewer(a: nat, b: nat): nat {
    if a <= b then a else b
  }

  lemma {:induction false} AtOnce(b: Bucket, p: Policy, now: int, times: seq<int>)
    requires Usable(p) && b.tokens >= 0.0 && now <= b.lastRefillMs && AllAt(times, now)
    ensures Allowed(Some(b), p, times) == Fewer(|times|, b.tokens.Floor)
    ensures After(Some(b), p, times) == Some(b.(tokens := b.tokens - Allowed(Some(b), p, times) as real))
  {
    if times != [] {
      AtOnce(b, p, now, times[..|times| - 1]);
    }
  }

  /** `remaining` is exact: so many more calls at the same instant are allowed, and no more. */
  lemma RemainingIsExact(b: Option<Bucket>, p: Policy, now: int, times: seq<int>)
    requires Usable(p) && (b.Some? ==> InRange(b.value, p)) && AllAt(times, now)
    ensures var (after, d) := Use(b, p, now);
            d.remaining >= 0 && Allowed(Some(after), p, times) == Fewer(|times|, d.remaining)
  {
    TokensInRange(b, p, now);
    AtOnce(Use(b, p, now).0, p, now, times);
  }

  /** With less than one token of capacity no call is ever allowed, whatever `resetMs` says. */
  lemma {:induction false} SmallBurstNeverOpens(b: Option<Bucket>, p: Policy, times: seq<int>)
    requires Usable(p) && p.burst < 1.0 && (b.Some? ==> b.value.tokens < 1.0)
    ensures Allowed(b, p, times) == 0
    ensures After(b, p, times).Some? ==> After(b, p, times).value.tokens < 1.0
  {
    if times != [] {
      SmallBurstNeverOpens(b, p, times[..|times| - 1]);
    }
  }

  // ------------------------------------------------------------------ what one call does and reports

  /**
   * A call finds a full bucket for a new key, else what it held and what accrued since, but no more
   * than the burst; it is allowed when that is a token, which it takes; the clock going back changes
   * nothing. It reports the policy's limit, the whole tokens left, and, when allowed, that the next
   * may come at once.
   */
  lemma CallExactly(b: Option<Bucket>, p: Policy, now: int)
    requires Usable(p) && (b.Some? ==> InRange(b.value, p))
    ensures var (after, d) := Use(b, p, now);
            var accrued := if b.Some? && now > b.value.lastRefillMs
                           then (now - b.value.lastRefillMs) as real / p.windowMs * p.limit else 0.0;
            var held := if b.None? then p.burst
                        else if b.value.tokens + accrued > p.burst then p.burst else b.value.tokens + accrued;
            && (d.allowed <==> held >= 1.0) && after.tokens == held - (if d.allowed then 1.0 else 0.0)
            && after.lastRefillMs == (if b.Some? && b.value.lastRefillMs > now then b.value.lastRefillMs else now)
            && d.limit == p.limit && d.remaining == after.tokens.Floor && (d.allowed ==> d.resetMs == now)
  {
    TokensInRange(b, p, now);
  }

  /** A new key gets as many calls at once as whole tokens fit the burst. */
  lemma BurstAtOnce(p: Policy, now: int, times: seq<int>)
    requires Usable(p) && AllAt(times, now)
    ensures Allowed(None, p, times) == Fewer(|times|, p.burst.Floor)
  {
    if times != [] {
      SameFromFound(None, p, times);
      AtOnce(Bucket(p.burst, now), p, now, times);
    }
  }
}
