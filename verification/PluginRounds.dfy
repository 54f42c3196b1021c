/**
 * Rounds of registration by dependencies: what the rounds are, and what they have to do with
 * longest dependency chains and reachable cycles.
 */
module PluginRounds {
  import opened Lists

  /** Pending plugins by name, with all their declared dependencies. */
  type Pending = map<string, seq<string>>

  /** The dependencies that are pending themselves, with repetitions. */
  function Within(deps: seq<string>, g: Pending): seq<string> {
    if deps == [] then []
    else if deps[|deps| - 1] in g then Within(deps[..|deps| - 1], g) + [deps[|deps| - 1]]
    else Within(deps[..|deps| - 1], g)
  }

  function DepsOf(g: Pending, p: string): seq<string>
    requires p in g
  {
    Within(g[p], g)
  }

  /** How many of `deps` are not in `done`. */
  function Missing(deps: seq<string>, done: set<string>): nat {
    if deps == [] then 0 else Missing(deps[..|deps| - 1], done) + if deps[|deps| - 1] in done then 0 else 1
  }

  lemma {:induction false} MissingLess(deps: seq<string>, done: set<string>, d: string)
    requires d !in done
    ensures Missing(deps, done + {d}) + Count(deps, d) == Missing(deps, done)
  {
    if deps != [] {
      MissingLess(deps[..|deps| - 1], done, d);
    }
  }

  lemma {:induction false} MissingNone(deps: seq<string>, done: set<string>)
    ensures Missing(deps, done) == 0 <==> forall d :: d in deps ==> d in done
  {
    if deps != [] {
      MissingNone(deps[..|deps| - 1], done);
      assert deps == deps[..|deps| - 1] + [deps[|deps| - 1]];
    }
  }

  lemma {:induction false} WithinIs(deps: seq<string>, g: Pending, d: string)
    ensures d in Within(deps, g) <==> d in deps && d in g
  {
    if deps != [] {
      WithinIs(deps[..|deps| - 1], g, d);
      assert deps == deps[..|deps| - 1] + [deps[|deps| - 1]];
    }
  }

  // ------------------------------------------------------------------ rounds

  function Done(rounds: seq<seq<string>>): set<string> {
    if rounds == [] then {} else Done(rounds[..|rounds| - 1]) + Members(rounds[|rounds| - 1])
  }

  function Members(s: seq<string>): set<string> {
    set p | p in s
  }

  ghost predicate DependsOn(g: Pending, p: string, d: string) {
    p in g && d in g && d in g[p]
  }

  /** Something `p` depends on is not done. */
  ghost predicate Waits(g: Pending, done: set<string>, p: string) {
    exists d :: DependsOn(g, p, d) && d !in done
  }

  /** All that `p` depends on is done, and `p` is not. */
  ghost predicate Ready(g: Pending, done: set<string>, p: string) {
    p in g && p !in done && !Waits(g, done, p)
  }

  ghost predicate WaitedFor(g: Pending, round: seq<string>, p: string) {
    exists d :: d in round && DependsOn(g, p, d)
  }

  /** One more round: new plugins whose pending dependencies are done, the last of them just now. */
  ghost predicate IsRound(g: Pending, before: seq<seq<string>>, round: seq<string>) {
    && Unique(round)
    && (forall p :: p in round <==> Ready(g, Done(before), p))
    && (before != [] ==> forall p :: p in round ==> WaitedFor(g, before[|before| - 1], p))
  }

  ghost predicate AreRounds(g: Pending, rounds: seq<seq<string>>) {
    rounds == [] || (AreRounds(g, rounds[..|rounds| - 1]) && IsRound(g, rounds[..|rounds| - 1], rounds[|rounds| - 1]))
  }

  // ------------------------------------------------------------------ chains

  /** A chain of dependencies, each plugin depending on the one before it. */
  ghost predicate IsChain(g: Pending, chain: seq<string>) {
    && (forall i :: 0 <= i < |chain| ==> chain[i] in g)
    && forall i :: 0 < i < |chain| ==> DependsOn(g, chain[i], chain[i - 1])
  }

  predicate EndsAt(chain: seq<string>, p: string) {
    chain != [] && chain[|chain| - 1] == p
  }

  lemma {:induction false} RoundAt(g: Pending, rounds: seq<seq<string>>, k: nat)
    requires AreRounds(g, rounds) && k < |rounds|
    ensures AreRounds(g, rounds[..k]) && IsRound(g, rounds[..k], rounds[k])
  {
    if k < |rounds| - 1 {
      RoundAt(g, rounds[..|rounds| - 1], k);
      assert rounds[..|rounds| - 1][..k] == rounds[..k];
    }
  }

  lemma {:induction false} DoneIs(rounds: seq<seq<string>>, p: string)
    ensures p in Done(rounds) <==> exists k :: 0 <= k < |rounds| && p in rounds[k]
  {
    if rounds != [] {
      var last := |rounds| - 1;
      DoneIs(rounds[..last], p);
      if p in Done(rounds[..last]) {
        var k :| 0 <= k < last && p in rounds[..last][k];
        assert p in rounds[k];
      }
      if k :| 0 <= k < |rounds| && p in rounds[k] {
        assert k < last ==> p in rounds[..last][k];
      }
    }
  }

  /** A dependency is in an earlier round. */
  lemma Earlier(g: Pending, rounds: seq<seq<string>>, k: nat, p: string, d: string) returns (j: nat)
    requires AreRounds(g, rounds) && k < |rounds| && p in rounds[k] && DependsOn(g, p, d)
    ensures j < k && d in rounds[j]
  {
    RoundAt(g, rounds, k);
    DoneIs(rounds[..k], d);
    j :| j < k && d in rounds[..k][j];
  }

  /** Some dependency is in the round just before. */
  lemma JustBefore(g: Pending, rounds: seq<seq<string>>, k: nat, p: string) returns (d: string)
    requires AreRounds(g, rounds) && 0 < k < |rounds| && p in rounds[k]
    ensures d in rounds[k - 1] && DependsOn(g, p, d)
  {
    RoundAt(g, rounds, k);
    d :| d in rounds[..k][k - 1] && DependsOn(g, p, d);
  }

  lemma ChainEnd(g: Pending, chain: seq<string>)
    requires IsChain(g, chain) && |chain| > 1
    ensures IsChain(g, chain[..|chain| - 1]) && DependsOn(g, chain[|chain| - 1], chain[|chain| - 2])
  {
  }

  lemma ChainMore(g: Pending, chain: seq<string>, p: string)
    requires IsChain(g, chain) && chain != [] && DependsOn(g, p, chain[|chain| - 1])
    ensures IsChain(g, chain + [p]) && EndsAt(chain + [p], p)
  {
  }

  /** The round of a plugin is the length of the longest chain of dependencies below it. */
  lemma {:induction false} ChainsAreShort(g: Pending, rounds: seq<seq<string>>, k: nat, chain: seq<string>)
    requires AreRounds(g, rounds) && k < |rounds| && IsChain(g, chain) && chain != [] && chain[|chain| - 1] in rounds[k]
    ensures |chain| <= k + 1
    decreases |chain|
  {
    hide AreRounds, IsChain, DependsOn;
    if |chain| > 1 {
      var last := |chain| - 1;
      ChainEnd(g, chain);
      var j := Earlier(g, rounds, k, chain[last], chain[last - 1]);
      ChainsAreShort(g, rounds, j, chain[..last]);
    }
  }

  lemma {:induction false} ChainExists(g: Pending, rounds: seq<seq<string>>, k: nat,
                                       p: string) returns (chain: seq<string>)
    requires AreRounds(g, rounds) && k < |rounds| && p in rounds[k]
    ensures IsChain(g, chain) && EndsAt(chain, p) && |chain| == k + 1
    decreases k
  {
    if k == 0 {
      RoundAt(g, rounds, k);
      chain := [p];
    } else {
      hide AreRounds, IsChain, DependsOn;
      var d := JustBefore(g, rounds, k, p);
      var below := ChainExists(g, rounds, k - 1, d);
      ChainMore(g, below, p);
      chain := below + [p];
    }
  }

  // ------------------------------------------------------------------ cycles

  /** A chain that comes back to where it started. */
  ghost predicate IsCycle(g: Pending, cycle: seq<string>) {
    |cycle| >= 2 && IsChain(g, cycle) && cycle[0] == cycle[|cycle| - 1]
  }

  /** Following dependencies from `p` leads into a cycle. */
  ghost predicate ReachesCycle(g: Pending, p: string, cycle: seq<string>, way: seq<string>) {
    IsCycle(g, cycle) && IsChain(g, way) && EndsAt(way, p) && way[0] in cycle
  }

  /** What is done has done dependencies, so a chain that ends in the rounds stays in them. */
  lemma {:induction false} DoneBelow(g: Pending, rounds: seq<seq<string>>, chain: seq<string>, i: nat,
                                     k: nat) returns (j: nat)
    requires AreRounds(g, rounds) && IsChain(g, chain) && i < |chain| && k < |rounds| && chain[|chain| - 1] in rounds[k]
    ensures j <= k && chain[i] in rounds[j] && (i < |chain| - 1 ==> j < k)
    decreases |chain|
  {
    hide AreRounds, IsChain, DependsOn;
    j := k;
    if i < |chain| - 1 {
      var last := |chain| - 1;
      ChainEnd(g, chain);
      var below := Earlier(g, rounds, k, chain[last], chain[last - 1]);
      j := DoneBelow(g, rounds, chain[..last], i, below);
    }
  }

  lemma NotBefore(g: Pending, rounds: seq<seq<string>>, k: nat, p: string)
    requires AreRounds(g, rounds) && k < |rounds| && p in rounds[k]
    ensures forall j :: 0 <= j < k ==> p !in rounds[j]
  {
    RoundAt(g, rounds, k);
    DoneIs(rounds[..k], p);
    forall j | 0 <= j < k
      ensures p !in rounds[j]
    {
      assert rounds[..k][j] == rounds[j];
    }
  }

  /** No plugin is in two rounds. */
  lemma OneRound(g: Pending, rounds: seq<seq<string>>, j: nat, k: nat, p: string)
    requires AreRounds(g, rounds) && j < |rounds| && k < |rounds| && p in rounds[j] && p in rounds[k]
    ensures j == k
  {
    NotBefore(g, rounds, k, p);
    NotBefore(g, rounds, j, p);
  }

  /** The start of a cycle never gets its turn. */
  lemma {:induction false} CycleNever(g: Pending, rounds: seq<seq<string>>, cycle: seq<string>, k: nat)
    requires AreRounds(g, rounds) && k < |rounds| && IsCycle(g, cycle)
    ensures cycle[0] !in rounds[k]
    decreases k
  {
    hide AreRounds, IsChain;
    forall j: nat | j < k
      ensures cycle[0] !in rounds[j]
    {
      CycleNever(g, rounds, cycle, j);
    }
    if cycle[0] in rounds[k] {
      var j := DoneBelow(g, rounds, cycle, 0, k);
    }
  }

  /** A plugin that got its turn does not lead into a cycle. */
  lemma NoCycleBelow(g: Pending, rounds: seq<seq<string>>, k: nat, p: string, cycle: seq<string>, way: seq<string>)
    requires AreRounds(g, rounds) && k < |rounds| && ReachesCycle(g, p, cycle, way)
    ensures p !in rounds[k]
  {
    hide AreRounds, IsChain;
    var i :| 0 <= i < |cycle| && cycle[i] == way[0];
    ChainPart(g, cycle, 0, i + 1);
    if p in rounds[k] {
      var j := DoneBelow(g, rounds, way, 0, k);
      var first := DoneBelow(g, rounds, cycle[..i + 1], 0, j);
      CycleNever(g, rounds, cycle, first);
    }
  }

  lemma ChainPart(g: Pending, chain: seq<string>, i: nat, j: nat)
    requires IsChain(g, chain) && i <= j <= |chain|
    ensures IsChain(g, chain[i..j])
  {
  }

  /** Nothing more can go: whatever is not done waits for something that is not done. */
  ghost predicate Stuck(g: Pending, done: set<string>) {
    forall p :: p in g && p !in done ==> Waits(g, done, p)
  }

  lemma {:induction false} WaitingChain(g: Pending, done: set<string>, p: string, n: nat) returns (chain: seq<string>)
    requires Stuck(g, done) && p in g && p !in done
    ensures IsChain(g, chain) && EndsAt(chain, p) && |chain| == n + 1
    ensures forall i :: 0 <= i < |chain| ==> chain[i] in g
    decreases n
  {
    if n == 0 {
      chain := [p];
    } else {
      var d :| DependsOn(g, p, d) && d !in done;
      var below := WaitingChain(g, done, d, n - 1);
      chain := below + [p];
      hide Stuck;
      ChainMore(g, below, p);
      hide IsChain;
    }
  }

  lemma {:induction false} Pigeonhole(s: seq<string>, keys: set<string>) returns (i: nat, j: nat)
    requires |s| > |keys| && forall k :: 0 <= k < |s| ==> s[k] in keys
    ensures i < j < |s| && s[i] == s[j]
  {
    var last := |s| - 1;
    if k: nat :| k < last && s[k] == s[last] {
      i, j := k, last;
    } else {
      i, j := Pigeonhole(s[..last], keys - {s[last]});
    }
  }

  /** A plugin that never gets its turn leads into a cycle. */
  lemma StuckReachesCycle(g: Pending, done: set<string>, p: string) returns (cycle: seq<string>, way: seq<string>)
    requires Stuck(g, done) && p in g && p !in done
    ensures ReachesCycle(g, p, cycle, way)
  {
    var chain := WaitingChain(g, done, p, |g.Keys|);
    hide Stuck, IsChain;
    var i, j := Pigeonhole(chain, g.Keys);
    cycle, way := chain[i..j + 1], chain[j..];
    ChainPart(g, chain, i, j + 1);
    ChainPart(g, chain, j, |chain|);
    assert chain[j..|chain|] == way;
    assert cycle[|cycle| - 1] == chain[j] == way[0];
  }

  // ------------------------------------------------------------------ what the sort promises

  /** The rounds are those of the longest chains, and what is left over leads into a cycle. */
  ghost predicate Sorted(g: Pending, rounds: seq<seq<string>>) {
    AreRounds(g, rounds) && Stuck(g, Done(rounds))
  }

  /** A plugin is registered in the round of its longest chain of dependencies, and in no other. */
  lemma RoundIsLongestChain(g: Pending, rounds: seq<seq<string>>, k: nat, p: string)
    requires Sorted(g, rounds) && k < |rounds| && p in rounds[k]
    ensures exists chain :: IsChain(g, chain) && EndsAt(chain, p) && |chain| == k + 1
    ensures forall chain :: IsChain(g, chain) && EndsAt(chain, p) ==> |chain| <= k + 1
    ensures forall j :: 0 <= j < |rounds| && p in rounds[j] ==> j == k
    ensures forall d :: DependsOn(g, p, d) ==> exists j :: 0 <= j < k && d in rounds[j]
  {
    var chain := ChainExists(g, rounds, k, p);
    forall other | IsChain(g, other) && EndsAt(other, p)
      ensures |other| <= k + 1
    {
      ChainsAreShort(g, rounds, k, other);
    }
    forall j | 0 <= j < |rounds| && p in rounds[j]
      ensures j == k
    {
      OneRound(g, rounds, j, k, p);
    }
    forall d | DependsOn(g, p, d)
      ensures exists j :: 0 <= j < k && d in rounds[j]
    {
      var j := Earlier(g, rounds, k, p, d);
    }
  }

  /** A plugin is left over exactly when a dependency cycle is reachable from it. */
  lemma LeftOverIffCycle(g: Pending, rounds: seq<seq<string>>, p: string)
    requires Sorted(g, rounds) && p in g
    ensures p !in Done(rounds) <==> exists cycle, way :: ReachesCycle(g, p, cycle, way)
  {
    forall cycle, way
      ensures ReachesCycle(g, p, cycle, way) ==> p !in Done(rounds)
    {
      NoCycleDone(g, rounds, p, cycle, way);
    }
    if p !in Done(rounds) {
      var cycle, way := StuckReachesCycle(g, Done(rounds), p);
    }
  }

  lemma NoCycleDone(g: Pending, rounds: seq<seq<string>>, p: string, cycle: seq<string>, way: seq<string>)
    requires AreRounds(g, rounds)
    ensures ReachesCycle(g, p, cycle, way) ==> p !in Done(rounds)
  {
    DoneIs(rounds, p);
    if ReachesCycle(g, p, cycle, way) {
      forall k: nat | k < |rounds|
        ensures p !in rounds[k]
      {
        NoCycleBelow(g, rounds, k, p, cycle, way);
      }
    }
  }
}
