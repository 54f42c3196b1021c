/**
 * The flat-list reading of the router: a log of registrations, when a registration matches
 * a request, and which matching registration wins. Nothing here knows about tries.
 */
module RoutePatterns {
  import opened Text

  datatype Key = Lit(text: string) | Param(name: string)

  /** One registered path: normalised, without the optional marker. */
  datatype Reg<T> = Reg(verb: string, path: string, value: T)

  /** The place a registration occupies: the exact-path table, a trie node or its wildcard. */
  datatype Slot =
    | ExactSlot(verb: string, path: string)
    | ValueSlot(verb: string, keys: seq<Key>)
    | WildSlot(verb: string, keys: seq<Key>)

  /** The pieces of a path after its first character. */
  function Segments(path: string): seq<string> {
    if path == "" then [] else Split(path[1..], '/')
  }

  predicate IsExact(path: string) {
    ':' !in path && '*' !in path
  }

  predicate IsWild(path: string) {
    var segs := Segments(path);
    !IsExact(path) && |segs| > 0 && segs[|segs| - 1] == "*"
  }

  predicate IsParamSegment(segment: string) {
    |segment| > 0 && segment[0] == ':'
  }

  function KeyOf(segment: string): Key {
    if IsParamSegment(segment) then Param(segment[1..]) else Lit(segment)
  }

  function KeysOf(segs: seq<string>): (keys: seq<Key>)
    ensures |keys| == |segs|
  {
    seq(|segs|, i requires 0 <= i < |segs| => KeyOf(segs[i]))
  }

  function Keys(path: string): seq<Key> {
    var segs := Segments(path);
    KeysOf(if IsWild(path) then segs[..|segs| - 1] else segs)
  }

  function SlotOf<T>(reg: Reg<T>): Slot {
    if IsExact(reg.path) then ExactSlot(reg.verb, reg.path)
    else if IsWild(reg.path) then WildSlot(reg.verb, Keys(reg.path))
    else ValueSlot(reg.verb, Keys(reg.path))
  }

  // ------------------------------------------------------------------ matching

  predicate KeyMatches(key: Key, segment: string) {
    match key
    case Lit(text) => segment == text
    case Param(_) => segment != ""
  }

  predicate SegMatches(keys: seq<Key>, wild: bool, segs: seq<string>) {
    && |keys| <= |segs|
    && (wild || |keys| == |segs|)
    && forall k :: 0 <= k < |keys| ==> KeyMatches(keys[k], segs[k])
  }

  predicate Matches(path: string, request: string) {
    if IsExact(path) then path == request
    else SegMatches(Keys(path), IsWild(path), Segments(request))
  }

  predicate Candidate<T>(reg: Reg<T>, verb: string, request: string) {
    reg.verb == verb && Matches(reg.path, request)
  }

  // ---------------------------------------------------------------- precedence

  function KeyRank(key: Key): nat {
    if key.Lit? then 0 else 1
  }

  /** Literal before parameter before end of pattern before wildcard, left to right. */
  function Rank(path: string): (r: seq<nat>)
    ensures |r| == |Keys(path)| + 1
  {
    var keys := Keys(path);
    seq(|keys|, i requires 0 <= i < |keys| => KeyRank(keys[i])) + [if IsWild(path) then 3 else 2]
  }

  ghost predicate LexLess(a: seq<nat>, b: seq<nat>) {
    exists k :: DiffersAt(a, b, k) && a[k] < b[k]
  }

  predicate DiffersAt(a: seq<nat>, b: seq<nat>, k: int) {
    0 <= k < |a| && k < |b| && forall x :: 0 <= x < k ==> a[x] == b[x]
  }

  /** Registration `i` takes precedence over `j`, or they tie and `i` came first. */
  ghost predicate Beats<T>(log: seq<Reg<T>>, i: nat, j: nat)
    requires i < |log| && j < |log|
  {
    var a, b := Rank(log[i].path), Rank(log[j].path);
    LexLess(a, b) || (a == b && i <= j)
  }

  ghost predicate Wins<T>(log: seq<Reg<T>>, verb: string, request: string, i: nat) {
    && i < |log|
    && Candidate(log[i], verb, request)
    && forall j: nat :: j < |log| && Candidate(log[j], verb, request) ==> Beats(log, i, j)
  }

  /** `r` is the flat-list answer for one HTTP method. */
  ghost predicate IsAnswer<T>(log: seq<Reg<T>>, verb: string, request: string, r: Option<T>) {
    match r
    case None => forall j: nat :: j < |log| ==> !Candidate(log[j], verb, request)
    case Some(v) => exists i: nat :: Wins(log, verb, request, i) && log[i].value == v
  }

  lemma LexAsymmetric(a: seq<nat>, b: seq<nat>)
    requires LexLess(a, b)
    ensures a != b && !LexLess(b, a)
  {
    var k :| DiffersAt(a, b, k) && a[k] < b[k];
  }

  lemma {:induction false} WinnerUnique<T>(log: seq<Reg<T>>, verb: string, request: string, i: nat, j: nat)
    requires Wins(log, verb, request, i) && Wins(log, verb, request, j)
    ensures i == j
  {
    var a, b := Rank(log[i].path), Rank(log[j].path);
    assert Beats(log, i, j) && Beats(log, j, i);
    if LexLess(a, b) {
      LexAsymmetric(a, b);
    } else if LexLess(b, a) {
      LexAsymmetric(b, a);
    }
  }

  // ---------------------------------------------------- first registration per slot

  /** The first registration in `slot`. */
  function First<T>(log: seq<Reg<T>>, slot: Slot): (r: Option<nat>)
    ensures r.Some? ==> r.value < |log| && SlotOf(log[r.value]) == slot
    ensures r.Some? ==> forall j :: 0 <= j < r.value ==> SlotOf(log[j]) != slot
    ensures r.None? ==> forall j :: 0 <= j < |log| ==> SlotOf(log[j]) != slot
  {
    if log == [] then None
    else
      var n := |log| - 1;
      var earlier := First(log[..n], slot);
      assert forall j :: 0 <= j < n ==> log[..n][j] == log[j];
      if earlier.Some? then earlier
      else if SlotOf(log[n]) == slot then Some(n)
      else None
  }

  function Held<T>(log: seq<Reg<T>>, slot: Slot): Option<T> {
    match First(log, slot)
    case Some(i) => Some(log[i].value)
    case None => None
  }

  lemma HeldAppend<T>(log: seq<Reg<T>>, reg: Reg<T>, slot: Slot)
    ensures Held(log + [reg], slot) ==
            if Held(log, slot).Some? then Held(log, slot)
            else if SlotOf(reg) == slot then Some(reg.value) else None
  {
    assert (log + [reg])[..|log|] == log;
  }

  // ------------------------------------------------------- order of registration

  /** Parameters at the same position of two patterns with a common prefix share their name. */
  ghost predicate NamesAgree<T>(log: seq<Reg<T>>) {
    forall i, j, k {:trigger Keys(log[i].path)[k], Keys(log[j].path)} ::
      0 <= i < |log| && 0 <= j < |log| && log[i].verb == log[j].verb
      && !IsExact(log[i].path) && !IsExact(log[j].path)
      && 0 <= k < |Keys(log[i].path)| && k < |Keys(log[j].path)|
      && Keys(log[i].path)[..k] == Keys(log[j].path)[..k]
      && Keys(log[i].path)[k].Param? && Keys(log[j].path)[k].Param?
      ==> Keys(log[i].path)[k] == Keys(log[j].path)[k]
  }

  /** Registrations that occupy one place are one and the same. */
  ghost predicate OnePerSlot<T(!new)>(log: seq<Reg<T>>) {
    forall a, b :: a in log && b in log && SlotOf(a) == SlotOf(b) ==> a == b
  }

  ghost predicate SameRegs<T(!new)>(log: seq<Reg<T>>, other: seq<Reg<T>>) {
    forall reg :: reg in log <==> reg in other
  }

  ghost predicate Rooted<T>(log: seq<Reg<T>>) {
    forall i :: 0 <= i < |log| ==> |log[i].path| > 0 && log[i].path[0] == '/'
  }

  lemma PathOfSegments(a: string, b: string)
    requires |a| > 0 && |b| > 0 && a[0] == b[0] && Segments(a) == Segments(b)
    ensures a == b
  {
    JoinSplit(a[1..], '/');
    JoinSplit(b[1..], '/');
    assert a == [a[0]] + a[1..] && b == [b[0]] + b[1..];
  }

  /** An exact path has only literal keys, one per segment. */
  lemma ExactKeys(path: string)
    requires IsExact(path)
    ensures |Keys(path)| == |Segments(path)|
    ensures forall k :: 0 <= k < |Segments(path)| ==> Keys(path)[k] == Lit(Segments(path)[k])
    ensures Rank(path) == seq(|Segments(path)|, i => 0) + [2]
  {
    var segs := Segments(path);
    if path != "" {
      JoinSplit(path[1..], '/');
      forall k | 0 <= k < |segs|
        ensures !IsParamSegment(segs[k])
      {
        PieceInside(segs, '/', k);
        assert forall c :: c in segs[k] ==> c in path[1..];
        assert forall c :: c in path[1..] ==> c in path;
      }
    }
  }

  lemma {:induction false} PieceInside(parts: seq<string>, sep: char, k: nat)
    requires k < |parts|
    ensures forall c :: c in parts[k] ==> c in Join(parts, sep)
  {
    if |parts| > 1 && k > 0 {
      PieceInside(parts[1..], sep, k - 1);
    }
  }

  /** For requests that start with a slash an exact path matches segment by segment too. */
  lemma ExactMatchesBySegment(path: string, request: string)
    requires IsExact(path) && |path| > 0 && path[0] == '/'
    requires |request| > 0 && request[0] == '/'
    ensures Matches(path, request) <==> SegMatches(Keys(path), false, Segments(request))
  {
    ExactKeys(path);
    if SegMatches(Keys(path), false, Segments(request)) {
      var segs, got := Segments(path), Segments(request);
      assert forall k :: 0 <= k < |segs| ==> KeyMatches(Keys(path)[k], got[k]);
      assert segs == got;
      PathOfSegments(path, request);
    }
  }

  /** Two registrations that match the same request with the same rank share their slot. */
  lemma SameRankSameSlot<T>(log: seq<Reg<T>>, verb: string, request: string, i: nat, j: nat)
    requires Rooted(log) && NamesAgree(log)
    requires i < |log| && j < |log|
    requires Candidate(log[i], verb, request) && Candidate(log[j], verb, request)
    requires Rank(log[i].path) == Rank(log[j].path)
    ensures SlotOf(log[i]) == SlotOf(log[j])
  {
    if IsExact(log[i].path) {
      ExactAgainst(log, verb, request, i, j);
    } else if IsExact(log[j].path) {
      ExactAgainst(log, verb, request, j, i);
    } else {
      var a, b := Keys(log[i].path), Keys(log[j].path);
      assert |Rank(log[i].path)| == |a| + 1 && |Rank(log[j].path)| == |b| + 1;
      assert Rank(log[i].path)[|a|] == Rank(log[j].path)[|b|];
      forall k | 0 <= k < |a|
        ensures KeyRank(a[k]) == KeyRank(b[k])
      {
        assert Rank(log[i].path)[k] == KeyRank(a[k]) && Rank(log[j].path)[k] == KeyRank(b[k]);
      }
      SameKeys(a, b, Segments(request), |a|);
      assert a == a[..|a|] && b == b[..|b|];
    }
  }

  /** Keys of equal rank that match the same segments are equal, names of parameters aside. */
  lemma {:induction false} SameKeys(a: seq<Key>, b: seq<Key>, segs: seq<string>, n: nat)
    requires n <= |a| == |b| <= |segs|
    requires forall k :: 0 <= k < |a| ==> KeyRank(a[k]) == KeyRank(b[k])
    requires forall k :: 0 <= k < |a| ==> KeyMatches(a[k], segs[k]) && KeyMatches(b[k], segs[k])
    requires forall k :: 0 <= k < |a| && a[..k] == b[..k] && a[k].Param? && b[k].Param? ==> a[k] == b[k]
    ensures a[..n] == b[..n]
  {
    if n > 0 {
      SameKeys(a, b, segs, n - 1);
      assert a[..n] == a[..n - 1] + [a[n - 1]] && b[..n] == b[..n - 1] + [b[n - 1]];
    }
  }

  lemma ExactAgainst<T>(log: seq<Reg<T>>, verb: string, request: string, i: nat, j: nat)
    requires Rooted(log) && i < |log| && j < |log| && IsExact(log[i].path)
    requires Candidate(log[i], verb, request) && Candidate(log[j], verb, request)
    requires Rank(log[i].path) == Rank(log[j].path)
    ensures SlotOf(log[i]) == SlotOf(log[j])
  {
    var p := log[j].path;
    if !IsExact(p) {
      ExactKeys(log[i].path);
      var keys, segs := Keys(p), Segments(request);
      forall k | 0 <= k < |keys|
        ensures keys[k] == Lit(segs[k]) && Segments(p)[k] == segs[k]
      {
        assert Rank(p)[k] == KeyRank(keys[k]);
        assert KeyMatches(keys[k], segs[k]);
      }
      assert Rank(p)[|keys|] == 2;
      assert Segments(p) == segs;
      PathOfSegments(p, request);
    }
  }

  /** The registration that answers, if any. */
  ghost predicate Answers<T>(log: seq<Reg<T>>, verb: string, request: string, reg: Reg<T>) {
    exists i: nat :: Wins(log, verb, request, i) && log[i] == reg
  }

  /**
   * Registration order of distinct patterns is irrelevant: of two logs that hold the same
   * registrations, no two of them in one slot, the same registration answers.
   */
  lemma OrderIrrelevant<T(!new)>(log: seq<Reg<T>>, other: seq<Reg<T>>, verb: string, request: string, reg: Reg<T>)
    requires Rooted(log) && NamesAgree(log) && OnePerSlot(log) && SameRegs(log, other)
    requires Answers(log, verb, request, reg)
    ensures Answers(other, verb, request, reg)
  {
    var i: nat :| Wins(log, verb, request, i) && log[i] == reg;
    var k: nat := LeastIndex(other, reg);
    forall j: nat | j < |other| && Candidate(other[j], verb, request)
      ensures Beats(other, k, j)
    {
      assert other[j] in log;
      var i': nat :| i' < |log| && log[i'] == other[j];
      assert Beats(log, i, i');
      if Rank(log[i].path) == Rank(other[j].path) {
        SameRankSameSlot(log, verb, request, i, i');
        assert other[j] == reg;
      }
    }
    assert Wins(other, verb, request, k);
  }

  ghost function LeastIndex<T>(log: seq<Reg<T>>, reg: Reg<T>): (k: nat)
    requires reg in log
    ensures k < |log| && log[k] == reg && reg !in log[..k]
  {
    if log[0] == reg then 0 else 1 + LeastIndex(log[1..], reg)
  }
}
