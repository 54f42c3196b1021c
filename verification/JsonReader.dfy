/**
 * A reader for JSON text without white space, and the round trip: reading the standard text of a
 * value gives the value back, so different values never print alike.
 */
module JsonReader {
  import opened Text
  import opened Json

  datatype Parsed<T> = Parsed(value: T, rest: Units)

  // ------------------------------------------------------------------ strings

  function HexValue(c: nat): Option<nat> {
    if 0x30 <= c < 0x3a then Some(c - 0x30) else if 0x61 <= c < 0x67 then Some(c - 0x61 + 10) else None
  }

  /** One unit of a string after its opening quote: plain, or an escape. */
  function ReadUnit(t: Units): (r: Option<Parsed<nat>>)
    ensures r.Some? ==> |r.value.rest| < |t|
  {
    if t == [] || t[0] == 0x22 then None
    else if t[0] != 0x5c then Some(Parsed(t[0], t[1..]))
    else if |t| < 2 then None
    else
      match t[1]
      case 0x22 => Some(Parsed(0x22, t[2..]))
      case 0x5c => Some(Parsed(0x5c, t[2..]))
      case 0x62 => Some(Parsed(0x08, t[2..]))
      case 0x74 => Some(Parsed(0x09, t[2..]))
      case 0x6e => Some(Parsed(0x0a, t[2..]))
      case 0x66 => Some(Parsed(0x0c, t[2..]))
      case 0x72 => Some(Parsed(0x0d, t[2..]))
      case 0x75 => ReadHex(t)
      case _ => None
  }

  function ReadHex(t: Units): (r: Option<Parsed<nat>>)
    requires |t| >= 2
    ensures r.Some? ==> |r.value.rest| < |t|
  {
    if |t| < 6 then None
    else
      match (HexValue(t[2]), HexValue(t[3]), HexValue(t[4]), HexValue(t[5]))
      case (Some(a), Some(b), Some(c), Some(d)) => Some(Parsed(a * 0x1000 + b * 0x100 + c * 0x10 + d, t[6..]))
      case _ => None
  }

  /** The string up to its closing quote. */
  function ReadString(t: Units): (r: Option<Parsed<Units>>)
    ensures r.Some? ==> |r.value.rest| < |t|
    decreases |t|
  {
    if t == [] then None
    else if t[0] == 0x22 then Some(Parsed([], t[1..]))
    else
      match ReadUnit(t)
      case None => None
      case Some(one) =>
        match ReadString(one.rest)
        case None => None
        case Some(more) => Some(Parsed([one.value] + more.value, more.rest))
  }

  predicate AreUnits(s: Units) {
    forall i :: 0 <= i < |s| ==> s[i] < 0x10000
  }

  lemma HexRoundTrip(c: nat)
    requires c < 0x10000
    ensures forall d: nat :: d < 16 ==> HexValue(Hex(d)) == Some(d)
    ensures c / 0x1000 % 16 * 0x1000 + c / 0x100 % 16 * 0x100 + c / 0x10 % 16 * 0x10 + c % 16 == c
  {
    assert c / 0x100 == c / 0x10 / 0x10 && c / 0x1000 == c / 0x100 / 0x10;
  }

  lemma EscapedHex(c: nat, rest: Units)
    requires c < 0x10000
    ensures ReadUnit(UnicodeEscape(c) + rest) == Some(Parsed(c, rest)) && |UnicodeEscape(c)| == 6
    ensures UnicodeEscape(c)[0] == 0x5c
  {
    var t := UnicodeEscape(c) + rest;
    HexRoundTrip(c);
    assert t[6..] == rest;
  }

  lemma UnitRoundTrip(c: nat, rest: Units)
    requires c < 0x10000
    ensures ReadUnit(EscapeUnit(c) + rest) == Some(Parsed(c, rest))
    ensures EscapeUnit(c)[0] != 0x22
  {
    var t := EscapeUnit(c) + rest;
    assert t[|EscapeUnit(c)|..] == rest;
    EscapedHex(c, rest);
    hide UnicodeEscape, Hex, HexValue, ReadHex;
  }

  lemma {:induction false} StringRoundTrip(s: Units, rest: Units)
    requires AreUnits(s)
    ensures ReadString(Escape(s) + [0x22] + rest) == Some(Parsed(s, rest))
    decreases |s|
  {
    hide ReadString, EscapeUnit;
    if s == [] {
      EndOfString(rest);
      assert Escape(s) + [0x22] + rest == [0x22] + rest;
    } else if |s| > 1 && IsLead(s[0]) && IsTrail(s[1]) {
      var tail := Escape(s[2..]) + [0x22] + rest;
      StringRoundTrip(s[2..], rest);
      PairRead(s[0], s[1], tail, s[2..], rest);
      assert Escape(s) + [0x22] + rest == [s[0], s[1]] + tail && s == [s[0], s[1]] + s[2..];
    } else {
      var tail := Escape(s[1..]) + [0x22] + rest;
      StringRoundTrip(s[1..], rest);
      EscapedRead(s[0], tail, s[1..], rest);
      assert Escape(s) + [0x22] + rest == EscapeUnit(s[0]) + tail && s == [s[0]] + s[1..];
    }
  }

  lemma EndOfString(rest: Units)
    ensures ReadString([0x22] + rest) == Some(Parsed([], rest))
  {
    assert ([0x22] + rest)[1..] == rest;
  }

  lemma EscapedRead(c: nat, tail: Units, more: Units, rest: Units)
    requires c < 0x10000 && ReadString(tail) == Some(Parsed(more, rest))
    ensures ReadString(EscapeUnit(c) + tail) == Some(Parsed([c] + more, rest))
  {
    UnitRoundTrip(c, tail);
    hide EscapeUnit, ReadUnit;
    assert (EscapeUnit(c) + tail)[0] == EscapeUnit(c)[0];
  }

  /** A surrogate pair stands for itself. */
  lemma PairRead(a: nat, b: nat, tail: Units, more: Units, rest: Units)
    requires a >= 0x80 && b >= 0x80 && ReadString(tail) == Some(Parsed(more, rest))
    ensures ReadString([a, b] + tail) == Some(Parsed([a, b] + more, rest))
  {
    assert ([b] + tail)[1..] == tail && ([a, b] + tail)[1..] == [b] + tail;
    assert ReadString([b] + tail) == Some(Parsed([b] + more, rest));
    assert [a] + ([b] + more) == [a, b] + more;
  }

  lemma QuotedRead(s: Units, rest: Units)
    requires AreUnits(s)
    ensures Quote(s) + rest != [] && (Quote(s) + rest)[0] == 0x22
    ensures ReadString((Quote(s) + rest)[1..]) == Some(Parsed(s, rest))
  {
    StringRoundTrip(s, rest);
    hide ReadString, Escape;
    assert (Quote(s) + rest)[1..] == Escape(s) + [0x22] + rest;
  }

  // ------------------------------------------------------------------ values

  /** The characters of a number. */
  predicate IsNumberUnit(c: nat) {
    0x30 <= c < 0x3a || c == 0x2b || c == 0x2d || c == 0x2e || c == 0x45 || c == 0x65
  }

  function NumberEnd(t: Units): (n: nat)
    ensures n <= |t|
  {
    if t != [] && IsNumberUnit(t[0]) then 1 + NumberEnd(t[1..]) else 0
  }

  function ReadWord(t: Units, word: Units, v: Value): (r: Option<Parsed<Value>>)
    requires word != []
    ensures r.Some? ==> |r.value.rest| < |t|
  {
    if |t| >= |word| && t[..|word|] == word then Some(Parsed(v, t[|word|..])) else None
  }

  function Read(t: Units): (r: Option<Parsed<Value>>)
    ensures r.Some? ==> |r.value.rest| < |t|
    decreases |t|, 0
  {
    if t == [] then None
    else if t[0] == 0x6e then ReadWord(t, NULL_TEXT, Null)
    else if t[0] == 0x74 then ReadWord(t, TRUE_TEXT, Bool(true))
    else if t[0] == 0x66 then ReadWord(t, FALSE_TEXT, Bool(false))
    else if t[0] == 0x22 then
      match ReadString(t[1..])
      case None => None
      case Some(s) => Some(Parsed(Str(s.value), s.rest))
    else if t[0] == 0x5b then
      match ReadItems(t[1..])
      case None => None
      case Some(items) => Some(Parsed(Arr(items.value), items.rest))
    else if t[0] == 0x7b then
      match ReadMembers(t[1..])
      case None => None
      case Some(members) => Some(Parsed(Obj(members.value), members.rest))
    else if NumberEnd(t) == 0 then None
    else Some(Parsed(Num(Finite(t[..NumberEnd(t)])), t[NumberEnd(t)..]))
  }

  /** The elements after the opening bracket, and the closing one. */
  function ReadItems(t: Units): (r: Option<Parsed<seq<Value>>>)
    ensures r.Some? ==> |r.value.rest| < |t|
    decreases |t|, 2
  {
    if t == [] then None
    else if t[0] == 0x5d then Some(Parsed([], t[1..]))
    else MoreItems(t)
  }

  /** One element and those after it. */
  function MoreItems(t: Units): (r: Option<Parsed<seq<Value>>>)
    ensures r.Some? ==> |r.value.rest| < |t|
    decreases |t|, 1
  {
    match Read(t)
    case None => None
    case Some(one) =>
      if one.rest == [] then None
      else if one.rest[0] == 0x5d then Some(Parsed([one.value], one.rest[1..]))
      else if one.rest[0] != 0x2c then None
      else
        match MoreItems(one.rest[1..])
        case None => None
        case Some(more) => Some(Parsed([one.value] + more.value, more.rest))
  }

  function ReadMembers(t: Units): (r: Option<Parsed<seq<Member>>>)
    ensures r.Some? ==> |r.value.rest| < |t|
    decreases |t|, 2
  {
    if t == [] then None
    else if t[0] == 0x7d then Some(Parsed([], t[1..]))
    else MoreMembers(t)
  }

  function ReadMember(t: Units): (r: Option<Parsed<Member>>)
    ensures r.Some? ==> |r.value.rest| < |t|
    decreases |t|, 0
  {
    if t == [] || t[0] != 0x22 then None
    else
      match ReadString(t[1..])
      case None => None
      case Some(key) =>
        if key.rest == [] || key.rest[0] != 0x3a then None
        else
          match Read(key.rest[1..])
          case None => None
          case Some(v) => Some(Parsed(Member(key.value, v.value), v.rest))
  }

  function MoreMembers(t: Units): (r: Option<Parsed<seq<Member>>>)
    ensures r.Some? ==> |r.value.rest| < |t|
    decreases |t|, 1
  {
    match ReadMember(t)
    case None => None
    case Some(one) =>
      if one.rest == [] then None
      else if one.rest[0] == 0x7d then Some(Parsed([one.value], one.rest[1..]))
      else if one.rest[0] != 0x2c then None
      else
        match MoreMembers(one.rest[1..])
        case None => None
        case Some(more) => Some(Parsed([one.value] + more.value, more.rest))
  }

  // ------------------------------------------------------------------ the round trip

  /** Strings of code units, and numbers with the text of a finite number. */
  predicate IsJson(v: Value) {
    match v
    case Null => true
    case Bool(_) => true
    case Num(n) => n.Finite? && n.text != [] && forall i :: 0 <= i < |n.text| ==> IsNumberUnit(n.text[i])
    case Str(s) => AreUnits(s)
    case Arr(items) => forall i :: 0 <= i < |items| ==> IsJson(items[i])
    case Obj(members) => forall i :: 0 <= i < |members| ==> AreUnits(members[i].key) && IsJson(members[i].value)
  }

  /** What may follow a value. */
  predicate Follows(rest: Units) {
    rest == [] || rest[0] == 0x2c || rest[0] == 0x5d || rest[0] == 0x7d
  }

  lemma {:induction false} NumberRead(text: Units, rest: Units)
    requires (forall i :: 0 <= i < |text| ==> IsNumberUnit(text[i])) && Follows(rest)
    ensures NumberEnd(text + rest) == |text|
  {
    if text != [] {
      NumberRead(text[1..], rest);
      assert (text + rest)[1..] == text[1..] + rest;
    }
  }

  /** The printed elements from position `k` on. */
  function ItemsFrom(items: seq<Value>, k: nat): Units
    requires k < |items|
    decreases |items| - k
  {
    Print(items[k]) + if k + 1 == |items| then [] else COMMA + ItemsFrom(items, k + 1)
  }

  function MemberText(m: Member): Units {
    Quote(m.key) + COLON + Print(m.value)
  }

  function MembersFrom(members: seq<Member>, k: nat): Units
    requires k < |members|
    decreases |members| - k
  {
    MemberText(members[k]) + if k + 1 == |members| then [] else COMMA + MembersFrom(members, k + 1)
  }

  lemma {:induction false} ItemsSplit(items: seq<Value>, k: nat)
    requires k < |items|
    ensures PrintItems(Arr(items), |items|) ==
            PrintItems(Arr(items), k) + (if k > 0 then COMMA else []) + ItemsFrom(items, k)
    decreases |items| - k
  {
    hide Print;
    if k + 1 < |items| {
      ItemsSplit(items, k + 1);
      assert PrintItems(Arr(items), k + 1) ==
             PrintItems(Arr(items), k) + (if k > 0 then COMMA else []) + Print(items[k]);
    }
  }

  lemma {:induction false} MembersSplit(members: seq<Member>, k: nat)
    requires k < |members|
    ensures PrintMembers(Obj(members), |members|) ==
            PrintMembers(Obj(members), k) + (if k > 0 then COMMA else []) + MembersFrom(members, k)
    decreases |members| - k
  {
    hide *;
    var comma := if k > 0 then COMMA else [];
    var (before, text) := (PrintMembers(Obj(members), k), MemberText(members[k]));
    OneMember(members, k);
    MembersFromStart(members, k);
    if k + 1 < |members| {
      MembersSplit(members, k + 1);
      Joined(before, comma, text, COMMA, MembersFrom(members, k + 1));
    } else {
      assert text + [] == text;
    }
  }

  lemma MembersFromStart(members: seq<Member>, k: nat)
    requires k < |members|
    ensures MembersFrom(members, k) ==
            MemberText(members[k]) + if k + 1 < |members| then COMMA + MembersFrom(members, k + 1) else []
  {
    hide MemberText;
  }

  lemma Joined(a: Units, b: Units, c: Units, d: Units, e: Units)
    ensures a + b + c + d + e == a + b + (c + (d + e))
  {
  }

  lemma OneMember(members: seq<Member>, k: nat)
    requires k < |members|
    ensures PrintMembers(Obj(members), k + 1) ==
            PrintMembers(Obj(members), k) + (if k > 0 then COMMA else []) + MemberText(members[k])
  {
    hide Print, Quote;
  }

  predicate Starts(t: Units) {
    t != [] && !Follows(t)
  }

  lemma PrintStarts(v: Value)
    requires IsJson(v)
    ensures Starts(Print(v))
  {
  }

  /** Reading the standard text of a value gives the value back. */
  lemma {:induction false} RoundTrip(v: Value, rest: Units)
    requires IsJson(v) && Follows(rest)
    ensures Read(Print(v) + rest) == Some(Parsed(v, rest))
    decreases v, 2, 0
  {
    var t := Print(v) + rest;
    match v
    case Null => assert t[..4] == NULL_TEXT && t[4..] == rest;
    case Bool(b) =>
      if b { assert t[..4] == TRUE_TEXT && t[4..] == rest; } else { assert t[..5] == FALSE_TEXT && t[5..] == rest; }
    case Num(n) =>
      NumberRead(n.text, rest);
      assert t[..|n.text|] == n.text && t[|n.text|..] == rest;
    case Str(s) => QuotedRead(s, rest);
    case Arr(items) => ArrayRoundTrip(items, rest);
    case Obj(members) => ObjectRoundTrip(members, rest);
  }

  lemma {:induction false} ArrayRoundTrip(items: seq<Value>, rest: Units)
    requires IsJson(Arr(items)) && Follows(rest)
    ensures Read(Print(Arr(items)) + rest) == Some(Parsed(Arr(items), rest))
    decreases Arr(items), 1, 0
  {
    if items == [] {
      EmptyRead(rest);
    } else {
      var inner := ItemsFrom(items, 0);
      ItemsSplit(items, 0);
      MoreItemsRead(items, 0, rest);
      ItemStarts(items);
      BracketRead(inner, items, rest);
      hide Read, MoreItems, ItemsFrom, IsJson;
      assert PrintItems(Arr(items), |items|) == inner;
    }
  }

  lemma EmptyRead(rest: Units)
    ensures Read(Print(Arr([])) + rest) == Some(Parsed(Arr([]), rest))
    ensures Read(Print(Obj([])) + rest) == Some(Parsed(Obj([]), rest))
  {
    assert (Print(Arr([])) + rest)[1..][1..] == rest;
    assert (Print(Obj([])) + rest)[1..][1..] == rest;
  }

  lemma BracketRead(inner: Units, items: seq<Value>, rest: Units)
    requires Starts(inner) && MoreItems(inner + (CLOSE_BRACKET + rest)) == Some(Parsed(items, rest))
    ensures Read(OPEN_BRACKET + inner + CLOSE_BRACKET + rest) == Some(Parsed(Arr(items), rest))
  {
    var t := OPEN_BRACKET + inner + CLOSE_BRACKET + rest;
    hide MoreItems;
    assert t[1..] == inner + (CLOSE_BRACKET + rest);
  }

  lemma BraceRead(inner: Units, members: seq<Member>, rest: Units)
    requires Starts(inner) && MoreMembers(inner + (CLOSE_BRACE + rest)) == Some(Parsed(members, rest))
    ensures Read(OPEN_BRACE + inner + CLOSE_BRACE + rest) == Some(Parsed(Obj(members), rest))
  {
    var t := OPEN_BRACE + inner + CLOSE_BRACE + rest;
    hide MoreMembers;
    assert t[1..] == inner + (CLOSE_BRACE + rest);
  }

  lemma ItemStarts(items: seq<Value>)
    requires items != [] && IsJson(Arr(items))
    ensures Starts(ItemsFrom(items, 0))
  {
    PrintStarts(items[0]);
    hide Print;
  }

  lemma {:induction false} MoreItemsRead(items: seq<Value>, k: nat, rest: Units)
    requires k < |items| && IsJson(Arr(items)) && Follows(rest)
    ensures MoreItems(ItemsFrom(items, k) + (CLOSE_BRACKET + rest)) == Some(Parsed(items[k..], rest))
    decreases Arr(items), 0, |items| - k
  {
    hide *;
    ItemsFromStep(items, k, CLOSE_BRACKET + rest);
    Following(rest);
    if k + 1 == |items| {
      ItemIsJson(items, k);
      RoundTrip(items[k], CLOSE_BRACKET + rest);
      LastItem(Print(items[k]), items[k], rest);
      assert items[k..] == [items[k]];
    } else {
      var more := ItemsFrom(items, k + 1) + (CLOSE_BRACKET + rest);
      Following(more);
      ItemIsJson(items, k);
      RoundTrip(items[k], COMMA + more);
      MoreItemsRead(items, k + 1, rest);
      NextItem(Print(items[k]), items[k], more, items[k + 1..], rest);
      assert items[k..] == [items[k]] + items[k + 1..];
    }
  }

  lemma Following(rest: Units)
    ensures Follows(CLOSE_BRACKET + rest) && Follows(CLOSE_BRACE + rest) && Follows(COMMA + rest)
  {
  }

  lemma ItemIsJson(items: seq<Value>, k: nat)
    requires k < |items| && IsJson(Arr(items))
    ensures IsJson(items[k])
  {
  }

  lemma ItemsFromStep(items: seq<Value>, k: nat, tail: Units)
    requires k < |items|
    ensures k + 1 == |items| ==> ItemsFrom(items, k) == Print(items[k])
    ensures k + 1 < |items| ==>
              ItemsFrom(items, k) + tail == Print(items[k]) + (COMMA + (ItemsFrom(items, k + 1) + tail))
  {
    hide Print;
    if k + 1 < |items| {
      assert ItemsFrom(items, k) == Print(items[k]) + (COMMA + ItemsFrom(items, k + 1));
    }
  }

  lemma LastItem(text: Units, v: Value, rest: Units)
    requires Read(text + (CLOSE_BRACKET + rest)) == Some(Parsed(v, CLOSE_BRACKET + rest))
    ensures MoreItems(text + (CLOSE_BRACKET + rest)) == Some(Parsed([v], rest))
  {
    hide Read;
    assert (CLOSE_BRACKET + rest)[1..] == rest;
  }

  lemma NextItem(text: Units, v: Value, more: Units, items: seq<Value>, rest: Units)
    requires Read(text + (COMMA + more)) == Some(Parsed(v, COMMA + more))
             && MoreItems(more) == Some(Parsed(items, rest))
    ensures MoreItems(text + (COMMA + more)) == Some(Parsed([v] + items, rest))
  {
    hide Read;
    assert (COMMA + more)[1..] == more;
  }

  lemma {:induction false} ObjectRoundTrip(members: seq<Member>, rest: Units)
    requires IsJson(Obj(members)) && Follows(rest)
    ensures Read(Print(Obj(members)) + rest) == Some(Parsed(Obj(members), rest))
    decreases Obj(members), 1, 0
  {
    if members == [] {
      EmptyRead(rest);
    } else {
      var inner := MembersFrom(members, 0);
      MembersSplit(members, 0);
      MoreMembersRead(members, 0, rest);
      KeyStarts(members);
      BraceRead(inner, members, rest);
      hide Read, MoreMembers, MembersFrom, IsJson;
      assert PrintMembers(Obj(members), |members|) == inner;
    }
  }

  lemma KeyStarts(members: seq<Member>)
    requires members != []
    ensures Starts(MembersFrom(members, 0))
  {
    hide Print;
  }

  lemma {:induction false} MoreMembersRead(members: seq<Member>, k: nat, rest: Units)
    requires k < |members| && IsJson(Obj(members)) && Follows(rest)
    ensures MoreMembers(MembersFrom(members, k) + (CLOSE_BRACE + rest)) == Some(Parsed(members[k..], rest))
    decreases Obj(members), 0, |members| - k
  {
    hide *;
    MembersFromStep(members, k, CLOSE_BRACE + rest);
    Following(rest);
    if k + 1 == |members| {
      MemberRead(members, k, CLOSE_BRACE + rest);
      LastMember(MemberText(members[k]), members[k], rest);
      assert members[k..] == [members[k]];
    } else {
      var more := MembersFrom(members, k + 1) + (CLOSE_BRACE + rest);
      Following(more);
      MemberRead(members, k, COMMA + more);
      MoreMembersRead(members, k + 1, rest);
      NextMember(MemberText(members[k]), members[k], more, members[k + 1..], rest);
      assert members[k..] == [members[k]] + members[k + 1..];
    }
  }

  lemma MembersFromStep(members: seq<Member>, k: nat, tail: Units)
    requires k < |members|
    ensures k + 1 == |members| ==> MembersFrom(members, k) == MemberText(members[k])
    ensures k + 1 < |members| ==>
              MembersFrom(members, k) + tail == MemberText(members[k]) + (COMMA + (MembersFrom(members, k + 1) + tail))
  {
    hide MemberText;
    if k + 1 < |members| {
      assert MembersFrom(members, k) == MemberText(members[k]) + (COMMA + MembersFrom(members, k + 1));
    }
  }

  lemma LastMember(text: Units, m: Member, rest: Units)
    requires ReadMember(text + (CLOSE_BRACE + rest)) == Some(Parsed(m, CLOSE_BRACE + rest))
    ensures MoreMembers(text + (CLOSE_BRACE + rest)) == Some(Parsed([m], rest))
  {
    hide ReadMember;
    assert (CLOSE_BRACE + rest)[1..] == rest;
  }

  lemma NextMember(text: Units, m: Member, more: Units, members: seq<Member>, rest: Units)
    requires ReadMember(text + (COMMA + more)) == Some(Parsed(m, COMMA + more))
             && MoreMembers(more) == Some(Parsed(members, rest))
    ensures MoreMembers(text + (COMMA + more)) == Some(Parsed([m] + members, rest))
  {
    hide ReadMember;
    assert (COMMA + more)[1..] == more;
  }

  lemma {:induction false} MemberRead(members: seq<Member>, k: nat, tail: Units)
    requires k < |members| && IsJson(Obj(members)) && Follows(tail)
    ensures ReadMember(MemberText(members[k]) + tail) == Some(Parsed(members[k], tail))
    decreases Obj(members), 0, 0
  {
    var m := members[k];
    MemberIsJson(members, k);
    hide *;
    RoundTrip(m.value, tail);
    QuotedRead(m.key, COLON + (Print(m.value) + tail));
    MemberIs(m, tail);
    MemberParts(MemberText(m) + tail, m.key, Print(m.value) + tail, m.value, tail);
  }

  lemma MemberIsJson(members: seq<Member>, k: nat)
    requires k < |members| && IsJson(Obj(members))
    ensures AreUnits(members[k].key) && IsJson(members[k].value) && members[k].value < Obj(members)
  {
  }

  lemma MemberIs(m: Member, tail: Units)
    ensures MemberText(m) + tail == Quote(m.key) + (COLON + (Print(m.value) + tail))
    ensures Member(m.key, m.value) == m
  {
    hide Quote, Print;
  }

  lemma MemberParts(t: Units, key: Units, after: Units, v: Value, tail: Units)
    requires t != [] && t[0] == 0x22 && ReadString(t[1..]) == Some(Parsed(key, COLON + after))
    requires Read(after) == Some(Parsed(v, tail))
    ensures ReadMember(t) == Some(Parsed(Member(key, v), tail))
  {
    hide Read, ReadString;
    assert (COLON + after)[1..] == after;
  }

  /** Different values have different text. */
  lemma PrintInjective(v: Value, w: Value)
    requires IsJson(v) && IsJson(w) && Print(v) == Print(w)
    ensures v == w
  {
    RoundTrip(v, []);
    RoundTrip(w, []);
  }
}
