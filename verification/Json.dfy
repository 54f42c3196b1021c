/**
 * JSON values and their standard text: strings are sequences of UTF-16 code units, numbers are
 * known by the text `String(n)` gives, objects are lists of members in insertion order.
 */
module Json {
  import opened Text

  type Units = seq<nat>

  datatype Number = Finite(text: Units) | NotFinite(isNaN: bool)

  datatype Value =
    | Null
    | Bool(b: bool)
    | Num(n: Number)
    | Str(s: Units)
    | Arr(items: seq<Value>)
    | Obj(members: seq<Member>)

  datatype Member = Member(key: Units, value: Value)

  const COMMA: Units := [0x2c]
  const COLON: Units := [0x3a]
  const OPEN_BRACKET: Units := [0x5b]
  const CLOSE_BRACKET: Units := [0x5d]
  const OPEN_BRACE: Units := [0x7b]
  const CLOSE_BRACE: Units := [0x7d]
  const NULL_TEXT: Units := [0x6e, 0x75, 0x6c, 0x6c]
  const TRUE_TEXT: Units := [0x74, 0x72, 0x75, 0x65]
  const FALSE_TEXT: Units := [0x66, 0x61, 0x6c, 0x73, 0x65]
  const UNDEFINED_TEXT: Units := [0x75, 0x6e, 0x64, 0x65, 0x66, 0x69, 0x6e, 0x65, 0x64]
  const ZERO_TEXT: Units := [0x30]

  /** The code units of a text in which every character is one. */
  function UnitsOf(s: string): (r: Units)
    ensures |r| == |s|
  {
    seq(|s|, i requires 0 <= i < |s| => s[i] as int)
  }

  // ------------------------------------------------------------------ strings

  function Hex(d: nat): nat
    requires d < 16
  {
    if d < 10 then 0x30 + d else 0x61 + d - 10
  }

  function UnicodeEscape(c: nat): Units {
    [0x5c, 0x75, Hex(c / 0x1000 % 16), Hex(c / 0x100 % 16), Hex(c / 0x10 % 16), Hex(c % 16)]
  }

  predicate IsLead(c: nat) {
    0xd800 <= c < 0xdc00
  }

  predicate IsTrail(c: nat) {
    0xdc00 <= c < 0xe000
  }

  /** One code unit that is not part of a surrogate pair. */
  function EscapeUnit(c: nat): Units {
    if c == 0x22 then [0x5c, 0x22]
    else if c == 0x5c then [0x5c, 0x5c]
    else if c == 0x08 then [0x5c, 0x62]
    else if c == 0x09 then [0x5c, 0x74]
    else if c == 0x0a then [0x5c, 0x6e]
    else if c == 0x0c then [0x5c, 0x66]
    else if c == 0x0d then [0x5c, 0x72]
    else if c < 0x20 || IsLead(c) || IsTrail(c) then UnicodeEscape(c)
    else [c]
  }

  function Escape(s: Units): Units {
    if s == [] then []
    else if |s| > 1 && IsLead(s[0]) && IsTrail(s[1]) then [s[0], s[1]] + Escape(s[2..])
    else EscapeUnit(s[0]) + Escape(s[1..])
  }

  function Quote(s: Units): Units {
    [0x22] + Escape(s) + [0x22]
  }

  // ------------------------------------------------------------------ values

  /** `JSON.stringify`. */
  function Print(v: Value): Units
    decreases v, 1
  {
    match v
    case Null => NULL_TEXT
    case Bool(b) => if b then TRUE_TEXT else FALSE_TEXT
    case Num(Finite(text)) => text
    case Num(NotFinite(_)) => NULL_TEXT
    case Str(s) => Quote(s)
    case Arr(items) => OPEN_BRACKET + PrintItems(v, |items|) + CLOSE_BRACKET
    case Obj(members) => OPEN_BRACE + PrintMembers(v, |members|) + CLOSE_BRACE
  }

  function PrintItems(v: Value, n: nat): Units
    requires v.Arr? && n <= |v.items|
    decreases v, 0, n
  {
    if n == 0 then []
    else PrintItems(v, n - 1) + (if n > 1 then COMMA else []) + Print(v.items[n - 1])
  }

  function PrintMembers(v: Value, n: nat): Units
    requires v.Obj? && n <= |v.members|
    decreases v, 0, n
  {
    if n == 0 then []
    else
      PrintMembers(v, n - 1) + (if n > 1 then COMMA else []) +
      Quote(v.members[n - 1].key) + COLON + Print(v.members[n - 1].value)
  }

  /** A number that is not finite has no text of its own. */
  lemma NotFiniteIsNull(isNaN: bool)
    ensures Print(Num(NotFinite(isNaN))) == Print(Null)
  {
  }

  // ------------------------------------------------------------------ lists printed one by one

  function ItemsText(items: seq<Value>): Units {
    PrintItems(Arr(items), |items|)
  }

  function MembersText(members: seq<Member>): Units {
    PrintMembers(Obj(members), |members|)
  }

  lemma {:induction false} ItemsPrefix(a: seq<Value>, b: seq<Value>, n: nat)
    requires n <= |a| && n <= |b| && forall i :: 0 <= i < n ==> a[i] == b[i]
    ensures PrintItems(Arr(a), n) == PrintItems(Arr(b), n)
  {
    if n > 0 {
      ItemsPrefix(a, b, n - 1);
    }
  }

  lemma ItemsSnoc(items: seq<Value>, item: Value)
    ensures ItemsText(items + [item]) == ItemsText(items) + (if items != [] then COMMA else []) + Print(item)
  {
    ItemsPrefix(items, items + [item], |items|);
  }

  lemma {:induction false} MembersPrefix(a: seq<Member>, b: seq<Member>, n: nat)
    requires n <= |a| && n <= |b| && forall i :: 0 <= i < n ==> a[i] == b[i]
    ensures PrintMembers(Obj(a), n) == PrintMembers(Obj(b), n)
  {
    if n > 0 {
      MembersPrefix(a, b, n - 1);
    }
  }

  lemma MembersSnoc(members: seq<Member>, m: Member)
    ensures MembersText(members + [m]) ==
            MembersText(members) + (if members != [] then COMMA else []) + Quote(m.key) + COLON + Print(m.value)
  {
    MembersPrefix(members, members + [m], |members|);
  }

  // ------------------------------------------------------------------ the text in full

  lemma EmptyText()
    ensures Print(Null) == UnitsOf("null")
    ensures Print(Bool(true)) == UnitsOf("true") && Print(Bool(false)) == UnitsOf("false")
    ensures Print(Arr([])) == [0x5b, 0x5d] && Print(Obj([])) == [0x7b, 0x7d]
  {
    assert OPEN_BRACKET + [] + CLOSE_BRACKET == [0x5b, 0x5d] && OPEN_BRACE + [] + CLOSE_BRACE == [0x7b, 0x7d];
  }

  /** One more element goes before the closing bracket, after a comma unless it is the first. */
  lemma ArrayText(items: seq<Value>, item: Value)
    ensures var before := Print(Arr(items));
            Print(Arr(items + [item])) ==
            before[..|before| - 1] + (if items == [] then [] else [0x2c]) + Print(item) + [0x5d]
  {
    ArrayPrints(items);
    ArrayPrints(items + [item]);
    ItemsSnoc(items, item);
    hide Print, ItemsText;
    Inside([0x5b], ItemsText(items), if items == [] then [] else COMMA, Print(item), [0x5d]);
  }

  lemma ArrayPrints(items: seq<Value>)
    ensures Print(Arr(items)) == [0x5b] + ItemsText(items) + [0x5d]
  {
  }

  lemma ObjectPrints(members: seq<Member>)
    ensures Print(Obj(members)) == [0x7b] + MembersText(members) + [0x7d]
  {
  }

  lemma Inside(open: Units, inner: Units, comma: Units, more: Units, close: Units)
    requires |close| == 1
    ensures var before := open + inner + close;
            before[..|before| - 1] + comma + more + close == open + (inner + comma + more) + close
  {
  }

  /** One more member goes before the closing brace in the same way, its quoted key and a colon in front. */
  lemma ObjectText(members: seq<Member>, m: Member)
    ensures var before := Print(Obj(members));
            Print(Obj(members + [m])) ==
            before[..|before| - 1] + (if members == [] then [] else [0x2c]) + Quote(m.key) + [0x3a] + Print(m.value)
            + [0x7d]
  {
    ObjectPrints(members);
    ObjectPrints(members + [m]);
    MembersSnoc(members, m);
    hide Print, MembersText, Quote;
    var comma := if members == [] then [] else COMMA;
    Inside([0x7b], MembersText(members), comma, Quote(m.key) + COLON + Print(m.value), [0x7d]);
    Regrouped(MembersText(members), comma, Quote(m.key), COLON, Print(m.value));
    var before := Print(Obj(members));
    Regrouped(before[..|before| - 1], comma, Quote(m.key), COLON, Print(m.value));
  }

  lemma Regrouped(a: Units, b: Units, c: Units, d: Units, e: Units)
    ensures a + b + (c + d + e) == a + b + c + d + e
  {
  }

  /** Quote, backslash, backspace, tab, line feed, form feed and carriage return have escapes of their own. */
  lemma ShortEscapes()
    ensures EscapeUnit(0x22) == [0x5c, 0x22] && EscapeUnit(0x5c) == [0x5c, 0x5c]
    ensures EscapeUnit(0x08) == [0x5c, 'b' as int] && EscapeUnit(0x09) == [0x5c, 't' as int]
    ensures EscapeUnit(0x0a) == [0x5c, 'n' as int] && EscapeUnit(0x0c) == [0x5c, 'f' as int]
    ensures EscapeUnit(0x0d) == [0x5c, 'r' as int]
  {
  }

  /** Other control characters and lone surrogates are written with lower-case hex digits, the rest as they are. */
  lemma EscapeIs(c: nat)
    requires c < 0x10000 && c !in {0x22, 0x5c, 0x08, 0x09, 0x0a, 0x0c, 0x0d}
    ensures 0x20 <= c < 0xd800 || 0xe000 <= c ==> EscapeUnit(c) == [c]
    ensures c < 0x20 || 0xd800 <= c < 0xe000 ==>
              EscapeUnit(c) ==
              [0x5c, 'u' as int] + [Digit(c / 0x1000), Digit(c / 0x100 % 16), Digit(c / 0x10 % 16), Digit(c % 16)]
  {
    assert c / 0x1000 % 16 == c / 0x1000;
    DigitIs(c / 0x1000);
    DigitIs(c / 0x100 % 16);
    DigitIs(c / 0x10 % 16);
    DigitIs(c % 16);
    hide Hex, Digit;
  }

  function Digit(d: nat): nat
    requires d < 16
  {
    "0123456789abcdef"[d] as int
  }

  lemma DigitIs(d: nat)
    requires d < 16
    ensures Hex(d) == Digit(d)
  {
  }

  /** Surrogate pairs stay as they are; everything else is written unit by unit. */
  lemma EscapeStep(c: nat, s: Units)
    ensures Escape([]) == []
    ensures 0xd800 <= c < 0xdc00 && s != [] && 0xdc00 <= s[0] < 0xe000 ==> Escape([c] + s) == [c, s[0]] + Escape(s[1..])
    ensures !(0xd800 <= c < 0xdc00 && s != [] && 0xdc00 <= s[0] < 0xe000) ==>
              Escape([c] + s) == EscapeUnit(c) + Escape(s)
  {
    var all := [c] + s;
    assert all[1..] == s && (s != [] ==> all[2..] == s[1..]);
  }

  // ------------------------------------------------------------------ looking up a key

  function Lookup(members: seq<Member>, key: Units): Option<Value> {
    if members == [] then None
    else if members[0].key == key then Some(members[0].value)
    else Lookup(members[1..], key)
  }

  predicate HasKey(members: seq<Member>, key: Units) {
    Lookup(members, key).Some?
  }
}
