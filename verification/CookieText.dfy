/**
 * Cookie headers as text: parsing a `Cookie` header, writing a `Set-Cookie` value, signing, and
 * the way a written cookie comes back among others.
 */
module CookieText {
  import opened Text
  import Uri = UriComponent

  // ------------------------------------------------------------------ white space

  /** What `trim` removes. */
  predicate IsSpace(c: char) {
    var n := c as int;
    || 0x09 <= n <= 0x0d || n == 0x20 || n == 0xa0 || n == 0x1680 || 0x2000 <= n <= 0x200a
    || n == 0x2028 || n == 0x2029 || n == 0x202f || n == 0x205f || n == 0x3000 || n == 0xfeff
  }

  function TrimStart(s: string): string {
    if s != "" && IsSpace(s[0]) then TrimStart(s[1..]) else s
  }

  function TrimEnd(s: string): string {
    if s != "" && IsSpace(s[|s| - 1]) then TrimEnd(s[..|s| - 1]) else s
  }

  function Trim(s: string): string {
    TrimEnd(TrimStart(s))
  }

  predicate NoSpace(s: string) {
    forall c :: c in s ==> !IsSpace(c)
  }

  /** Trimming takes away exactly the white space and line ends of JavaScript. */
  lemma SpaceIs(c: char)
    ensures Trim([c]) == "" <==>
            c as int in {0x09, 0x0a, 0x0b, 0x0c, 0x0d, 0x20, 0xa0, 0x1680, 0x2000, 0x2001, 0x2002, 0x2003, 0x2004,
                         0x2005, 0x2006, 0x2007, 0x2008, 0x2009, 0x200a, 0x2028, 0x2029, 0x202f, 0x205f, 0x3000,
                         0xfeff}
  {
    assert [c][1..] == "" && TrimEnd("") == "" && TrimStart("") == "";
    assert IsSpace(c) ==> Trim([c]) == "";
    assert !IsSpace(c) ==> Trim([c]) == [c];
  }

  // ------------------------------------------------------------------ parsing

  function Unquoted(s: string): string {
    if |s| > 1 && s[0] == '"' && s[|s| - 1] == '"' then s[1..|s| - 1] else s
  }

  function Decoded(s: string): string {
    if '%' !in s then s
    else
      match Uri.Decode(s)
      case Some(text) => text
      case None => s
  }

  /** Key and value of one piece of the header, when it has both. */
  function ParsePair(pair: string): Option<(string, string)> {
    var eq := Find(pair, '=', 0);
    if eq == |pair| then None
    else
      var key := Trim(pair[..eq]);
      if key == "" then None else Some((key, Decoded(Unquoted(Trim(pair[eq + 1..])))))
  }

  /** The first pair of a key counts. */
  function ParsePairs(pairs: seq<string>): map<string, string> {
    if pairs == [] then map[]
    else
      var before := ParsePairs(pairs[..|pairs| - 1]);
      match ParsePair(pairs[|pairs| - 1])
      case None => before
      case Some((key, value)) => if key in before then before else before[key := value]
  }

  function ParseHeader(header: Option<string>): map<string, string> {
    if header.None? || header.value == "" then map[] else ParsePairs(Split(header.value, ';'))
  }

  method ParseCookieHeader(header: Option<string>) returns (out: map<string, string>)
    ensures out == ParseHeader(header)
  {
    out := map[];
    if header.None? || header.value == "" { return; }
    var pairs := Split(header.value, ';');
    var i := 0;
    while i < |pairs|
      invariant i <= |pairs| && out == ParsePairs(pairs[..i])
    {
      assert pairs[..i + 1][..i] == pairs[..i];
      var pair := pairs[i];
      i := i + 1;
      var eq := Find(pair, '=', 0);
      if eq == |pair| { continue; }
      var key := Trim(pair[..eq]);
      if key == "" || key in out { continue; }
      var value := Trim(pair[eq + 1..]);
      if |value| > 1 && value[0] == '"' && value[|value| - 1] == '"' { value := value[1..|value| - 1]; }
      if '%' in value {
        var decoded := Uri.Decode(value);
        if decoded.Some? { value := decoded.value; }
      }
      out := out[key := value];
    }
    assert pairs[..i] == pairs;
  }

  // ------------------------------------------------------------------ signing

  /** `signature`: any function; its text has no dot. */
  type Signer = (string, string) -> string

  ghost predicate NoDots(sig: Signer) {
    forall value, secret :: '.' !in sig(value, secret)
  }

  function SignCookie(sig: Signer, value: string, secret: string): string {
    value + "." + sig(value, secret)
  }

  function LastDot(s: string): int {
    if s == "" then -1 else if s[|s| - 1] == '.' then |s| - 1 else LastDot(s[..|s| - 1])
  }

  lemma {:induction false} LastDotIs(s: string)
    ensures -1 <= LastDot(s) < |s|
    ensures LastDot(s) >= 0 ==> s[LastDot(s)] == '.'
    ensures forall i :: LastDot(s) < i < |s| ==> s[i] != '.'
  {
    if s != "" && s[|s| - 1] != '.' {
      LastDotIs(s[..|s| - 1]);
      assert forall i :: 0 <= i < |s| - 1 ==> s[..|s| - 1][i] == s[i];
    }
  }

  /** Bitwise exclusive or. */
  function Xor(a: nat, b: nat): nat {
    if a == 0 && b == 0 then 0 else 2 * Xor(a / 2, b / 2) + if a % 2 == b % 2 then 0 else 1
  }

  /** Bitwise or. */
  function Or(a: nat, b: nat): nat {
    if a == 0 && b == 0 then 0 else 2 * Or(a / 2, b / 2) + if a % 2 == 0 && b % 2 == 0 then 0 else 1
  }

  lemma {:induction false} XorZero(a: nat, b: nat)
    ensures Xor(a, b) == 0 <==> a == b
  {
    if a != 0 || b != 0 {
      XorZero(a / 2, b / 2);
    }
  }

  lemma {:induction false} OrZero(a: nat, b: nat)
    ensures Or(a, b) == 0 <==> a == 0 && b == 0
  {
    if a != 0 || b != 0 {
      OrZero(a / 2, b / 2);
    }
  }

  lemma SameUpTo(a: string, b: string, i: nat)
    requires |a| == |b| && i < |a|
    ensures a[..i + 1] == b[..i + 1] <==> a[..i] == b[..i] && a[i] == b[i]
  {
    assert a[..i + 1] == a[..i] + [a[i]] && b[..i + 1] == b[..i] + [b[i]];
  }

  /** `diff |= a ^ b` over all characters. */
  method TimingSafeEqual(a: string, b: string) returns (equal: bool)
    requires |a| == |b|
    ensures equal <==> a == b
  {
    hide Xor, Or;
    var diff: nat := 0;
    var i := 0;
    while i < |a|
      invariant i <= |a| && (diff == 0 <==> a[..i] == b[..i])
    {
      OrZero(diff, Xor(a[i] as int, b[i] as int));
      XorZero(a[i] as int, b[i] as int);
      SameUpTo(a, b, i);
      diff := Or(diff, Xor(a[i] as int, b[i] as int));
      i := i + 1;
    }
    assert a[..i] == a && b[..i] == b;
    equal := diff == 0;
  }

  /** `signed` is `value` with the signature by one of the secrets. */
  ghost predicate IsSignedBy(sig: Signer, signed: string, secrets: seq<string>, value: string) {
    value != "" && exists s :: s in secrets && signed == SignCookie(sig, value, s)
  }

  /** A signed value splits at the last dot, as signatures have none. */
  lemma SplitsAtLastDot(sig: Signer, value: string, secret: string)
    requires NoDots(sig)
    ensures LastDot(SignCookie(sig, value, secret)) == |value|
    ensures SignCookie(sig, value, secret)[..|value|] == value
    ensures SignCookie(sig, value, secret)[|value| + 1..] == sig(value, secret)
  {
    var s := SignCookie(sig, value, secret);
    LastDotIs(s);
    assert s[|value|] == '.';
    assert forall i :: |value| < i < |s| ==> s[i] == sig(value, secret)[i - |value| - 1] && s[i] in sig(value, secret);
  }

  /** `unsignCookie`: the value in front of the last dot, when the rest is its signature by some secret. */
  method UnsignCookie(sig: Signer, signed: string, secrets: seq<string>) returns (r: Option<string>)
    requires NoDots(sig)
    ensures r == Unsigned(sig, signed, secrets)
  {
    var dot := LastDot(signed);
    LastDotIs(signed);
    if dot <= 0 { return None; }
    var value, mac := signed[..dot], signed[dot + 1..];
    var i := 0;
    while i < |secrets|
      invariant i <= |secrets| && forall k :: 0 <= k < i ==> sig(value, secrets[k]) != mac
    {
      var expected := sig(value, secrets[i]);
      if |expected| == |mac| {
        var equal := TimingSafeEqual(expected, mac);
        if equal { return Some(value); }
      }
      i := i + 1;
    }
    r := None;
  }

  function Unsigned(sig: Signer, signed: string, secrets: seq<string>): Option<string> {
    var dot := LastDot(signed);
    if 0 < dot < |signed| && exists s :: s in secrets && sig(signed[..dot], s) == signed[dot + 1..]
    then Some(signed[..dot]) else None
  }

  /** Exactly what one of the secrets signed is accepted, and the value in it returned. */
  lemma UnsignedIff(sig: Signer, signed: string, secrets: seq<string>, value: string)
    requires NoDots(sig)
    ensures Unsigned(sig, signed, secrets) == Some(value) <==> IsSignedBy(sig, signed, secrets, value)
  {
    LastDotIs(signed);
    var dot := LastDot(signed);
    if IsSignedBy(sig, signed, secrets, value) {
      var s :| s in secrets && signed == SignCookie(sig, value, s);
      SplitsAtLastDot(sig, value, s);
    }
    if Unsigned(sig, signed, secrets) == Some(value) {
      var s :| s in secrets && sig(signed[..dot], s) == signed[dot + 1..];
      assert signed == signed[..dot] + "." + signed[dot + 1..];
      assert signed == SignCookie(sig, value, s);
    }
  }

  // ------------------------------------------------------------------ reading a header back

  /** A cookie name as a client sends it: a token. */
  predicate IsName(name: string) {
    name != "" && NoSpace(name) && forall c :: c in name ==> c != '=' && c != ';'
  }

  datatype Pair = Pair(name: string, raw: string)

  /** `cookie-pair *( "; " cookie-pair )`. */
  function HeaderOf(cookies: seq<Pair>): string {
    if cookies == [] then ""
    else if |cookies| == 1 then PairText(cookies[0])
    else PairText(cookies[0]) + [';'] + (" " + HeaderOf(cookies[1..]))
  }

  function PairText(p: Pair): string {
    p.name + "=" + p.raw
  }

  /** The pieces between semicolons: every one but the first starts with a blank. */
  function Pieces(cookies: seq<Pair>, first: bool): seq<string> {
    if cookies == [] then [] else [Pad(first) + PairText(cookies[0])] + Pieces(cookies[1..], false)
  }

  predicate Sendable(cookies: seq<Pair>) {
    forall i :: 0 <= i < |cookies| ==> IsName(cookies[i].name) && ';' !in cookies[i].raw
  }

  lemma SplitNone(s: string, sep: char)
    requires sep !in s
    ensures Split(s, sep) == [s]
  {
    assert forall k :: 0 <= k < |s| ==> s[k] in s;
  }

  function Pad(first: bool): string {
    if first then "" else " "
  }

  lemma PieceClean(p: Pair, first: bool)
    requires IsName(p.name) && ';' !in p.raw
    ensures ';' !in Pad(first) + PairText(p)
  {
  }

  lemma PiecesStep(cookies: seq<Pair>, first: bool)
    requires cookies != []
    ensures Pieces(cookies, first) == [Pad(first) + PairText(cookies[0])] + Pieces(cookies[1..], false)
    ensures |cookies| == 1 ==> HeaderOf(cookies) == PairText(cookies[0]) && Pieces(cookies[1..], false) == []
    ensures |cookies| > 1 ==>
              Pad(first) + HeaderOf(cookies) ==
              Pad(first) + PairText(cookies[0]) + [';'] + (Pad(false) + HeaderOf(cookies[1..]))
  {
    hide PairText;
    if |cookies| > 1 { Regroup(Pad(first), PairText(cookies[0]), [';'], Pad(false) + HeaderOf(cookies[1..])); }
  }

  lemma Regroup(a: string, b: string, c: string, d: string)
    ensures a + (b + c + d) == a + b + c + d
  {
  }

  lemma SendableParts(cookies: seq<Pair>)
    requires cookies != [] && Sendable(cookies)
    ensures Sendable(cookies[1..]) && IsName(cookies[0].name) && ';' !in cookies[0].raw
  {
  }

  lemma {:induction false} HeaderSplits(cookies: seq<Pair>, first: bool)
    requires cookies != [] && Sendable(cookies)
    ensures Split(Pad(first) + HeaderOf(cookies), ';') == Pieces(cookies, first)
  {
    hide *;
    var piece := Pad(first) + PairText(cookies[0]);
    SendableParts(cookies);
    PieceClean(cookies[0], first);
    PiecesStep(cookies, first);
    if |cookies| == 1 {
      SplitNone(piece, ';');
    } else {
      HeaderSplits(cookies[1..], false);
      SplitCons(piece, Pad(false) + HeaderOf(cookies[1..]), ';');
    }
  }

  lemma {:induction false} TrimNothing(s: string)
    requires NoSpace(s)
    ensures TrimStart(s) == s && TrimEnd(s) == s
  {
  }

  lemma TrimPad(s: string)
    requires NoSpace(s)
    ensures Trim(s) == s && Trim(" " + s) == s
  {
    TrimNothing(s);
    assert (" " + s)[1..] == s;
  }

  // ------------------------------------------------------------------ what a pair means

  predicate AllSpace(s: string) {
    forall c :: c in s ==> IsSpace(c)
  }

  /** No white space at either end. */
  predicate Bare(s: string) {
    s == "" || (!IsSpace(s[0]) && !IsSpace(s[|s| - 1]))
  }

  lemma {:induction false} TrimStartIs(before: string, s: string)
    requires AllSpace(before) && (s == "" || !IsSpace(s[0]))
    ensures TrimStart(before + s) == s
  {
    if before == "" {
      assert before + s == s;
    } else {
      assert before[0] in before && forall c :: c in before[1..] ==> c in before;
      TrimStartIs(before[1..], s);
      assert (before + s)[1..] == before[1..] + s;
    }
  }

  lemma {:induction false} TrimEndIs(s: string, after: string)
    requires AllSpace(after) && (s == "" || !IsSpace(s[|s| - 1]))
    ensures TrimEnd(s + after) == s
  {
    if after == "" {
      assert s + after == s;
    } else {
      var last := |after| - 1;
      assert after[last] in after && forall c :: c in after[..last] ==> c in after;
      TrimEndIs(s, after[..last]);
      assert (s + after)[..|s + after| - 1] == s + after[..last];
    }
  }

  /** White space around a text is dropped. */
  lemma TrimIs(before: string, s: string, after: string)
    requires AllSpace(before) && AllSpace(after) && Bare(s)
    ensures Trim(before + s + after) == s
  {
    if s == "" {
      assert AllSpace(before + after) && before + s + after == (before + after) + "";
      TrimStartIs(before + after, "");
    } else {
      assert before + s + after == before + (s + after);
      TrimStartIs(before, s + after);
      TrimEndIs(s, after);
    }
  }

  lemma {:induction false} DecodeNothing(s: string)
    requires '%' !in s
    ensures Uri.Decode(s) == Some(s)
  {
    if s != "" {
      assert forall c :: c in s[1..] ==> c in s;
      assert s[0] in s;
      DecodeNothing(s[1..]);
      assert s == [s[0]] + s[1..];
    }
  }

  /**
   * A pair means its key, and its value without quotes around it and percent-decoded where that is
   * possible, white space dropped; without a key it means nothing, nor does a piece without `=`.
   */
  lemma PairMeans(a: string, key: string, b: string, c: string, value: string, d: string)
    requires AllSpace(a) && AllSpace(b) && AllSpace(c) && AllSpace(d) && Bare(key) && Bare(value)
    requires '=' !in key
    ensures ParsePair(a + key + b + "=" + (c + value + d)) ==
            if key == "" then None else Some((key, ValueOf(value)))
  {
    TrimIs(a, key, b);
    TrimIs(c, value, d);
    assert '=' !in a + key + b;
    PartsRead(a + key + b, c + value + d);
    ValueOfIs(value);
    hide ParsePair, Trim, ValueOf, Decoded, Unquoted;
  }

  lemma NoPair(piece: string)
    requires '=' !in piece
    ensures ParsePair(piece) == None
  {
    assert forall k :: 0 <= k < |piece| ==> piece[k] in piece;
  }

  /** The text between quotes or else the whole, decoded unless that fails. */
  function ValueOf(value: string): string {
    var inner := if |value| > 1 && value[0] == '"' && value[|value| - 1] == '"' then value[1..|value| - 1] else value;
    match Uri.Decode(inner)
    case Some(text) => text
    case None => inner
  }

  lemma ValueOfIs(value: string)
    ensures Decoded(Unquoted(value)) == ValueOf(value)
  {
    if '%' !in Unquoted(value) { DecodeNothing(Unquoted(value)); }
    hide Uri.Decode;
  }

  /** A pair gives its name, and a percent-encoded value comes out decoded. */
  lemma PairReads(p: Pair, first: bool, value: string)
    requires IsName(p.name)
    ensures var r := ParsePair(Pad(first) + PairText(p));
            r.Some? && r.value.0 == p.name && (p.raw == Uri.Encode(value) ==> r == Some((p.name, value)))
  {
    hide *;
    var before := Pad(first) + p.name;
    NameReads(p.name, first);
    EncodedReads(value);
    PartsRead(before, p.raw);
    PairIs(p, first);
  }

  lemma PairIs(p: Pair, first: bool)
    ensures Pad(first) + PairText(p) == Pad(first) + p.name + "=" + p.raw
  {
  }

  lemma NameReads(name: string, first: bool)
    requires IsName(name)
    ensures '=' !in Pad(first) + name && Trim(Pad(first) + name) == name && name != ""
  {
    TrimPad(name);
    assert "" + name == name;
  }

  lemma PartsRead(before: string, after: string)
    requires '=' !in before
    ensures ParsePair(before + "=" + after) ==
            if Trim(before) == "" then None else Some((Trim(before), Decoded(Unquoted(Trim(after)))))
  {
    hide Trim, Decoded, Unquoted;
    var s := before + "=" + after;
    assert s[|before|] == '=';
    assert forall k :: 0 <= k < |before| ==> s[k] == before[k] && before[k] in before;
    assert s[..|before|] == before && s[|before| + 1..] == after;
  }

  lemma EncodedReads(value: string)
    ensures Decoded(Unquoted(Trim(Uri.Encode(value)))) == value
  {
    var e := Uri.Encode(value);
    Uri.EncodedIsSafe(value);
    SafeStays(e);
    Uri.RoundTrip(value);
    if '%' !in e { PlainEncoding(value); }
    hide Uri.Encode, Uri.Decode, Trim, Unquoted;
  }

  lemma SafeStays(e: string)
    requires forall c :: c in e ==> Uri.IsCookieSafe(c)
    ensures Trim(e) == e && Unquoted(e) == e
  {
    assert NoSpace(e);
    TrimPad(e);
    assert e != "" ==> e[0] in e;
  }

  lemma {:induction false} PlainEncoding(value: string)
    requires '%' !in Uri.Encode(value)
    ensures Uri.Encode(value) == value
  {
    if value != "" {
      var (head, tail) := (Uri.EncodeChar(value[0]), Uri.Encode(value[1..]));
      assert forall c :: c in tail ==> c in head + tail;
      PlainEncoding(value[1..]);
      assert forall c :: c in head ==> c in head + tail;
      PercentShows(value[0]);
    }
  }

  lemma PercentShows(c: char)
    ensures !Uri.IsUnreserved(c) ==> '%' in Uri.EncodeChar(c)
  {
    if !Uri.IsUnreserved(c) {
      var bytes := Uri.Utf8(c);
      assert Uri.PercentAll(bytes) == Uri.Percent(bytes[0]) + Uri.PercentAll(bytes[1..]);
      assert Uri.Percent(bytes[0])[0] == '%';
      assert Uri.PercentAll(bytes)[0] == '%';
    }
  }

  lemma {:induction false} PieceAtIs(cookies: seq<Pair>, first: bool, k: nat)
    requires k < |cookies|
    ensures |Pieces(cookies, first)| == |cookies|
    ensures Pieces(cookies, first)[k] == Pad(first && k == 0) + PairText(cookies[k])
  {
    if |cookies| > 1 {
      PieceAtIs(cookies[1..], false, if k > 0 then k - 1 else 0);
    }
  }

  /** The value of the first pair with the name. */
  lemma {:induction false} FirstWins(pairs: seq<string>, k: nat, name: string, value: string)
    requires k < |pairs| && ParsePair(pairs[k]) == Some((name, value))
    requires forall j :: 0 <= j < k ==> ParsePair(pairs[j]).None? || ParsePair(pairs[j]).value.0 != name
    ensures name in ParsePairs(pairs) && ParsePairs(pairs)[name] == value
  {
    var last := |pairs| - 1;
    hide ParsePair;
    if k < last {
      FirstWins(pairs[..last], k, name, value);
    } else {
      NotThere(pairs[..last], name);
    }
  }

  lemma {:induction false} NotThere(pairs: seq<string>, name: string)
    requires forall j :: 0 <= j < |pairs| ==> ParsePair(pairs[j]).None? || ParsePair(pairs[j]).value.0 != name
    ensures name !in ParsePairs(pairs)
  {
    hide ParsePair;
    if pairs != [] {
      NotThere(pairs[..|pairs| - 1], name);
    }
  }

  /** A percent-encoded value sent back among other cookies with other names is read unchanged. */
  lemma ReadBack(cookies: seq<Pair>, k: nat, value: string)
    requires Sendable(cookies) && k < |cookies| && cookies[k].raw == Uri.Encode(value)
    requires forall j :: 0 <= j < k ==> cookies[j].name != cookies[k].name
    ensures var parsed := ParseHeader(Some(HeaderOf(cookies)));
            cookies[k].name in parsed && parsed[cookies[k].name] == value
  {
    var pairs := Pieces(cookies, true);
    HeaderParses(cookies);
    forall j | 0 <= j <= k
      ensures j < |pairs| && ParsePair(pairs[j]).Some? && ParsePair(pairs[j]).value.0 == cookies[j].name
    {
      PieceReads(cookies, j, value);
    }
    PieceReads(cookies, k, value);
    hide ParsePair, ParsePairs, Pieces, ParseHeader, Sendable;
    FirstWins(pairs, k, cookies[k].name, value);
  }

  lemma PieceReads(cookies: seq<Pair>, j: nat, value: string)
    requires Sendable(cookies) && j < |cookies|
    ensures j < |Pieces(cookies, true)|
    ensures var r := ParsePair(Pieces(cookies, true)[j]);
            r.Some? && r.value.0 == cookies[j].name
            && (cookies[j].raw == Uri.Encode(value) ==> r == Some((cookies[j].name, value)))
  {
    PieceAtIs(cookies, true, j);
    assert IsName(cookies[j].name);
    hide IsName;
    PairReads(cookies[j], j == 0, value);
    hide ParsePair, Pieces, PairText, Uri.Encode;
  }

  lemma HeaderParses(cookies: seq<Pair>)
    requires cookies != [] && Sendable(cookies)
    ensures ParseHeader(Some(HeaderOf(cookies))) == ParsePairs(Pieces(cookies, true))
  {
    HeaderSplits(cookies, true);
    HeaderNotEmpty(cookies);
    hide Split, HeaderOf, ParsePairs, Pieces, Sendable;
    assert Pad(true) + HeaderOf(cookies) == HeaderOf(cookies);
  }

  lemma HeaderNotEmpty(cookies: seq<Pair>)
    requires cookies != []
    ensures HeaderOf(cookies) != ""
  {
  }
}
