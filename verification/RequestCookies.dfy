/**
 * The cookie jar of one request, and what a written cookie is worth to the next request.
 */
module RequestCookies {
  import opened Text
  import opened CookieText
  import Uri = UriComponent

  datatype Sign = SignNone | SignAll | SignNames(names: seq<string>)

  datatype Config = Config(secrets: seq<string>, sign: Sign) {
    predicate IsSigned(name: string) {
      secrets != [] && match sign
                       case SignNone => false
                       case SignAll => true
                       case SignNames(names) => name in names
    }
  }

  /** The attributes that are set, as text; `sameSite: true` is given as `strict`. */
  datatype Attributes = Attributes(
    maxAge: Option<string>, domain: string, path: string, expires: Option<string>,
    httpOnly: bool, secure: bool, partitioned: bool, priority: string, sameSite: string)

  const NO_ATTRIBUTES := Attributes(None, "", "", None, false, false, false, "", "")

  function Expired(attrs: Attributes): Attributes {
    attrs.(expires := Some("Thu, 01 Jan 1970 00:00:00 GMT"), maxAge := Some("0"))
  }

  datatype State = State(value: Option<string>, attrs: Attributes, dirty: bool)

  datatype Result<T> = Ok(value: T) | InvalidSignature(name: string)

  // ------------------------------------------------------------------ Set-Cookie

  function Upper(c: char): char {
    if 'a' <= c <= 'z' then (c as int - 32) as char else c
  }

  function Lower(s: string): string {
    seq(|s|, i requires 0 <= i < |s| => if 'A' <= s[i] <= 'Z' then (s[i] as int + 32) as char else s[i])
  }

  function Capitalize(s: string): string {
    if s == "" then "" else [Upper(s[0])] + Lower(s[1..])
  }

  /** `out` with one more attribute, if it is set. */
  function With(out: string, isSet: bool, attribute: string): string {
    if isSet then out + ("; " + attribute) else out
  }

  function Serialize(name: string, value: string, a: Attributes): string {
    var out0 := name + "=" + Uri.Encode(value);
    var out1 := With(out0, a.maxAge.Some?, "Max-Age=" + (if a.maxAge.Some? then a.maxAge.value else ""));
    var out2 := With(out1, a.domain != "", "Domain=" + a.domain);
    var out3 := With(out2, a.path != "", "Path=" + a.path);
    var out4 := With(out3, a.expires.Some?, "Expires=" + (if a.expires.Some? then a.expires.value else ""));
    var out5 := With(out4, a.httpOnly, "HttpOnly");
    var out6 := With(out5, a.secure, "Secure");
    var out7 := With(out6, a.partitioned, "Partitioned");
    var out8 := With(out7, a.priority != "", "Priority=" + Capitalize(a.priority));
    With(out8, a.sameSite != "", "SameSite=" + Capitalize(a.sameSite))
  }

  /** The pair a client keeps of a `Set-Cookie` value: up to the first semicolon. */
  function Kept(setCookie: string): string {
    setCookie[..Find(setCookie, ';', 0)]
  }

  /** `s` is `pair`, then nothing or a semicolon and more. */
  predicate Continues(pair: string, s: string) {
    pair <= s && (|s| > |pair| ==> s[|pair|] == ';')
  }

  lemma SerializeContinues(name: string, value: string, a: Attributes)
    ensures Continues(name + "=" + Uri.Encode(value), Serialize(name, value, a))
  {
    hide With, Continues, Uri.Encode, Capitalize;
    var pair := name + "=" + Uri.Encode(value);
    ContinuesItself(pair);
    var out1 := Continued(pair, pair, a.maxAge.Some?, "Max-Age=" + (if a.maxAge.Some? then a.maxAge.value else ""));
    var out2 := Continued(pair, out1, a.domain != "", "Domain=" + a.domain);
    var out3 := Continued(pair, out2, a.path != "", "Path=" + a.path);
    var out4 := Continued(pair, out3, a.expires.Some?, "Expires=" + (if a.expires.Some? then a.expires.value else ""));
    var out5 := Continued(pair, out4, a.httpOnly, "HttpOnly");
    var out6 := Continued(pair, out5, a.secure, "Secure");
    var out7 := Continued(pair, out6, a.partitioned, "Partitioned");
    var out8 := Continued(pair, out7, a.priority != "", "Priority=" + Capitalize(a.priority));
    var out9 := Continued(pair, out8, a.sameSite != "", "SameSite=" + Capitalize(a.sameSite));
  }

  lemma Continued(pair: string, out: string, isSet: bool, attribute: string) returns (next: string)
    requires Continues(pair, out)
    ensures next == With(out, isSet, attribute) && Continues(pair, next)
  {
    next := With(out, isSet, attribute);
  }

  lemma ContinuesItself(s: string)
    ensures Continues(s, s)
  {
  }

  lemma KeptIs(pair: string, s: string)
    requires Continues(pair, s) && ';' !in pair
    ensures Kept(s) == pair
  {
    assert forall k :: 0 <= k < |pair| ==> s[k] == pair[k] && pair[k] in pair;
  }

  /** Whatever the attributes, the client keeps the name and the encoded value. */
  lemma KeepsPair(name: string, value: string, attrs: Attributes)
    requires IsName(name)
    ensures Kept(Serialize(name, value, attrs)) == PairText(Pair(name, Uri.Encode(value)))
    ensures ';' !in Uri.Encode(value)
  {
    hide *;
    EncodedClean(value);
    PairClean(name, Uri.Encode(value));
    SerializeContinues(name, value, attrs);
    KeptIs(name + "=" + Uri.Encode(value), Serialize(name, value, attrs));
  }

  lemma EncodedClean(value: string)
    ensures ';' !in Uri.Encode(value)
  {
    Uri.EncodedIsSafe(value);
    hide Uri.Encode;
  }

  lemma PairClean(name: string, raw: string)
    requires IsName(name) && ';' !in raw
    ensures ';' !in name + "=" + raw && PairText(Pair(name, raw)) == name + "=" + raw
  {
  }

  // ------------------------------------------------------------------ which attributes are written

  /** The parts after the pair, less the blank in front of each. */
  predicate Lists(setCookie: string, text: string) {
    " " + text in Split(setCookie, ';')[1..]
  }

  lemma Added(out: string, isSet: bool, attribute: string)
    requires ';' !in attribute
    ensures Split(With(out, isSet, attribute), ';') == Split(out, ';') + if isSet then [" " + attribute] else []
  {
    if isSet {
      SplitAppend(out, " " + attribute, ';');
      SplitNone(" " + attribute, ';');
      assert out + ("; " + attribute) == out + [';'] + (" " + attribute);
    }
    hide Split;
  }

  lemma ListsMore(out: string, isSet: bool, attribute: string, text: string)
    requires ';' !in attribute
    ensures Lists(With(out, isSet, attribute), text) <==> Lists(out, text) || (isSet && text == attribute)
  {
    var parts, more := Split(out, ';'), if isSet then [" " + attribute] else [];
    Added(out, isSet, attribute);
    hide Split, With;
    assert (parts + more)[1..] == parts[1..] + more;
    assert (" " + text)[1..] == text && (" " + attribute)[1..] == attribute;
  }

  /** No semicolon in any of the texts given for an attribute. */
  predicate Plain(a: Attributes) {
    && (a.maxAge.Some? ==> ';' !in a.maxAge.value) && ';' !in a.domain && ';' !in a.path
    && (a.expires.Some? ==> ';' !in a.expires.value) && ';' !in Capitalize(a.priority) && ';' !in Capitalize(a.sameSite)
  }

  /** An attribute is among the parts after the pair if and only if it is set, and nothing else is. */
  lemma ListsExactly(name: string, value: string, a: Attributes, text: string)
    requires IsName(name) && Plain(a)
    ensures Lists(Serialize(name, value, a), text) <==>
            || (a.maxAge.Some? && text == "Max-Age=" + a.maxAge.value)
            || (a.domain != "" && text == "Domain=" + a.domain)
            || (a.path != "" && text == "Path=" + a.path)
            || (a.expires.Some? && text == "Expires=" + a.expires.value)
            || (a.httpOnly && text == "HttpOnly")
            || (a.secure && text == "Secure")
            || (a.partitioned && text == "Partitioned")
            || (a.priority != "" && text == "Priority=" + Capitalize(a.priority))
            || (a.sameSite != "" && text == "SameSite=" + Capitalize(a.sameSite))
  {
    hide With, Uri.Encode, Capitalize, Lists, IsName;
    var pair := name + "=" + Uri.Encode(value);
    NothingListed(name, value, text);
    var out1 := ListedMore(pair, text, a.maxAge.Some?, "Max-Age=" + (if a.maxAge.Some? then a.maxAge.value else ""));
    var out2 := ListedMore(out1, text, a.domain != "", "Domain=" + a.domain);
    var out3 := ListedMore(out2, text, a.path != "", "Path=" + a.path);
    var out4 := ListedMore(out3, text, a.expires.Some?, "Expires=" + (if a.expires.Some? then a.expires.value else ""));
    var out5 := ListedMore(out4, text, a.httpOnly, "HttpOnly");
    var out6 := ListedMore(out5, text, a.secure, "Secure");
    var out7 := ListedMore(out6, text, a.partitioned, "Partitioned");
    var out8 := ListedMore(out7, text, a.priority != "", "Priority=" + Capitalize(a.priority));
    var out9 := ListedMore(out8, text, a.sameSite != "", "SameSite=" + Capitalize(a.sameSite));
  }

  lemma ListedMore(out: string, text: string, isSet: bool, attribute: string) returns (next: string)
    requires ';' !in attribute
    ensures next == With(out, isSet, attribute)
    ensures Lists(next, text) <==> Lists(out, text) || (isSet && text == attribute)
  {
    next := With(out, isSet, attribute);
    ListsMore(out, isSet, attribute, text);
  }

  lemma NothingListed(name: string, value: string, text: string)
    requires IsName(name)
    ensures !Lists(name + "=" + Uri.Encode(value), text)
  {
    EncodedClean(value);
    PairClean(name, Uri.Encode(value));
    SplitNone(name + "=" + Uri.Encode(value), ';');
    hide Split, Uri.Encode;
  }

  /** A removed cookie expires at once, both ways a client may look at it. */
  lemma RemovedExpires(name: string, attrs: Attributes)
    requires IsName(name) && Plain(attrs)
    ensures Plain(Expired(attrs))
    ensures var h := Serialize(name, "", Expired(attrs));
            Lists(h, "Max-Age=0") && Lists(h, "Expires=Thu, 01 Jan 1970 00:00:00 GMT")
  {
    hide Serialize, Lists, IsName, Capitalize;
    assert "Max-Age=" + "0" == "Max-Age=0";
    assert "Expires=" + "Thu, 01 Jan 1970 00:00:00 GMT" == "Expires=Thu, 01 Jan 1970 00:00:00 GMT";
    ListsExactly(name, "", Expired(attrs), "Max-Age=0");
    ListsExactly(name, "", Expired(attrs), "Expires=Thu, 01 Jan 1970 00:00:00 GMT");
  }

  /** The same letter, small and capital. */
  predicate SmallAndCapital(small: char, capital: char) {
    'a' <= small <= 'z' && capital as int == small as int - 32
  }

  lemma UpperIs(c: char)
    ensures if 'a' <= c <= 'z' then SmallAndCapital(c, Upper(c)) else Upper(c) == c
  {
  }

  lemma LowerIs(s: string, k: nat)
    requires k < |s|
    ensures |Lower(s)| == |s| && if 'A' <= s[k] <= 'Z' then SmallAndCapital(Lower(s)[k], s[k]) else Lower(s)[k] == s[k]
  {
  }

  /** A word is written with its first letter as a capital and the others as small ones, nothing else changed. */
  lemma Capitalized(word: string, k: nat)
    requires k < |word|
    ensures |Capitalize(word)| == |word|
    ensures var (r, c) := (Capitalize(word)[k], word[k]);
            if k == 0 then if 'a' <= c <= 'z' then SmallAndCapital(c, r) else r == c
            else if 'A' <= c <= 'Z' then SmallAndCapital(r, c) else r == c
  {
    UpperIs(word[0]);
    if k > 0 { LowerIs(word[1..], k - 1); }
    LowerLength(word[1..]);
    hide SmallAndCapital, Upper, Lower;
    assert Capitalize(word) == [Upper(word[0])] + Lower(word[1..]);
  }

  lemma LowerLength(s: string)
    ensures |Lower(s)| == |s|
  {
  }

  /** Signed are, when there is a secret, all cookies or those named. */
  lemma SignedIs(config: Config, name: string)
    ensures config.IsSigned(name) <==>
            config.secrets != [] &&
            (config.sign == SignAll || exists names :: config.sign == SignNames(names) && name in names)
  {
  }

  // ------------------------------------------------------------------ the jar

  /** What reading `name` gives: the incoming value, checked and stripped when the name is signed. */
  function Incoming(sig: Signer, config: Config, header: Option<string>, name: string): Result<Option<string>> {
    var incoming := ParseHeader(header);
    if name !in incoming then Ok(None)
    else if !config.IsSigned(name) then Ok(Some(incoming[name]))
    else
      match Unsigned(sig, incoming[name], config.secrets)
      case None => InvalidSignature(name)
      case Some(value) => Ok(Some(value))
  }

  /** The text written for a value: signed with the first secret, unless empty. */
  function Outgoing(sig: Signer, config: Config, name: string, value: Option<string>): string {
    var v := if value.Some? then value.value else "";
    if v != "" && config.IsSigned(name) then SignCookie(sig, v, config.secrets[0]) else v
  }

  class RequestCookies {
    const header: Option<string>
    const config: Config
    const sig: Signer
    var parsed: Option<map<string, string>>
    /** The states map with its insertion order. */
    var order: seq<string>
    var states: map<string, State>

    ghost predicate Valid()
      reads this
    {
      && NoDots(sig)
      && (parsed.Some? ==> parsed.value == ParseHeader(header))
      && (forall name :: name in order <==> name in states)
    }

    constructor (header: Option<string>, config: Config, sig: Signer)
      requires NoDots(sig)
      ensures Valid() && states == map[] && order == []
      ensures this.header == header && this.config == config && this.sig == sig
    {
      this.header, this.config, this.sig := header, config, sig;
      parsed, order, states := None, [], map[];
    }

    /** The header, parsed on first access. */
    method IncomingMap() returns (incoming: map<string, string>)
      requires Valid()
      modifies this`parsed
      ensures Valid() && incoming == ParseHeader(header)
    {
      if parsed.None? {
        var p := ParseCookieHeader(header);
        parsed := Some(p);
      }
      incoming := parsed.value;
    }

    /** The state of a cookie: as left before, or as it came in. A bad signature is refused and nothing kept. */
    method GetState(name: string) returns (r: Result<State>)
      requires Valid()
      modifies this
      ensures Valid()
      ensures name in old(states) ==> r == Ok(old(states)[name]) && states == old(states) && order == old(order)
      ensures name !in old(states) ==>
                match Incoming(sig, config, header, name)
                case InvalidSignature(n) => r == InvalidSignature(n) && states == old(states) && order == old(order)
                case Ok(value) =>
                  r == Ok(State(value, NO_ATTRIBUTES, false)) && states == old(states)[name := r.value]
                  && order == old(order) + [name]
    {
      hide NoDots, ParseHeader, Unsigned;
      if name in states { return Ok(states[name]); }
      var incoming := IncomingMap();
      var value := if name in incoming then Some(incoming[name]) else None;
      if value.Some? && config.IsSigned(name) {
        var unsigned := UnsignCookie(sig, value.value, config.secrets);
        if unsigned.None? { return InvalidSignature(name); }
        value := unsigned;
      }
      var state := State(value, NO_ATTRIBUTES, false);
      order, states := order + [name], states[name := state];
      r := Ok(state);
    }

    /** What the state of a cookie is, or becomes on first access. */
    function StateOf(name: string): Result<State>
      reads this
    {
      if name in states then Ok(states[name])
      else
        match Incoming(sig, config, header, name)
        case InvalidSignature(n) => InvalidSignature(n)
        case Ok(value) => Ok(State(value, NO_ATTRIBUTES, false))
    }

    /** `cookie[name].set(options)`: the value if one is given, and whatever attributes are. */
    method Set(name: string, value: Option<Option<string>>, assign: Attributes -> Attributes) returns (ok: bool)
      requires Valid()
      modifies this
      ensures Valid()
      ensures ok <==> old(StateOf(name)).Ok?
      ensures ok ==>
                && name in order
                && var before := old(StateOf(name)).value;
                   var written := if value.Some? then value.value else before.value;
                   states == old(states)[name := State(written, assign(before.attrs), true)]
      ensures !ok ==> states == old(states) && order == old(order)
    {
      hide NoDots, ParseHeader, Unsigned;
      var state := GetState(name);
      if state.InvalidSignature? { return false; }
      var changed := state.value.(attrs := assign(state.value.attrs), dirty := true);
      if value.Some? { changed := changed.(value := value.value); }
      states := states[name := changed];
      ok := true;
    }

    /** `remove`: an empty value that expires at once. */
    method Remove(name: string) returns (ok: bool)
      requires Valid()
      modifies this
      ensures Valid()
      ensures ok <==> old(StateOf(name)).Ok?
      ensures ok ==>
                && name in order
                && states == old(states)[name := State(Some(""), Expired(old(StateOf(name)).value.attrs), true)]
      ensures !ok ==> states == old(states) && order == old(order)
    {
      ok := Set(name, Some(Some("")), Expired);
    }

    /** One `Set-Cookie` value for every written cookie, in the order they were first touched. */
    method SetCookieHeaders() returns (out: seq<string>)
      requires Valid()
      ensures out == Headers(sig, config, order, states)
    {
      hide NoDots, ParseHeader, Serialize;
      out := [];
      var i := 0;
      while i < |order|
        invariant i <= |order| && out == Headers(sig, config, order[..i], states)
      {
        var name := order[i];
        assert name in order && order[..i + 1][..i] == order[..i];
        var state := states[name];
        i := i + 1;
        if !state.dirty { continue; }
        var value := if state.value.Some? then state.value.value else "";
        if value != "" && config.IsSigned(name) { value := SignCookie(sig, value, config.secrets[0]); }
        out := out + [Serialize(name, value, state.attrs)];
      }
      assert order[..i] == order;
    }
  }

  function Headers(sig: Signer, config: Config, order: seq<string>, states: map<string, State>): seq<string> {
    if order == [] then []
    else
      var name := order[|order| - 1];
      var before := Headers(sig, config, order[..|order| - 1], states);
      if name in states && states[name].dirty
      then before + [HeaderFor(sig, config, name, states[name])]
      else before
  }

  function HeaderFor(sig: Signer, config: Config, name: string, state: State): string {
    Serialize(name, Outgoing(sig, config, name, state.value), state.attrs)
  }

  /** The cookie called `name` was written and gives the header `h`. */
  predicate Gives(sig: Signer, config: Config, states: map<string, State>, name: string, h: string) {
    name in states && states[name].dirty && h == HeaderFor(sig, config, name, states[name])
  }

  /** The headers are those of the written cookies, and no others. */
  lemma {:induction false} HeadersAre(sig: Signer, config: Config, order: seq<string>, states: map<string, State>,
                                      h: string)
    ensures h in Headers(sig, config, order, states) <==>
            exists name :: name in order && Gives(sig, config, states, name, h)
  {
    hide HeaderFor;
    if order != [] {
      var init, last := order[..|order| - 1], order[|order| - 1];
      HeadersAre(sig, config, init, states, h);
      assert h in Headers(sig, config, order, states) <==>
             h in Headers(sig, config, init, states) || Gives(sig, config, states, last, h);
      assert forall name :: name in order <==> name in init || name == last;
      hide Headers, Gives;
    }
  }

  /** They come in the order in which the cookies were first touched. */
  lemma {:induction false} HeadersInOrder(sig: Signer, config: Config, before: seq<string>, name: string,
                                          after: seq<string>, states: map<string, State>)
    ensures Headers(sig, config, before + [name] + after, states) ==
            Headers(sig, config, before, states) +
            (if name in states && states[name].dirty then [HeaderFor(sig, config, name, states[name])] else []) +
            Headers(sig, config, after, states)
    decreases |after|
  {
    hide HeaderFor;
    var all := before + [name] + after;
    if after == [] {
      assert all[..|all| - 1] == before;
    } else {
      HeadersInOrder(sig, config, before, name, after[..|after| - 1], states);
      assert all[..|all| - 1] == before + [name] + after[..|after| - 1];
    }
  }

  // ------------------------------------------------------------------ there and back

  /**
   * A cookie written by one request and sent back to another, among others with other names, is
   * read unchanged: any value when unsigned; when signed, as long as the secret it was signed with
   * is still listed, exactly the non-empty ones. An empty signed cookie is refused as forged.
   */
  lemma ComesBack(sig: Signer, writer: Config, reader: Config, name: string, state: State, value: string,
                  cookies: seq<Pair>, k: nat)
    requires NoDots(sig) && IsName(name) && Sendable(cookies) && k < |cookies|
    requires state.value == Some(value)
    requires PairText(cookies[k]) == Kept(HeaderFor(sig, writer, name, state)) && cookies[k].name == name
    requires forall j :: 0 <= j < k ==> cookies[j].name != name
    requires reader.IsSigned(name) <==> writer.IsSigned(name)
    requires writer.IsSigned(name) ==> writer.secrets[0] in reader.secrets
    ensures Incoming(sig, reader, Some(HeaderOf(cookies)), name) ==
            if writer.IsSigned(name) && value == "" then InvalidSignature(name) else Ok(Some(value))
  {
    var sent := Outgoing(sig, writer, name, Some(value));
    KeepsPair(name, sent, state.attrs);
    SameRaw(cookies[k], name, Uri.Encode(sent));
    ReadBack(cookies, k, sent);
    hide ParseHeader, Serialize, HeaderOf, Uri.Encode, Sendable, IsName, NoDots, Unsigned;
    if writer.IsSigned(name) {
      if value == "" {
        NothingSigned(sig, reader.secrets);
      } else {
        UnsignedIff(sig, sent, reader.secrets, value);
        assert IsSignedBy(sig, sent, reader.secrets, value);
      }
    }
  }

  lemma SameRaw(p: Pair, name: string, raw: string)
    requires p.name == name && PairText(p) == PairText(Pair(name, raw))
    ensures p.raw == raw
  {
    assert PairText(p)[|name| + 1..] == p.raw && PairText(Pair(name, raw))[|name| + 1..] == raw;
  }

  lemma NothingSigned(sig: Signer, secrets: seq<string>)
    ensures Unsigned(sig, "", secrets) == None
  {
  }
}
