/**
 * `encodeURIComponent` and `decodeURIComponent` on well-formed strings: characters are Unicode
 * scalar values, written as the percent-encoded bytes of their UTF-8 form.
 */
module UriComponent {
  import opened Text

  type Byte = b: nat | b < 0x100

  predicate IsUnreserved(c: char) {
    'a' <= c <= 'z' || 'A' <= c <= 'Z' || '0' <= c <= '9' || c in "-_.!~*'()"
  }

  function HexDigit(d: nat): char
    requires d < 16
  {
    if d < 10 then ('0' as int + d) as char else ('A' as int + d - 10) as char
  }

  function Percent(b: Byte): string {
    ['%', HexDigit(b / 16), HexDigit(b % 16)]
  }

  /** The UTF-8 form of one character. */
  function Utf8(c: char): seq<Byte> {
    var n := c as int;
    if n < 0x80 then [n]
    else if n < 0x800 then [0xc0 + n / 0x40, 0x80 + n % 0x40]
    else if n < 0x1_0000 then [0xe0 + n / 0x1000, 0x80 + n / 0x40 % 0x40, 0x80 + n % 0x40]
    else [0xf0 + n / 0x4_0000, 0x80 + n / 0x1000 % 0x40, 0x80 + n / 0x40 % 0x40, 0x80 + n % 0x40]
  }

  function PercentAll(bytes: seq<Byte>): string {
    if bytes == [] then "" else Percent(bytes[0]) + PercentAll(bytes[1..])
  }

  function EncodeChar(c: char): string {
    if IsUnreserved(c) then [c] else PercentAll(Utf8(c))
  }

  function Encode(s: string): string {
    if s == "" then "" else EncodeChar(s[0]) + Encode(s[1..])
  }

  /**
   * Letters, digits and a few marks stay; anything else becomes one to four bytes, each a percent
   * sign and two upper-case hex digits.
   */
  lemma EncodeIs(c: char)
    ensures Encode([c]) == [c] <==>
            || 'a' <= c <= 'z' || 'A' <= c <= 'Z' || '0' <= c <= '9'
            || c in {'-', '_', '.', '!', '~', '*', 0x27 as char, '(', ')'}
    ensures Encode([c]) != [c] ==>
              && |Encode([c])| == 3 * (if c as int < 0x80 then 1 else if c as int < 0x800 then 2
                                       else if c as int < 0x1_0000 then 3 else 4)
              && IsPercents(Encode([c]))
  {
    assert [c][1..] == "" && EncodeChar(c) + "" == EncodeChar(c);
    assert Encode([c]) == EncodeChar(c);
    PercentLength(Utf8(c));
    ArePercents(Utf8(c));
    hide PercentAll, IsPercents;
  }

  predicate IsUpperHex(c: char) {
    '0' <= c <= '9' || 'A' <= c <= 'F'
  }

  /** Percent signs, each with two upper-case hex digits. */
  predicate IsPercents(s: string) {
    s == "" || (|s| >= 3 && s[0] == '%' && IsUpperHex(s[1]) && IsUpperHex(s[2]) && IsPercents(s[3..]))
  }

  lemma {:induction false} ArePercents(bytes: seq<Byte>)
    ensures IsPercents(PercentAll(bytes))
  {
    if bytes != [] {
      ArePercents(bytes[1..]);
      assert PercentAll(bytes)[3..] == PercentAll(bytes[1..]);
    }
  }

  // ------------------------------------------------------------------ decoding

  function HexValue(c: char): Option<nat> {
    if '0' <= c <= '9' then Some(c as int - '0' as int)
    else if 'A' <= c <= 'F' then Some(c as int - 'A' as int + 10)
    else if 'a' <= c <= 'f' then Some(c as int - 'a' as int + 10)
    else None
  }

  /** The byte a percent sign with two hex digits stands for. */
  function ByteAt(s: string, i: nat): Option<Byte> {
    if i + 2 >= |s| || s[i] != '%' then None
    else
      match (HexValue(s[i + 1]), HexValue(s[i + 2]))
      case (Some(h), Some(l)) => if h < 16 && l < 16 then Some(h * 16 + l) else None
      case _ => None
  }

  /** The low six bits of a continuation byte at `i`. */
  function Continuation(s: string, i: nat): Option<nat> {
    match ByteAt(s, i)
    case Some(b) => if 0x80 <= b < 0xc0 then Some(b - 0x80) else None
    case None => None
  }

  function CharOf(n: nat, least: nat): Option<char> {
    if n < least || 0xd800 <= n < 0xe000 || n >= 0x11_0000 then None else Some(n as char)
  }

  datatype Piece = Piece(c: char, length: nat)

  /** The character that starts at a percent sign, and how much text it takes. */
  function PieceAt(s: string): Option<Piece> {
    match ByteAt(s, 0)
    case None => None
    case Some(b) =>
      if b < 0x80 then Some(Piece(b as char, 3))
      else if 0xc0 <= b < 0xe0 then
        (match Continuation(s, 3)
         case Some(x) => Sized(CharOf((b - 0xc0) * 0x40 + x, 0x80), 6)
         case None => None)
      else if 0xe0 <= b < 0xf0 then
        (match (Continuation(s, 3), Continuation(s, 6))
         case (Some(x), Some(y)) => Sized(CharOf((b - 0xe0) * 0x1000 + x * 0x40 + y, 0x800), 9)
         case _ => None)
      else if 0xf0 <= b < 0xf8 then
        (match (Continuation(s, 3), Continuation(s, 6), Continuation(s, 9))
         case (Some(x), Some(y), Some(z)) =>
           Sized(CharOf((b - 0xf0) * 0x4_0000 + x * 0x1000 + y * 0x40 + z, 0x1_0000), 12)
         case _ => None)
      else None
  }

  function Sized(c: Option<char>, length: nat): Option<Piece> {
    if c.Some? then Some(Piece(c.value, length)) else None
  }

  /** `None` where `decodeURIComponent` throws. */
  function Decode(s: string): Option<string>
    decreases |s|
  {
    if s == "" then Some("")
    else if s[0] != '%' then
      match Decode(s[1..])
      case Some(rest) => Some([s[0]] + rest)
      case None => None
    else
      match PieceAt(s)
      case None => None
      case Some(p) =>
        if p.length == 0 || p.length > |s| then None
        else
          match Decode(s[p.length..])
          case Some(rest) => Some([p.c] + rest)
          case None => None
  }

  // ------------------------------------------------------------------ the round trip

  lemma HexBack(b: Byte, before: string, after: string)
    ensures ByteAt(before + Percent(b) + after, |before|) == Some(b)
  {
    var s := before + Percent(b) + after;
    assert s[|before|] == '%' && s[|before| + 1] == HexDigit(b / 16) && s[|before| + 2] == HexDigit(b % 16);
    assert HexValue(HexDigit(b / 16)) == Some(b / 16) && HexValue(HexDigit(b % 16)) == Some(b % 16);
  }

  lemma {:induction false} PercentLength(bytes: seq<Byte>)
    ensures |PercentAll(bytes)| == 3 * |bytes|
  {
    if bytes != [] {
      PercentLength(bytes[1..]);
    }
  }

  /** Byte `k` of an encoded character. */
  lemma {:induction false} EncodedByte(bytes: seq<Byte>, k: nat, after: string)
    requires k < |bytes|
    ensures ByteAt(PercentAll(bytes) + after, 3 * k) == Some(bytes[k])
  {
    hide ByteAt;
    var t := PercentAll(bytes[1..]) + after;
    assert PercentAll(bytes) + after == Percent(bytes[0]) + t;
    if k == 0 {
      HexBack(bytes[0], "", t);
      assert "" + Percent(bytes[0]) + t == Percent(bytes[0]) + t;
    } else {
      EncodedByte(bytes[1..], k - 1, after);
      ByteShift(Percent(bytes[0]), t, 3 * (k - 1));
    }
  }

  lemma ByteShift(p: string, t: string, i: nat)
    requires |p| == 3
    ensures ByteAt(p + t, i + 3) == ByteAt(t, i)
  {
    hide HexValue;
    if i + 2 < |t| {
      assert (p + t)[i + 3] == t[i] && (p + t)[i + 4] == t[i + 1] && (p + t)[i + 5] == t[i + 2];
    }
  }

  lemma PieceBack(c: char, after: string)
    ensures PieceAt(PercentAll(Utf8(c)) + after) == Some(Piece(c, 3 * |Utf8(c)|))
  {
    hide PieceAt, PercentAll, ByteAt;
    var bytes := Utf8(c);
    var s := PercentAll(bytes) + after;
    forall k: nat | k < |bytes|
      ensures ByteAt(s, 3 * k) == Some(bytes[k])
    {
      EncodedByte(bytes, k, after);
    }
    assert ByteAt(s, 3 * 0) == Some(bytes[0]);
    if |bytes| == 1 {
      OneByte(s, c);
    } else if |bytes| == 2 {
      assert ByteAt(s, 3 * 1) == Some(bytes[1]);
      TwoBytes(s, c);
    } else if |bytes| == 3 {
      assert ByteAt(s, 3 * 1) == Some(bytes[1]) && ByteAt(s, 3 * 2) == Some(bytes[2]);
      ThreeBytes(s, c);
    } else {
      assert ByteAt(s, 3 * 1) == Some(bytes[1]) && ByteAt(s, 3 * 2) == Some(bytes[2])
             && ByteAt(s, 3 * 3) == Some(bytes[3]);
      FourBytes(s, c);
    }
  }

  lemma OneByte(s: string, c: char)
    requires |Utf8(c)| == 1 && ByteAt(s, 0) == Some(Utf8(c)[0])
    ensures PieceAt(s) == Some(Piece(c, 3))
  {
    hide ByteAt;
  }

  lemma TwoBytes(s: string, c: char)
    requires |Utf8(c)| == 2 && ByteAt(s, 0) == Some(Utf8(c)[0]) && ByteAt(s, 3) == Some(Utf8(c)[1])
    ensures PieceAt(s) == Some(Piece(c, 6))
  {
    hide ByteAt;
    Regroup(c as int);
  }

  lemma ThreeBytes(s: string, c: char)
    requires |Utf8(c)| == 3 && ByteAt(s, 0) == Some(Utf8(c)[0]) && ByteAt(s, 3) == Some(Utf8(c)[1])
             && ByteAt(s, 6) == Some(Utf8(c)[2])
    ensures PieceAt(s) == Some(Piece(c, 9))
  {
    hide ByteAt;
    Regroup(c as int);
  }

  lemma FourBytes(s: string, c: char)
    requires |Utf8(c)| == 4 && ByteAt(s, 0) == Some(Utf8(c)[0]) && ByteAt(s, 3) == Some(Utf8(c)[1])
    requires ByteAt(s, 6) == Some(Utf8(c)[2]) && ByteAt(s, 9) == Some(Utf8(c)[3])
    ensures PieceAt(s) == Some(Piece(c, 12))
  {
    hide ByteAt;
    Regroup(c as int);
  }

  /** The bit groups make up the code point again. */
  lemma Regroup(n: nat)
    requires n < 0x11_0000
    ensures n == n / 0x40 * 0x40 + n % 0x40
    ensures n == n / 0x1000 * 0x1000 + n / 0x40 % 0x40 * 0x40 + n % 0x40
    ensures n == n / 0x4_0000 * 0x4_0000 + n / 0x1000 % 0x40 * 0x1000 + n / 0x40 % 0x40 * 0x40 + n % 0x40
  {
    assert n / 0x1000 == n / 0x40 / 0x40 && n / 0x4_0000 == n / 0x1000 / 0x40;
  }

  /** Decoding gives every well-formed string back. */
  lemma {:induction false} RoundTrip(s: string)
    ensures Decode(Encode(s)) == Some(s)
  {
    if s != "" {
      RoundTrip(s[1..]);
      var rest := Encode(s[1..]);
      if IsUnreserved(s[0]) {
        assert (EncodeChar(s[0]) + rest)[1..] == rest;
      } else {
        PieceBack(s[0], rest);
        PercentLength(Utf8(s[0]));
        var t := PercentAll(Utf8(s[0])) + rest;
        assert t[3 * |Utf8(s[0])|..] == rest;
        assert t[0] == '%';
        hide PieceAt, PercentAll, Utf8;
      }
      assert s == [s[0]] + s[1..];
    }
  }

  /** What an encoded string is made of. */
  predicate IsCookieSafe(c: char) {
    IsUnreserved(c) || c == '%'
  }

  lemma {:induction false} EncodedIsSafe(s: string)
    ensures forall c :: c in Encode(s) ==> IsCookieSafe(c)
    ensures Encode(s) == "" <==> s == ""
  {
    if s != "" {
      EncodedIsSafe(s[1..]);
      PercentLength(Utf8(s[0]));
      PercentSafe(Utf8(s[0]));
    }
  }

  lemma {:induction false} PercentSafe(bytes: seq<Byte>)
    ensures forall c :: c in PercentAll(bytes) ==> IsCookieSafe(c)
  {
    if bytes != [] {
      PercentSafe(bytes[1..]);
    }
  }
}
