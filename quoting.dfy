/** `urllib.parse.quote(s)` with its default `safe='/'`: the string is encoded
    as UTF-8 and every byte that is neither an unreserved character (section 2.3
    of RFC 3986) nor `/` becomes a percent-encoded octet, `%` followed by two
    upper-case hexadecimal digits (section 2.1 of RFC 3986).

    Its partner is a strict decoder (`PercentDecode` then `Utf8Decode`); the
    round trip `Unquote(Quote(s)) == Some(s)` shows that a listing link names
    exactly the label it was made from. */
module Quoting {
  import opened Wrappers

  newtype Byte = x: int | 0 <= x < 256

  /** The unreserved characters of section 2.3 of RFC 3986. */
  predicate IsUnreserved(c: char) {
    ('A' <= c <= 'Z') || ('a' <= c <= 'z') || ('0' <= c <= '9') || c == '-' || c == '.' || c == '_' || c == '~'
  }

  /** The characters `quote` leaves alone by default. */
  predicate IsSafe(c: char) {
    IsUnreserved(c) || c == '/'
  }

  predicate IsSafeByte(b: Byte) {
    b < 128 && IsSafe((b as int) as char)
  }

  /** The UTF-8 encoding of one Unicode scalar value. */
  function Utf8(c: char): (bs: seq<Byte>)
    ensures 1 <= |bs| <= 4
    ensures |bs| == 1 <==> (c as int) < 0x80
  {
    var n := c as int;
    if n < 0x80 then [n as Byte]
    else if n < 0x800 then [(0xC0 + n / 0x40) as Byte, (0x80 + n % 0x40) as Byte]
    else if n < 0x1_0000 then
      [(0xE0 + n / 0x1000) as Byte, (0x80 + (n / 0x40) % 0x40) as Byte, (0x80 + n % 0x40) as Byte]
    else
      [(0xF0 + n / 0x4_0000) as Byte, (0x80 + (n / 0x1000) % 0x40) as Byte,
       (0x80 + (n / 0x40) % 0x40) as Byte, (0x80 + n % 0x40) as Byte]
  }

  /** `s.encode('utf-8')` */
  function Utf8Encode(s: string): seq<Byte> {
    if s == [] then [] else Utf8(s[0]) + Utf8Encode(s[1..])
  }

  const HexDigits: string := "0123456789ABCDEF"

  function QuoteByte(b: Byte): (r: string)
    ensures |r| == 1 || |r| == 3
  {
    if IsSafeByte(b) then [(b as int) as char]
    else ['%', HexDigits[b / 16], HexDigits[b % 16]]
  }

  /** `urllib.parse.quote_from_bytes(bs, safe='/')` */
  function QuoteBytes(bs: seq<Byte>): string {
    if bs == [] then "" else QuoteByte(bs[0]) + QuoteBytes(bs[1..])
  }

  /** `urllib.parse.quote(s)` */
  function Quote(s: string): string {
    QuoteBytes(Utf8Encode(s))
  }

  function HexValue(c: char): Option<int> {
    if '0' <= c <= '9' then Some(c as int - '0' as int)
    else if 'A' <= c <= 'F' then Some(c as int - 'A' as int + 10)
    else if 'a' <= c <= 'f' then Some(c as int - 'a' as int + 10)
    else None
  }

  /** Strict percent-decoding to bytes: `%` must start a two-digit escape and
      every other character must be ASCII. */
  function PercentDecode(t: string): Option<seq<Byte>> {
    if t == [] then Some([])
    else if t[0] == '%' then
      if |t| >= 3 && HexValue(t[1]).Some? && HexValue(t[2]).Some? then
        match PercentDecode(t[3..])
        case None => None
        case Some(rest) => Some([(HexValue(t[1]).value * 16 + HexValue(t[2]).value) as Byte] + rest)
      else None
    else if (t[0] as int) < 128 then
      match PercentDecode(t[1..])
      case None => None
      case Some(rest) => Some([(t[0] as int) as Byte] + rest)
    else None
  }

  predicate IsContinuation(b: Byte) {
    0x80 <= b < 0xC0
  }

  /** Decodes the first scalar value of a well-formed UTF-8 byte string,
      rejecting overlong forms, surrogates and values above U+10FFFF. */
  function DecodeFirst(bs: seq<Byte>): Option<(char, nat)>
    requires bs != []
  {
    var b0 := bs[0] as int;
    if b0 < 0x80 then Some((b0 as char, 1))
    else if 0xC0 <= b0 < 0xE0 && |bs| >= 2 && IsContinuation(bs[1]) then
      var n := (b0 - 0xC0) * 0x40 + (bs[1] as int - 0x80);
      if n >= 0x80 then Some((n as char, 2)) else None
    else if 0xE0 <= b0 < 0xF0 && |bs| >= 3 && IsContinuation(bs[1]) && IsContinuation(bs[2]) then
      var n := (b0 - 0xE0) * 0x1000 + (bs[1] as int - 0x80) * 0x40 + (bs[2] as int - 0x80);
      if n >= 0x800 && !(0xD800 <= n < 0xE000) then Some((n as char, 3)) else None
    else if 0xF0 <= b0 < 0xF8 && |bs| >= 4 && IsContinuation(bs[1]) && IsContinuation(bs[2]) && IsContinuation(bs[3]) then
      var n := (b0 - 0xF0) * 0x4_0000 + (bs[1] as int - 0x80) * 0x1000 + (bs[2] as int - 0x80) * 0x40 + (bs[3] as int - 0x80);
      if 0x1_0000 <= n < 0x11_0000 then Some((n as char, 4)) else None
    else None
  }

  /** `bs.decode('utf-8')` in strict mode. */
  function Utf8Decode(bs: seq<Byte>): Option<string>
    decreases |bs|
  {
    if bs == [] then Some([])
    else match DecodeFirst(bs)
      case None => None
      case Some((c, k)) =>
        if 1 <= k <= |bs| then
          match Utf8Decode(bs[k..])
          case None => None
          case Some(rest) => Some([c] + rest)
        else None
  }

  /** `urllib.parse.unquote(t)` restricted to well-formed input. */
  function Unquote(t: string): Option<string> {
    match PercentDecode(t)
    case None => None
    case Some(bs) => Utf8Decode(bs)
  }

  lemma HexDigitValue(k: int)
    requires 0 <= k < 16
    ensures HexValue(HexDigits[k]) == Some(k)
  {
    if k < 10 {
      assert HexDigits[k] as int == '0' as int + k;
    } else {
      assert HexDigits[k] as int == 'A' as int + k - 10;
    }
  }

  lemma PercentDecodeQuoteByte(b: Byte, t: string)
    ensures PercentDecode(QuoteByte(b) + t) ==
      match PercentDecode(t)
      case None => None
      case Some(rest) => Some([b] + rest)
  {
    var q := QuoteByte(b) + t;
    if IsSafeByte(b) {
      assert q[0] == (b as int) as char && q[1..] == t;
    } else {
      HexDigitValue(b as int / 16);
      HexDigitValue(b as int % 16);
      assert q[0] == '%' && q[1] == HexDigits[b / 16] && q[2] == HexDigits[b % 16] && q[3..] == t;
    }
  }

  /** Percent-decoding undoes `quote_from_bytes` on every byte string. */
  lemma {:induction false} PercentRoundTrip(bs: seq<Byte>)
    ensures PercentDecode(QuoteBytes(bs)) == Some(bs)
  {
    if bs != [] {
      PercentRoundTrip(bs[1..]);
      PercentDecodeQuoteByte(bs[0], QuoteBytes(bs[1..]));
      assert [bs[0]] + bs[1..] == bs;
    }
  }

  lemma DecodeFirstTwo(n: int, bs: seq<Byte>)
    requires 0x80 <= n < 0x800 && |bs| >= 2
    requires bs[0] as int == 0xC0 + n / 0x40 && bs[1] as int == 0x80 + n % 0x40
    ensures DecodeFirst(bs) == Some((n as char, 2))
  {
    assert (bs[0] as int - 0xC0) * 0x40 + (bs[1] as int - 0x80) == n;
  }

  lemma DecodeFirstThree(n: int, bs: seq<Byte>)
    requires 0x800 <= n < 0x1_0000 && !(0xD800 <= n < 0xE000) && |bs| >= 3
    requires bs[0] as int == 0xE0 + n / 0x1000
    requires bs[1] as int == 0x80 + (n / 0x40) % 0x40 && bs[2] as int == 0x80 + n % 0x40
    ensures DecodeFirst(bs) == Some((n as char, 3))
  {
    var hi, mid, lo := n / 0x1000, (n / 0x40) % 0x40, n % 0x40;
    assert n / 0x40 == hi * 0x40 + mid;
    assert n == (n / 0x40) * 0x40 + lo;
    assert hi * 0x1000 + mid * 0x40 + lo == n;
  }

  lemma DecodeFirstFour(n: int, bs: seq<Byte>)
    requires 0x1_0000 <= n < 0x11_0000 && |bs| >= 4
    requires bs[0] as int == 0xF0 + n / 0x4_0000
    requires bs[1] as int == 0x80 + (n / 0x1000) % 0x40
    requires bs[2] as int == 0x80 + (n / 0x40) % 0x40 && bs[3] as int == 0x80 + n % 0x40
    ensures DecodeFirst(bs) == Some((n as char, 4))
  {
    var top, hi, mid, lo := n / 0x4_0000, (n / 0x1000) % 0x40, (n / 0x40) % 0x40, n % 0x40;
    assert n / 0x1000 == top * 0x40 + hi;
    assert n / 0x40 == (n / 0x1000) * 0x40 + mid;
    assert n == (n / 0x40) * 0x40 + lo;
    assert top * 0x4_0000 + hi * 0x1000 + mid * 0x40 + lo == n;
  }

  lemma DecodeFirstUtf8(c: char, rest: seq<Byte>)
    ensures DecodeFirst(Utf8(c) + rest) == Some((c, |Utf8(c)|))
  {
    var n := c as int;
    var bs := Utf8(c) + rest;
    if n < 0x80 {
    } else if n < 0x800 {
      DecodeFirstTwo(n, bs);
    } else if n < 0x1_0000 {
      DecodeFirstThree(n, bs);
    } else {
      DecodeFirstFour(n, bs);
    }
  }

  /** UTF-8 decoding undoes UTF-8 encoding. */
  lemma {:induction false} Utf8RoundTrip(s: string)
    ensures Utf8Decode(Utf8Encode(s)) == Some(s)
  {
    if s != [] {
      var bs := Utf8Encode(s);
      DecodeFirstUtf8(s[0], Utf8Encode(s[1..]));
      assert bs[|Utf8(s[0])|..] == Utf8Encode(s[1..]);
      Utf8RoundTrip(s[1..]);
      assert [s[0]] + s[1..] == s;
    }
  }

  /** Every label is recovered from its link. */
  lemma QuoteRoundTrip(s: string)
    ensures Unquote(Quote(s)) == Some(s)
  {
    PercentRoundTrip(Utf8Encode(s));
    Utf8RoundTrip(s);
  }

  /** Distinct labels get distinct links. */
  lemma QuoteInjective(a: string, b: string)
    requires Quote(a) == Quote(b)
    ensures a == b
  {
    QuoteRoundTrip(a);
    QuoteRoundTrip(b);
  }

  lemma {:induction false} QuoteBytesAppend(a: seq<Byte>, b: seq<Byte>)
    ensures QuoteBytes(a + b) == QuoteBytes(a) + QuoteBytes(b)
  {
    if a != [] {
      assert (a + b)[0] == a[0] && (a + b)[1..] == a[1..] + b;
      QuoteBytesAppend(a[1..], b);
    } else {
      assert a + b == b;
    }
  }

  lemma {:induction false} Utf8EncodeAppend(a: string, b: string)
    ensures Utf8Encode(a + b) == Utf8Encode(a) + Utf8Encode(b)
  {
    if a != [] {
      assert (a + b)[0] == a[0] && (a + b)[1..] == a[1..] + b;
      Utf8EncodeAppend(a[1..], b);
    } else {
      assert a + b == b;
    }
  }

  /** Quoting works character by character. */
  lemma QuoteAppend(a: string, b: string)
    ensures Quote(a + b) == Quote(a) + Quote(b)
  {
    Utf8EncodeAppend(a, b);
    QuoteBytesAppend(Utf8Encode(a), Utf8Encode(b));
  }

  /** A label made only of unreserved characters and `/` is its own link. */
  lemma {:induction false} QuoteSafeIsIdentity(s: string)
    requires forall i :: 0 <= i < |s| ==> IsSafe(s[i])
    ensures Quote(s) == s
  {
    if s != [] {
      QuoteSafeIsIdentity(s[1..]);
      assert Utf8Encode(s) == [(s[0] as int) as Byte] + Utf8Encode(s[1..]);
      assert [s[0]] + s[1..] == s;
    }
  }

  /** A link holds only safe characters, `%` and upper-case hexadecimal digits. */
  lemma {:induction false} QuoteBytesAlphabet(bs: seq<Byte>)
    ensures forall i :: 0 <= i < |QuoteBytes(bs)| ==>
      IsSafe(QuoteBytes(bs)[i]) || QuoteBytes(bs)[i] == '%' || QuoteBytes(bs)[i] in HexDigits
  {
    if bs != [] {
      QuoteBytesAlphabet(bs[1..]);
      var q := QuoteByte(bs[0]);
      forall i | 0 <= i < |q| ensures IsSafe(q[i]) || q[i] == '%' || q[i] in HexDigits {
        if !IsSafeByte(bs[0]) && i > 0 {
          assert q[i] == HexDigits[bs[0] / 16] || q[i] == HexDigits[bs[0] % 16];
        }
      }
    }
  }
}
