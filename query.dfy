/** How `search_podcasts` turns the user's query into the `term` of the
    search URL (lightcast/core.py:101-105): spaces become `+`, then
    `urllib.parse.quote` encodes the text as UTF-8 and writes every byte
    outside its safe set as `%XX`. The `+` is itself outside that set, so
    each space reaches the service as `%2B`. */
module Query {
  import opened Results

  type Byte = b: int | 0 <= b < 256

  // ---------------------------------------------------------------------
  // UTF-8, the encoding `quote` uses by default.

  /** The UTF-8 bytes of one code point (a `char` is never a surrogate). */
  function Utf8Char(c: char): (bs: seq<Byte>)
    ensures 1 <= |bs| <= 4
    ensures (|bs| == 1) == (c as int < 0x80)
  {
    var n := c as int;
    if n < 0x80 then [n]
    else if n < 0x800 then [0xC0 + n / 64, 0x80 + n % 64]
    else if n < 0x1_0000 then [0xE0 + n / 64 / 64, 0x80 + n / 64 % 64, 0x80 + n % 64]
    else [0xF0 + n / 64 / 64 / 64, 0x80 + n / 64 / 64 % 64, 0x80 + n / 64 % 64, 0x80 + n % 64]
  }

  /** `s.encode("utf-8")`. */
  function Utf8Encode(s: string): seq<Byte> {
    if s == [] then [] else Utf8Char(s[0]) + Utf8Encode(s[1..])
  }

  predicate IsContinuation(b: Byte) { 0x80 <= b < 0xC0 }

  /** The first code point of a UTF-8 sequence and the bytes after it,
      rejecting overlong forms, surrogates and values past U+10FFFF. */
  function Utf8First(bs: seq<Byte>): Option<(char, seq<Byte>)>
    requires bs != []
  {
    var b0: int := bs[0];
    if b0 < 0x80 then Some((b0 as char, bs[1..]))
    else if 0xC2 <= b0 < 0xE0 && |bs| >= 2 && IsContinuation(bs[1]) then
      Some((((b0 - 0xC0) * 64 + (bs[1] as int - 0x80)) as char, bs[2..]))
    else if 0xE0 <= b0 < 0xF0 && |bs| >= 3 && IsContinuation(bs[1]) && IsContinuation(bs[2]) then
      var n := ((b0 - 0xE0) * 64 + (bs[1] as int - 0x80)) * 64 + (bs[2] as int - 0x80);
      if n < 0x800 || (0xD800 <= n < 0xE000) then None else Some((n as char, bs[3..]))
    else if 0xF0 <= b0 < 0xF5 && |bs| >= 4 && IsContinuation(bs[1]) && IsContinuation(bs[2]) && IsContinuation(bs[3]) then
      var n := (((b0 - 0xF0) * 64 + (bs[1] as int - 0x80)) * 64 + (bs[2] as int - 0x80)) * 64 + (bs[3] as int - 0x80);
      if n < 0x1_0000 || n > 0x10_FFFF then None else Some((n as char, bs[4..]))
    else None
  }

  /** `bs.decode("utf-8")`, strictly. */
  function Utf8Decode(bs: seq<Byte>): Option<string>
    decreases |bs|
  {
    if bs == [] then Some([])
    else
      match Utf8First(bs)
      case None => None
      case Some((c, rest)) =>
        if |rest| < |bs| then
          match Utf8Decode(rest)
          case None => None
          case Some(s) => Some([c] + s)
        else None
  }

  // ---------------------------------------------------------------------
  // Percent-encoding.

  /** `quote`'s always-safe bytes (letters, digits, `_.-~`) and its default
      extra safe character `/`. */
  predicate IsSafe(b: Byte) {
    || ('A' as int <= b <= 'Z' as int) || ('a' as int <= b <= 'z' as int) || ('0' as int <= b <= '9' as int)
    || b == '_' as int || b == '.' as int || b == '-' as int || b == '~' as int
    || b == '/' as int
  }

  const HexDigits: string := "0123456789ABCDEF"

  /** One byte as `quote` writes it: itself if safe, else `%XX` in upper
      case. */
  function QuoteByte(b: Byte): (t: string)
    ensures IsSafe(b) ==> t == [b as char]
    ensures !IsSafe(b) ==> |t| == 3 && t[0] == '%'
  {
    if IsSafe(b) then [b as char] else ['%', HexDigits[b / 16], HexDigits[b % 16]]
  }

  function QuoteBytes(bs: seq<Byte>): string {
    if bs == [] then [] else QuoteByte(bs[0]) + QuoteBytes(bs[1..])
  }

  /** What `quote` can write: safe ASCII characters and `%`. */
  predicate IsQuotedChar(c: char) {
    (c as int < 0x80 && IsSafe(c as int)) || c == '%' || c in HexDigits
  }

  /** `urllib.parse.quote(s)` with its defaults (`safe="/"`, UTF-8,
      strict errors). */
  function Quote(s: string): (t: string)
    ensures forall k :: 0 <= k < |t| ==> IsQuotedChar(t[k])
    ensures PercentDecode(t) == Some(Utf8Encode(s))
  {
    QuotedChars(Utf8Encode(s));
    DecodeQuoted(Utf8Encode(s));
    QuoteBytes(Utf8Encode(s))
  }

  function HexValue(c: char): Option<nat> {
    if '0' <= c <= '9' then Some(c as nat - '0' as nat)
    else if 'A' <= c <= 'F' then Some(c as nat - 'A' as nat + 10)
    else if 'a' <= c <= 'f' then Some(c as nat - 'a' as nat + 10)
    else None
  }

  /** The bytes a percent-encoded ASCII text stands for, as the receiving
      side reads them. */
  function PercentDecode(t: string): Option<seq<Byte>> {
    if t == [] then Some([])
    else if t[0] == '%' then
      if |t| < 3 then None
      else
        match (HexValue(t[1]), HexValue(t[2]))
        case (Some(hi), Some(lo)) =>
          (match PercentDecode(t[3..])
           case None => None
           case Some(rest) => Some([hi * 16 + lo] + rest))
        case _ => None
    else if t[0] as int < 0x80 then
      match PercentDecode(t[1..])
      case None => None
      case Some(rest) => Some([t[0] as int] + rest)
    else None
  }

  /** `urllib.parse.unquote` restricted to ASCII input: the text `quote`
      encoded. */
  function Unquote(t: string): Option<string> {
    match PercentDecode(t)
    case None => None
    case Some(bs) => Utf8Decode(bs)
  }

  // ---------------------------------------------------------------------
  // The query.

  /** `query.replace(" ", "+")`. */
  function ReplaceSpaces(q: string): (r: string)
    ensures |r| == |q|
    ensures forall k :: 0 <= k < |q| ==> r[k] == (if q[k] == ' ' then '+' else q[k])
  {
    if q == [] then [] else [if q[0] == ' ' then '+' else q[0]] + ReplaceSpaces(q[1..])
  }

  /** The `term` of the search URL. */
  function NormalizeQuery(q: string): (term: string)
    ensures forall k :: 0 <= k < |term| ==> IsQuotedChar(term[k])
    ensures Unquote(term) == Some(ReplaceSpaces(q))
  {
    DecodeEncode(ReplaceSpaces(q));
    Quote(ReplaceSpaces(q))
  }

  const SearchPrefix: string := "https://itunes.apple.com/search?term="
  const SearchSuffix: string := "&entity=podcast"

  /** The search URL: the term cannot end early or start another
      parameter, since quoting leaves no `&`, `#`, `=` or space in it. */
  function SearchUrl(q: string): (url: string)
    ensures url == SearchPrefix + NormalizeQuery(q) + SearchSuffix
    ensures forall k :: 0 <= k < |NormalizeQuery(q)| ==> NormalizeQuery(q)[k] !in "&#= +?"
  {
    TermHasNoDelimiter(q);
    SearchPrefix + NormalizeQuery(q) + SearchSuffix
  }

  /** A quoted term holds none of the characters that end or split a
      query parameter. */
  lemma {:induction false} TermHasNoDelimiter(q: string)
    ensures forall k :: 0 <= k < |NormalizeQuery(q)| ==> NormalizeQuery(q)[k] !in "&#= +?"
  {
    var t := NormalizeQuery(q);
    forall k | 0 <= k < |t|
      ensures t[k] !in "&#= +?"
    {
      QuotedNoDelimiter(t[k]);
    }
  }

  lemma {:induction false} QuotedNoDelimiter(c: char)
    requires IsQuotedChar(c)
    ensures c !in "&#= +?"
  {
    if c in HexDigits {
      assert '0' <= c <= '9' || 'A' <= c <= 'F';
    }
  }

  // ---------------------------------------------------------------------
  // Properties.

  /** The service reads the term back as the query with its spaces turned
      into `+`. */
  lemma {:induction false} UnquoteNormalized(q: string)
    ensures Unquote(NormalizeQuery(q)) == Some(ReplaceSpaces(q))
  {
    DecodeEncode(ReplaceSpaces(q));
  }

  /** Decoding the UTF-8 encoding gives the text back. */
  lemma {:induction false} DecodeEncode(s: string)
    ensures Utf8Decode(Utf8Encode(s)) == Some(s)
  {
    if s != [] {
      DecodeEncode(s[1..]);
      Utf8FirstChar(s[0], Utf8Encode(s[1..]));
      assert [s[0]] + s[1..] == s;
    }
  }

  lemma {:induction false} Utf8FirstChar(c: char, rest: seq<Byte>)
    ensures Utf8First(Utf8Char(c) + rest) == Some((c, rest))
  {
    var n := c as int;
    if n < 0x80 {
      var bs := Utf8Char(c) + rest;
      assert bs[0] == n && bs[1..] == rest;
    } else if n < 0x800 {
      Utf8Two(c, rest);
    } else if n < 0x1_0000 {
      Utf8Three(c, rest);
    } else {
      Utf8Four(c, rest);
    }
  }

  lemma {:induction false} Utf8Two(c: char, rest: seq<Byte>)
    requires 0x80 <= c as int < 0x800
    ensures Utf8First(Utf8Char(c) + rest) == Some((c, rest))
  {
    var n := c as int;
    var b0, b1 := 0xC0 + n / 64, 0x80 + n % 64;
    var bs := [b0, b1] + rest;
    assert Utf8Char(c) == [b0, b1];
    assert bs[0] == b0 && bs[1] == b1 && bs[2..] == rest;
    assert (b0 - 0xC0) * 64 + (b1 - 0x80) == n;
  }

  lemma {:induction false} Utf8Three(c: char, rest: seq<Byte>)
    requires 0x800 <= c as int < 0x1_0000
    ensures Utf8First(Utf8Char(c) + rest) == Some((c, rest))
  {
    var n := c as int;
    var q1 := n / 64;
    var b0, b1, b2 := 0xE0 + q1 / 64, 0x80 + q1 % 64, 0x80 + n % 64;
    var bs := [b0, b1, b2] + rest;
    assert Utf8Char(c) == [b0, b1, b2];
    assert bs[0] == b0 && bs[1] == b1 && bs[2] == b2 && bs[3..] == rest;
    assert q1 == (b0 - 0xE0) * 64 + (b1 - 0x80);
    assert ((b0 - 0xE0) * 64 + (b1 - 0x80)) * 64 + (b2 - 0x80) == n;
  }

  lemma {:induction false} Utf8Four(c: char, rest: seq<Byte>)
    requires 0x1_0000 <= c as int
    ensures Utf8First(Utf8Char(c) + rest) == Some((c, rest))
  {
    var n := c as int;
    var q1 := n / 64;
    var q2 := q1 / 64;
    var b0, b1, b2, b3 := 0xF0 + q2 / 64, 0x80 + q2 % 64, 0x80 + q1 % 64, 0x80 + n % 64;
    var bs := [b0, b1, b2, b3] + rest;
    assert Utf8Char(c) == [b0, b1, b2, b3];
    assert bs[0] == b0 && bs[1] == b1 && bs[2] == b2 && bs[3] == b3 && bs[4..] == rest;
    assert q2 == (b0 - 0xF0) * 64 + (b1 - 0x80);
    assert q1 == q2 * 64 + (b2 - 0x80);
    assert n == q1 * 64 + (b3 - 0x80);
  }


  lemma {:induction false} QuotedChars(bs: seq<Byte>)
    ensures forall k :: 0 <= k < |QuoteBytes(bs)| ==> IsQuotedChar(QuoteBytes(bs)[k])
  {
    if bs != [] {
      QuotedChars(bs[1..]);
      var head, tail := QuoteByte(bs[0]), QuoteBytes(bs[1..]);
      assert QuoteBytes(bs) == head + tail;
      assert forall k :: 0 <= k < |head| ==> IsQuotedChar(head[k]);
      forall k | 0 <= k < |head + tail| ensures IsQuotedChar((head + tail)[k]) {
        if k >= |head| {
          assert (head + tail)[k] == tail[k - |head|];
        }
      }
    }
  }

  lemma {:induction false} DecodeQuoted(bs: seq<Byte>)
    ensures PercentDecode(QuoteBytes(bs)) == Some(bs)
  {
    if bs != [] {
      DecodeQuoted(bs[1..]);
      DecodeByte(bs[0], QuoteBytes(bs[1..]));
      assert [bs[0]] + bs[1..] == bs;
    }
  }

  /** One quoted byte in front of a decodable text decodes to that byte in
      front of what the text decodes to. */
  lemma {:induction false} DecodeByte(b: Byte, tail: string)
    requires PercentDecode(tail).Some?
    ensures PercentDecode(QuoteByte(b) + tail) == Some([b] + PercentDecode(tail).value)
  {
    if IsSafe(b) {
      var t := [b as char] + tail;
      assert t[0] == b as char && t[1..] == tail;
    } else {
      DecodeEscape(b / 16, b % 16, tail);
      assert (b / 16) * 16 + b % 16 == b;
    }
  }

  /** `%` and two hex digits in front of a decodable text decode to the
      byte they spell. */
  lemma {:induction false} DecodeEscape(hi: nat, lo: nat, tail: string)
    requires hi < 16 && lo < 16
    requires PercentDecode(tail).Some?
    ensures PercentDecode(['%', HexDigits[hi], HexDigits[lo]] + tail) == Some([hi * 16 + lo] + PercentDecode(tail).value)
  {
    var t := ['%', HexDigits[hi], HexDigits[lo]] + tail;
    HexDigitValue(hi);
    HexDigitValue(lo);
    assert t[0] == '%' && t[1] == HexDigits[hi] && t[2] == HexDigits[lo] && t[3..] == tail;
  }

  lemma {:induction false} HexDigitValue(d: nat)
    requires d < 16
    ensures HexValue(HexDigits[d]) == Some(d)
  {
  }


  /** Quoting works character by character. */
  lemma {:induction false} QuoteConcat(a: string, b: string)
    ensures Quote(a + b) == Quote(a) + Quote(b)
  {
    EncodeConcat(a, b);
    QuoteBytesConcat(Utf8Encode(a), Utf8Encode(b));
  }

  lemma {:induction false} EncodeConcat(a: string, b: string)
    ensures Utf8Encode(a + b) == Utf8Encode(a) + Utf8Encode(b)
  {
    if a == [] {
      assert a + b == b;
    } else {
      assert (a + b)[0] == a[0] && (a + b)[1..] == a[1..] + b;
      EncodeConcat(a[1..], b);
    }
  }

  lemma {:induction false} QuoteBytesConcat(a: seq<Byte>, b: seq<Byte>)
    ensures QuoteBytes(a + b) == QuoteBytes(a) + QuoteBytes(b)
  {
    if a == [] {
      assert a + b == b;
    } else {
      assert (a + b)[0] == a[0] && (a + b)[1..] == a[1..] + b;
      QuoteBytesConcat(a[1..], b);
    }
  }

  lemma {:induction false} ReplaceConcat(a: string, b: string)
    ensures ReplaceSpaces(a + b) == ReplaceSpaces(a) + ReplaceSpaces(b)
  {
    var l, r := ReplaceSpaces(a + b), ReplaceSpaces(a) + ReplaceSpaces(b);
    assert |l| == |r|;
    forall k | 0 <= k < |l| ensures l[k] == r[k] {
      if k < |a| {
        assert (a + b)[k] == a[k];
      } else {
        assert (a + b)[k] == b[k - |a|];
      }
    }
  }

  /** Each space of the query becomes `%2B` in the term. */
  lemma {:induction false} SpaceIsEncodedPlus(a: string, b: string)
    ensures NormalizeQuery(a + " " + b) == NormalizeQuery(a) + "%2B" + NormalizeQuery(b)
  {
    SpaceReplaced(a, b);
    QuoteConcat(ReplaceSpaces(a) + "+", ReplaceSpaces(b));
    QuoteConcat(ReplaceSpaces(a), "+");
    PlusQuoted();
  }

  lemma {:induction false} SpaceReplaced(a: string, b: string)
    ensures ReplaceSpaces(a + " " + b) == ReplaceSpaces(a) + "+" + ReplaceSpaces(b)
  {
    ReplaceConcat(a + " ", b);
    ReplaceConcat(a, " ");
  }

  lemma {:induction false} PlusQuoted()
    ensures Quote("+") == "%2B"
  {
    assert Utf8Encode("+") == [0x2B];
  }


  /** A space and a literal `+` in the query reach the service alike. */
  lemma {:induction false} SpaceAndPlusCollide(a: string, b: string)
    ensures NormalizeQuery(a + " " + b) == NormalizeQuery(a + "+" + b)
  {
    ReplaceConcat(a + " ", b);
    ReplaceConcat(a, " ");
    ReplaceConcat(a + "+", b);
    ReplaceConcat(a, "+");
  }

  /** Text made only of safe ASCII characters is its own encoding. */
  lemma {:induction false} SafeTextUnchanged(s: string)
    requires forall k :: 0 <= k < |s| ==> s[k] as int < 0x80 && IsSafe(s[k] as int)
    ensures Quote(s) == s
  {
    if s != [] {
      SafeTextUnchanged(s[1..]);
      assert Utf8Encode(s) == [s[0] as int] + Utf8Encode(s[1..]);
      assert QuoteBytes(Utf8Encode(s)) == [s[0]] + QuoteBytes(Utf8Encode(s[1..]));
      assert [s[0]] + s[1..] == s;
    }
  }

  /** A character outside ASCII becomes the `%XX` forms of its UTF-8
      bytes: `é` is `%C3%A9`. */
  lemma {:induction false} AccentExample()
    ensures Quote("é") == "%C3%A9"
  {
    assert Utf8Encode("é") == [0xC3, 0xA9];
  }
}
