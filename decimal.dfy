/** Python's `int(text)` in base 10, as `_parse_duration` uses it
    (lightcast/core.py:24, 27): surrounding whitespace, an optional sign, ASCII
    digits with single `_` separators between them, and CPython's default limit
    of 4300 digits for a decimal conversion. */
module Decimal {
  import opened Results
  import opened Strings

  /** CPython's default `sys.get_int_max_str_digits()`. */
  const MaxStrDigits: nat := 4300

  predicate IsDigit(c: char) { '0' <= c <= '9' }

  function DigitValue(c: char): nat requires IsDigit(c) { c as nat - '0' as nat }

  function DigitChar(d: nat): (c: char)
    requires d < 10
    ensures IsDigit(c) && DigitValue(c) == d
  {
    ('0' as nat + d) as char
  }

  predicate AllDigits(s: string) { forall i :: 0 <= i < |s| ==> IsDigit(s[i]) }

  /** Whitespace outside ASCII, as `str.isspace` knows it. */
  predicate IsNonAsciiSpace(c: char) {
    c == '\U{85}' || c == '\U{A0}' || c == '\U{1680}' || ('\U{2000}' <= c <= '\U{200A}')
    || c == '\U{2028}' || c == '\U{2029}' || c == '\U{202F}' || c == '\U{205F}' || c == '\U{3000}'
  }

  /** The whitespace `int()` skips around the number: the six C-locale
      spaces, and every non-ASCII character `str.isspace` accepts (CPython
      turns those into ' ' first). The ASCII separators 0x1C-0x1F are not
      among them. */
  predicate IsIntSpace(c: char) {
    c == ' ' || c == '\t' || c == '\n' || c == '\U{B}' || c == '\U{C}' || c == '\r'
    || IsNonAsciiSpace(c)
  }

  /** Value of a string of decimal digits, most significant first. */
  function DecimalValue(s: string): nat
    requires AllDigits(s)
  {
    if s == [] then 0 else 10 * DecimalValue(s[..|s| - 1]) + DigitValue(s[|s| - 1])
  }

  /** Shortest decimal spelling of `n`: `str(n)` for `n >= 0`. */
  function ShowNat(n: nat): (s: string)
    ensures AllDigits(s) && |s| >= 1
  {
    if n < 10 then [DigitChar(n)] else ShowNat(n / 10) + [DigitChar(n % 10)]
  }

  /** `str(n)`. */
  function ShowInt(n: int): string {
    if n < 0 then "-" + ShowNat(-n) else ShowNat(n)
  }

  lemma {:induction false} ShowNatValue(n: nat)
    ensures DecimalValue(ShowNat(n)) == n
  {
    if n >= 10 {
      ShowNatValue(n / 10);
      var s := ShowNat(n);
      assert s[..|s| - 1] == ShowNat(n / 10);
    }
  }

  /** Digits with single underscores between them: `1_000` but not `_1`,
      `1_`, `1__0`. */
  predicate GroupedDigits(s: string) {
    && |s| >= 1
    && IsDigit(s[0]) && IsDigit(s[|s| - 1])
    && (forall i :: 0 <= i < |s| ==> IsDigit(s[i]) || s[i] == '_')
    && (forall i :: 0 <= i < |s| - 1 ==> !(s[i] == '_' && s[i + 1] == '_'))
  }

  function RemoveUnderscores(s: string): (d: string)
    requires forall i :: 0 <= i < |s| ==> IsDigit(s[i]) || s[i] == '_'
    ensures AllDigits(d) && |d| == |s| - Count(s, '_')
  {
    if s == [] then []
    else if s[0] == '_' then RemoveUnderscores(s[1..])
    else [s[0]] + RemoveUnderscores(s[1..])
  }

  /** `int(text)`; a string it rejects raises ValueError. */
  function ParseInt(text: string): (r: Result<int>)
    ensures r.Failure? ==> r.error == ValueError(text)
  {
    match ParseSigned(Strip(text, IsIntSpace))
    case None => Failure(ValueError(text))
    case Some(v) => Success(v)
  }

  /** What `int()` accepts once the surrounding whitespace is gone: an
      optional sign, then grouped digits within the digit limit. */
  function ParseSigned(t: string): Option<int> {
    if t != [] && (t[0] == '+' || t[0] == '-') then
      match ParseUnsigned(t[1..])
      case None => None
      case Some(v) => if t[0] == '-' then Some(-(v as int)) else Some(v)
    else ParseUnsigned(t)
  }

  /** Grouped digits within the digit limit, without a sign. */
  function ParseUnsigned(body: string): Option<nat> {
    if !GroupedDigits(body) then None
    else
      var digits := RemoveUnderscores(body);
      if |digits| > MaxStrDigits then None else Some(DecimalValue(digits))
  }

  lemma {:induction false} RemoveUnderscoresNoop(s: string)
    requires AllDigits(s)
    ensures RemoveUnderscores(s) == s
  {
    if s != [] {
      RemoveUnderscoresNoop(s[1..]);
      assert [s[0]] + s[1..] == s;
    }
  }

  /** Underscores are removed piece by piece: the digits of a
      concatenation are the digits of its parts, in order. */
  lemma {:induction false} RemoveUnderscoresConcat(a: string, b: string)
    requires forall i :: 0 <= i < |a| ==> IsDigit(a[i]) || a[i] == '_'
    requires forall i :: 0 <= i < |b| ==> IsDigit(b[i]) || b[i] == '_'
    ensures RemoveUnderscores(a + b) == RemoveUnderscores(a) + RemoveUnderscores(b)
  {
    if a == [] {
      assert a + b == b;
    } else {
      var ab := a + b;
      assert ab[0] == a[0] && ab[1..] == a[1..] + b;
      RemoveUnderscoresConcat(a[1..], b);
      if a[0] == '_' {
        assert RemoveUnderscores(ab) == RemoveUnderscores(a[1..] + b);
      } else {
        assert RemoveUnderscores(ab) == [a[0]] + RemoveUnderscores(a[1..] + b);
        assert RemoveUnderscores(a) == [a[0]] + RemoveUnderscores(a[1..]);
      }
    }
  }

  /** A separator between two groups is dropped and the groups' digits are
      kept in order. */
  lemma {:induction false} UnderscoreDropped(a: string, b: string)
    requires forall i :: 0 <= i < |a| ==> IsDigit(a[i]) || a[i] == '_'
    requires forall i :: 0 <= i < |b| ==> IsDigit(b[i]) || b[i] == '_'
    ensures RemoveUnderscores(a + "_" + b) == RemoveUnderscores(a) + RemoveUnderscores(b)
  {
    RemoveUnderscoresConcat(a, "_" + b);
    assert a + "_" + b == a + ("_" + b);
    assert ("_" + b)[1..] == b;
  }

  /** `int("1_000") == 1000`. */
  lemma {:induction false} GroupedExample()
    ensures ParseInt("1_000") == Success(1000)
  {
    UnspacedStripsToItself("1_000");
    ThousandDigits();
    ThousandValue();
    assert ParseUnsigned("1_000") == Some(1000);
  }

  lemma {:induction false} ThousandDigits()
    ensures GroupedDigits("1_000") && RemoveUnderscores("1_000") == "1000"
  {
    UnderscoreDropped("1", "000");
    RemoveUnderscoresNoop("1");
    RemoveUnderscoresNoop("000");
    assert "1" + "_" + "000" == "1_000";
    assert "1" + "000" == "1000";
  }

  lemma {:induction false} ThousandValue()
    ensures DecimalValue("1000") == 1000
  {
    var s1, s2, s3, s4 := "1", "10", "100", "1000";
    assert s1[..0] == [] && DecimalValue(s1) == 1;
    assert s2[..1] == s1 && DecimalValue(s2) == 10;
    assert s3[..2] == s2 && DecimalValue(s3) == 100;
    assert s4[..3] == s3;
  }

  /** `int("+7") == 7`. */
  lemma {:induction false} PlusExample()
    ensures ParseInt("+7") == Success(7)
  {
    UnspacedStripsToItself("+7");
    var t := "+7";
    assert t[1..] == "7";
    UnsignedDigits("7");
  }

  /** `int("1__0")` is a ValueError: separators must be single. */
  lemma {:induction false} DoubleUnderscoreExample()
    ensures ParseInt("1__0") == Failure(ValueError("1__0"))
  {
    UnspacedStripsToItself("1__0");
    var t := "1__0";
    assert t[1] == '_' && t[2] == '_';
    assert !GroupedDigits(t);
  }

  /** A string of ASCII digits within the digit limit reads as its decimal
      value; leading zeros are allowed. */
  lemma {:induction false} ParseDigits(s: string)
    requires |s| >= 1 && AllDigits(s) && |s| <= MaxStrDigits
    ensures ParseInt(s) == Success(DecimalValue(s))
  {
    UnspacedStripsToItself(s);
    SignedDigits(s);
  }

  lemma {:induction false} UnspacedStripsToItself(s: string)
    requires s != [] ==> !IsIntSpace(s[0]) && !IsIntSpace(s[|s| - 1])
    ensures Strip(s, IsIntSpace) == s
  {
    assert [] + s + [] == s;
    StripSurrounded([], s, [], IsIntSpace);
  }

  lemma {:induction false} SignedDigits(s: string)
    requires |s| >= 1 && AllDigits(s) && |s| <= MaxStrDigits
    ensures ParseSigned(s) == Some(DecimalValue(s))
  {
    UnsignedDigits(s);
  }

  lemma {:induction false} UnsignedDigits(s: string)
    requires |s| >= 1 && AllDigits(s) && |s| <= MaxStrDigits
    ensures ParseUnsigned(s) == Some(DecimalValue(s))
  {
    RemoveUnderscoresNoop(s);
    assert GroupedDigits(s);
  }

  /** `int(str(n)) == n` whenever `str(n)` is within the digit limit. */
  lemma {:induction false} ParseShowInt(n: int)
    requires |ShowNat(if n < 0 then -n else n)| <= MaxStrDigits
    ensures ParseInt(ShowInt(n)) == Success(n)
  {
    if n >= 0 {
      ShowNatValue(n);
      ParseDigits(ShowNat(n));
    } else {
      var d := ShowNat(-n);
      ShowNatValue(-n);
      ParseNegative(d);
      assert ShowInt(n) == "-" + d;
      assert -(DecimalValue(d) as int) == n;
    }
  }

  /** `-` and a string of ASCII digits within the digit limit read as
      the negated decimal value. */
  lemma {:induction false} ParseNegative(d: string)
    requires |d| >= 1 && AllDigits(d) && |d| <= MaxStrDigits
    ensures ParseInt("-" + d) == Success(-(DecimalValue(d) as int))
  {
    var t := "-" + d;
    assert IsDigit(t[|t| - 1]) by { assert t[|t| - 1] == d[|d| - 1]; }
    UnspacedStripsToItself(t);
    UnsignedDigits(d);
    SignedNegative(d);
    assert ParseSigned(t) == Some(-(DecimalValue(d) as int));
  }

  /** A leading `-` negates what the digits after it read as. */
  lemma {:induction false} SignedNegative(d: string)
    requires ParseUnsigned(d).Some?
    ensures ParseSigned("-" + d) == Some(-(ParseUnsigned(d).value as int))
  {
    var t := "-" + d;
    assert t[0] == '-' && t[1..] == d;
  }

  /** Whitespace around a number does not change what it reads as. */
  lemma {:induction false} ParseIgnoresSurroundingSpace(text: string, pre: string, post: string)
    requires All(pre, IsIntSpace) && All(post, IsIntSpace)
    ensures ParseInt(pre + text + post).Success? == ParseInt(text).Success?
    ensures ParseInt(text).Success? ==> ParseInt(pre + text + post).value == ParseInt(text).value
  {
    StripAbsorbs(pre, text, post, IsIntSpace);
  }

  /** Text with no ASCII digit is never a number: the empty string, blanks,
      a lone sign. */
  lemma {:induction false} NoDigitNoNumber(text: string)
    requires forall i :: 0 <= i < |text| ==> !IsDigit(text[i])
    ensures ParseInt(text) == Failure(ValueError(text))
  {
    var t := Strip(text, IsIntSpace);
    StrippedNoDigit(text);
    if t != [] && (t[0] == '+' || t[0] == '-') {
      assert ParseUnsigned(t[1..]) == None;
    } else {
      assert ParseUnsigned(t) == None;
    }
  }

  lemma {:induction false} StrippedNoDigit(text: string)
    requires forall i :: 0 <= i < |text| ==> !IsDigit(text[i])
    ensures forall k :: 0 <= k < |Strip(text, IsIntSpace)| ==> !IsDigit(Strip(text, IsIntSpace)[k])
  {
    var i := Lead(text, IsIntSpace);
    var n := Trail(text[i..], IsIntSpace);
    var t := Strip(text, IsIntSpace);
    assert t == text[i..|text| - n];
    forall k | 0 <= k < |t| ensures !IsDigit(t[k]) {
      assert t[k] == text[i + k];
    }
  }

  /** `text` is laid out as `int()` reads a number: whitespace, an optional
      sign, grouped digits within the digit limit, whitespace; `v` is the
      signed value of the digits. */
  ghost predicate IntLayout(pre: string, sign: string, body: string, post: string, v: int) {
    && All(pre, IsIntSpace) && All(post, IsIntSpace)
    && (sign == "" || sign == "+" || sign == "-")
    && GroupedDigits(body)
    && |RemoveUnderscores(body)| <= MaxStrDigits
    && v == if sign == "-" then -(DecimalValue(RemoveUnderscores(body)) as int) else DecimalValue(RemoveUnderscores(body))
  }

  /** `text` spells the integer `v` in the grammar `int()` accepts. */
  ghost predicate SpellsInt(text: string, v: int) {
    exists pre, sign, body, post :: text == pre + sign + body + post && IntLayout(pre, sign, body, post, v)
  }

  /** `int(text)` reads `v` exactly when `text` spells `v`: anything outside
      the grammar (`"12a"`, `"1 2"`, `"0x10"`) is refused. */
  lemma {:induction false} ParseIntSpells(text: string, v: int)
    ensures ParseInt(text) == Success(v) <==> SpellsInt(text, v)
  {
    if ParseInt(text) == Success(v) {
      ParseIntSound(text, v);
    }
    if SpellsInt(text, v) {
      var pre, sign, body, post :| text == pre + sign + body + post && IntLayout(pre, sign, body, post, v);
      ParseIntComplete(pre, sign, body, post, v);
    }
  }

  lemma {:induction false} ParseIntSound(text: string, v: int)
    requires ParseInt(text) == Success(v)
    ensures SpellsInt(text, v)
  {
    var t := Strip(text, IsIntSpace);
    var pre, post := SpaceAround(text);
    var sign, body := SignOf(t);
    assert text == pre + sign + body + post by {
      Regroup4(pre, sign, body, post);
    }
    assert IntLayout(pre, sign, body, post, v);
  }

  /** The whitespace `int()` strips from either end of `text`. */
  lemma {:induction false} SpaceAround(text: string) returns (pre: string, post: string)
    ensures text == pre + Strip(text, IsIntSpace) + post
    ensures All(pre, IsIntSpace) && All(post, IsIntSpace)
  {
    var t := Strip(text, IsIntSpace);
    var i :| 0 <= i <= |text| - |t| && text[i..i + |t|] == t && All(text[..i], IsIntSpace) && All(text[i + |t|..], IsIntSpace);
    pre, post := text[..i], text[i + |t|..];
    Cut3(text, i, i + |t|);
  }

  lemma {:induction false} Cut3(s: string, i: int, j: int)
    requires 0 <= i <= j <= |s|
    ensures s == s[..i] + s[i..j] + s[j..]
  {
    assert s[..i] + s[i..] == s;
    assert s[i..] == s[i..j] + s[j..];
  }

  lemma {:induction false} Regroup4(a: string, b: string, c: string, d: string)
    ensures a + (b + c) + d == a + b + c + d
  {
  }

  /** The sign and the digits of what `int()` reads once the whitespace is
      gone. */
  lemma {:induction false} SignOf(t: string) returns (sign: string, body: string)
    requires ParseSigned(t).Some?
    ensures t == sign + body && (sign == "" || sign == "+" || sign == "-")
    ensures GroupedDigits(body) && |RemoveUnderscores(body)| <= MaxStrDigits
    ensures ParseSigned(t).value
         == if sign == "-" then -(DecimalValue(RemoveUnderscores(body)) as int) else DecimalValue(RemoveUnderscores(body))
  {
    if t != [] && (t[0] == '+' || t[0] == '-') {
      sign, body := t[..1], t[1..];
      assert t == sign + body;
    } else {
      sign, body := "", t;
      assert t == sign + body;
    }
  }

  lemma {:induction false} ParseIntComplete(pre: string, sign: string, body: string, post: string, v: int)
    requires IntLayout(pre, sign, body, post, v)
    ensures ParseInt(pre + sign + body + post) == Success(v)
  {
    var t := sign + body;
    assert pre + sign + body + post == pre + t + post by {
      Regroup4(pre, sign, body, post);
    }
    assert Strip(pre + t + post, IsIntSpace) == t by {
      SignedEnds(sign, body);
      StripSurrounded(pre, t, post, IsIntSpace);
    }
    SignedValue(sign, body, v);
  }

  /** A signed number neither starts nor ends with whitespace. */
  lemma {:induction false} SignedEnds(sign: string, body: string)
    requires (sign == "" || sign == "+" || sign == "-") && GroupedDigits(body)
    ensures !IsIntSpace((sign + body)[0]) && !IsIntSpace((sign + body)[|sign + body| - 1])
  {
    var t := sign + body;
    if sign == "" { assert t[0] == body[0]; } else { assert t[0] == sign[0]; }
    assert t[|t| - 1] == body[|body| - 1];
  }

  lemma {:induction false} SignedValue(sign: string, body: string, v: int)
    requires (sign == "" || sign == "+" || sign == "-") && GroupedDigits(body)
    requires |RemoveUnderscores(body)| <= MaxStrDigits
    requires v == if sign == "-" then -(DecimalValue(RemoveUnderscores(body)) as int) else DecimalValue(RemoveUnderscores(body))
    ensures ParseSigned(sign + body) == Some(v)
  {
    var t := sign + body;
    if sign == "" {
      assert t == body;
    } else {
      assert t[0] == sign[0] && t[1..] == body;
    }
  }

  /** The characters a number `int()` reads may hold. */
  predicate IsIntChar(c: char) {
    IsIntSpace(c) || IsDigit(c) || c == '_' || c == '+' || c == '-'
  }

  /** Everything in a text `int()` reads is whitespace, a digit, `_` or a
      sign. */
  lemma {:induction false} ReadCharacters(text: string)
    requires ParseInt(text).Success?
    ensures All(text, IsIntChar)
  {
    var v := ParseInt(text).value;
    ParseIntSound(text, v);
    var pre, sign, body, post :| text == pre + sign + body + post && IntLayout(pre, sign, body, post, v);
    LayoutCharacters(pre, sign, body, post, v);
  }

  lemma {:induction false} LayoutCharacters(pre: string, sign: string, body: string, post: string, v: int)
    requires IntLayout(pre, sign, body, post, v)
    ensures All(pre + sign + body + post, IsIntChar)
  {
    assert All(pre, IsIntChar) by {
      forall k | 0 <= k < |pre| ensures IsIntChar(pre[k]) { assert IsIntSpace(pre[k]); }
    }
    assert All(post, IsIntChar) by {
      forall k | 0 <= k < |post| ensures IsIntChar(post[k]) { assert IsIntSpace(post[k]); }
    }
    assert All(sign, IsIntChar);
    assert All(body, IsIntChar) by {
      forall k | 0 <= k < |body| ensures IsIntChar(body[k]) { assert IsDigit(body[k]) || body[k] == '_'; }
    }
    AllConcat(pre, sign, IsIntChar);
    AllConcat(pre + sign, body, IsIntChar);
    AllConcat(pre + sign + body, post, IsIntChar);
  }

  /** A text holding any other character is refused. */
  lemma {:induction false} ForeignCharRefused(text: string, k: int)
    requires 0 <= k < |text| && !IsIntChar(text[k])
    ensures ParseInt(text) == Failure(ValueError(text))
  {
    if ParseInt(text).Success? {
      ReadCharacters(text);
    }
  }

  /** `int("12a")` is a ValueError. */
  lemma {:induction false} TrailingLetterExample()
    ensures ParseInt("12a") == Failure(ValueError("12a"))
  {
    ForeignCharRefused("12a", 2);
  }
}
