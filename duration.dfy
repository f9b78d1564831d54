/** `_parse_duration` (lightcast/core.py:21-27): a duration text is either
    a number of seconds or an `H:M:S` clock reading. */
module Duration {
  import opened Results
  import opened Strings
  import opened Decimal

  /** `h, m, s = map(int, fields)`: `int` is applied lazily, field by field,
      while unpacking; three fields are taken, and a fourth is converted
      before the unpacking notices there are too many. The first failing
      conversion raises its own ValueError; a wrong count raises one about
      the whole `text`. */
  function UnpackThree(fields: seq<string>, text: string): (r: Result<seq<int>>)
    ensures r.Success? ==> |fields| == 3 && |r.value| == 3
    ensures r.Success? ==> forall k :: 0 <= k < 3 ==> ParseInt(fields[k]) == Success(r.value[k])
    ensures r.Failure? ==> r.error.ValueError?
  {
    var attempted := if |fields| <= 4 then |fields| else 4;
    var values :- MapAll(ParseInt, fields[..attempted]);
    if |fields| != 3 then Failure(ValueError(text)) else Success(values)
  }

  /** `_parse_duration(text)`: with a `:` in it, exactly three integer
      fields giving `h * 3600 + m * 60 + s` (no range check on any field);
      otherwise the whole text as an integer. */
  function ParseDuration(text: string): (r: Result<int>)
    ensures ':' !in text ==> r == ParseInt(text)
    ensures r.Success? && ':' in text ==> Count(text, ':') == 2
    ensures r.Success? && ':' in text ==> forall f :: f in Split(text, ':') ==> ParseInt(f).Success?
    ensures r.Failure? ==> r.error.ValueError?
  {
    if ':' in text then
      var v :- UnpackThree(Split(text, ':'), text);
      Success(v[0] * 3600 + v[1] * 60 + v[2])
    else
      ParseInt(text)
  }

  /** A text of digits alone is that many seconds (`"100"` is 100). */
  lemma {:induction false} SecondsForm(text: string)
    requires |text| >= 1 && AllDigits(text) && |text| <= MaxStrDigits
    ensures ParseDuration(text) == Success(DecimalValue(text))
  {
    NoColonInDigits(text);
    ParseDigits(text);
  }

  /** Three colon-separated digit fields give `h * 3600 + m * 60 + s`,
      whatever their range (`"1:30:00"` is 5400, `"0:90:75"` is 5475). */
  lemma {:induction false} ClockForm(h: string, m: string, s: string)
    requires |h| >= 1 && AllDigits(h) && |h| <= MaxStrDigits
    requires |m| >= 1 && AllDigits(m) && |m| <= MaxStrDigits
    requires |s| >= 1 && AllDigits(s) && |s| <= MaxStrDigits
    ensures ParseDuration(h + ":" + m + ":" + s).Success?
    ensures ParseDuration(h + ":" + m + ":" + s).value
         == DecimalValue(h) * 3600 + DecimalValue(m) * 60 + DecimalValue(s)
  {
    var text := h + ":" + m + ":" + s;
    ClockFields(h, m, s);
    ColonCase(text, [DecimalValue(h), DecimalValue(m), DecimalValue(s)]);
  }

  lemma {:induction false} ClockFields(h: string, m: string, s: string)
    requires |h| >= 1 && AllDigits(h) && |h| <= MaxStrDigits
    requires |m| >= 1 && AllDigits(m) && |m| <= MaxStrDigits
    requires |s| >= 1 && AllDigits(s) && |s| <= MaxStrDigits
    ensures ':' in h + ":" + m + ":" + s
    ensures UnpackThree(Split(h + ":" + m + ":" + s, ':'), h + ":" + m + ":" + s)
         == Success([DecimalValue(h), DecimalValue(m), DecimalValue(s)])
  {
    var text := h + ":" + m + ":" + s;
    assert text[|h|] == ':';
    SplitClock(h, m, s);
    DigitFields(h, m, s, text);
  }

  lemma {:induction false} DigitFields(h: string, m: string, s: string, text: string)
    requires |h| >= 1 && AllDigits(h) && |h| <= MaxStrDigits
    requires |m| >= 1 && AllDigits(m) && |m| <= MaxStrDigits
    requires |s| >= 1 && AllDigits(s) && |s| <= MaxStrDigits
    ensures UnpackThree([h, m, s], text) == Success([DecimalValue(h), DecimalValue(m), DecimalValue(s)])
  {
    var fields, values := [h, m, s], [DecimalValue(h), DecimalValue(m), DecimalValue(s)];
    ParseDigits(h);
    ParseDigits(m);
    ParseDigits(s);
    forall k | 0 <= k < 3
      ensures ParseInt(fields[k]) == Success(values[k])
    {
      assert fields[k] == (if k == 0 then h else if k == 1 then m else s);
      assert values[k] == (if k == 0 then DecimalValue(h) else if k == 1 then DecimalValue(m) else DecimalValue(s));
    }
    UnpackDigits(fields, values, text);
  }

  lemma {:induction false} ColonCase(text: string, v: seq<int>)
    requires ':' in text && |v| == 3 && UnpackThree(Split(text, ':'), text) == Success(v)
    ensures ParseDuration(text).Success?
    ensures ParseDuration(text).value == v[0] * 3600 + v[1] * 60 + v[2]
  {
    var r := UnpackThree(Split(text, ':'), text);
    assert r.value == v;
  }

  lemma {:induction false} UnpackDigits(fields: seq<string>, values: seq<int>, text: string)
    requires |fields| == 3 && |values| == 3
    requires forall k :: 0 <= k < 3 ==> ParseInt(fields[k]) == Success(values[k])
    ensures UnpackThree(fields, text) == Success(values)
  {
    assert fields[..3] == fields;
    var all := MapAll(ParseInt, fields);
    assert all.Success?;
    assert all.value == values by {
      assert |all.value| == 3;
      assert all.value[0] == values[0] && all.value[1] == values[1] && all.value[2] == values[2];
    }
  }

  lemma {:induction false} SplitClock(h: string, m: string, s: string)
    requires AllDigits(h) && AllDigits(m) && AllDigits(s)
    ensures Split(h + ":" + m + ":" + s, ':') == [h, m, s]
  {
    NoColonInDigits(h);
    NoColonInDigits(m);
    NoColonInDigits(s);
    assert h + ":" + m + ":" + s == h + [':'] + (m + [':'] + s);
    SplitAt(h, m + [':'] + s, ':');
    SplitAt(m, s, ':');
    SplitNoSep(s, ':');
  }

  /** `str(n)` of a number of seconds reads back as that number. */
  lemma {:induction false} SecondsRoundTrip(n: int)
    requires |ShowNat(if n < 0 then -n else n)| <= MaxStrDigits
    ensures ParseDuration(ShowInt(n)) == Success(n)
  {
    var text := ShowInt(n);
    assert ':' !in text by {
      var d := ShowNat(if n < 0 then -n else n);
      NoColonInDigits(d);
      assert text == d || text == "-" + d;
    }
    ParseShowInt(n);
  }

  /** A colon text whose field count is not three is an error, never a
      value. */
  lemma {:induction false} WrongFieldCount(text: string)
    requires ':' in text && Count(text, ':') != 2
    ensures ParseDuration(text).Failure?
  {
  }

  /** The empty text is an error: `int("")` raises ValueError. */
  lemma {:induction false} EmptyIsError()
    ensures ParseDuration("") == Failure(ValueError(""))
  {
    NoDigitNoNumber("");
  }

  lemma {:induction false} NoColonInDigits(s: string)
    requires AllDigits(s)
    ensures ':' !in s
  {
  }

  lemma {:induction false} SplitNoSep(s: string, c: char)
    requires c !in s
    ensures Split(s, c) == [s]
  {
    CountZero(s, c);
  }

  /** Splitting at the first separator. */
  lemma {:induction false} SplitAt(a: string, b: string, c: char)
    requires c !in a
    ensures Split(a + [c] + b, c) == [a] + Split(b, c)
  {
    if a == [] {
      assert a + [c] + b == [c] + b;
      assert ([c] + b)[1..] == b;
    } else {
      assert (a + [c] + b)[1..] == a[1..] + [c] + b;
      SplitAt(a[1..], b, c);
      assert [a[0]] + a[1..] == a;
    }
  }

  /** The characters a duration may hold: those of its numbers, and the
      colons between them. */
  predicate IsDurationChar(c: char) {
    IsIntChar(c) || c == ':'
  }

  /** Text outside what `int` reads and the colons between its fields is
      refused, with or without colons (`"12a"`, `"1:2:x"`). */
  lemma {:induction false} ForeignCharRefused(text: string, k: int)
    requires 0 <= k < |text| && !IsDurationChar(text[k])
    ensures ParseDuration(text).Failure?
  {
    if ':' !in text {
      Decimal.ForeignCharRefused(text, k);
    } else if ParseDuration(text).Success? {
      FieldCharacters(text);
    }
  }

  /** Every character of a clock reading that parses is a number's or a
      colon. */
  lemma {:induction false} FieldCharacters(text: string)
    requires ':' in text && ParseDuration(text).Success?
    ensures All(text, IsDurationChar)
  {
    var fields := Split(text, ':');
    forall k | 0 <= k < |fields| ensures All(fields[k], IsDurationChar) {
      assert fields[k] in fields;
      ReadCharacters(fields[k]);
      forall i | 0 <= i < |fields[k]| ensures IsDurationChar(fields[k][i]) {
        assert IsIntChar(fields[k][i]);
      }
    }
    JoinAll(fields, ':', IsDurationChar);
  }

  /** `_parse_duration("1:2:x")` is a ValueError. */
  lemma {:induction false} NonNumericField()
    ensures ParseDuration("1:2:x").Failure?
  {
    ForeignCharRefused("1:2:x", 4);
  }
}
