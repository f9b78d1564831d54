/** The two `str` methods the core relies on: `strip(chars)` (used with
    `"\n"` by `Episode.from_xml`, and implicitly with whitespace by `int()`) and
    `split(sep)` (used with `":"` by `_parse_duration`). */
module Strings {

  ghost predicate All(s: string, p: char -> bool) {
    forall i :: 0 <= i < |s| ==> p(s[i])
  }

  /** `t` is what remains of `s` once the characters satisfying `p` are
      removed from both ends: `s` is `p`-characters, then `t`, then
      `p`-characters, and `t` neither starts nor ends with a `p`-character. */
  ghost predicate IsStripOf(s: string, t: string, p: char -> bool) {
    && (t != [] ==> !p(t[0]) && !p(t[|t| - 1]))
    && exists i :: 0 <= i <= |s| - |t| && s[i..i + |t|] == t && All(s[..i], p) && All(s[i + |t|..], p)
  }

  /** Number of leading characters of `s` that satisfy `p`. */
  function Lead(s: string, p: char -> bool): (n: nat)
    ensures n <= |s| && (forall k :: 0 <= k < n ==> p(s[k])) && (n < |s| ==> !p(s[n]))
  {
    if s == [] || !p(s[0]) then 0
    else
      var n := 1 + Lead(s[1..], p);
      assert forall k :: 1 <= k < n ==> s[k] == s[1..][k - 1];
      n
  }

  /** Number of trailing characters of `s` that satisfy `p`. */
  function Trail(s: string, p: char -> bool): (n: nat)
    ensures n <= |s| && (forall k :: |s| - n <= k < |s| ==> p(s[k])) && (n < |s| ==> !p(s[|s| - n - 1]))
  {
    if s == [] || !p(s[|s| - 1]) then 0
    else
      var n := 1 + Trail(s[..|s| - 1], p);
      assert forall k :: |s| - n <= k < |s| - 1 ==> s[k] == s[..|s| - 1][k];
      n
  }

  /** `s.strip(chars)` where `p` tells the members of `chars`: scan from the
      left past `p`-characters, then from the right back to that point. */
  function Strip(s: string, p: char -> bool): (t: string)
    ensures IsStripOf(s, t, p)
  {
    var i := Lead(s, p);
    var n := Trail(s[i..], p);
    StripShape(s, p, i, n);
    s[i..|s| - n]
  }

  /** The piece between a leading and a trailing run, each ending at a
      character outside the runs, is what stripping leaves. */
  lemma {:induction false} StripShape(s: string, p: char -> bool, i: nat, n: nat)
    requires i <= |s| && (forall k :: 0 <= k < i ==> p(s[k])) && (i < |s| ==> !p(s[i]))
    requires n <= |s| - i && (forall k :: |s| - i - n <= k < |s| - i ==> p(s[i..][k]))
    requires n < |s| - i ==> !p(s[i..][|s| - i - n - 1])
    ensures IsStripOf(s, s[i..|s| - n], p)
  {
    var t := s[i..|s| - n];
    if t != [] {
      assert t[0] == s[i];
      assert t[|t| - 1] == s[i..][|s| - i - n - 1];
    }
    var pre, post := s[..i], s[i + |t|..];
    assert s[i..i + |t|] == t;
    forall k | 0 <= k < |pre| ensures p(pre[k]) {
      assert pre[k] == s[k];
    }
    forall k | 0 <= k < |post| ensures p(post[k]) {
      assert post[k] == s[i..][|s| - i - n + k];
    }
    assert All(pre, p) && All(post, p);
  }

  /** The characterisation determines the stripped string: `Strip` is the
      only function meeting its contract. */
  lemma {:induction false} StripUnique(s: string, t1: string, t2: string, p: char -> bool)
    requires IsStripOf(s, t1, p) && IsStripOf(s, t2, p)
    ensures t1 == t2
  {
    var i1 :| 0 <= i1 <= |s| - |t1| && s[i1..i1 + |t1|] == t1 && All(s[..i1], p) && All(s[i1 + |t1|..], p);
    var i2 :| 0 <= i2 <= |s| - |t2| && s[i2..i2 + |t2|] == t2 && All(s[..i2], p) && All(s[i2 + |t2|..], p);
    EmptyStripIffAll(s, t1, p, i1);
    EmptyStripIffAll(s, t2, p, i2);
    if t1 != [] {
      StripIsLeadTrail(s, t1, p, i1);
      StripIsLeadTrail(s, t2, p, i2);
    }
  }

  /** Nothing is left exactly when every character of `s` satisfies `p`. */
  lemma {:induction false} EmptyStripIffAll(s: string, t: string, p: char -> bool, i: int)
    requires t != [] ==> !p(t[0]) && !p(t[|t| - 1])
    requires 0 <= i <= |s| - |t| && s[i..i + |t|] == t && All(s[..i], p) && All(s[i + |t|..], p)
    ensures t == [] <==> All(s, p)
  {
    if t == [] {
      forall k | 0 <= k < |s| ensures p(s[k]) {
        if k < i { assert s[..i][k] == s[k]; } else { assert s[i..][k - i] == s[k]; }
      }
    } else {
      assert s[i] == t[0];
    }
  }

  /** A non-empty stripped string starts where `Lead` stops and ends where
      `Trail` starts. */
  lemma {:induction false} StripIsLeadTrail(s: string, t: string, p: char -> bool, i: int)
    requires t != [] && !p(t[0]) && !p(t[|t| - 1])
    requires 0 <= i <= |s| - |t| && s[i..i + |t|] == t && All(s[..i], p) && All(s[i + |t|..], p)
    ensures i == Lead(s, p) && i + |t| + Trail(s, p) == |s|
  {
    assert s[i..i + |t|][0] == s[i];
    assert s[i..i + |t|][|t| - 1] == s[i + |t| - 1];
    LeadAt(s, p, i);
    LastNotIsTrail(s, p, i + |t|);
  }

  /** `Lead` stops at the first character that fails `p`, or at the end. */
  lemma {:induction false} LeadAt(s: string, p: char -> bool, i: int)
    requires 0 <= i <= |s| && All(s[..i], p) && (i < |s| ==> !p(s[i]))
    ensures Lead(s, p) == i
  {
    PrefixAll(s, p, i);
  }

  lemma {:induction false} PrefixAll(s: string, p: char -> bool, i: int)
    requires 0 <= i <= |s| && All(s[..i], p)
    ensures forall k :: 0 <= k < i ==> p(s[k])
  {
    forall k | 0 <= k < i ensures p(s[k]) {
      assert s[..i][k] == s[k];
    }
  }

  lemma {:induction false} LastNotIsTrail(s: string, p: char -> bool, j: int)
    requires 0 < j <= |s| && !p(s[j - 1]) && All(s[j..], p)
    ensures j + Trail(s, p) == |s|
  {
    SuffixAll(s, p, j);
  }

  lemma {:induction false} SuffixAll(s: string, p: char -> bool, j: int)
    requires 0 <= j <= |s| && All(s[j..], p)
    ensures forall k :: j <= k < |s| ==> p(s[k])
  {
    forall k | j <= k < |s| ensures p(s[k]) {
      assert s[j..][k - j] == s[k];
    }
  }

  /** Stripping what is already stripped changes nothing. */
  lemma {:induction false} StripIdempotent(s: string, p: char -> bool)
    ensures Strip(Strip(s, p), p) == Strip(s, p)
  {
    var t := Strip(s, p);
    assert t[0..|t|] == t && t[..0] == [] && t[|t|..] == [];
    StripUnique(t, Strip(t, p), t, p);
  }

  /** Only the ends go: `p`-characters around a string that does not itself
      start or end with one are exactly what `Strip` removes, so interior
      `p`-characters are kept. */
  lemma {:induction false} StripSurrounded(pre: string, t: string, post: string, p: char -> bool)
    requires All(pre, p) && All(post, p)
    requires t != [] ==> !p(t[0]) && !p(t[|t| - 1])
    ensures Strip(pre + t + post, p) == t
  {
    var s := pre + t + post;
    assert s[|pre|..|pre| + |t|] == t && s[..|pre|] == pre && s[|pre| + |t|..] == post;
    StripUnique(s, Strip(s, p), t, p);
  }

  /** Characters satisfying `p` added around a string are stripped along
      with its own. */
  lemma {:induction false} StripAbsorbs(pre: string, s: string, post: string, p: char -> bool)
    requires All(pre, p) && All(post, p)
    ensures Strip(pre + s + post, p) == Strip(s, p)
  {
    var t := Strip(s, p);
    var i :| 0 <= i <= |s| - |t| && s[i..i + |t|] == t && All(s[..i], p) && All(s[i + |t|..], p);
    AbsorbAround(pre, s, post, t, i, p);
  }

  lemma {:induction false} AbsorbAround(pre: string, s: string, post: string, t: string, i: int, p: char -> bool)
    requires All(pre, p) && All(post, p)
    requires t != [] ==> !p(t[0]) && !p(t[|t| - 1])
    requires 0 <= i <= |s| - |t| && s[i..i + |t|] == t && All(s[..i], p) && All(s[i + |t|..], p)
    ensures Strip(pre + s + post, p) == t
  {
    var left, right := pre + s[..i], s[i + |t|..] + post;
    Regroup(pre, s, post, t, i);
    AllConcat(pre, s[..i], p);
    AllConcat(s[i + |t|..], post, p);
    StripSurrounded(left, t, right, p);
  }

  lemma {:induction false} Regroup(pre: string, s: string, post: string, t: string, i: int)
    requires 0 <= i <= |s| - |t| && s[i..i + |t|] == t
    ensures pre + s + post == (pre + s[..i]) + t + (s[i + |t|..] + post)
  {
    assert s == s[..i] + s[i..i + |t|] + s[i + |t|..];
  }

  lemma {:induction false} AllConcat(a: string, b: string, p: char -> bool)
    requires All(a, p) && All(b, p)
    ensures All(a + b, p)
  {
    forall k | 0 <= k < |a + b| ensures p((a + b)[k]) {
      if k < |a| { assert (a + b)[k] == a[k]; } else { assert (a + b)[k] == b[k - |a|]; }
    }
  }

  /** `sep.join(parts)`. */
  function Join(parts: seq<string>, sep: char): string
    requires |parts| >= 1
  {
    if |parts| == 1 then parts[0] else parts[0] + [sep] + Join(parts[1..], sep)
  }

  /** Joining keeps to the characters of the parts and the separator. */
  lemma {:induction false} JoinAll(parts: seq<string>, sep: char, p: char -> bool)
    requires |parts| >= 1 && p(sep)
    requires forall k :: 0 <= k < |parts| ==> All(parts[k], p)
    ensures All(Join(parts, sep), p)
  {
    if |parts| > 1 {
      JoinAll(parts[1..], sep, p);
      assert All(parts[0], p);
      AllConcat(parts[0], [sep], p);
      AllConcat(parts[0] + [sep], Join(parts[1..], sep), p);
    }
  }

  function Count(s: string, c: char): nat {
    if s == [] then 0 else (if s[0] == c then 1 else 0) + Count(s[1..], c)
  }

  /** `s.split(sep)`: the pieces between separators, one more than there are
      separators; joining them back with `sep` gives `s`. */
  function Split(s: string, sep: char): (parts: seq<string>)
    ensures |parts| == Count(s, sep) + 1
    ensures forall k :: 0 <= k < |parts| ==> sep !in parts[k]
    ensures Join(parts, sep) == s
  {
    if s == [] then [""]
    else
      var rest := Split(s[1..], sep);
      if s[0] == sep then
        [""] + rest
      else
        var parts := [[s[0]] + rest[0]] + rest[1..];
        assert parts[1..] == rest[1..];
        assert s == [s[0]] + s[1..];
        parts
  }

  lemma {:induction false} CountZero(s: string, c: char)
    ensures Count(s, c) == 0 <==> c !in s
  {
    if s != [] {
      CountZero(s[1..], c);
      assert s == [s[0]] + s[1..];
    }
  }
}
