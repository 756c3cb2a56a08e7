/**
 The one piece of Python string behaviour the recorder depends on:
 `answer.strip()` and the blank-answer test built on it.
 */
module PyText {

  /**
   The characters Python's `str.strip()` removes when called without
   arguments (those for which `str.isspace()` holds), listed by code point.
   */
  predicate IsWhitespace(c: char)
  {
    var n := c as int;
    || (0x09 <= n <= 0x0D) || (0x1C <= n <= 0x20)
    || n == 0x85 || n == 0xA0 || n == 0x1680
    || (0x2000 <= n <= 0x200A) || n == 0x2028 || n == 0x2029
    || n == 0x202F || n == 0x205F || n == 0x3000
  }

  /** Every character of `s` is whitespace (vacuously so for ""). */
  predicate AllWhitespace(s: string)
  {
    forall i :: 0 <= i < |s| ==> IsWhitespace(s[i])
  }

  /** `s` with its leading whitespace removed (Python's `s.lstrip()`). */
  function TrimStart(s: string): (r: string)
    ensures |r| <= |s|
  {
    if |s| > 0 && IsWhitespace(s[0]) then TrimStart(s[1..]) else s
  }

  /** `s` with its trailing whitespace removed (Python's `s.rstrip()`). */
  function TrimEnd(s: string): (r: string)
    ensures |r| <= |s|
  {
    if |s| > 0 && IsWhitespace(s[|s| - 1]) then TrimEnd(s[..|s| - 1]) else s
  }

  /** Trimming the start drops a whitespace prefix and leaves a suffix that does not start with whitespace. */
  lemma {:induction false} TrimStartSpec(s: string)
    ensures var r := TrimStart(s);
      && r == s[|s| - |r|..]
      && (|r| > 0 ==> !IsWhitespace(r[0]))
      && AllWhitespace(s[..|s| - |r|])
    decreases |s|
  {
    if |s| > 0 && IsWhitespace(s[0]) {
      TrimStartSpec(s[1..]);
      var t := TrimStart(s[1..]);
      assert s[..|s| - |t|] == [s[0]] + s[1..][..|s[1..]| - |t|];
    }
  }

  /** Trimming the end drops a whitespace suffix and leaves a prefix that does not end with whitespace. */
  lemma {:induction false} TrimEndSpec(s: string)
    ensures var r := TrimEnd(s);
      && r == s[..|r|]
      && (|r| > 0 ==> !IsWhitespace(r[|r| - 1]))
      && AllWhitespace(s[|r|..])
    decreases |s|
  {
    if |s| > 0 && IsWhitespace(s[|s| - 1]) {
      TrimEndSpec(s[..|s| - 1]);
      var t := TrimEnd(s[..|s| - 1]);
      assert s[|t|..] == s[..|s| - 1][|t|..] + [s[|s| - 1]];
    }
  }

  /**
   Python's `s.strip()`: whitespace dropped at both ends. It is empty
   exactly when `s` is whitespace only.
   */
  function Strip(s: string): (r: string)
    ensures |r| == 0 <==> AllWhitespace(s)
  {
    StripEmptyIffWhitespace(s);
    TrimEnd(TrimStart(s))
  }

  /** The number of leading whitespace characters `strip()` drops. */
  function Lead(s: string): (n: nat)
  {
    |s| - |TrimStart(s)|
  }

  /** The stripped text is the slice of `s` that starts after the leading whitespace. */
  lemma StripIsSlice(s: string)
    ensures Lead(s) + |Strip(s)| <= |s|
    ensures forall k :: 0 <= k < |Strip(s)| ==> Strip(s)[k] == s[Lead(s) + k]
  {
    var t := TrimStart(s);
    TrimStartSpec(s);
    TrimEndSpec(t);
    assert t == s[Lead(s)..];
  }

  /** Everything `strip()` drops, before and after the stripped text, is whitespace. */
  lemma StripDropsWhitespace(s: string)
    ensures forall k :: 0 <= k < |s| && !(Lead(s) <= k < Lead(s) + |Strip(s)|) ==> IsWhitespace(s[k])
  {
    var t := TrimStart(s);
    var r := TrimEnd(t);
    var a := Lead(s);
    TrimStartSpec(s);
    TrimEndSpec(t);
    forall k | 0 <= k < |s| && !(a <= k < a + |r|) ensures IsWhitespace(s[k]) {
      if k < a {
        assert s[k] == s[..a][k];
      } else {
        assert s[k] == t[|r|..][k - a - |r|];
      }
    }
  }

  /** A non-empty stripped text starts and ends with a non-whitespace character. */
  lemma StripEnds(s: string)
    ensures |Strip(s)| > 0 ==> !IsWhitespace(Strip(s)[0]) && !IsWhitespace(Strip(s)[|Strip(s)| - 1])
  {
    var t := TrimStart(s);
    var r := TrimEnd(t);
    TrimStartSpec(s);
    TrimEndSpec(t);
    if |r| > 0 {
      assert r[0] == t[0];
    }
  }

  /** Trimming both ends leaves nothing exactly when there was only whitespace. */
  lemma StripEmptyIffWhitespace(s: string)
    ensures |TrimEnd(TrimStart(s))| == 0 <==> AllWhitespace(s)
  {
    var t := TrimStart(s);
    var r := TrimEnd(t);
    var a := |s| - |t|;
    TrimStartSpec(s);
    TrimEndSpec(t);
    if |r| == 0 {
      assert AllWhitespace(t) by { assert t[|r|..] == t; }
      assert |t| == 0;
      assert s[..a] == s;
    } else {
      assert s[a] == r[0];
    }
  }

  /** The recorder's rejection test `not answer or len(answer.strip()) == 0`. */
  function IsBlank(answer: string): (b: bool)
    ensures b <==> AllWhitespace(answer)
  {
    |answer| == 0 || |Strip(answer)| == 0
  }
}
