/**
 * The signup form's validator: trim the raw input, reject an empty result as
 * "required", reject anything the regular expression `/.+@.+/` does not match
 * as "invalid format", accept everything else.
 */
module Validation {
  import opened Wrappers

  /** The validator's verdict: `{ valid, error }`. */
  datatype Status = Status(valid: bool, error: Option<string>)

  const RequiredMessage: string := "E-post er påkrevd."
  const InvalidFormatMessage: string := "Ikke en gyldig e-post."

  // ---------------------------------------------------------------------------
  // Characters
  // ---------------------------------------------------------------------------

  /** The ECMAScript line terminators; the regular-expression `.` matches none of them. */
  predicate IsLineTerminator(c: char)
  {
    c == '\n' || c == '\r' || c == '\U{2028}' || c == '\U{2029}'
  }

  /**
   * The characters `String.prototype.trim` strips: the ECMAScript WhiteSpace
   * code points (tab, vertical tab, form feed, space, no-break space, byte
   * order mark and the space separators of category Zs) and the line
   * terminators.
   */
  predicate IsWhitespace(c: char)
  {
    IsLineTerminator(c)
    || c == '\t' || c == '\U{B}' || c == '\U{C}' || c == ' '
    || c == '\U{A0}' || c == '\U{FEFF}' || c == '\U{1680}'
    || ('\U{2000}' <= c <= '\U{200A}')
    || c == '\U{202F}' || c == '\U{205F}' || c == '\U{3000}'
  }

  /** No character of `s` is a line terminator: `s` is a run of `.` matches. */
  predicate NoLineTerminator(s: string)
  {
    forall n :: 0 <= n < |s| ==> !IsLineTerminator(s[n])
  }

  /** Every character of `s` is whitespace. */
  predicate IsBlank(s: string)
  {
    forall n :: 0 <= n < |s| ==> IsWhitespace(s[n])
  }

  // ---------------------------------------------------------------------------
  // Trimming
  // ---------------------------------------------------------------------------

  /** `s` without its leading whitespace. */
  function TrimStart(s: string): (r: string)
    ensures |r| <= |s|
  {
    if s != [] && IsWhitespace(s[0]) then TrimStart(s[1..]) else s
  }

  /** `s` without its trailing whitespace. */
  function TrimEnd(s: string): (r: string)
    ensures |r| <= |s|
  {
    if s != [] && IsWhitespace(s[|s| - 1]) then TrimEnd(s[..|s| - 1]) else s
  }

  /** `String.prototype.trim`; `TrimSpec` states what it yields. */
  function Trim(s: string): (r: string)
    ensures |r| <= |s|
  {
    TrimEnd(TrimStart(s))
  }

  /** `TrimStart(s)` is the longest suffix of `s` that does not start with whitespace. */
  lemma {:induction false} TrimStartSpec(s: string)
    ensures var r := TrimStart(s);
      r == s[|s| - |r|..] && IsBlank(s[..|s| - |r|]) && (r != [] ==> !IsWhitespace(r[0]))
  {
    if s != [] && IsWhitespace(s[0]) {
      TrimStartSpec(s[1..]);
      var r := TrimStart(s);
      assert s[..|s| - |r|] == [s[0]] + s[1..][..|s| - 1 - |r|];
    }
  }

  /** `TrimEnd(s)` is the longest prefix of `s` that does not end with whitespace. */
  lemma {:induction false} TrimEndSpec(s: string)
    ensures var r := TrimEnd(s);
      r == s[..|r|] && IsBlank(s[|r|..]) && (r != [] ==> !IsWhitespace(r[|r| - 1]))
  {
    if s != [] && IsWhitespace(s[|s| - 1]) {
      var s' := s[..|s| - 1];
      TrimEndSpec(s');
      var r := TrimEnd(s);
      assert s[|r|..] == s'[|r|..] + [s[|s| - 1]];
    }
  }

  /**
   * `Trim(s)` is the slice of `s` starting at offset `k` such that everything
   * before and after it is whitespace, and it neither starts nor ends with
   * whitespace.
   */
  lemma TrimSpec(s: string)
    ensures var r, k := Trim(s), |s| - |TrimStart(s)|;
      k + |r| <= |s| && r == s[k..k + |r|]
      && IsBlank(s[..k]) && IsBlank(s[k + |r|..])
      && (r != [] ==> !IsWhitespace(r[0]) && !IsWhitespace(r[|r| - 1]))
  {
    var t := TrimStart(s);
    var r := TrimEnd(t);
    TrimStartSpec(s);
    TrimEndSpec(t);
    assert r == s[|s| - |t|..][..|r|];
    assert t[|r|..] == s[|s| - |t| + |r|..];
  }

  /** Trimming yields the empty string exactly for blank input. */
  lemma TrimEmptyIffBlank(s: string)
    ensures Trim(s) == [] <==> IsBlank(s)
  {
    var k := |s| - |TrimStart(s)|;
    TrimSpec(s);
    if Trim(s) == [] {
      forall n | 0 <= n < |s| ensures IsWhitespace(s[n]) {
        if n < k { assert s[..k][n] == s[n]; } else { assert s[k..][n - k] == s[n]; }
      }
    } else {
      assert !IsWhitespace(s[k]) by { assert Trim(s)[0] == s[k]; }
    }
  }

  /** Trimming a string that neither starts nor ends with whitespace changes nothing. */
  lemma {:induction false} TrimOfTrimmed(t: string)
    requires t != [] ==> !IsWhitespace(t[0]) && !IsWhitespace(t[|t| - 1])
    ensures Trim(t) == t
  {
    assert TrimStart(t) == t;
    assert TrimEnd(t) == t;
  }

  /** `trim` is idempotent. */
  lemma TrimIdempotent(s: string)
    ensures Trim(Trim(s)) == Trim(s)
  {
    TrimSpec(s);
    TrimOfTrimmed(Trim(s));
  }

  // ---------------------------------------------------------------------------
  // The regular expression /.+@.+/
  // ---------------------------------------------------------------------------

  /**
   * `t[j..k]` is a match of `.+@.+` whose `@` is at `i`: at least one
   * non-line-terminator on each side of the `@`.
   */
  ghost predicate MatchSpan(t: string, j: int, i: int, k: int)
  {
    0 <= j < i && i + 1 < k <= |t| && t[i] == '@'
    && NoLineTerminator(t[j..i]) && NoLineTerminator(t[i + 1..k])
  }

  /** `/.+@.+/.test(t)`: some substring of `t` matches the pattern (the regex is unanchored). */
  ghost predicate RegexMatches(t: string)
  {
    exists j, i, k :: MatchSpan(t, j, i, k)
  }

  /** An `@` at `i` with a non-line-terminator immediately before and after it. */
  predicate AtBetweenDots(t: string, i: int)
  {
    0 < i < |t| - 1 && t[i] == '@' && !IsLineTerminator(t[i - 1]) && !IsLineTerminator(t[i + 1])
  }

  /** A match exists exactly when some `@` has a non-line-terminator on each side. */
  lemma RegexMatchesIffAt(t: string)
    ensures RegexMatches(t) <==> exists i :: AtBetweenDots(t, i)
  {
    if RegexMatches(t) {
      var j, i, k :| MatchSpan(t, j, i, k);
      assert t[j..i][i - 1 - j] == t[i - 1];
      assert t[i + 1..k][0] == t[i + 1];
      assert AtBetweenDots(t, i);
    }
    if i :| AtBetweenDots(t, i) {
      assert MatchSpan(t, i - 1, i, i + 2);
    }
  }

  /** Scans `t` from position `i` for an `@` with a non-line-terminator on each side. */
  function FindAt(t: string, i: nat): (r: bool)
    ensures r <==> exists p :: i <= p && AtBetweenDots(t, p)
    decreases |t| - i
  {
    if i + 1 >= |t| then false
    else AtBetweenDots(t, i) || FindAt(t, i + 1)
  }

  /** `/.+@.+/.test(t)`, computed; it agrees with the regular expression's meaning. */
  function RegexTest(t: string): (r: bool)
    ensures r <==> RegexMatches(t)
  {
    RegexMatchesIffAt(t);
    FindAt(t, 0)
  }

  // ---------------------------------------------------------------------------
  // The validator
  // ---------------------------------------------------------------------------

  /**
   * `validate(value)`: the verdict is valid exactly when there is no error,
   * and an error is one of the two validation messages.
   */
  function Validate(value: string): (r: Status)
    ensures r.valid <==> r.error == None
    ensures r.error.Some? ==> r.error.value in {RequiredMessage, InvalidFormatMessage}
  {
    var t := Trim(value);
    if t == [] then Status(false, Some(RequiredMessage))
    else if !RegexTest(t) then Status(false, Some(InvalidFormatMessage))
    else Status(true, None)
  }

  lemma RequiredDiffersFromInvalidFormat()
    ensures RequiredMessage != InvalidFormatMessage
  {
    assert RequiredMessage[0] != InvalidFormatMessage[0];
  }

  /** Blank input, and only blank input, is rejected with the "required" message. */
  lemma ValidateRequired(value: string)
    ensures Validate(value).error == Some(RequiredMessage) <==> IsBlank(value)
    ensures IsBlank(value) ==> !Validate(value).valid
  {
    TrimEmptyIffBlank(value);
    RequiredDiffersFromInvalidFormat();
  }

  /**
   * Input that is not blank but whose trimmed form has no `@` with a
   * non-line-terminator on each side, and only such input, is rejected with
   * the "invalid format" message.
   */
  lemma ValidateInvalidFormat(value: string)
    ensures Validate(value).error == Some(InvalidFormatMessage)
      <==> !IsBlank(value) && !RegexMatches(Trim(value))
  {
    TrimEmptyIffBlank(value);
    RequiredDiffersFromInvalidFormat();
  }

  /** `validate` accepts exactly the inputs whose trimmed form matches `/.+@.+/`, and then reports no error. */
  lemma ValidateAccepts(value: string)
    ensures Validate(value).valid <==> RegexMatches(Trim(value))
    ensures Validate(value).valid ==> Validate(value) == Status(true, None)
  {
    assert RegexMatches([]) ==> false;
  }

  /**
   * The verdict read off the raw, untrimmed input: some `@` has a
   * non-line-terminator on each side, and a non-whitespace character lies
   * somewhere before it and somewhere after it (so that both neighbours
   * survive the trim).
   */
  ghost predicate RawEmailShape(s: string)
  {
    exists i :: AtBetweenDots(s, i) && HasInkBefore(s, i) && HasInkAfter(s, i)
  }

  ghost predicate HasInkBefore(s: string, i: int)
  {
    exists j :: 0 <= j < i && j < |s| && !IsWhitespace(s[j])
  }

  ghost predicate HasInkAfter(s: string, i: int)
  {
    exists k :: 0 <= i < k < |s| && !IsWhitespace(s[k])
  }

  /** An `@` of the trimmed string, read at its offset in the raw input. */
  lemma TrimmedAtIsRaw(s: string, p: int)
    requires AtBetweenDots(Trim(s), p)
    ensures RawEmailShape(s)
  {
    var t := Trim(s);
    var k0 := |s| - |TrimStart(s)|;
    TrimSpec(s);
    var i := k0 + p;
    assert s[i] == t[p] && s[i - 1] == t[p - 1] && s[i + 1] == t[p + 1];
    assert AtBetweenDots(s, i);
    assert s[k0] == t[0];
    assert HasInkBefore(s, i);
    assert s[k0 + |t| - 1] == t[|t| - 1];
    assert HasInkAfter(s, i);
  }

  /**
   * An `@` of raw email shape lies, with both neighbours, inside any window
   * `t == s[k0..k0 + |t|]` whose outside is whitespace.
   */
  lemma RawAtInWindow(s: string, t: string, k0: nat, i: int)
    requires k0 + |t| <= |s| && t == s[k0..k0 + |t|]
    requires IsBlank(s[..k0]) && IsBlank(s[k0 + |t|..])
    requires AtBetweenDots(s, i) && HasInkBefore(s, i) && HasInkAfter(s, i)
    ensures AtBetweenDots(t, i - k0)
  {
    var j :| 0 <= j < i && j < |s| && !IsWhitespace(s[j]);
    var k :| 0 <= i < k < |s| && !IsWhitespace(s[k]);
    assert k0 <= j && k < k0 + |t|;
    var p := i - k0;
    assert t[p] == s[i] && t[p - 1] == s[i - 1] && t[p + 1] == s[i + 1];
  }

  /** An `@` of raw email shape, read at its offset in the trimmed string. */
  lemma RawAtIsTrimmed(s: string, i: int)
    requires AtBetweenDots(s, i) && HasInkBefore(s, i) && HasInkAfter(s, i)
    ensures AtBetweenDots(Trim(s), i - (|s| - |TrimStart(s)|))
  {
    var t, k0 := Trim(s), |s| - |TrimStart(s)|;
    TrimSpec(s);
    RawAtInWindow(s, t, k0, i);
  }

  /** `validate` accepts exactly the inputs of raw email shape. */
  lemma ValidIffRawShape(s: string)
    ensures Validate(s).valid <==> RawEmailShape(s)
  {
    ValidateAccepts(s);
    RegexMatchesIffAt(Trim(s));
    if p :| AtBetweenDots(Trim(s), p) {
      TrimmedAtIsRaw(s, p);
    }
    if i :| AtBetweenDots(s, i) && HasInkBefore(s, i) && HasInkAfter(s, i) {
      RawAtIsTrimmed(s, i);
    }
  }

  /** Non-blank input whose trimmed form has no `@` at all is rejected as malformed. */
  lemma NoAtRejected(value: string)
    requires !IsBlank(value) && '@' !in Trim(value)
    ensures Validate(value).error == Some(InvalidFormatMessage)
  {
    TrimEmptyIffBlank(value);
    var t := Trim(value);
    assert forall p :: 0 <= p < |t| ==> t[p] != '@';
  }

  /** Trimming comes before matching: `" @b"` matches the pattern, yet is rejected. */
  lemma TrimComesFirst()
    ensures RegexMatches(" @b")
    ensures Validate(" @b").error == Some(InvalidFormatMessage)
  {
    assert MatchSpan(" @b", 0, 1, 3);
    assert Trim(" @b") == "@b" by {
      assert TrimStart(" @b") == TrimStart("@b");
    }
    assert !IsBlank(" @b") by { assert !IsWhitespace(" @b"[1]); }
    RegexMatchesIffAt("@b");
    ValidateInvalidFormat(" @b");
  }

  /** The pattern's `.` stops at line terminators: `"a\n@b"` is rejected. */
  lemma LineTerminatorBeforeAt()
    ensures Validate("a\n@b").error == Some(InvalidFormatMessage)
  {
    var t := "a\n@b";
    assert Trim(t) == t;
    assert !IsBlank(t) by { assert !IsWhitespace(t[0]); }
    assert forall p :: !AtBetweenDots(t, p);
    RegexMatchesIffAt(t);
    ValidateInvalidFormat(t);
  }

  /** Surrounding whitespace is ignored: `"  a@b.com\n"` is accepted. */
  lemma SurroundingWhitespaceIgnored()
    ensures Validate("  a@b.com\n") == Status(true, None)
  {
    var s := "  a@b.com\n";
    assert TrimStart(s) == "a@b.com\n" by {
      assert s[1..] == " a@b.com\n" && s[1..][1..] == "a@b.com\n";
    }
    assert TrimEnd("a@b.com\n") == "a@b.com" by {
      assert "a@b.com\n"[..7] == "a@b.com";
    }
    assert AtBetweenDots("a@b.com", 1);
  }
}
