/** String predicates used to validate station names (util/StringUtils.java). */
module StringUtils {
  import opened Wrappers

  /** Java's `String.trim` drops every leading and trailing character up to U+0020. */
  predicate IsTrimmable(c: char) { c <= ' ' }

  function TrimLeading(s: string): (r: string)
    ensures |r| <= |s|
    ensures r == s[|s| - |r|..]
    ensures r != [] ==> !IsTrimmable(r[0])
  {
    if s == [] then s
    else if IsTrimmable(s[0]) then TrimLeading(s[1..])
    else s
  }

  function TrimTrailing(s: string): (r: string)
    ensures |r| <= |s|
    ensures r == s[..|r|]
    ensures r != [] ==> !IsTrimmable(r[|r| - 1])
  {
    if s == [] then s
    else if IsTrimmable(s[|s| - 1]) then TrimTrailing(s[..|s| - 1])
    else s
  }

  /** `String.trim()`: the input without its leading and trailing control characters and spaces. */
  function Trim(s: string): string
  {
    TrimTrailing(TrimLeading(s))
  }

  /** `isBlank`: null, or nothing is left once trimmed. */
  predicate IsBlank(input: Option<string>)
  {
    input.None? || |Trim(input.value)| <= 0
  }

  predicate IsNotBlank(input: Option<string>)
  {
    !IsBlank(input)
  }

  /** The unchanged input when it is not blank, the default value otherwise. */
  function DefaultString(input: Option<string>, defaultValue: Option<string>): Option<string>
  {
    if IsBlank(input) then defaultValue else input
  }

  predicate AllTrimmable(s: string)
  {
    forall i :: 0 <= i < |s| ==> IsTrimmable(s[i])
  }

  lemma {:induction false} TrimLeadingEmpty(s: string)
    ensures TrimLeading(s) == [] <==> AllTrimmable(s)
  {
    if s != [] {
      TrimLeadingEmpty(s[1..]);
      if IsTrimmable(s[0]) {
        assert AllTrimmable(s) <==> AllTrimmable(s[1..]) by {
          forall i | 0 <= i < |s[1..]| ensures s[1..][i] == s[i + 1] { }
        }
      }
    }
  }

  /** A string is blank exactly when it is null or every character is at most U+0020. */
  lemma BlankIffAllTrimmable(input: Option<string>)
    ensures IsBlank(input) <==> (input.None? || AllTrimmable(input.value))
  {
    if input.Some? {
      var s := input.value;
      TrimLeadingEmpty(s);
      var t := TrimLeading(s);
      if t != [] {
        // a trimmed non-empty string keeps its first non-trimmable character
        assert !IsTrimmable(t[0]);
        assert TrimTrailing(t) != [] by {
          if TrimTrailing(t) == [] { TrailingEmptyAll(t); }
        }
      }
    }
  }

  lemma {:induction false} TrailingEmptyAll(s: string)
    requires TrimTrailing(s) == []
    ensures AllTrimmable(s)
  {
    if s != [] {
      TrailingEmptyAll(s[..|s| - 1]);
      assert forall i :: 0 <= i < |s| - 1 ==> s[..|s| - 1][i] == s[i];
    }
  }

  lemma EmptyIsBlank()
    ensures IsBlank(None) && IsBlank(Some("")) && IsBlank(Some("  ")) && IsBlank(Some("\t\n"))
    ensures IsNotBlank(Some("hidden.station")) && IsNotBlank(Some(" x "))
  {
    BlankIffAllTrimmable(Some("  "));
    BlankIffAllTrimmable(Some("\t\n"));
    BlankIffAllTrimmable(Some("hidden.station"));
    BlankIffAllTrimmable(Some(" x "));
    assert !IsTrimmable("hidden.station"[0]);
    assert !IsTrimmable(" x "[1]);
  }

  /** `defaultString` returns the default for a blank input and the input itself otherwise. */
  lemma DefaultStringChoice(input: Option<string>, defaultValue: Option<string>)
    ensures IsBlank(input) ==> DefaultString(input, defaultValue) == defaultValue
    ensures IsNotBlank(input) ==> DefaultString(input, defaultValue) == input
  {
  }

  /** Applying the default twice changes nothing. */
  lemma DefaultStringIdempotent(input: Option<string>, defaultValue: Option<string>)
    ensures DefaultString(DefaultString(input, defaultValue), defaultValue) == DefaultString(input, defaultValue)
  {
  }

  /** A non-blank default makes the result non-blank. */
  lemma DefaultStringNotBlank(input: Option<string>, defaultValue: Option<string>)
    requires IsNotBlank(defaultValue)
    ensures IsNotBlank(DefaultString(input, defaultValue))
  {
  }
}
