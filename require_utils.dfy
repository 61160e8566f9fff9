/** Argument guards (util/RequireUtils.java): each either returns normally or throws IllegalArgumentException. */
module RequireUtils {
  import opened Wrappers
  import opened StringUtils

  /** `requireNotBlank`: fails exactly on the strings `isBlank` accepts. */
  function RequireNotBlank(victim: Option<string>): (r: Outcome)
    ensures r.Fail? <==> IsBlank(victim)
    ensures r.Fail? ==> r.error == IllegalArgument
  {
    if IsBlank(victim) then Fail(IllegalArgument) else Pass
  }

  /** `requireNotNull`: fails exactly on null. */
  function RequireNotNull<T>(victim: Option<T>): (r: Outcome)
    ensures r.Fail? <==> victim.None?
    ensures r.Fail? ==> r.error == IllegalArgument
  {
    if victim.None? then Fail(IllegalArgument) else Pass
  }

  /** A null station name is rejected and the hidden station's name passes. */
  lemma RequireNotBlankExamples()
    ensures RequireNotBlank(None) == Fail(IllegalArgument)
    ensures RequireNotBlank(Some("hidden.station")) == Pass
  {
    BlankIffAllTrimmable(Some("hidden.station"));
    assert !IsTrimmable("hidden.station"[0]);
  }
}
