/**
 * What `render()` derives from the state: the three style flags and the two
 * conditionally shown texts. JavaScript truthiness is written out: an
 * absent or empty string is not shown.
 */
module View {
  import opened Wrappers
  import opened Validation
  import opened Transitions

  /** The label's "dirty" class: focused, or holding text. */
  predicate Dirty(s: State)
  {
    s.focus || s.value != ""
  }

  /** The form's "invalid" class. */
  predicate InvalidClass(s: State)
  {
    !s.valid
  }

  /** The form's "sending" class. */
  predicate SendingClass(s: State)
  {
    s.sending
  }

  /** The error text shown under the field: set, non-empty, and the field not focused. */
  function ShownError(s: State): (r: Option<string>)
  {
    if s.error.Some? && s.error.value != "" && !s.focus then s.error else None
  }

  /** The response paragraph: shown when set and non-empty. */
  function ShownResponse(s: State): (r: Option<string>)
  {
    if s.response.Some? && s.response.value != "" then s.response else None
  }

  /** No message of the form is empty, so a set error is shown exactly when the field is not focused. */
  lemma ErrorShownIffUnfocused(m: Machine)
    requires Inv(m)
    ensures ShownError(m.state).Some? <==> m.state.error.Some? && !m.state.focus
    ensures ShownError(m.state).Some? ==> ShownError(m.state) == m.state.error
  {
    if m.state.error.Some? {
      var e := m.state.error.value;
      assert e != "" by {
        assert e == RequiredMessage || e == InvalidFormatMessage || e == FailureMessage;
      }
    }
  }

  /** Focusing hides any error; blurring brings a set error back. */
  lemma FocusHidesError(m: Machine)
    requires Inv(m)
    ensures ShownError(Focus(m).state) == None
    ensures ShownError(Blur(m).state) == m.state.error
  {
    ErrorShownIffUnfocused(Blur(m));
  }

  /** While a request is pending the form carries the "sending" class. */
  lemma SendingWhilePending(m: Machine)
    requires Inv(m) && m.inFlight.Some?
    ensures SendingClass(m.state)
  {
  }

  /**
   * After a successful settlement the field is empty and marked invalid,
   * no error is shown, dirty only while focused, and the response shows the
   * submitted address.
   */
  lemma SuccessView(m: Machine)
    requires Inv(m) && m.inFlight.Some?
    ensures var s := Settle(m, true).state;
      && ShownResponse(s) == Some(SuccessMessage(m.inFlight.value))
      && ShownError(s) == None
      && InvalidClass(s) && !SendingClass(s)
      && (Dirty(s) <==> s.focus)
  {
  }

  /** After a failed settlement the fallback message is shown unless the field is focused. */
  lemma FailureView(m: Machine)
    requires Inv(m) && m.inFlight.Some?
    ensures var s := Settle(m, false).state;
      && (ShownError(s) == Some(FailureMessage) <==> !s.focus)
      && ShownResponse(s) == ShownResponse(m.state)
      && InvalidClass(s) && !SendingClass(s)
  {
  }
}
