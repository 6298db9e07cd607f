/**
 * The signup form component as an object: `this.state`, the instance field
 * `locked`, and the event handlers that update them. Each handler is proved
 * against the matching transition of module Transitions and keeps its
 * invariant.
 */
module SignupForm {
  import opened Wrappers
  import opened Validation
  import Transitions

  class Form {
    /** `this.state`; `setState` merges into it. */
    var state: Transitions.State
    /** `this.locked`, the reentrancy guard of `request()`. */
    var locked: bool
    /** The value captured by the callback of the pending `fetch`, while one is pending. */
    var inFlight: Option<string>
    /** Every request handed to `fetch`, in order. */
    var sent: seq<Transitions.Request>
    /** How many of those requests have finished. */
    ghost var completed: nat

    ghost function Snapshot(): Transitions.Machine
      reads this
    {
      Transitions.Machine(state, locked, inFlight, sent, completed)
    }

    ghost predicate Valid()
      reads this
    {
      Transitions.Inv(Snapshot())
    }

    /** The constructor: every field at its default, unlocked, nothing sent. */
    constructor ()
      ensures Valid()
      ensures state == Transitions.InitialState && !locked
      ensures inFlight == None && sent == []
      ensures Snapshot() == Transitions.Initial
    {
      state := Transitions.State(false, false, None, false, "", None);
      locked := false;
      inFlight := None;
      sent := [];
      completed := 0;
    }

    /** `onFocus`: only `focus` changes, to true. */
    method OnFocus()
      requires Valid()
      modifies this
      ensures Valid()
      ensures state == old(state).(focus := true)
      ensures locked == old(locked) && inFlight == old(inFlight) && sent == old(sent)
      ensures Snapshot() == Transitions.Focus(old(Snapshot()))
    {
      state := state.(focus := true);
    }

    /** `onBlur`: only `focus` changes, to false. */
    method OnBlur()
      requires Valid()
      modifies this
      ensures Valid()
      ensures state == old(state).(focus := false)
      ensures locked == old(locked) && inFlight == old(inFlight) && sent == old(sent)
      ensures Snapshot() == Transitions.Blur(old(Snapshot()))
    {
      state := state.(focus := false);
    }

    /**
     * `onInput`: the field holds the raw text, untrimmed, and `valid` and
     * `error` are its verdict; `sending`, `focus`, `response`, `locked` and
     * the requests stay as they were.
     */
    method OnInput(text: string)
      requires Valid()
      modifies this
      ensures Valid()
      ensures state.value == text
      ensures state.valid == Validate(text).valid && state.error == Validate(text).error
      ensures state.sending == old(state.sending) && state.focus == old(state.focus)
      ensures state.response == old(state.response)
      ensures locked == old(locked) && inFlight == old(inFlight) && sent == old(sent)
      ensures Snapshot() == Transitions.Input(old(Snapshot()), text)
    {
      var status := Validate(text);
      state := state.(value := text, valid := status.valid, error := status.error);
      Transitions.InputInv(old(Snapshot()), text);
    }

    /**
     * `onSubmit`: the current value is always re-validated and its verdict
     * stored. The request goes out, exactly once, only when that verdict is
     * valid and the form is neither sending nor locked; otherwise nothing
     * else changes.
     */
    method OnSubmit()
      requires Valid()
      modifies this
      ensures Valid()
      ensures state.valid == Validate(old(state.value)).valid
      ensures state.error == Validate(old(state.value)).error
      ensures Transitions.SubmitPasses(old(Snapshot())) ==>
        && sent == old(sent) + [Transitions.Request(Transitions.RequestMessage(old(state.value)))]
        && locked && state.sending && inFlight == Some(old(state.value))
      ensures !Transitions.SubmitPasses(old(Snapshot())) ==>
        && sent == old(sent) && locked == old(locked) && inFlight == old(inFlight)
        && state == old(state).(valid := Validate(old(state.value)).valid,
                                error := Validate(old(state.value)).error)
      ensures Snapshot() == Transitions.Submit(old(Snapshot()))
    {
      var value, sending := state.value, state.sending;
      var status := Validate(value);
      state := state.(valid := status.valid, error := status.error);
      Transitions.MergeVerdictInv(old(Snapshot()));
      if !status.valid || status.error.Some? || sending || locked {
        return;
      }
      Request();
    }

    /**
     * `request()`, up to handing the POST to `fetch`: lock, issue exactly one
     * request whose message names the current value, mark the form sending,
     * and wait for the callback with that value captured.
     */
    method Request()
      requires Valid() && !locked && Validate(state.value).valid
      modifies this
      ensures Valid()
      ensures locked && state.sending
      ensures sent == old(sent) + [Transitions.Request(Transitions.RequestMessage(old(state.value)))]
      ensures inFlight == Some(old(state.value))
      ensures state == old(state).(sending := true)
      ensures Snapshot() == Transitions.StartRequest(old(Snapshot()))
    {
      var value := state.value;
      locked := true;
      var request := Transitions.Request(Transitions.RequestMessage(value));
      state := state.(sending := true);
      sent := sent + [request];
      inFlight := Some(value);
      Transitions.StartRequestInv(old(Snapshot()));
    }

    /**
     * The callback of the pending request, run with the service's success
     * indicator: clear the field and the verdict, stop sending, report the
     * outcome (success quotes the value captured when the request started),
     * then unlock.
     */
    method OnSettle(success: bool)
      requires Valid() && inFlight.Some?
      modifies this
      ensures Valid()
      ensures state.value == "" && !state.valid && !state.sending && !locked
      ensures state.focus == old(state.focus)
      ensures success ==> state.error == None
                          && state.response == Some(Transitions.SuccessMessage(old(inFlight).value))
      ensures !success ==> state.error == Some(Transitions.FailureMessage)
                           && state.response == old(state.response)
      ensures inFlight == None && sent == old(sent)
      ensures Snapshot() == Transitions.Settle(old(Snapshot()), success)
    {
      var value := inFlight.value;
      var next := state.(error := None, valid := false, value := "");
      if success {
        next := next.(response := Some(Transitions.SuccessMessage(value)), sending := false);
      } else {
        next := next.(error := Some(Transitions.FailureMessage), sending := false);
      }
      state := next;
      inFlight := None;
      completed := completed + 1;
      locked := false;
      Transitions.SettleInv(old(Snapshot()), success);
    }

    /**
     * The request's promise rejects (network failure or a body that is not
     * JSON): the `catch` rethrows, so the component keeps its state and stays
     * locked and sending, with no callback left to unlock it.
     */
    method OnTransportFailure()
      requires Valid() && inFlight.Some?
      modifies this
      ensures Valid()
      ensures state == old(state) && locked && state.sending
      ensures inFlight == None && sent == old(sent)
      ensures Transitions.Stuck(Snapshot())
      ensures Snapshot() == Transitions.TransportFailure(old(Snapshot()))
    {
      inFlight := None;
      completed := completed + 1;
    }
  }
}
