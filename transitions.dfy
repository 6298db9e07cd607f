/**
 * The signup form's submission state machine as pure transitions: the
 * component state (`this.state`), the separate `locked` flag, the value the
 * pending request's callback has captured, and a log of the requests handed
 * to the network. `setState` is a synchronous field merge, written as a
 * datatype update.
 */
module Transitions {
  import opened Wrappers
  import opened Validation

  /** `this.state` of the form component. */
  datatype State = State(
    sending: bool,
    focus: bool,
    error: Option<string>,
    valid: bool,
    value: string,
    response: Option<string>)

  /** The state the constructor installs. */
  const InitialState: State := State(false, false, None, false, "", None)

  /** An outgoing POST, reduced to its JSON body's `message` field. */
  datatype Request = Request(message: string)

  /**
   * The component together with what the outside world sees of it.
   * `inFlight` is the value the callback of the pending request captured
   * (none when no callback is waiting); `sent` is every request issued, in
   * order; `completed` counts the requests whose promise has finished, by
   * settling or by rejecting.
   */
  datatype Machine = Machine(
    state: State,
    locked: bool,
    inFlight: Option<string>,
    sent: seq<Request>,
    completed: nat)

  const Initial: Machine := Machine(InitialState, false, None, [], 0)

  /** The events the form reacts to, in the order they are delivered. */
  datatype Event =
    | Focused
    | Blurred
    | Typed(text: string)
    | Submitted
    | Settled(success: bool)
    | TransportFailed
  {
    /** An event raised by the user rather than by the network. */
    predicate IsUserEvent() { !Settled? && !TransportFailed? }
  }

  const RequestPrefix: string := "New request from: "

  /** The JSON body's `message` for an address: the fixed prefix, then the address. */
  function RequestMessage(value: string): (r: string)
    ensures |r| == |RequestPrefix| + |value|
    ensures r[..|RequestPrefix|] == RequestPrefix && r[|RequestPrefix|..] == value
  {
    RequestPrefix + value
  }

  function SuccessMessage(value: string): (r: string)
  {
    "Vi har mottatt din forespørsel og sender en invitasjon til \"" + value + "\" innen kort tid."
  }

  const FailureMessage: string :=
    "Noe gikk galt. Send en e-post til invites@tech-no.io så inviterer vi deg."

  // ---------------------------------------------------------------------------
  // Transitions
  // ---------------------------------------------------------------------------

  /** `onFocus`: `focus` becomes true and nothing else changes. */
  function Focus(m: Machine): (r: Machine)
    ensures r.state.focus
    ensures r.state.(focus := m.state.focus) == m.state && r == m.(state := r.state)
  {
    m.(state := m.state.(focus := true))
  }

  /** `onBlur`: `focus` becomes false and nothing else changes. */
  function Blur(m: Machine): (r: Machine)
    ensures !r.state.focus
    ensures r.state.(focus := m.state.focus) == m.state && r == m.(state := r.state)
  {
    m.(state := m.state.(focus := false))
  }

  /** `onInput`: the raw text is stored untrimmed; the verdict is on the text. */
  function Input(m: Machine, text: string): (r: Machine)
    ensures r.state.value == text
    ensures r.state.valid == Validate(text).valid && r.state.error == Validate(text).error
    ensures r.state.(value := m.state.value, valid := m.state.valid, error := m.state.error) == m.state
    ensures r == m.(state := r.state)
  {
    var status := Validate(text);
    m.(state := m.state.(value := text, valid := status.valid, error := status.error))
  }

  /** The guard of `onSubmit`: the fresh verdict, the `sending` read before the merge, and `locked`. */
  predicate SubmitPasses(m: Machine)
  {
    var status := Validate(m.state.value);
    status.valid && status.error == None && !m.state.sending && !m.locked
  }

  /** The first half of `onSubmit`: re-validate the current value and merge the verdict. */
  function MergeVerdict(m: Machine): (r: Machine)
    ensures r.state.valid == Validate(m.state.value).valid
    ensures r.state.error == Validate(m.state.value).error
    ensures r.state.(valid := m.state.valid, error := m.state.error) == m.state
    ensures r == m.(state := r.state)
  {
    var status := Validate(m.state.value);
    m.(state := m.state.(valid := status.valid, error := status.error))
  }

  /** `onSubmit`: always re-validate and merge the verdict, then `request()` if the guard passes. */
  function Submit(m: Machine): (r: Machine)
    ensures r.state.valid == Validate(m.state.value).valid
    ensures r.state.error == Validate(m.state.value).error
    ensures r.sent == m.sent || r.sent == m.sent + [Request(RequestMessage(m.state.value))]
  {
    var merged := MergeVerdict(m);
    if SubmitPasses(m) then StartRequest(merged) else merged
  }

  /** `request()` up to the `fetch` call: lock, issue the POST, mark sending. */
  function StartRequest(m: Machine): (r: Machine)
    ensures r.locked && r.state.sending && r.inFlight == Some(m.state.value)
    ensures r.sent == m.sent + [Request(RequestMessage(m.state.value))]
    ensures Outstanding(r) == Outstanding(m) + 1
    ensures r.state == m.state.(sending := true) && r.completed == m.completed
  {
    var value := m.state.value;
    m.(locked := true,
       sent := m.sent + [Request(RequestMessage(value))],
       inFlight := Some(value),
       state := m.state.(sending := true))
  }

  /**
   * The promise's success handler: clear the field, report the outcome,
   * then unlock. Without a pending request there is no handler to run.
   */
  function Settle(m: Machine, success: bool): (r: Machine)
    ensures m.inFlight == None ==> r == m
    ensures m.inFlight.Some? ==>
      && !r.locked && !r.state.sending && r.inFlight == None
      && r.sent == m.sent && r.completed == m.completed + 1
  {
    match m.inFlight
    case None => m
    case Some(value) =>
      var cleared := m.state.(error := None, valid := false, value := "");
      var next :=
        if success then cleared.(response := Some(SuccessMessage(value)), sending := false)
        else cleared.(error := Some(FailureMessage), sending := false);
      m.(state := next, locked := false, inFlight := None, completed := m.completed + 1)
  }

  /**
   * A network or JSON failure: the `catch` only rethrows, so the handler
   * never runs and nothing of the component changes.
   */
  function TransportFailure(m: Machine): (r: Machine)
    ensures r.state == m.state && r.locked == m.locked && r.sent == m.sent && r.inFlight == None
    ensures m.inFlight.Some? ==> r.completed == m.completed + 1
  {
    match m.inFlight
    case None => m
    case Some(_) => m.(inFlight := None, completed := m.completed + 1)
  }

  /** One event; the log of requests only grows, by at most one. */
  function Step(m: Machine, e: Event): (r: Machine)
    ensures m.sent <= r.sent && |r.sent| <= |m.sent| + 1
  {
    match e
    case Focused => Focus(m)
    case Blurred => Blur(m)
    case Typed(text) => Input(m, text)
    case Submitted => Submit(m)
    case Settled(success) => Settle(m, success)
    case TransportFailed => TransportFailure(m)
  }

  /** The machine after the events `es`, delivered one at a time from the left. */
  function Run(m: Machine, es: seq<Event>): (r: Machine)
    ensures m.sent <= r.sent && |r.sent| <= |m.sent| + |es|
    decreases |es|
  {
    if es == [] then m else Run(Step(m, es[0]), es[1..])
  }

  // ---------------------------------------------------------------------------
  // The invariant
  // ---------------------------------------------------------------------------

  /** A request whose message is the fixed prefix followed by an address `validate` accepts. */
  predicate IsSignupRequest(r: Request)
  {
    |RequestPrefix| <= |r.message| && r.message[..|RequestPrefix|] == RequestPrefix
    && Validate(r.message[|RequestPrefix|..]).valid
  }

  /** `locked` and `sending` move together. */
  ghost predicate LockInv(m: Machine)
  {
    m.locked == m.state.sending && (m.inFlight.Some? ==> m.locked)
  }

  /**
   * At most one request is outstanding, and one is exactly when a callback
   * waits; that request is the last one sent, for a valid address.
   */
  ghost predicate InFlightInv(m: Machine)
  {
    && |m.sent| == m.completed + (if m.inFlight.Some? then 1 else 0)
    && (m.inFlight.Some? ==>
          Validate(m.inFlight.value).valid
          && m.sent[|m.sent| - 1] == Request(RequestMessage(m.inFlight.value)))
  }

  /** `valid` is the current value's verdict; an error is one of the three messages. */
  ghost predicate VerdictInv(m: Machine)
  {
    && m.state.valid == Validate(m.state.value).valid
    && (m.state.valid ==> Validate(m.state.value) == Status(true, None))
    && (m.state.error.Some? ==>
          m.state.error.value in {RequiredMessage, InvalidFormatMessage, FailureMessage})
  }

  /** Every request sent was for an address `validate` accepted. */
  ghost predicate LogInv(m: Machine)
  {
    forall n :: 0 <= n < |m.sent| ==> IsSignupRequest(m.sent[n])
  }

  /** What holds in every reachable machine. */
  ghost predicate Inv(m: Machine)
  {
    LockInv(m) && InFlightInv(m) && VerdictInv(m) && LogInv(m)
  }

  /** Requests that are sent but not yet completed. */
  function Outstanding(m: Machine): (n: int)
  {
    |m.sent| - m.completed
  }

  lemma InitialInv()
    ensures Inv(Initial)
  {
  }

  lemma InputInv(m: Machine, text: string)
    requires Inv(m)
    ensures Inv(Input(m, text))
  {
  }

  lemma MergeVerdictInv(m: Machine)
    requires Inv(m)
    ensures Inv(MergeVerdict(m))
  {
  }

  lemma SubmitInv(m: Machine)
    requires Inv(m)
    ensures Inv(Submit(m))
  {
    MergeVerdictInv(m);
    if SubmitPasses(m) {
      StartRequestInv(MergeVerdict(m));
    }
  }

  lemma StartRequestInv(m: Machine)
    requires Inv(m) && !m.locked && Validate(m.state.value).valid
    ensures Inv(StartRequest(m))
  {
    var r := StartRequest(m);
    assert IsSignupRequest(Request(RequestMessage(m.state.value)));
    assert forall n :: 0 <= n < |m.sent| ==> r.sent[n] == m.sent[n];
  }

  lemma SettleInv(m: Machine, success: bool)
    requires Inv(m)
    ensures Inv(Settle(m, success))
  {
  }

  /** Every transition keeps the invariant. */
  lemma StepInv(m: Machine, e: Event)
    requires Inv(m)
    ensures Inv(Step(m, e))
  {
    match e
    case Typed(text) => InputInv(m, text);
    case Submitted => SubmitInv(m);
    case Settled(success) => SettleInv(m, success);
    case _ =>
  }

  lemma {:induction false} RunInv(m: Machine, es: seq<Event>)
    requires Inv(m)
    ensures Inv(Run(m, es))
    decreases |es|
  {
    if es != [] {
      StepInv(m, es[0]);
      RunInv(Step(m, es[0]), es[1..]);
    }
  }

  /** From the initial state, at most one request is ever outstanding, and exactly one while a callback waits. */
  lemma AtMostOneInFlight(es: seq<Event>)
    ensures 0 <= Outstanding(Run(Initial, es)) <= 1
    ensures Outstanding(Run(Initial, es)) == 1 <==> Run(Initial, es).inFlight.Some?
    ensures Run(Initial, es).locked == Run(Initial, es).state.sending
  {
    RunInv(Initial, es);
  }

  // ---------------------------------------------------------------------------
  // Submitting
  // ---------------------------------------------------------------------------

  /**
   * A submit always stores the fresh verdict of the current value; it issues
   * exactly one request, with the current value in its message, when the
   * guard passes, and otherwise changes nothing but `valid` and `error`.
   */
  lemma SubmitEffect(m: Machine)
    ensures Submit(m).state.valid == Validate(m.state.value).valid
    ensures Submit(m).state.error == Validate(m.state.value).error
    ensures SubmitPasses(m) ==>
      && Submit(m).sent == m.sent + [Request(RequestMessage(m.state.value))]
      && Submit(m).locked && Submit(m).state.sending
      && Submit(m).inFlight == Some(m.state.value)
    ensures !SubmitPasses(m) ==>
      Submit(m) == m.(state := m.state.(valid := Validate(m.state.value).valid,
                                         error := Validate(m.state.value).error))
  {
  }

  /** The guard passes exactly for a value `validate` accepts while nothing is sending or locked. */
  lemma SubmitPassesIff(m: Machine)
    ensures SubmitPasses(m) <==> RegexMatches(Trim(m.state.value)) && !m.state.sending && !m.locked
  {
    ValidateAccepts(m.state.value);
  }

  /**
   * User events on a locked machine issue nothing, keep it locked and keep
   * the waiting callback and its captured value.
   */
  lemma {:induction false} LockedUserEventsIssueNothing(m: Machine, es: seq<Event>)
    requires m.locked
    requires forall n :: 0 <= n < |es| ==> es[n].IsUserEvent()
    ensures Run(m, es).sent == m.sent
    ensures Run(m, es).locked
    ensures Run(m, es).inFlight == m.inFlight
    ensures Run(m, es).completed == m.completed
    decreases |es|
  {
    if es != [] {
      LockedUserEventsIssueNothing(Step(m, es[0]), es[1..]);
    }
  }

  /**
   * However the user types, focuses and submits, at most one request
   * results until the network answers (repeated or rapid submits included).
   */
  lemma {:induction false} UserEventsIssueAtMostOne(m: Machine, es: seq<Event>)
    requires forall n :: 0 <= n < |es| ==> es[n].IsUserEvent()
    ensures |m.sent| <= |Run(m, es).sent| <= |m.sent| + 1
    ensures m.sent <= Run(m, es).sent
    decreases |es|
  {
    if es != [] {
      var m1 := Step(m, es[0]);
      if m1.locked {
        LockedUserEventsIssueNothing(m1, es[1..]);
      } else {
        UserEventsIssueAtMostOne(m1, es[1..]);
      }
    }
  }

  /** A submit while a request is outstanding issues nothing. */
  lemma SubmitWhilePendingIssuesNothing(m: Machine)
    requires Inv(m) && m.inFlight.Some?
    ensures Submit(m).sent == m.sent
    ensures Submit(m).inFlight == m.inFlight
  {
  }

  // ---------------------------------------------------------------------------
  // Settling
  // ---------------------------------------------------------------------------

  /**
   * The success message quotes the value captured when the request started,
   * whatever the user typed in between.
   */
  lemma {:induction false} SuccessQuotesCapturedValue(m: Machine, es: seq<Event>)
    requires m.locked && m.inFlight.Some?
    requires forall n :: 0 <= n < |es| ==> es[n].IsUserEvent()
    ensures Settle(Run(m, es), true).state.response == Some(SuccessMessage(m.inFlight.value))
  {
    LockedUserEventsIssueNothing(m, es);
  }

  /**
   * Settling a pending request clears the field and the verdict, stops
   * sending and unlocks; success reports the captured value and clears the
   * error, failure reports the fallback message and keeps the response.
   */
  lemma SettleEffect(m: Machine, success: bool)
    requires Inv(m) && m.inFlight.Some?
    ensures var r := Settle(m, success);
      && r.state.value == "" && !r.state.valid && !r.state.sending && !r.locked
      && r.state.focus == m.state.focus
      && r.inFlight == None && r.sent == m.sent && Outstanding(r) == 0
      && (success ==> r.state.error == None
                      && r.state.response == Some(SuccessMessage(m.inFlight.value)))
      && (!success ==> r.state.error == Some(FailureMessage)
                       && r.state.response == m.state.response)
  {
  }

  /** After settling, a valid address can be submitted again: the machine has no terminal state. */
  lemma ResubmitAfterSettle(m: Machine, success: bool, text: string)
    requires Inv(m) && m.inFlight.Some?
    requires RegexMatches(Trim(text))
    ensures var r := Submit(Input(Settle(m, success), text));
      r.sent == m.sent + [Request(RequestMessage(text))] && r.inFlight == Some(text)
  {
    ValidateAccepts(text);
  }

  // ---------------------------------------------------------------------------
  // Transport failure
  // ---------------------------------------------------------------------------

  /** Locked, with no callback left to unlock it. */
  predicate Stuck(m: Machine)
  {
    m.locked && m.inFlight == None
  }

  /** A transport failure leaves the component state as it was, still locked and sending. */
  lemma TransportFailureSticks(m: Machine)
    requires Inv(m) && m.inFlight.Some?
    ensures TransportFailure(m).state == m.state
    ensures TransportFailure(m).state.sending
    ensures Stuck(TransportFailure(m))
  {
  }

  /** Once stuck, no sequence of events issues a further request or unlocks the form. */
  lemma {:induction false} StuckForever(m: Machine, es: seq<Event>)
    requires Stuck(m)
    ensures Stuck(Run(m, es))
    ensures Run(m, es).sent == m.sent
    decreases |es|
  {
    if es != [] {
      StuckForever(Step(m, es[0]), es[1..]);
    }
  }

  // ---------------------------------------------------------------------------
  // Scenarios
  // ---------------------------------------------------------------------------

  /** The events `es` after `e`: one step, then the rest. */
  lemma RunCons(m: Machine, e: Event, es: seq<Event>)
    ensures Run(m, [e] + es) == Run(Step(m, e), es)
  {
    assert ([e] + es)[1..] == es;
  }

  lemma AcceptsSample()
    ensures Validate("a@b.com") == Status(true, None)
  {
    assert AtBetweenDots("a@b.com", 1);
  }

  /** A non-blank text with no `@` and no surrounding whitespace is malformed. */
  lemma RejectsSample(t: string)
    requires t == "not-an-email" || t == "x"
    ensures Validate(t) == Status(false, Some(InvalidFormatMessage))
  {
    assert Trim(t) == t;
    assert !IsBlank(t) by { assert !IsWhitespace(t[0]); }
    NoAtRejected(t);
  }

  /** A valid address is submitted and the service reports success. */
  lemma ScenarioSuccess()
    ensures var r := Run(Initial, [Typed("a@b.com"), Submitted, Settled(true)]);
      && r.state.response == Some(SuccessMessage("a@b.com"))
      && r.state.value == "" && r.state.error == None && !r.locked
      && r.sent == [Request(RequestMessage("a@b.com"))]
  {
    AcceptsSample();
    RunCons(Initial, Typed("a@b.com"), [Submitted, Settled(true)]);
    var m1 := Input(Initial, "a@b.com");
    RunCons(m1, Submitted, [Settled(true)]);
    RunCons(Submit(m1), Settled(true), []);
  }

  /** An address is typed, submitted, and the service reports failure. */
  lemma ScenarioServiceFailure()
    ensures var r := Run(Initial, [Typed("a@b.com"), Submitted, Settled(false)]);
      && r.state.error == Some(FailureMessage)
      && r.state.value == "" && !r.state.valid && !r.locked && !r.state.sending
      && r.sent == [Request(RequestMessage("a@b.com"))]
  {
    AcceptsSample();
    RunCons(Initial, Typed("a@b.com"), [Submitted, Settled(false)]);
    var m1 := Input(Initial, "a@b.com");
    RunCons(m1, Submitted, [Settled(false)]);
    RunCons(Submit(m1), Settled(false), []);
  }

  /** Text without an `@` is refused on submit: no request, the "invalid format" error. */
  lemma ScenarioInvalidFormat()
    ensures var r := Run(Initial, [Typed("not-an-email"), Submitted]);
      r.sent == [] && r.state.error == Some(InvalidFormatMessage) && !r.locked
  {
    var t := "not-an-email";
    RejectsSample(t);
    var m1 := Input(Initial, t);
    assert !SubmitPasses(m1);
    RunCons(Initial, Typed(t), [Submitted]);
    RunCons(m1, Submitted, []);
  }

  /** An empty field is refused on submit: no request, the "required" error. */
  lemma ScenarioRequired()
    ensures var r := Run(Initial, [Typed(""), Submitted]);
      r.sent == [] && r.state.error == Some(RequiredMessage) && !r.locked
  {
    RunCons(Initial, Typed(""), [Submitted]);
    RunCons(Input(Initial, ""), Submitted, []);
  }

  /** Two submits in a row while the first request is pending: exactly one request. */
  lemma ScenarioDoubleSubmit()
    ensures Run(Initial, [Typed("a@b.com"), Submitted, Submitted]).sent
         == [Request(RequestMessage("a@b.com"))]
  {
    AcceptsSample();
    RunCons(Initial, Typed("a@b.com"), [Submitted, Submitted]);
    var m1 := Input(Initial, "a@b.com");
    RunCons(m1, Submitted, [Submitted]);
    RunCons(Submit(m1), Submitted, []);
  }

  /**
   * An error and a success message can be set at once: after a success,
   * typing an invalid address sets the error and keeps the response.
   */
  lemma ErrorAndResponseCoexist()
    ensures var r := Run(Initial, [Typed("a@b.com"), Submitted, Settled(true), Typed("x")]);
      r.state.error == Some(InvalidFormatMessage) && r.state.response == Some(SuccessMessage("a@b.com"))
  {
    AcceptsSample();
    var x := "x";
    RejectsSample(x);
    RunCons(Initial, Typed("a@b.com"), [Submitted, Settled(true), Typed(x)]);
    var m1 := Input(Initial, "a@b.com");
    RunCons(m1, Submitted, [Settled(true), Typed(x)]);
    RunCons(Submit(m1), Settled(true), [Typed(x)]);
    RunCons(Settle(Submit(m1), true), Typed(x), []);
  }
}
