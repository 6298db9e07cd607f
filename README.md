# tech-no.io signup form, modelled in Dafny

The landing page's one interactive element is an email signup form
(`client/scripts/components/form/form.jsx`). This project models its two
parts and proves what they promise:

- **The validator** `validate` (module `Validation`, `validation.dfy`): trim
  the raw text, reject an empty result with "E-post er påkrevd.", reject
  text that the regular expression `/.+@.+/` does not match with "Ikke en
  gyldig e-post.", accept everything else with no error. `String.prototype.trim`
  is `Trim`; the regular expression is written out twice: as its meaning
  (`RegexMatches`: some substring is one or more non-line-terminators, an
  `@`, one or more non-line-terminators) and as a scan (`FindAt`), proved
  equal. `ValidIffRawShape` restates the verdict on the untrimmed input.
- **The submission state machine** (module `Transitions`, `transitions.dfy`,
  and the class `SignupForm.Form`, `form.dfy`). The component's `this.state`
  (`sending`, `focus`, `error`, `valid`, `value`, `response`) and its
  instance field `locked` are fields of `Form`; `setState` is a synchronous
  merge, written as a datatype update. The `fetch` call is an abstract
  `Request` record carrying the JSON body's `message`, appended to a log
  `sent`; the pending promise is the value its callback captured
  (`inFlight`); the service's answer is a boolean. Each handler of `Form`
  is proved equal to a pure transition of `Transitions` (`Focus`, `Blur`,
  `Input`, `Submit`, `StartRequest`, `Settle`, `TransportFailure`), and
  the lemmas about those transitions and about `Run` (events delivered one
  at a time) state the reentrancy guard, the single request in flight, the
  captured value in the success message and the permanent lock after a
  transport failure.
- **The view** (module `View`, `view.dfy`): the three style flags of
  `render()` and the conditionally shown error and response texts.

Two behaviours of the code that a reader might not expect:

- `error` and `response` can be set at once: a failed submission after an earlier success
  keeps the old `response`, and typing after a success sets `error` while
  `response` stays. `Transitions.ErrorAndResponseCoexist` exhibits one run.
- The `@` check is not "any character before and after": the
  regular expression's `.` matches no line terminator (`\n`, `\r`, U+2028, U+2029), so
  `"a\n@b"` is rejected (`Validation.LineTerminatorBeforeAt`), and the regex
  runs on the trimmed text, so `" @b"` is rejected although the raw text
  matches (`Validation.TrimComesFirst`).

## Model

| member | source | states |
|---|---|---|
| `Validation.TrimStart` | client/scripts/components/form/form.jsx:111 | stripping leading whitespace never lengthens the text |
| `Validation.TrimEnd` | client/scripts/components/form/form.jsx:111 | stripping trailing whitespace never lengthens the text |
| `Validation.Trim` | client/scripts/components/form/form.jsx:111 | `value.trim()`: strips leading then trailing whitespace; never lengthens the text (`TrimSpec` gives the full characterisation) |
| `Validation.TrimStartSpec` | client/scripts/components/form/form.jsx:111 | the result is a suffix of the input, everything dropped is whitespace, and it does not start with whitespace |
| `Validation.TrimEndSpec` | client/scripts/components/form/form.jsx:111 | the result is a prefix of the input, everything dropped is whitespace, and it does not end with whitespace |
| `Validation.TrimSpec` | client/scripts/components/form/form.jsx:111 | `trim()` yields a contiguous slice of the input with only whitespace outside it, neither starting nor ending with whitespace |
| `Validation.TrimEmptyIffBlank` | client/scripts/components/form/form.jsx:111-113 | the trimmed value is empty (falsy) exactly when every character is whitespace |
| `Validation.TrimIdempotent` | client/scripts/components/form/form.jsx:111 | trimming twice is trimming once |
| `Validation.RegexMatchesIffAt` | client/scripts/components/form/form.jsx:120 | `/.+@.+/` matches somewhere exactly when some `@` has a non-line-terminator immediately on each side |
| `Validation.FindAt` | client/scripts/components/form/form.jsx:120 | the scan from position `i` succeeds exactly when such an `@` exists at or after `i` |
| `Validation.RegexTest` | client/scripts/components/form/form.jsx:120 | `/.+@.+/.test(t)`, computed by the scan; true exactly when the regular expression matches some substring of `t` |
| `Validation.Validate` | client/scripts/components/form/form.jsx:110-131 | the verdict is valid exactly when the error is null, and an error is one of the two validation messages |
| `Validation.ValidateRequired` | client/scripts/components/form/form.jsx:111-118 | the "required" message is returned exactly for blank input, and blank input is never valid |
| `Validation.ValidateInvalidFormat` | client/scripts/components/form/form.jsx:120-125 | the "invalid format" message is returned exactly for non-blank input whose trimmed form does not match `/.+@.+/` |
| `Validation.ValidateAccepts` | client/scripts/components/form/form.jsx:127-130 | the verdict is valid exactly when the trimmed input matches, and then it is `{valid: true, error: null}` |
| `Validation.ValidIffRawShape` | client/scripts/components/form/form.jsx:110-131 | on the raw input: valid exactly when some `@` has non-line-terminators beside it and non-whitespace somewhere before and after it |
| `Validation.NoAtRejected` | client/scripts/components/form/form.jsx:120-125 | non-blank input with no `@` after trimming gets the "invalid format" message |
| `Validation.TrimComesFirst` | client/scripts/components/form/form.jsx:111-125 | `" @b"` matches the pattern raw but is rejected, because the test runs on the trimmed text |
| `Validation.LineTerminatorBeforeAt` | client/scripts/components/form/form.jsx:120-125 | `"a\n@b"` is rejected: `.` does not match a newline |
| `Validation.SurroundingWhitespaceIgnored` | client/scripts/components/form/form.jsx:111-130 | `"  a@b.com\n"` is accepted with no error |
| `Transitions.InitialState` | client/scripts/components/form/form.jsx:31-38 | the constructor's state: not sending, not focused, no error, not valid, empty value, no response |
| `Transitions.Focus` | client/scripts/components/form/form.jsx:48-50 | `focus` becomes true; every other field of the state and of the machine is unchanged |
| `Transitions.Blur` | client/scripts/components/form/form.jsx:57-59 | `focus` becomes false; every other field of the state and of the machine is unchanged |
| `Transitions.Input` | client/scripts/components/form/form.jsx:68-77 | `value` becomes the raw text and `valid`/`error` its verdict; nothing else changes |
| `Transitions.MergeVerdict` | client/scripts/components/form/form.jsx:90-96 | `valid`/`error` become the current value's verdict; nothing else changes |
| `Transitions.SubmitPasses` | client/scripts/components/form/form.jsx:98 | the guard: the fresh verdict is valid with no error, `sending` (read before the merge) is false, and the form is not locked |
| `Transitions.Submit` | client/scripts/components/form/form.jsx:86-101 | the verdict of the current value is stored, and the log gains nothing or exactly the one request "New request from: " and that value |
| `Transitions.StartRequest` | client/scripts/components/form/form.jsx:138-159 | locked and sending, the request for the current value appended, that value captured, one more request outstanding, nothing else changed |
| `Transitions.Settle` | client/scripts/components/form/form.jsx:161-186 | with a pending request: unlocked, not sending, no callback left, log unchanged, one more request completed; without one: nothing happens |
| `Transitions.TransportFailure` | client/scripts/components/form/form.jsx:159-188 | the component state and the lock are unchanged, the log is unchanged, and no callback is left |
| `Transitions.Step` | client/scripts/components/form/form.jsx:48-188 | one event extends the log of requests by at most one and never removes from it |
| `Transitions.Run` | client/scripts/components/form/form.jsx:48-188 | any sequence of events only extends the log, by at most one request per event |
| `Transitions.RequestMessage` | client/scripts/components/form/form.jsx:153-155 | the message is the fixed prefix "New request from: " followed by the address, and the address can be read back from it |
| `Transitions.InitialInv` | client/scripts/components/form/form.jsx:31-40 | the constructor's state satisfies the machine invariant |
| `Transitions.StepInv` | client/scripts/components/form/form.jsx:48-188 | every event keeps the invariant: `locked` equals `sending`, a waiting callback means locked with exactly one request outstanding (the last one sent, for an accepted address), `valid` equals the current value's verdict (and a valid verdict carries no error), an error is one of the three messages, and every request sent names an accepted address |
| `Transitions.RunInv` | client/scripts/components/form/form.jsx:48-188 | any sequence of events keeps the invariant |
| `Transitions.AtMostOneInFlight` | client/scripts/components/form/form.jsx:98-186 | from the initial state, at most one request is ever outstanding, exactly one while a callback waits, and `locked` always equals `sending` |
| `Transitions.SubmitEffect` | client/scripts/components/form/form.jsx:90-159 | submit always stores the fresh verdict; when the guard passes it issues exactly one request, "New request from: " and the value, and leaves the form locked and sending; otherwise nothing but `valid` and `error` changes |
| `Transitions.SubmitPassesIff` | client/scripts/components/form/form.jsx:98 | the guard passes exactly when the trimmed value matches and the form is neither sending nor locked |
| `Transitions.SubmitWhilePendingIssuesNothing` | client/scripts/components/form/form.jsx:98 | a submit while a request is pending sends nothing and keeps the pending callback |
| `Transitions.LockedUserEventsIssueNothing` | client/scripts/components/form/form.jsx:48-101 | on a locked form, any user events send nothing, keep it locked and keep the captured value |
| `Transitions.UserEventsIssueAtMostOne` | client/scripts/components/form/form.jsx:48-141 | any sequence of user events (repeated submits included) sends at most one request, adding to the log only |
| `Transitions.SuccessQuotesCapturedValue` | client/scripts/components/form/form.jsx:139-173 | the success message quotes the value at request start, whatever was typed in between |
| `Transitions.SettleEffect` | client/scripts/components/form/form.jsx:161-186 | settling clears value and verdict, stops sending and unlocks; success sets the response for the captured value and clears the error, failure sets the fallback error and keeps the response |
| `Transitions.ResubmitAfterSettle` | client/scripts/components/form/form.jsx:90-186 | after either outcome, typing and submitting a valid address sends a new request: there is no terminal state |
| `Transitions.TransportFailureSticks` | client/scripts/components/form/form.jsx:159-188 | a rejected promise leaves the component state untouched, still sending, locked with no callback left |
| `Transitions.StuckForever` | client/scripts/components/form/form.jsx:98-188 | once stuck, no sequence of events sends another request or unlocks the form |
| `Transitions.ScenarioSuccess` | client/scripts/components/form/form.jsx:68-186 | typing "a@b.com", submitting and a successful answer: one request, the success message quoting "a@b.com", the field cleared, unlocked |
| `Transitions.ScenarioServiceFailure` | client/scripts/components/form/form.jsx:68-186 | the same with a failed answer: the fallback error, the field cleared, unlocked |
| `Transitions.ScenarioInvalidFormat` | client/scripts/components/form/form.jsx:90-125 | "not-an-email" is refused on submit with the "invalid format" error and nothing sent |
| `Transitions.ScenarioRequired` | client/scripts/components/form/form.jsx:90-118 | an empty field is refused on submit with the "required" error and nothing sent |
| `Transitions.ScenarioDoubleSubmit` | client/scripts/components/form/form.jsx:90-141 | two submits in a row send exactly one request |
| `Transitions.ErrorAndResponseCoexist` | client/scripts/components/form/form.jsx:68-175 | after a success, typing "x" sets the "invalid format" error while the success response stays set |
| `SignupForm.Form.constructor` | client/scripts/components/form/form.jsx:28-41 | all fields at their defaults, unlocked, nothing sent, invariant established |
| `SignupForm.Form.OnFocus` | client/scripts/components/form/form.jsx:48-50 | only `focus` changes, to true |
| `SignupForm.Form.OnBlur` | client/scripts/components/form/form.jsx:57-59 | only `focus` changes, to false |
| `SignupForm.Form.OnInput` | client/scripts/components/form/form.jsx:68-77 | `value` becomes the raw text and `valid`/`error` its verdict; `sending`, `focus`, `response`, `locked` and the requests unchanged |
| `SignupForm.Form.OnSubmit` | client/scripts/components/form/form.jsx:86-101 | the verdict of the current value is stored; exactly one request when the guard passes, otherwise no other change |
| `SignupForm.Form.Request` | client/scripts/components/form/form.jsx:138-159 | locks, sends one request naming the current value, sets `sending`, captures the value |
| `SignupForm.Form.OnSettle` | client/scripts/components/form/form.jsx:160-187 | the callback's merge and unlock, the success message quoting the captured value |
| `SignupForm.Form.OnTransportFailure` | client/scripts/components/form/form.jsx:159-188 | state unchanged, still locked and sending, stuck |
| `View.Dirty` | client/scripts/components/form/form.jsx:208 | the label's dirty class: focused, or holding non-empty text |
| `View.InvalidClass` | client/scripts/components/form/form.jsx:203 | the form's invalid class: the verdict is not valid |
| `View.SendingClass` | client/scripts/components/form/form.jsx:203 | the form's sending class: a request is being sent |
| `View.ShownError` | client/scripts/components/form/form.jsx:219 | the error text is shown when set, non-empty and the field is not focused |
| `View.ShownResponse` | client/scripts/components/form/form.jsx:220 | the response paragraph is shown when set and non-empty |
| `View.ErrorShownIffUnfocused` | client/scripts/components/form/form.jsx:219 | a set error is shown exactly when the field is not focused, and then it is the error |
| `View.FocusHidesError` | client/scripts/components/form/form.jsx:48-219 | focusing hides the error; blurring shows the current error |
| `View.SendingWhilePending` | client/scripts/components/form/form.jsx:203 | while a request is pending the form carries the sending class |
| `View.SuccessView` | client/scripts/components/form/form.jsx:203-220 | after success: the response shows the submitted address, no error shown, invalid class on, sending off, dirty only while focused |
| `View.FailureView` | client/scripts/components/form/form.jsx:203-220 | after failure: the fallback error is shown unless focused, the response is as before, invalid class on, sending off |

## Left out

- `fetch`, `Headers`, the request's method, URL, headers and `credentials`,
  `JSON.stringify` and `response.json()`: foreign runtime calls. A request
  is its `message` string; the answer is the boolean `success`; a network or
  parse failure is the event `TransportFailed`.
- Asynchrony and Inferno's batching of `setState`: events are delivered one
  at a time and `setState` merges immediately.
- `event.preventDefault()` / `stopPropagation()` in `onSubmit`: browser
  side effects, not state.
- The `typeof value === 'string'` test in `validate`: every caller passes a
  string (the input element's value or `state.value`).
- `String.prototype.trim`'s whitespace is a fixed list: the ECMAScript
  WhiteSpace and LineTerminator code points, with category Zs taken as
  U+0020, U+00A0, U+1680, U+2000-U+200A, U+202F, U+205F, U+3000.
- `Transitions.Settle` and `Transitions.TransportFailure`: with no pending
  request they leave the machine unchanged; the events cannot occur then
  (there is no callback), and the class methods require a pending request.
- `Transitions.Machine.completed`: a count of finished requests added to state
  "at most one in flight"; the component has no such field.
- Strings are sequences of Unicode scalar values, not UTF-16 code units, so a
  lone surrogate cannot be modelled. Every whitespace character, line
  terminator and `@` lies in the basic multilingual plane, so the verdicts
  agree on every string that is well-formed UTF-16.
- Validation.Trim: its own contract says only that the result is no longer
  than the input; the full characterisation is the lemma `TrimSpec`, kept
  apart so that every use of the validator does not carry its quantifiers.
- DOM rendering, CSS class names and `dangerouslySetInnerHTML`; the
  header, app shell, bootstrapping and build configuration, which hold no
  logic.
