# Form validator and HTML escaping, modelled in Dafny

This project models two pieces of a browser-side form-validation utility:

- `FormValidator` (`src/modules/Validator.js`). It is constructed with a map from field name to an ordered list of rules. `attach` binds it to a form and its inputs and registers listeners. `detach` unbinds it. `setDataHandler` registers the success callback. `_validate` checks one input against its rules and updates the error display next to it. `_submitHandler` validates every input and hands `{name: value}` to the data handler when all of them pass.
- `sanitizeHTML` (`scr/dom-worker.js`). It replaces `&`, `<` and `>` by `&amp;`, `&lt;` and `&gt;` and copies every other character.

Modules:

- `Wrappers` (`wrappers.dfy`): `Option`, which stands for JavaScript's `null`.
- `DomWorker` (`dom_worker.dfy`): `SanitizeHTML` as a recursive function, `Unescape` as its inverse, and lemmas about them.
- `Checks` (`checks.dfy`): the static rule catalog, with the patterns' JavaScript semantics written out:
  - `.` matches one UTF-16 code unit other than the line terminators LF, CR, U+2028 and U+2029;
  - lengths count UTF-16 code units, so a character above U+FFFF counts 2;
  - `^` and `$` anchor at the ends of the whole string;
  - an unanchored lookahead such as `(?=.{8,})` succeeds if it succeeds at any position.

  EMAIL, PHONE and any other caller regex are an `Opaque` string test.
- `FieldRules` (`field_rules.dfy`): pure specification functions and their lemmas:
  - `LastFailure`: the message of the last failing rule;
  - `FieldError`: what `_validate` decides;
  - `DisplayAfter`: the new state of one error display;
  - `Replay`: the state of a display after a whole submit;
  - `Collect`: the data object.
- `Validator` (`validator.dfy`): the imperative model:
  - `ErrorDisplay` (text and hidden flag), `InputField` (name, current value, error display) and `Form` (its inputs) stand in for the DOM;
  - `EventRegistry` is the listener table, a set of (target, event, handler identity) triples; every `Bind` makes a new identity, as `.bind(this)` makes a new function;
  - `FormValidator` is a class with the fields `rules`, `form`, `inputs` and `dataHandler`. Its object invariant is `form == null <==> inputs == None`.
- `FixedValidator` (`validator_fixed.dfy`): the listener management as evidently intended. The bound `_validate` and `_submitHandler` are made once per attachment and kept. `detach` removes exactly the listeners `attach` registered. An `attach` on a bound validator first releases the old binding. Validation and submission are unchanged and are those of `Validator`.
- `Clients` (`clients.dfy`): client methods written against both classes. They show the listener leaks of the code as written and the restored listener table of the corrected version.

Defects and quirks of the code, and what the model does with each:

- **The constructor never stores its argument.** `_rules` is never assigned, so `_validate` would read a property of `undefined` (`src/modules/Validator.js:53-57`, `:109`). The model's constructor stores the rules, as evidently intended, so the model does not reproduce that failure.
- **Unbinding removes nothing.** `_bindListeners` and `_unbindListeners` each call `.bind(this)` again, so every handler passed to `removeEventListener` is a new function. `UnbindListeners` and `Detach` are proved to leave the listener table unchanged. Removing the very listeners that were bound is the intended behaviour, which `FixedValidator` models (see "## Findings").
- **Attaching twice leaks listeners.** `attach` on a validator that is already attached overwrites the binding. The old listeners stay registered while the validator refers only to the new form, so no detach can remove them (`Clients.ReattachLeaksListeners`). `FixedValidator.FormValidator.Attach` releases the old binding first (see "## Findings").
- **An empty message counts as a pass.** `_validate` tests the message for truthiness (`if (err)`). If the last failing rule's message is the empty string, the field passes (`EmptyMessageMasksFailure`). Every catalog message is non-empty (`CatalogMessagesNonEmpty`). With non-empty messages, a field fails exactly when some rule fails (`FieldFailsIffSomeRuleFails`).
- **Inputs can share an error display.** Two inputs with the same parent share one `.form__error` element, so the model treats error displays as objects. `Submit` states the final state of each display as a replay of all the validations in order. When every display belongs to one input, each input's display ends in the state its own validation gives (`ReplayOwnDisplay`).

## Model

| member | source | states |
|---|---|---|
| `DomWorker.SanitizeHTML` | scr/dom-worker.js:29-38 | the output contains no `<` and no `>` |
| `DomWorker.SanitizeChar` | scr/dom-worker.js:30-36 | a one-character string becomes its image in the replacement table; any other character is copied |
| `DomWorker.SanitizeConcat` | scr/dom-worker.js:35 | escaping distributes over concatenation: `SanitizeHTML(a + b) == SanitizeHTML(a) + SanitizeHTML(b)` |
| `DomWorker.SanitizeSnoc` | scr/dom-worker.js:35 | the output is built character by character, in input order |
| `DomWorker.SanitizePlain` | scr/dom-worker.js:35 | a string with no `&`, `<` or `>` is returned unchanged |
| `DomWorker.SanitizeLength` | scr/dom-worker.js:30-36 | output length = input length + 4·count(`&`) + 3·count(`<`) + 3·count(`>`) |
| `DomWorker.UnescapeEscape` | scr/dom-worker.js:30-34 | decoding the image of one character gives back that character and consumes exactly that image |
| `DomWorker.UnescapeSanitize` | scr/dom-worker.js:29-38 | decoding `&amp;`, `&lt;` and `&gt;` in the output recovers the input exactly |
| `DomWorker.SanitizeInjective` | scr/dom-worker.js:29-38 | two inputs with the same escaped form are equal |
| `Checks.Matches` | src/modules/Validator.js:3-47 | `regExp.test(value)` for each catalog pattern. MIN_LENGTH, MAX_LENGTH and REQUIRED: no line terminator and a UTF-16 length bound. ALPHABETIC and ALPHANUMERIC: every character is in the class. The three lookaheads: some character lies in the range. MIN_LENGTH_8: some run of 8 code units with no line terminator. EMAIL and PHONE: the opaque test. Its contract adds that an accepted ALPHABETIC or ALPHANUMERIC value has no line terminator, that an accepted ALPHABETIC value has no digit and no `_`, and that every pattern demanding a character rejects the empty string |
| `Checks.AlphabeticWithinAlphanumeric` | src/modules/Validator.js:11-17 | every value ALPHABETIC accepts is accepted by ALPHANUMERIC |
| `Checks.CharacterClassExamples` | src/modules/Validator.js:11-17 | ALPHABETIC accepts "ёж-Я" and the empty string and rejects "ё1"; ALPHANUMERIC accepts "ё1_" and rejects "a b" |
| `Checks.CatalogMessagesNonEmpty` | src/modules/Validator.js:2-49 | every catalog message, EMAIL's and PHONE's included, is a non-empty string |
| `Checks.LineOfAtLeastSingleLine` | src/modules/Validator.js:44-47 | on a string with no line terminator, the unanchored `(?=.{n,})` holds iff the string has at least n code units |
| `Checks.LengthRules` | src/modules/Validator.js:3-22 | on a single-line string of BMP characters: MIN_LENGTH iff length ≥ 3, MAX_LENGTH iff ≤ 25, REQUIRED iff ≥ 1, MIN_LENGTH_8 iff ≥ 8 |
| `Checks.LineTerminatorFailsLengthRules` | src/modules/Validator.js:3-22 | a string containing a line terminator fails MIN_LENGTH, MAX_LENGTH and REQUIRED, whatever its length |
| `Checks.PasswordStrength` | src/modules/Validator.js:31-48 | a single-line string passes all four password sub-rules iff it has a lower-case letter, an upper-case letter and a digit and at least 8 code units |
| `Checks.PasswordWithoutUpperCase` | src/modules/Validator.js:31-48 | "abc12345" fails USE_UPPER_CASE and passes the other three sub-rules |
| `Checks.PasswordAccepted` | src/modules/Validator.js:31-48 | "Abc12345" passes all four sub-rules |
| `FieldRules.NoFailureIffAllMatch` | src/modules/Validator.js:117-123 | the rule loop leaves no message iff every rule of the field matches the value |
| `FieldRules.LastFailingRuleWins` | src/modules/Validator.js:117-123 | a failing rule followed only by matching rules supplies the reported message, so with several failures the last one wins and with one failure its message is reported |
| `FieldRules.ReportedMessageIsLastFailing` | src/modules/Validator.js:117-123 | a reported message is the message of a failing rule after which every rule matches |
| `FieldRules.UnruledFieldPasses` | src/modules/Validator.js:109-110 | a field whose name has no rules passes for every value, the empty string included, and its display is untouched |
| `FieldRules.FieldFailsIffSomeRuleFails` | src/modules/Validator.js:119-130 | when the field's messages are non-empty, `_validate` fails iff at least one of the field's rules fails |
| `FieldRules.LastFailingRuleExample` | src/modules/Validator.js:117-123 | with rules `[MIN_LENGTH, ALPHABETIC]`, the value "1" fails both and ALPHABETIC's message is reported |
| `FieldRules.EmptyMessageMasksFailure` | src/modules/Validator.js:125 | when the last failing rule's message is empty, the field passes, because the message is tested for truthiness; shown for REQUIRED with message "" on the value "" |
| `FieldRules.ReplayUnused` | src/modules/Validator.js:143-148 | a display that none of the submitted inputs uses keeps its state |
| `FieldRules.ReplayOwnDisplay` | src/modules/Validator.js:143-148 | a display used by exactly one input ends as that input's own validation leaves it, whatever the other inputs gave |
| `FieldRules.CollectKeys` | src/modules/Validator.js:82-85 | the data passed to the handler has exactly one key per bound input name |
| `FieldRules.CollectLastWins` | src/modules/Validator.js:85 | under each name, the data holds the value of the last input with that name |
| `Validator.FindError` | src/modules/Validator.js:117-123 | the loop over the rules returns the message of the last failing rule, or none |
| `Validator.FormValidator.constructor` | src/modules/Validator.js:53-57 | a new validator holds the given rules, is detached and has no data handler |
| `Validator.FormValidator.Attach` | src/modules/Validator.js:59-69 | error `FormNotFound` when no form was found and `NoInputFields` when it has no inputs, each leaving the binding and the listener table unchanged; otherwise binds the form and its inputs together and adds exactly `FreshBinding` to the table: one validate listener per input and input event and one submit listener on the form, each with its own newly made handler, 3·(number of inputs) + 1 handlers in all |
| `Validator.FormValidator.Detach` | src/modules/Validator.js:71-75 | afterwards form and inputs are unset and the listener table is unchanged; when already detached, nothing changes at all |
| `Validator.FormValidator.SetDataHandler` | src/modules/Validator.js:77-79 | the handler is replaced by the given one, so the last one set is the one a later submit calls |
| `Validator.FormValidator.Handle` | src/modules/Validator.js:81-87 | one call iff the validator is bound and has a handler; the call goes to that handler with `Collect` of the inputs' current names and values |
| `Validator.FormValidator.BindListeners` | src/modules/Validator.js:89-96 | when bound, adds exactly `FreshBinding`: one listener per input and input event, in loop order, then one submit listener on the form, each with its own newly made handler; when detached, the table is unchanged |
| `Validator.ListenOnEvents` | src/modules/Validator.js:92-94 | the loop over blur, keydown and keyup adds exactly `FreshOnEvents`: one listener per input and event, and makes 3·(number of inputs) handlers |
| `Validator.ListenOnInputs` | src/modules/Validator.js:93 | for one event, adds exactly one listener per input, the i-th with the i-th newly made handler, and nothing else |
| `Validator.FreshBindingMembers` | src/modules/Validator.js:92-95 | the listeners `_bindListeners` adds are exactly: for input i and event k, one with the handler made k·(number of inputs) + i-th; and one submit listener on the form with the last handler |
| `Validator.FormValidator.UnbindListeners` | src/modules/Validator.js:98-105 | the listener table is unchanged, because every handler it removes was just made; the handler count never decreases |
| `Validator.EventRegistry.AddEventListener` | src/modules/Validator.js:93-95 | the triple (target, event, handler) is added and nothing else changes; adding a registered triple again changes nothing |
| `Validator.EventRegistry.RemoveEventListener` | src/modules/Validator.js:102-104 | exactly the triple (target, event, handler) is removed, if present, and nothing else changes |
| `Validator.ErrorMessage` | src/modules/Validator.js:62-65 | the message starts with `FormValidator: Form "<selector>" ` and ends in `not found` or in `has no input fields`, by error kind |
| `Validator.ErrorMessagesDiffer` | src/modules/Validator.js:62-65 | the two errors thrown for the same selector have different messages |
| `Clients.DetachLeavesListeners` | src/modules/Validator.js:71-75 | for any validator and form with inputs, after `attach` and `detach` every validate listener and the submit listener are still registered, so the table has grown: it contains the old one and differs from it |
| `Clients.ReattachLeaksListeners` | src/modules/Validator.js:59-69 | after attaching to a first form and then a second, the validator refers only to the second form while the first form still has a submit listener |
| `FixedValidator.BindingMembers` | src/modules/Validator.js:89-96 | the listeners of one attachment are exactly: each input on blur, keydown and keyup with the bound `_validate`, and the form on submit with the bound `_submitHandler` |
| `FixedValidator.FormValidator.constructor` | src/modules/Validator.js:53-57 | a new corrected validator holds the given rules and is detached |
| `FixedValidator.AddOnInputs` | src/modules/Validator.js:93 | for one event, adds exactly the listener of every input with the kept bound `_validate` |
| `FixedValidator.RemoveOnInputs` | src/modules/Validator.js:102 | for one event, removes exactly the listener of every input with the kept bound `_validate` |
| `FixedValidator.FormValidator.Attach` | src/modules/Validator.js:59-69 | error cases change nothing; otherwise the old attachment's listeners are removed and the new attachment's are added, all with newly bound functions |
| `FixedValidator.FormValidator.Detach` | src/modules/Validator.js:71-75 | removes exactly the listeners of the current attachment and unbinds |
| `FixedValidator.FormValidator.BindListeners` | src/modules/Validator.js:89-96 | adds exactly the listeners of the current attachment, with the kept bound functions |
| `FixedValidator.FormValidator.UnbindListeners` | src/modules/Validator.js:98-105 | removes exactly the listeners of the current attachment, with the kept bound functions |
| `Clients.AttachDetachRestores` | src/modules/Validator.js:59-75 | starting from a detached corrected validator, `detach` after `attach` leaves the listener table as it was before `attach`, whether `attach` succeeded or failed |
| `Clients.ReattachDetachRestores` | src/modules/Validator.js:59-75 | with the corrected validator, attaching to two forms in turn and detaching once leaves the listener table as it was |
| `Validator.EventRegistry.Bind` | src/modules/Validator.js:93 | each `.bind(this)` yields a handler identity distinct from every earlier one |
| `Validator.FormValidator.Validate` | src/modules/Validator.js:107-136 | passes iff `FieldError` finds no error; the input's display, if any, becomes `DisplayAfter`: on failure the text is the message and the display is shown; on success it is hidden and the text is kept; with no rules it is untouched |
| `Validator.FormValidator.ValidateNext` | src/modules/Validator.js:144-147 | one step of the loop: the i-th input's validation passes iff it has no `FieldError`; its display, if any, becomes `DisplayAfter`, and every other display of the form keeps its state |
| `Validator.FormValidator.ValidateAll` | src/modules/Validator.js:143-148 | validates every input with no short cut: the result is true iff all inputs pass, and every display is left as the in-order replay of all the validations makes it |
| `Validator.FormValidator.Submit` | src/modules/Validator.js:138-151 | detached: no call and no change; bound: the handler is called exactly once iff every input passes and a handler is set, with the collected data, and otherwise not at all; every display is left as the replay makes it |

## Findings

| source | as written | input that shows it | evidently intended | confidence | as-written member | corrected member |
|---|---|---|---|---|---|---|
| src/modules/Validator.js:98-105 | `_unbindListeners` passes a newly bound function to every `removeEventListener`, so no listener is removed | attach to any form with inputs, then detach: all blur, keydown, keyup and submit listeners stay registered | `detach` removes exactly the listeners `attach` registered, so `attach` then `detach` restores the table (`Clients.AttachDetachRestores`) | not executed | `Clients.DetachLeavesListeners` | `FixedValidator.FormValidator.Detach` |
| src/modules/Validator.js:59-69 | `attach` on a bound validator overwrites `_form` and `_inputs` without unbinding, so the old form's listeners can never be removed | attach to form A, then to form B: the validator refers only to B while A's submit listener is still registered, so no detach can remove it | a new `attach` first releases the previous binding, so two attaches and one detach restore the table (`Clients.ReattachDetachRestores`) | not executed | `Clients.ReattachLeaksListeners` | `FixedValidator.FormValidator.Attach` |

## Left out

- The DOM itself is left out. `querySelector` on the root is the `found` parameter of `Attach`, and `querySelectorAll('input')` is the form's `inputs`. `parentNode.querySelector('.form__error')` is each input's fixed `display`, which is `None` when there is no parent or no such element.
- Event dispatch and `preventDefault` are left out. The listener table records which handler listens where, but nothing runs the handlers.
- Calling the data handler is modelled as returning the `Call` record (handler identity and data). What the handler does with the data is foreign code.
- A thrown error is modelled as a returned `AttachError`. `ErrorMessage` gives its text for an instance whose constructor is named `FormValidator`; a subclass would print its own name.
- The EMAIL and PHONE regular expressions are not implemented; they are opaque string tests. So nothing is proved about particular addresses or numbers, such as whether `a@b.co` is accepted.
- Message wording is kept as opaque string constants; nothing depends on their content.
- `getEl`, `getAllEls`, `append` and `createEl` in `scr/dom-worker.js` are thin wrappers over `document` and are not modelled.
- The `|| tag` fallback in `sanitizeHTML` cannot be reached, because the pattern matches only the three table keys. Any other character is copied.
- `FieldRules.Collect` is a plain map update. It does not model the JavaScript quirk that assigning a string to the key `__proto__` of a plain object is silently ignored.
- `Validator.FormValidator.constructor` stores its rules argument, which the source drops (`_rules` is never assigned). So the model does not reproduce the TypeError that every `_validate` on such an instance would throw.
- A JavaScript string is a sequence of UTF-16 code units and may hold unpaired surrogates. A Dafny `string` holds Unicode scalar values and cannot, so values with unpaired surrogates are not modelled.
- `FieldRules.Collect` returns a `map`, which has no order. The object `_handle` builds keeps its keys in insertion order, with integer-like keys first, and the handler may iterate over it; that order is not modelled.
- `FieldRules.FieldFailsIffSomeRuleFails` assumes every message of the field is non-empty. Without that assumption the iff does not hold; `EmptyMessageMasksFailure` shows why.
- `Checks.LengthRules` is stated only for single-line strings of characters in the Basic Multilingual Plane. The general case, with code-unit lengths and line terminators, is the definition of `Matches`.
