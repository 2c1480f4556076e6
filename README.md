# Carta Natal question wizard — a Dafny model

This project models the question-wizard engine of the Carta Natal single-page app
(`src/App.tsx`): the fixed questionnaire `QUESTION_SET`, the helpers `asArray`, `multiToggle`
and `validateAnswer`, the values the `Question` renderer can hand back, the email test that
enables the unlock button, the mock report `generateAstroAdvice`, and the state of
`CartaNatalApp` with its handlers `setValue`, `onNext`, `onPrev`, the email field and the
unlock click.

Modules, leaves first:

- `JsStrings` (text.dfy): the ECMAScript whitespace set (shared by `trim` and the regular
  expression class `\s`), `String.prototype.trim`, `Array.prototype.join`, and the decimal
  rendering of an integer.
- `Seqs` (seqs.dfy): duplicate-freedom and `filter(x => x !== item)`.
- `Answers` (answers.dfy): the stored answer values (`Absent | Str | List | Num` for the `any`
  of the source), `asArray`, `String(v)`, and `multiToggle` with its cap.
- `Schema` (schema.dfy): the 28 questions as a tagged union per question type.
- `Validation` (validation.dfy): `validateAnswer` and its two messages.
- `Widgets` (widgets.dfy): what each input of the renderer can emit, including the likert scale.
- `Email` (email.dfy): `/\S+@\S+\.\S+/.test(email)`.
- `Report` (report.dfy): `generateAstroAdvice`.
- `Wizard` (wizard.dfy): the wizard state as a value with one function per handler, the
  invariant every reachable state keeps, sessions as event sequences, and the class
  `CartaNatalApp` whose methods are proved to perform those functions.

The model keeps the following behaviours of the code as they are written:

- The schema has 28 questions, although the comment at src/App.tsx:42 announces 30.
- A multiselect `max` of 0 means "no cap": `max && ...` at src/App.tsx:24 tests its
  JavaScript truthiness.
- The minimum-length rule at src/App.tsx:36 runs whenever the presence rule passes. It also
  runs for optional text questions, and on an absent value (read as ""). An optional text
  question with a minimum would therefore refuse an empty answer. No optional question of the
  schema has a minimum.
- The minimum length is counted with `.length`, in UTF-16 code units: a character above U+FFFF,
  such as an emoji, counts twice (`Validation.AstralCharactersCountTwice`).
- `validateAnswer` does not check `select` and `imagepick` values against their options. Only
  the inputs restrict what can be stored; `Widgets.PickedChoiceValidates` proves that what they
  emit validates.
- `result` at src/App.tsx:108 is recomputed from the live answers while unlocked, not taken
  once when unlocking. Once unlocked no control is left that could change the answers
  (`Wizard.UnlockedIsFinal`), so the two readings agree.

## Model

| member | source | states |
|---|---|---|
| `JsStrings.Trim` | src/App.tsx:30-36 | `trim` returns a slice of the input with only whitespace cut from either side, starting and ending with non-whitespace, and is empty exactly when the input is all whitespace |
| `JsStrings.Utf16Length` | src/App.tsx:36 | a single character counts 2 when it is above U+FFFF and 1 otherwise, and any string counts between its number of characters and twice that |
| `JsStrings.Utf16LengthAppend` | src/App.tsx:36 | the `.length` of a concatenation is the sum of the lengths; with the one-character case of `Utf16Length` this fixes the count of every string |
| `JsStrings.Utf16LengthBmp` | src/App.tsx:36 | on text without characters above U+FFFF, `.length` is the number of characters |
| `JsStrings.TrimNoSpace` | src/App.tsx:30-36 | trimming a string that holds no whitespace gives it back unchanged |
| `JsStrings.Join` | src/App.tsx:30 | `String` of an array joins its elements with commas: two or more elements always produce a comma, one element is itself, none is "" |
| `JsStrings.JoinAppend` | src/App.tsx:30 | joining two non-empty lists one after the other is the first joined, a comma, then the second joined; with the cases of `Join` this fixes the result for every list |
| `JsStrings.Decimal` | src/App.tsx:37 | the rendering of an integer is non-empty and has no whitespace |
| `JsStrings.DecimalRoundTrip` | src/App.tsx:37 | reading back the rendering of any integer gives that integer |
| `JsStrings.DecimalInjective` | src/App.tsx:37 | distinct integers render differently |
| `Seqs.RemoveAll` | src/App.tsx:23 | the filter leaves no occurrence of the item, keeps only elements of the input, shortens a list that held the item and returns a list without it unchanged |
| `Seqs.RemoveAllCounts` | src/App.tsx:23 | the filter removes every occurrence of the item and keeps every other element as often as it occurred |
| `Seqs.RemoveAllDistinct` | src/App.tsx:23 | filtering a duplicate-free list leaves it duplicate-free |
| `Answers.AsArray` | src/App.tsx:20 | `asArray` passes an array through unchanged and reads everything else (absent, a string, a number) as [] |
| `Answers.Stringify` | src/App.tsx:30-36 | `String(v)` keeps a string, never makes a number blank, makes an array blank only when it has at most one element and that element is blank, and reads absent as "" (`v ?? ""`) |
| `Answers.AtCapacity` | src/App.tsx:24 | the cap test: a cap of 0 never fills, a negative cap is always full, and a positive cap not yet exceeded is full exactly when the selection has `max` items, and a selection already above a positive cap is full |
| `Answers.MultiToggle` | src/App.tsx:21-26 | a selected item is removed in every occurrence, whatever the cap; an unselected item is appended at the end unless a non-zero cap is reached, when the list comes back unchanged; the item ends up selected exactly when it was not and the cap allowed it |
| `Answers.ToggleRespectsCap` | src/App.tsx:24 | a selection within a positive cap stays within it after a toggle |
| `Answers.ToggleKeepsDistinct` | src/App.tsx:21-26 | a toggle never introduces a duplicate |
| `Answers.ToggleStaysWithin` | src/App.tsx:295-298 | toggling an offered option keeps the selection inside the offered options |
| `Answers.ToggleAddThenRemove` | src/App.tsx:21-25 | adding an item below the cap and toggling it again restores the original list |
| `Answers.ToggleRemoveThenAdd` | src/App.tsx:21-25 | removing a selected item and toggling it again restores the same selection (the item moves to the end) |
| `Answers.ToggleSeriesInvariant` | src/App.tsx:293-298 | any series of clicks on offered options keeps a selection within its positive cap, duplicate-free and inside the options |
| `Answers.ToggleSeriesAtCapacity` | src/App.tsx:24 | at capacity, any series of clicks on unselected items leaves the selection unchanged |
| `Schema.SchemaSize` | src/App.tsx:43-77 | the questionnaire has 28 questions |
| `Schema.IdsDistinct` | src/App.tsx:43-77 | no two questions share an id |
| `Schema.SchemaWellFormed` | src/App.tsx:43-77 | every select and imagepick question offers a non-empty list of distinct visible choices, every multiselect has `0 < max <= options` with distinct options, every likert has `min < max` |
| `Schema.SchemaBounds` | src/App.tsx:48-73 | every multiselect offers five options with a cap of 2 or 3, and every likert scale runs from 1 to 5 |
| `Validation.MinLenError` | src/App.tsx:37 | the minimum-length message is never the required-field message |
| `Validation.MinLenErrorInjective` | src/App.tsx:37 | different minimums give different messages |
| `Validation.ValidateAnswer` | src/App.tsx:27-40 | the required-field message exactly when the question is required and the answer is missing for its type (absent; blank once coerced for text, select and imagepick; an empty or non-array for multiselect; a non-number for likert); otherwise the minimum-length message exactly when a text answer's trimmed length in UTF-16 code units is below a non-zero minimum, required or not; otherwise valid; optional non-text questions always validate |
| `Validation.TextAnswerAccepted` | src/App.tsx:30-39 | a text answer with a non-whitespace character whose trimmed length in UTF-16 code units is at least the minimum is valid |
| `Validation.AstralCharactersCountTwice` | src/App.tsx:36 | five emoji (five characters, ten code units) satisfy the ten-unit minimum of "proposito" |
| `Validation.LikertAcceptsAnyNumber` | src/App.tsx:34 | every number passes a likert question; there is no range check |
| `Validation.NumberIsPresent` | src/App.tsx:30-33 | a number given to a text, select or imagepick question is never missing |
| `Validation.MultiselectPresence` | src/App.tsx:32 | a required multiselect answer is valid exactly when it is a non-empty array |
| `Widgets.LikertScale` | src/App.tsx:334-335 | the likert buttons carry every integer from `min` to `max` in increasing order, and none when `max < min` |
| `Widgets.Emits` | src/App.tsx:280-337 | no input emits `undefined`; only the multiselect buttons emit an array and only the likert buttons a number |
| `Widgets.MultiselectEmitsWithinRules` | src/App.tsx:293-298 | on the schema, what a multiselect button emits is an array within the cap, duplicate-free and made of offered options, when the shown selection was |
| `Widgets.LikertEmitsInRange` | src/App.tsx:332-337 | a likert button only emits a number between the question's bounds |
| `Widgets.PickedChoiceValidates` | src/App.tsx:284-337 | on the schema, whatever a select, imagepick or likert input emits validates |
| `Email.EmailShapedIffRegex` | src/App.tsx:246 | the email test accepts a string exactly when `/\S+@\S+\.\S+/` matches somewhere in it |
| `Email.EmailShaped` | src/App.tsx:246 | an address the button accepts has at least five characters, among them an `@` and a `.` |
| `Email.NoAtRejected` | src/App.tsx:246 | a string without `@` never enables the button |
| `Email.SampleAddresses` | src/App.tsx:246 | "a@b.co" is accepted; "not-an-email" and "a @b.co" are refused |
| `Report.GenerateAstroAdvice` | src/App.tsx:82-94 | the report has the fixed summary and tips and two bullets; a non-empty birth date and a non-empty name appear verbatim in the first and second bullet, absent ones as a dash |
| `Report.AdviceDependsOnNameAndDate` | src/App.tsx:82-94 | answers that agree on the name and the birth date give the same report |
| `Wizard.InitialInv` | src/App.tsx:98-106 | the initial state (landing page, step 0, no answers, no errors, empty email, locked) satisfies the wizard invariant |
| `Wizard.AfterStart` | src/App.tsx:150 | "Comenzar test" leaves the landing page and, from the initial state, shows the first question; answers, errors, address and lock are kept |
| `Wizard.AfterSetValue` | src/App.tsx:110-114 | `setValue` stores the value under the id, leaves every other id's answer alone, records the current question's verdict on the value under the id, keeps every other id's error as it was, and keeps the step |
| `Wizard.AfterNext` | src/App.tsx:116-120 | `onNext` records under the current id the validation result of its stored answer (message or none) and keeps every other id's error, moves one step forward exactly when the answer validates, and never touches the answers, the address or the lock |
| `Wizard.AfterPrev` | src/App.tsx:122 | `onPrev` moves one step back, does nothing at step 0, and keeps the answers, the errors, the address, the lock and the question card |
| `Wizard.AfterEmail` | src/App.tsx:245 | the email field replaces only the address and the gate stays on screen |
| `Wizard.AfterUnlockClick` | src/App.tsx:246 | after the click the report is unlocked exactly when the regular expression matches the address; step, answers, address, errors and the started flag are unchanged |
| `Wizard.StepValidUnaffected` | src/App.tsx:110-114 | writing an answer under another id leaves a question's validity unchanged |
| `Wizard.SetValuePreservesInv` | src/App.tsx:110-114 | editing the current question keeps the invariant: every earlier question still validates |
| `Wizard.NextPreservesInv` | src/App.tsx:116-120 | `onNext` keeps the step within 0..28 and only moves past a question whose answer validates |
| `Wizard.UnlockPreservesInv` | src/App.tsx:241-246 | the unlock click at the gate unlocks only for an address the regular expression matches |
| `Wizard.FailedNextIsIdempotent` | src/App.tsx:116-120 | a failed `onNext` keeps the step and the answers, and repeating it changes nothing more |
| `Wizard.SuccessfulNextAdvances` | src/App.tsx:116-120 | a successful `onNext` moves exactly one step with the answers unchanged, and from the last question reaches the locked gate |
| `Wizard.PrevThenNextReturns` | src/App.tsx:116-122 | going back and forward again with no edit returns to the same step with the same answers |
| `Wizard.GateMeansComplete` | src/App.tsx:241 | at the gate every required question is answered and no text answer is below its minimum |
| `Wizard.ApplyPreservesInv` | src/App.tsx:110-122 | every action whose control is on screen keeps the invariant |
| `Wizard.RunPreservesInv` | src/App.tsx:227-246 | any session of user actions keeps the invariant |
| `Wizard.SessionSafety` | src/App.tsx:227-246 | from the landing page, whatever the user does, the step stays within 0..28 and the report unlocks only at the gate, for a matching address and answers that all validate |
| `Wizard.UnlockedIsFinal` | src/App.tsx:241-250 | once unlocked no action changes the state, so the report's answers are frozen |
| `Wizard.NameScenario` | src/App.tsx:110-120 | on the first question, "a" is refused with "Mínimo 2 caracteres" and the step stays at 0; "ab" then moves the wizard to step 1 with no error |
| `Wizard.CartaNatalApp.constructor` | src/App.tsx:98-106 | a new app is on the landing page at step 0 with empty answers, errors and email, locked |
| `Wizard.CartaNatalApp.StartTest` | src/App.tsx:150 | the start button leaves the landing page and changes nothing else |
| `Wizard.CartaNatalApp.SetValue` | src/App.tsx:110-114 | stores the value under the id, records its validation against the current question under the id while every other error stays as it was, keeps the step |
| `Wizard.CartaNatalApp.OnNext` | src/App.tsx:116-120 | records the current question's validation outcome under its id and advances one step exactly when it is valid, with the answers unchanged |
| `Wizard.CartaNatalApp.OnPrev` | src/App.tsx:122 | moves one step back, never below 0, and changes nothing else |
| `Wizard.CartaNatalApp.SetEmail` | src/App.tsx:245 | the email field at the gate replaces the address and changes nothing else |
| `Wizard.CartaNatalApp.ClickUnlock` | src/App.tsx:246 | after the click the report is unlocked exactly when the address passes the email test |
| `Wizard.CartaNatalApp.Result` | src/App.tsx:108 | a report exists exactly when unlocked, and then the step is at the gate, the address matches the regular expression and every answer validates; it is the report of the current answers |

## Left out

- Markup and styling (`Progress`, `Card`, `Badge`, the landing page copy, testimonials, image
  URLs and the image `onError` fallback): presentation with no contract.
- Question labels and image labels: inert display text; each question keeps its id, required
  flag and type-specific fields.
- The progress bar percentage and its clamp: floating-point display arithmetic.
- React mechanics: `useState` batching, `useMemo` recomputation and `window.scrollTo`; each
  handler is modelled as one atomic step.
- The likert defaults `q.min ?? 1` and `q.max ?? 5`: the tagged union makes both bounds
  mandatory and every likert entry sets them to 1 and 5, so the defaults are never read.
- `String(v)` and `typeof` for values other than strings, string arrays and integers (objects,
  booleans, fractional numbers, `NaN`): the inputs never store them.
- JsStrings.Decimal: JavaScript numbers are doubles, so `String(n)` switches to exponent form
  from 10^21 (`"1e+21"`) and integers above 2^53 are not held exactly; the model's `Num` holds
  an unbounded integer and always prints its digits. The inputs only store the likert values
  1..5, so no reachable answer is affected.
- Unicode beyond the fixed ECMAScript whitespace set and the UTF-16 length: the code applies
  no normalisation or case folding. Strings are sequences of Unicode scalar values, so a lone
  surrogate, which JavaScript strings can hold, cannot be stored.
- Wizard.CartaNatalApp.SetValue: requires the id to be the current question's, which is the only
  id its caller passes; a write under another id is not modelled.
- Wizard.RunPreservesInv: a session skips an action whose control is not on screen (a hidden
  card or a disabled button), since the user cannot perform it.
