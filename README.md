# Waitlist form controller

A Dafny model of the multi-step waitlist signup form of the landing page
(`src/components/Form.tsx`). The form asks eight fixed questions one at a time.
It refuses to move past a required question whose answer is blank. On the last
question it POSTs the collected answers as a JSON body, renamed to the API's
field names, and shows a success view once the request succeeds. "Start over"
goes back to the first question with no answers.

Modules:

- `Wrappers` (`wrappers.dfy`): `Option`, which stands for a value that may be `undefined`.
- `Questionnaire` (`questionnaire.dfy`): the `Question` record and the constant `Questions` list. It also proves that the ids are distinct and that `notes` is the only optional question.
- `Answers` (`answers.dfy`): the stored `Answer`, which is a string or a list of strings. This module holds `String.prototype.trim` over the ECMAScript white-space set, the required-field check `IsBlank`, and the multiselect toggle (`Remove`, `Toggle`) with its lemmas.
- `Submission` (`submission.dfy`): the JSON body as `JSON.stringify` writes it (`Payload`), with its inverse renaming `AnswersOf`. It proves the round trip and that a submitted body has every required field.
- `WaitlistForm` (`form.dfy`): the class `Form` with the component state `step`, `answers`, `error` and `isSubmitting`. Each handler is a method. The class invariant `Valid()` holds the step bounds, the shape of the answers, the fact that every question already left behind still passes the required check, and that a submission is in flight only from the last question.

The network request is replaced by its outcome: a `submitOk`/`ok` parameter. `submitForm` is split into
`BeginSubmit` (lines 101-114, before the request) and `FinishSubmit` (lines 127-137, after it). `Next` calls the two
in sequence, so every handler runs to completion.

The model follows the code on these points:

- There is no back navigation.
- A multiselect answer is a list, not a set. Toggling a picked option off and on again moves it to the end of the list (`ToggleTwiceSameOptions`).
- `isSubmitting` only disables the button (line 348). `handleNext` itself does not check it, so `Next` has no such guard.
- Enter calls `handleNext` from the textarea as well (line 313), not only from single-line inputs.

## Model

| member | source | states |
|---|---|---|
| `Questionnaire.IdsDistinct` | src/components/Form.tsx:20-88 | no two questions share an id |
| `Questionnaire.OnlyNotesIsOptional` | src/components/Form.tsx:20-88 | there are eight questions, the last is `notes`, and `notes` is the only one not required |
| `Questionnaire.IdsAre` | src/components/Form.tsx:20-88 | the set of answer keys is exactly the eight question ids |
| `Answers.TrimStart` | src/components/Form.tsx:144 | the result is a suffix of the input; everything dropped is white space; the result is empty or starts with a non-white-space character |
| `Answers.TrimEnd` | src/components/Form.tsx:144 | the result is a prefix of the input; everything dropped is white space; the result is empty or ends with a non-white-space character |
| `Answers.Trim` | src/components/Form.tsx:144 | `s.trim()` is the slice of `s` left after removing its leading and trailing white space (everything cut off on either side is white space); it is empty exactly when every character of `s` is white space, and otherwise starts and ends with a non-white-space character |
| `Answers.IsBlank` | src/components/Form.tsx:144 | the source's truthiness/length/trim test holds exactly when the answer is missing, an empty list, or a string of white space only (the empty string included) |
| `Answers.Remove` | src/components/Form.tsx:172 | `filter(item => item !== v)` keeps exactly the elements other than `v`, each as often as before (the multiset loses only `v`), and never grows the list |
| `Answers.RemoveConcat` | src/components/Form.tsx:172 | filtering distributes over concatenation, so the kept elements stay in their original order |
| `Answers.Toggle` | src/components/Form.tsx:170-175 | membership of the toggled option flips; every other option keeps its membership |
| `Answers.ToggleTwiceRestores` | src/components/Form.tsx:170-175 | toggling an option that was not picked twice gives back exactly the original list |
| `Answers.ToggleTwiceSameOptions` | src/components/Form.tsx:170-175 | toggling any option twice leaves the same options picked; a picked option moves to the end |
| `Answers.ToggleKeepsNoDup` | src/components/Form.tsx:170-175 | a duplicate-free list stays duplicate-free under a toggle |
| `Answers.RemoveAbsent` | src/components/Form.tsx:172 | filtering out an option that is not in the list returns the list unchanged |
| `Answers.RemoveKeepsNoDup` | src/components/Form.tsx:172 | filtering keeps a list duplicate-free |
| `Submission.PrimaryNeed` | src/components/Form.tsx:112 | `primary_need` is the stored list when `needs` is a list; otherwise it has at most one element, holds the stored string exactly when that is truthy, and is `[]` when `needs` is absent or `""` |
| `Submission.Payload` | src/components/Form.tsx:105-114 | the body's keys are the eight API field names; each renamed answer (`brandName` to `company_name`, `teamSize` to `team_size`, `brandStage` to `brand_stage`, `notes` to `additional_info`, and `email`, `name`, `website` as they are) is present exactly when answered, with the stored value; `primary_need` is always present, as a list |
| `Submission.RecoveredAnswer` | src/components/Form.tsx:105-114 | for each question id, reading the body back by the inverse renaming yields that question's stored answer |
| `Submission.PayloadRoundTrip` | src/components/Form.tsx:105-114 | for answers keyed by question ids whose `needs` is a non-empty list, the inverse renaming of the body gives back the answer map: nothing is lost or invented |
| `Submission.PrimaryNeedOfPassingAnswer` | src/components/Form.tsx:112 | a `needs` answer that passes the required check yields a non-empty `primary_need` |
| `Submission.RequiredFieldsOfPassingAnswers` | src/components/Form.tsx:105-111 | when the six required email, text, url and select questions pass the required check, each of their JSON keys is in the body with a non-blank value |
| `Submission.PayloadOfPassingAnswers` | src/components/Form.tsx:100-114 | when every question passes the required check, the body has a non-blank value under every required field and at least one primary need |
| `WaitlistForm.WriteCurrent` | src/components/Form.tsx:159-178 | writing a well-shaped answer for the current question keeps the answers well shaped and keeps every earlier question passing |
| `WaitlistForm.NeedsIsNonEmptyList` | src/components/Form.tsx:66-80 | in well-shaped answers, a `needs` answer that passes the required check is a non-empty list |
| `WaitlistForm.Form.constructor` | src/components/Form.tsx:92-95 | a new form is at step 0 with no answers, no error, not submitting, and satisfies the invariant |
| `WaitlistForm.Form.ShowsSuccess` | src/components/Form.tsx:245 | the success view is shown exactly when `step` equals the number of questions |
| `WaitlistForm.Form.Next` | src/components/Form.tsx:140-157 | a required question with a blank answer leaves `step` alone and sets "This field is required to proceed."; a passing non-last question advances `step` by one and clears the error; the last question submits, then goes to the success view on success or stays with "Something went wrong. Please try again." on failure, with `isSubmitting` false either way; answers never change; any sent body has every required field non-blank and reads back to the answers; the invariant is kept |
| `WaitlistForm.Form.BeginSubmit` | src/components/Form.tsx:100-114 | sets `isSubmitting` and clears the error; builds the body from the answers, complete and reversible |
| `WaitlistForm.Form.FinishSubmit` | src/components/Form.tsx:127-137 | success moves `step` past the last question with no error; failure keeps `step` and sets the generic error; `isSubmitting` ends false |
| `WaitlistForm.Form.InputChange` | src/components/Form.tsx:159-165 | the current question's answer becomes the given string; every other key and `step` are unchanged; the error is cleared |
| `WaitlistForm.Form.MultiSelectChange` | src/components/Form.tsx:167-178 | the current question's answer becomes the toggled list (a non-list value counts as `[]`); every other key and `step` are unchanged; the error is cleared |
| `WaitlistForm.Form.StartOver` | src/components/Form.tsx:388-391 | from the success view (the only place the button is shown, line 245), `step` becomes 0 and the answer map empty; with the error already empty and no submission in flight, the form is back in its freshly mounted state |

## Left out

- The `fetch` POST and the `response.ok` test (src/components/Form.tsx:118-129) are network I/O. Only their boolean outcome is modelled, as a parameter.
- `API_URL` (src/components/Form.tsx:18-19) is environment configuration.
- Rendering, animation variants, the logo and styling (src/components/Form.tsx:189-401) are presentation. Two facts from this part are kept. `ShowsSuccess` models which view is shown. The requires clauses of `InputChange` and `MultiSelectChange` model which handler each input kind calls.
- `handleKeyDown` (src/components/Form.tsx:180-184) is not a separate member. It only calls `handleNext` when the key is Enter, so `Next` covers it.
- Asynchrony is not modelled. This covers the `await` inside `submitForm` and React's stale state captured by the handlers. Every handler runs to completion, so the model cannot show a second submission started while one is still in flight (for example by Enter).
- `Questionnaire.Question`: the optional `options` property is an empty list where the source leaves it out.
- The waitlist counter widget, the page layout and the waitlist page wrapper are not part of this model. They hold polling, font loading and static markup.
