# Registration form: validator and form state

A model of the registration-form controller of a React single-page form with
four inputs (username, email, password, confirm password). The controller
keeps two pieces of state, the form values and a field-name → message map of
validation errors, and has two event handlers:

- `handleChange` replaces the value of the one input that changed;
- `handleSubmit` runs the validator `validateForm`; when it reports nothing the
  values are logged as the submission and the form is cleared, otherwise the
  messages are stored and the typed values are kept.

`validateForm` applies four independent rules: the username must not be blank
after `trim`, the email must contain a substring shaped `\S+@\S+\.\S+`, the
password must be at least 6 UTF-16 code units long, and the confirmation must
equal the password. Each failing rule adds a fixed message under its field; a
valid field has no entry.

Modules:

- `JsString` (`js_string.dfy`): the JavaScript whitespace class shared by
  `trim` and `\s`, `trim` itself, and `length` in UTF-16 code units.
- `EmailPattern` (`email_pattern.dfy`): the regular expression's meaning on a
  substring (`MatchesAt`, `Matches`) and the check the validator evaluates
  (`Test`), proved equal.
- `Validation` (`validation.dfy`): fields, the form-values record, messages,
  the rule each field must meet (`FieldValid`) and `ValidateForm`.
- `RegistrationForm` (`registration_form.dfy`): the component's state as a
  class `Form` with `HandleChange` and `HandleSubmit`.
- `Wrappers` (`wrappers.dfy`): an `Option` type.

Strings are sequences of Unicode scalar values. Password length is counted in
UTF-16 code units as JavaScript's `length` does (a character outside the Basic
Multilingual Plane counts 2). No whitespace character lies outside that plane,
so `trim`, `\s`/`\S` and string equality give the same answers on scalar values
as on code units.

## Model

| member | source | states |
|---|---|---|
| `JsString.IsWs` | src/App.jsx:53-56 | the one whitespace set shared by `trim` and `\s`; no whitespace character is `@` or `.`, and all of them lie in the Basic Multilingual Plane |
| `JsString.TrimStart` | src/App.jsx:53 | the result is the suffix of the input left after removing only whitespace, and it does not start with whitespace |
| `JsString.TrimEnd` | src/App.jsx:53 | the result is the prefix of the input left after removing only whitespace, and it does not end with whitespace |
| `JsString.Trim` | src/App.jsx:53 | `trim()` is the run of the input left after removing an all-whitespace prefix and an all-whitespace suffix; it is empty exactly when every character is whitespace (the empty string included), and otherwise starts and ends with a non-whitespace character |
| `JsString.Utf16Length` | src/App.jsx:59 | `length` lies between the number of characters and twice it |
| `JsString.Utf16LengthAppend` | src/App.jsx:59 | `length` of a concatenation is the sum of the lengths |
| `JsString.Utf16LengthOfChar` | src/App.jsx:59 | one character has `length` 2 outside the Basic Multilingual Plane and 1 inside; with `Utf16LengthAppend` this fixes `length` on every string |
| `JsString.Utf16LengthOfBmp` | src/App.jsx:59 | `length` equals the number of characters exactly when every character lies in the Basic Multilingual Plane |
| `EmailPattern.Test` | src/App.jsx:56 | `/\S+@\S+\.\S+/.test(email)` holds exactly when some substring of the email matches the pattern (`Matches`: a non-empty non-whitespace run, `@`, a non-empty non-whitespace run, `.`, a non-empty non-whitespace run), in both directions; the pattern is not anchored |
| `EmailPattern.ShortestMatchSuffices` | src/App.jsx:56 | a match exists exactly when there is an `@` with one non-whitespace character before it and a `.` after it with a non-empty non-whitespace run between them and one non-whitespace character after the `.`; the check the validator evaluates looks for exactly this |
| `EmailPattern.AcceptedExamples` | src/App.jsx:56 | "a@b.c", "a@b.c.d", "x@@y.z", "alice@example.com" and "bob@x.y" pass the shape check |
| `EmailPattern.RejectedExamples` | src/App.jsx:56 | "bad", "a @b.c", "a@b. c", "a@.c" and "@b.c" fail the shape check |
| `EmailPattern.NoAtNoMatch` | src/App.jsx:56 | a string without `@` never matches the pattern |
| `Validation.FormValues.With` | src/App.jsx:24-28 | the object spread sets the named field to the value and leaves the other three fields as they were |
| `Validation.Passes` | src/App.jsx:53-64 | each of the four `if` conditions at lines 53, 56, 59 and 62 accepts exactly what its rule means: a username that is not all whitespace, an email matching the pattern somewhere, a password of at least 6 code units, a confirmation equal to the password |
| `Validation.Message` | src/App.jsx:54-63 | each rule's fixed message, none of them empty |
| `Validation.EmptyForm` | src/App.jsx:11-16 | the initial (and reset, lines 39-44) form data has every field equal to the empty string |
| `Validation.ValidateForm` | src/App.jsx:51-66 | a field has an entry exactly when it fails its rule, and every entry is that field's fixed message |
| `Validation.AcceptedIffAllValid` | src/App.jsx:51-66 | the error map is empty exactly when all four rules accept |
| `Validation.NoEmptyMessages` | src/App.jsx:51-66 | no entry is the empty string, so valid fields are absent rather than mapped to "" |
| `Validation.RulesAreIndependent` | src/App.jsx:53-64 | changing one field changes the verdict on no other field, except that the password also decides the confirmation rule |
| `Validation.PasswordRules` | src/App.jsx:59-64 | a short password always gets the length message, and gets the mismatch message as well exactly when the confirmation differs |
| `Validation.OnlyFailingFields` | src/App.jsx:51-66 | when exactly a set of fields fails its checks, the error object holds exactly those fields with their messages |
| `Validation.ScenarioAllInvalid` | src/App.jsx:51-66 | ("", "bad", "123", "456") yields all four messages |
| `Validation.ScenarioAllValid` | src/App.jsx:51-66 | ("alice", "alice@example.com", "secret1", "secret1") yields no message |
| `Validation.ScenarioShortPassword` | src/App.jsx:51-66 | ("bob", "bob@x.y", "abc", "abc") yields only the length message |
| `Validation.ScenarioLongerPassword` | src/App.jsx:51-66 | ("bob", "bob@x.y", "abcdef", "abcdef") yields no message |
| `RegistrationForm.Form.constructor` | src/App.jsx:11-19 | the form starts with four empty strings and no messages |
| `RegistrationForm.Form.HandleChange` | src/App.jsx:22-29 | only the named field changes, to the given value; the other fields and the messages are unchanged |
| `RegistrationForm.Form.HandleSubmit` | src/App.jsx:32-49 | with no errors the pre-submit values are emitted and the values and messages are reset to empty; otherwise the messages become exactly the validator's output and the values are kept; an emitted submission always meets all four rules; shown messages are always none or the validator's verdict on the last rejected values |
| `RegistrationForm.Form.ErrorFor` | src/App.jsx:87-93 | an input shows a message exactly when its field has an entry, and that message is the field's fixed message |
| `RegistrationForm.AcceptedSubmission` | src/App.jsx:22-49 | typing an accepted form field by field and submitting emits exactly the typed values |
| `RegistrationForm.CorrectAndResubmit` | src/App.jsx:22-49 | a submit rejected for a short password keeps the typed values, and correcting that field alone lets the next submit emit all four values |

## Left out

- Rendering with Material-UI (`Card`, `TextField`, `Button`, styling) beyond the per-input message read by `ErrorFor`: presentation over an external library.
- React's state scheduling: `setFormData` and `setErrors` are treated as immediate, atomic assignments, so batching and the stale `formData` captured by a handler's closure are not modelled.
- `console.log` of the submission: modelled as the value `HandleSubmit` returns, not as output.
- `event.preventDefault()` and reading `name`/`value` from the DOM event: `HandleChange` takes the field and the value directly, and field names are limited to the four inputs the form renders, so an arbitrary `[name]` key cannot be added.
- A general regular-expression engine: only the one email pattern is modelled, by a hand-written predicate.
- Strings with an unpaired surrogate: inputs are sequences of Unicode scalar values, so a DOM string holding a lone UTF-16 surrogate (which `length`, `trim` and `===` accept) cannot be represented; on well-formed strings scalar values and code units give the same answers.
- The order of keys in the error object: the model uses a map, and consumers look messages up by field.
