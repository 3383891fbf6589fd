# Registration form validation (react-final-form variant)

This project models the validator of the react-final-form registration form:
`validate` takes the registration record (first and last name, e-mail,
password, age, gender, interests, country, newsletter, terms, bio, colour,
date, and a dynamic list of hobbies) and returns the error record that maps a
field name to the message shown under that field. It also models the form's
initial values and what the user does to the hobby list: the two buttons that
add and remove hobbies, and typing into a hobby's name or level.

- `wrappers.dfy`: `Option`, for properties that may be `undefined`.
- `form.dfy` (module `Form`): the record `FormValues` and its `Hobby`
  entries, the initial values, and the actions on the hobby list as functions
  on the list.
- `email_pattern.dfy` (module `EmailPattern`): the pattern
  `^[A-Z0-9._%+-]+@[A-Z0-9.-]+\.[A-Z]{2,}$` with the `i` flag, written by hand.
  `Matches` scans the string. `PatternMatches` reads the expression piece by
  piece. They are proved equal.
- `validation.dfy` (module `Validation`): the messages, the error record, one
  pure rule per field, and `ValidationErrors`, the error record as the rules
  define it field by field. The source's `if` statements are small methods
  that update the error record. `Validate` runs them in the source's order;
  the hobby `forEach` is a loop. `Validate` is proved to return exactly
  `ValidationErrors`.
- `properties.dfy` (module `ValidationProperties`): what the validator
  promises, stated about `ValidationErrors`.

Modelling choices:

- The error record has the type `Partial<Record<keyof FormValues, …>>`. It is
  modelled as a datatype with one `Option` slot per field; `None` is an
  absent key and `NoErrors` is `{}`.
- JavaScript truthiness is written out. A string is falsy when it is
  `undefined` or `''` (`Filled`). An age is falsy when it is `undefined` or
  `0`. Terms are accepted only when `true`. An interests list is falsy only
  when it is `undefined`.
- `age` is the number produced by the field's own parser. `None` stands for
  both `undefined` and `NaN`, because both are falsy and take the same branch.
- `errors.hobbies` as an array is a sparse JavaScript array. It is modelled as
  `seq<Option<HobbyError>>`, where `None` is a hole. Storing at an index past
  the end grows the array (`StoreAt`). So the array ends at the last hobby
  without a name, not at the end of the list.
- The `i` flag without `u` folds only ASCII letters, so `[A-Z]` means the 52
  ASCII letters.
- The form offers three genders (radio buttons, rfform.tsx:270-316) and five
  countries (a select, rfform.tsx:398-404), but `validate` only checks that
  the field is truthy (60-62, 68-70). The model follows the code: any
  non-empty string passes.

## Model

| member | source | states |
|---|---|---|
| `Validation.Validate` | src/app/react-final-form/rfform.tsx:31-96 | Starting from `{}` and applying every rule in the source's order (including the hobby loop) yields exactly the field-by-field error record `ValidationErrors` |
| `Validation.CheckFilled` | src/app/react-final-form/rfform.tsx:34-40 | The required-only rule (firstName, lastName; also gender at 60-62 and country at 68-70) sets the key to its fixed message exactly when the field is falsy, and changes nothing else |
| `Validation.CheckEmail` | src/app/react-final-form/rfform.tsx:42-46 | The e-mail key becomes "required" for a falsy address, "invalid" for one the pattern refuses, and stays absent otherwise; no other key changes |
| `Validation.CheckPassword` | src/app/react-final-form/rfform.tsx:48-52 | The password key becomes "required" when falsy, "too short" below 6 characters, absent otherwise; no other key changes |
| `Validation.CheckAge` | src/app/react-final-form/rfform.tsx:54-58 | The age key becomes "required" when the age is missing or 0, the minimum-age message below 18, absent otherwise; no other key changes |
| `Validation.CheckInterests` | src/app/react-final-form/rfform.tsx:64-66 | The interests key gets its message when the list is missing or empty; no other key changes |
| `Validation.CheckTerms` | src/app/react-final-form/rfform.tsx:72-74 | The terms key gets its message unless terms are `true`; no other key changes |
| `Validation.CheckBio` | src/app/react-final-form/rfform.tsx:76-80 | The bio key becomes "tell about yourself" when falsy, "more detail" below 10 characters, absent otherwise; no other key changes |
| `Validation.CheckHobbies` | src/app/react-final-form/rfform.tsx:82-93 | The loop over a non-empty list, which lazily creates the array and stores `{name: msg}` at each unnamed hobby's index, ends with the per-index array `HobbyErrorArray`, or no key when every hobby is named; a missing or empty list gets the message |
| `Validation.HobbyErrorArrayStep` | src/app/react-final-form/rfform.tsx:85-91 | One more hobby leaves the per-index array unchanged when it is named and stores an entry at its index when it is not: the invariant the loop keeps |
| `Validation.StoreAt` | src/app/react-final-form/rfform.tsx:89 | `a[index] = x` on a JavaScript array: the element is at `index`, earlier elements are kept, the gap is holes, the length is `max(length, index + 1)` |
| `Validation.LastMissing` | src/app/react-final-form/rfform.tsx:85-91 | The index of the last hobby without a name, or -1: that hobby has no name and every later one has |
| `Validation.Set` | src/app/react-final-form/rfform.tsx:32-35 | Assigning one key of the error record sets that key and leaves every other key as it was |
| `Validation.SameKeysSameRecord` | src/app/react-final-form/rfform.tsx:32 | Two error records agreeing under every key are equal: the record is determined by its keys |
| `EmailPattern.Matches` | src/app/react-final-form/rfform.tsx:44 | The test `EmailError` and `CheckEmail` call; an accepted address has at least 6 characters and neither starts nor ends with `@` (its exact language is stated by `MatchesIffPattern`) |
| `EmailPattern.DomainMatches` | src/app/react-final-form/rfform.tsx:44 | The `[A-Z0-9.-]+\.[A-Z]{2,}$` part; an accepted domain has at least 4 characters and does not end with a dot |
| `EmailPattern.LastIndexOf` | src/app/react-final-form/rfform.tsx:44 | The last index holding a character, or -1: it holds the character and no later index does |
| `EmailPattern.MatchesIffPattern` | src/app/react-final-form/rfform.tsx:44 | The hand-written scan accepts exactly the strings of the form local `@` domain `.` tld, with a non-empty local part over `[A-Z0-9._%+-]`, a non-empty domain over `[A-Z0-9.-]` and a tld of at least two letters, case-insensitively |
| `EmailPattern.MatchesImpliesPattern` | src/app/react-final-form/rfform.tsx:44 | Every address the scan accepts splits as the expression requires |
| `EmailPattern.PatternImpliesMatches` | src/app/react-final-form/rfform.tsx:44 | Every split the expression admits is the one the scan finds (the last `@`, then the last dot), so the scan accepts it |
| `EmailPattern.MatchedAddressHasOneAt` | src/app/react-final-form/rfform.tsx:44 | An accepted address contains exactly one `@` |
| `EmailPattern.AcceptedExamples` | src/app/react-final-form/rfform.tsx:44 | `a@b.co` and the upper-case `A.B@C-D.RU` are accepted |
| `EmailPattern.RefusedExamples` | src/app/react-final-form/rfform.tsx:44 | `a@b` (no dot in the domain) and `a@b.c` (one-letter tld) are refused |
| `Form.PushHobby` | src/app/react-final-form/rfform.tsx:500 | "Add hobby" appends one blank hobby (empty name, level beginner) after the unchanged list |
| `Form.RemoveHobby` | src/app/react-final-form/rfform.tsx:484-488 | Remove deletes the entry at its index and keeps the others in order; at length 1 the button is disabled and the list is unchanged |
| `Form.Step` | src/app/react-final-form/rfform.tsx:442-505 | One action on the list. Add appends a blank hobby after the unchanged list. Remove deletes the entry at its index and keeps the others in order, unless the list has one entry or the index is not in the list; then nothing changes. Typing a name or choosing a level sets that field of that entry and leaves its other field and every other entry unchanged |
| `Form.Run` | src/app/react-final-form/rfform.tsx:442-505 | Applies the actions in order; its contract states only that the list gains at most one entry per action (non-emptiness is `RunKeepsNonEmpty`) |
| `Form.RunKeepsNonEmpty` | src/app/react-final-form/rfform.tsx:484-505 | No sequence of actions (add, remove, typing a name or level) empties a non-empty hobby list |
| `Form.HobbiesNeverEmpty` | src/app/react-final-form/rfform.tsx:103-109 | The form starts with one blank hobby, and its hobby list stays non-empty whatever the user does |
| `ValidationProperties.RequiredFieldsOutcome` | src/app/react-final-form/rfform.tsx:34-40 | firstName, lastName, gender and country hold their fixed message exactly when the field is `undefined` or `''` (gender 60-62, country 68-70), and are absent otherwise |
| `ValidationProperties.TermsAndInterestsOutcome` | src/app/react-final-form/rfform.tsx:64-74 | Terms get their message unless `true`; interests get theirs unless the list holds at least one item |
| `ValidationProperties.EmailOutcome` | src/app/react-final-form/rfform.tsx:42-46 | Empty e-mail gives "required", a non-empty one the regular expression does not match gives "invalid", a matching one no key |
| `ValidationProperties.PasswordOutcome` | src/app/react-final-form/rfform.tsx:48-52 | Empty password gives "required", 1 to 5 characters "too short", 6 or more no key |
| `ValidationProperties.AgeOutcome` | src/app/react-final-form/rfform.tsx:54-58 | Missing or 0 gives "required", any other value below 18 the minimum-age message, 18 or more no key, with no upper bound |
| `ValidationProperties.BioOutcome` | src/app/react-final-form/rfform.tsx:76-80 | Empty bio gives "tell about yourself", 1 to 9 characters "more detail", 10 or more no key |
| `ValidationProperties.HobbiesOutcome` | src/app/react-final-form/rfform.tsx:82-93 | Missing or empty list gives the message; for a non-empty list the key is absent exactly when every hobby is named, otherwise it is an array with an entry at exactly the unnamed hobbies' indices and nothing at any other index |
| `ValidationProperties.UncheckedFields` | src/app/react-final-form/rfform.tsx:31-95 | newsletter, color and date never produce an error |
| `ValidationProperties.LastMissingByNames` | src/app/react-final-form/rfform.tsx:85-91 | The last unnamed hobby and the per-index array depend on the hobbies' names only |
| `ValidationProperties.EachKeyReadsItsOwnField` | src/app/react-final-form/rfform.tsx:31-95 | Each key depends only on its own field; for hobbies only on the names, never on the levels |
| `ValidationProperties.EmptyIffAcceptable` | src/app/react-final-form/rfform.tsx:31-96 | The error record is `{}` exactly when the record satisfies every rule read as a requirement (e-mail matching the expression itself) |
| `ValidationProperties.InitialValuesErrors` | src/app/react-final-form/rfform.tsx:103-109 | The whole error record for the initial values: gender, country, newsletter, color and date have no key; firstName, lastName, email, password and age are "required"; interests, terms and bio have their messages; the blank hobby gets its entry at index 0 |
| `ValidationProperties.PushedHobbyIsFlagged` | src/app/react-final-form/rfform.tsx:500 | After "add hobby" the array holds an entry at the new index, and the earlier entries follow the earlier hobbies' names |
| `ValidationProperties.ClickedListNeverEmptyMessage` | src/app/react-final-form/rfform.tsx:484-505 | Starting from the initial values, no sequence of actions leads to the "add at least one hobby" message: the key is absent (every hobby named) or the per-index array |
| `ValidationProperties.NamingTheHobbyClearsItsError` | src/app/react-final-form/rfform.tsx:445-468 | Typing a name into the initial blank hobby leaves no hobbies key, so the first case above is reachable |

## Left out

- The form's rendering, CSS classes, the display of messages for touched fields, and the JSON preview (rfform.tsx:113-589) are user interface.
- `onSubmit` (rfform.tsx:98-101) only logs and shows an alert, which is I/O.
- The library's own behaviour is not modelled: field registration, subscriptions, the array mutators, the submit gating on `submitting || pristine`, and `form.reset()`, which restores the initial values. Push and remove are modelled as a plain append and a plain delete-at-index, and typing into a hobby's inputs as replacing that entry's name or level.
- The age field's parser (`parseInt`, rfform.tsx:212) is not modelled; the model starts from the parsed number, with `NaN` folded into `None`.
- src/app/react-hook-form/rhform.tsx is not part of this model: its rules are declarative objects interpreted by the react-hook-form library. Unlike `validate`, it also limits age to at most 100.
- CheckPassword: lengths count Unicode characters, while JavaScript's `length` counts UTF-16 code units; the two differ for characters outside the Basic Multilingual Plane.
- CheckBio: the same difference in counting length as for CheckPassword.
- Message texts are kept as tags; `Validation.Text` gives the words, and no property depends on them.
