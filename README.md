# Waitlist page: validation and submission, modelled in Dafny

The waitlist landing page collects a signup (full name, email address, LinkedIn
profile URL), checks it on the client and simulates sending it. This project
models the part of the page that has behaviour:

- the two field validators, `validateEmail` (the regular expression
  `^[^\s@]+@[^\s@]+\.[^\s@]+$`) and `validateLinkedIn` (a substring test for
  `"linkedin.com/"`), in module `Validators` (`validators.dfy`);
- the page's submission controller, in module `WaitlistPage`
  (`waitlist_page.dfy`). Class `Page` holds the form record, the `submitted`
  and `loading` flags, the number of simulated calls still outstanding, and a
  log of the toasts shown. `Submit` is the synchronous part of `handleSubmit`:
  the three checks in order, then the start of loading. `Complete(ok)` stands
  for the awaited call resolving (`ok`) or rejecting (`!ok`), followed by its
  `finally` block. Three `Edit…` methods model the inputs' `onChange` handlers;
- the reusable form component, in module `WaitlistFormComponent`
  (`waitlist_form.dfy`). Class `WaitlistForm` holds the form-data record and
  the parent's `error` and `isLoading` props. `HandleInputChange` replaces one
  named field. `HandleSubmit` hands the record to the parent's `onSubmit`
  callback, which the model records as a log.

The regular expression is stated literally as a decomposition of the whole
string (`ValidateEmail`, `EmailSplit`) and proved equal to a counted
characterisation (`EmailShape`): no whitespace, exactly one `@`, a non-empty
part before it, and after it a `.` that is neither first nor last. The whitespace
class is ECMAScript's `\s`: the WhiteSpace and LineTerminator code points.
`validateLinkedIn` is a left-to-right scan like `String.prototype.includes`
(`Includes`). It is proved equal to the plain occurrence definition (`Occurs`).

Three details of the code shape the model:
- The failure toast is "Something went wrong. Please try again."
- The page keeps no `error` state. Errors are only toasted.
- The page checks a LinkedIn URL. The form component has a startup-name field
  and runs no checks of its own.

## Model

| member | source | states |
|---|---|---|
| Validators.IsJsSpace | src/pages/Index.tsx:28 | definition of the `\s` class: ECMAScript's WhiteSpace and LineTerminator code points; the contract states that neither `@` nor `.` is one, and that all lie below U+10000 |
| Validators.ValidateEmail | src/pages/Index.tsx:28 | definition of `validateEmail`: some split of the whole string is accepted by the pattern; the contract states that an accepted address has at least 5 characters and neither starts nor ends with `@` |
| Validators.EmailSplit | src/pages/Index.tsx:28 | definition of one accepted split; the contract states that the string is then exactly local + `"@"` + domain + `"."` + tld, cut at the two given positions |
| Validators.EmailCharacterised | src/pages/Index.tsx:28 | the email pattern accepts a string iff it has no `\s` character, exactly one `@`, a non-empty part before it, and after it a `.` that is neither first nor last |
| Validators.SplitGivesShape | src/pages/Index.tsx:28 | any split the pattern accepts (local `@` domain `.` tld, all from `[^\s@]`) gives a string of that counted shape |
| Validators.ShapeGivesSplit | src/pages/Index.tsx:28 | every string of the counted shape has a split the pattern accepts, with the `@` at its first `@` |
| Validators.EmailRejectsSpace | src/pages/Index.tsx:28 | a string holding any `\s` character is rejected |
| Validators.EmailRejectsNoAt | src/pages/Index.tsx:28 | a string with no `@` is rejected |
| Validators.EmailRejectsManyAt | src/pages/Index.tsx:28 | a string with two or more `@` is rejected |
| Validators.EmailExamples | src/pages/Index.tsx:28 | "a@b.co" is accepted; "a@b", "ab.com" and "a@b@c.d" are rejected |
| Validators.Includes | src/pages/Index.tsx:29 | definition of `String.prototype.includes` as a left-to-right scan; the contract states that a pattern longer than the text is never found and the empty pattern always is |
| Validators.ValidateLinkedIn | src/pages/Index.tsx:29 | definition of `validateLinkedIn` as `includes("linkedin.com/")`; the contract states that an accepted URL is at least as long as the marker |
| Validators.IncludesIff | src/pages/Index.tsx:29 | the left-to-right `includes` scan finds `p` in `s` iff `p` occurs in `s` at some position |
| Validators.LinkedInCharacterised | src/pages/Index.tsx:29 | a URL is accepted iff `"linkedin.com/"` occurs in it as a contiguous substring |
| Validators.LinkedInExtend | src/pages/Index.tsx:29 | adding text before or after an accepted URL keeps it accepted |
| Validators.LinkedInAcceptsProfile | src/pages/Index.tsx:29 | "https://linkedin.com/in/x" is accepted |
| Validators.LinkedInRejectsOtherSite | src/pages/Index.tsx:29 | "https://example.com" is rejected |
| WaitlistPage.Passes | src/pages/Index.tsx:43-53 | definition, no contract: the name check passes on a non-empty name, the email check on `ValidateEmail`, the LinkedIn check on `ValidateLinkedIn` |
| WaitlistPage.ErrorText | src/pages/Index.tsx:44-52 | definition, no contract: the three error messages, one per check |
| WaitlistPage.ErrorTextsDistinct | src/pages/Index.tsx:44-52 | different checks have different messages |
| WaitlistPage.FirstFailure | src/pages/Index.tsx:43-54 | no check is reported iff the form passes all three checks; a reported check is one the form fails |
| WaitlistPage.FirstFailureIsEarliest | src/pages/Index.tsx:43-54 | the reported check is the `i`-th of name, email, LinkedIn iff that check fails and every earlier one passes |
| WaitlistPage.EmptyNameReportedFirst | src/pages/Index.tsx:43-46 | an empty name is reported, as "Please enter your name", whatever the other fields hold |
| WaitlistPage.BadEmailReported | src/pages/Index.tsx:47-50 | with a name given, any email the pattern rejects is reported, as "Please enter a valid email", whatever the LinkedIn field holds |
| WaitlistPage.Page.constructor | src/pages/Index.tsx:32-38 | a new page has an empty form, is neither submitted nor loading, has no call outstanding and no toast |
| WaitlistPage.Page.EditFullName | src/pages/Index.tsx:192 | the name input replaces the name field; email and LinkedIn keep their values; nothing else changes |
| WaitlistPage.Page.EditEmail | src/pages/Index.tsx:199 | the email input replaces the email field; name and LinkedIn keep their values; nothing else changes |
| WaitlistPage.Page.EditLinkedIn | src/pages/Index.tsx:206 | the LinkedIn input replaces the LinkedIn field; name and email keep their values; nothing else changes |
| WaitlistPage.Page.Submit | src/pages/Index.tsx:40-56 | a failing check toasts that check's message (the first failing one) and leaves `loading`, `submitted`, the form and the outstanding calls unchanged; if all checks pass, `loading` becomes true and one more call is outstanding, with no toast; `loading` implies a call is outstanding before and after |
| WaitlistPage.Page.Complete | src/pages/Index.tsx:58-67 | resolving a call sets `submitted` and toasts the success message; rejecting leaves `submitted` as it was and toasts the failure message; on both paths `loading` ends false and one call fewer is outstanding; `submitted` never goes from true to false |
| WaitlistPage.Page.Render | src/pages/Index.tsx:153-216 | the welcome card is shown iff `submitted`; otherwise the form shows the current record, its button disabled iff `loading`, labelled "Processing..." while loading and "Join Waitlist" otherwise |
| WaitlistPage.EmptyNameInteraction | src/pages/Index.tsx:43-46 | submitting a fresh page with an empty name toasts only the name error and leaves the page neither loading nor submitted; the page returned is new |
| WaitlistPage.JoinInteraction | src/pages/Index.tsx:56-62 | with valid name, email and URL, once the call resolves the page is submitted, not loading, shows the welcome card and has toasted only the success message; the page returned is new (the intermediate state, `loading` on and the button disabled, is asserted in the body; `Submit`'s contract promises it) |
| WaitlistPage.FailedJoinInteraction | src/pages/Index.tsx:58-67 | when the call rejects, the page is not submitted, not loading, shows an enabled form and has toasted only the failure message; the page returned is new |
| WaitlistFormComponent.WithField | src/components/waitlist/WaitlistForm.tsx:27 | the updated record holds `v` in field `n`, and every other field keeps its value |
| WaitlistFormComponent.WithFieldSameValue | src/components/waitlist/WaitlistForm.tsx:27 | writing a field's own value back leaves the record unchanged |
| WaitlistFormComponent.WithFieldIdempotent | src/components/waitlist/WaitlistForm.tsx:27 | applying the same change twice gives the same record as applying it once |
| WaitlistFormComponent.WithFieldLastWins | src/components/waitlist/WaitlistForm.tsx:27 | of two changes to one field, the later one decides the record |
| WaitlistFormComponent.WithFieldCommutes | src/components/waitlist/WaitlistForm.tsx:27 | changes to two different fields give the same record in either order |
| WaitlistFormComponent.WaitlistForm.constructor | src/components/waitlist/WaitlistForm.tsx:18-23 | a new form has full name, email and startup name all empty, holds the given props, and has submitted nothing |
| WaitlistFormComponent.WaitlistForm.ReceiveProps | src/components/waitlist/WaitlistForm.tsx:18 | new props replace `error` and `isLoading` and leave the form's own record alone |
| WaitlistFormComponent.WaitlistForm.HandleInputChange | src/components/waitlist/WaitlistForm.tsx:25-28 | the named field now holds the typed value, and the other two fields keep theirs |
| WaitlistFormComponent.WaitlistForm.HandleSubmit | src/components/waitlist/WaitlistForm.tsx:30-33 | the current record is handed to onSubmit unchanged, and the record itself is not modified |
| WaitlistFormComponent.WaitlistForm.Render | src/components/waitlist/WaitlistForm.tsx:87-96 | the error paragraph is shown iff `error` is non-empty, and then shows `error`; the button is disabled iff `isLoading`, labelled "Joining..." while loading and "Join the Waitlist" otherwise |
| WaitlistFormComponent.FillAndSubmit | src/components/waitlist/WaitlistForm.tsx:25-33 | typing into each input of a fresh form and submitting hands exactly the typed record to onSubmit; the form returned is new |

## Left out

- Timing: the 1500 ms delay of the simulated call is not modelled. The wait is the split between `Submit` and `Complete(ok)`. Any number of calls may be outstanding, since nothing in `handleSubmit` itself prevents a second submit while loading.
- The toast library: a toast is recorded as its kind and text in the page's `toasts` log. Display and dismissal are not modelled.
- `e.preventDefault()`: the browser's default form submission is not modelled.
- The browser's own constraint validation (`type="email"`, `type="url"`, `required`), which can block the submit event before the handlers run, is not modelled.
- Strings are sequences of Unicode scalar values. JavaScript strings are UTF-16 code units, and the email pattern has no `u` flag. Every `\s` character lies in the Basic Multilingual Plane, so the two agree except on text containing lone surrogates.
- WaitlistPage.Page.EditFullName, EditEmail, EditLinkedIn: each handler spreads the `form` of the render it was created in, not the latest state. Two changes delivered before a re-render would lose the first. The model applies each change to the current record.
- WaitlistFormComponent.WaitlistForm.HandleInputChange: the field name is one of the three inputs' `name` attributes. A computed key outside them, which would add a new property to the record, is not modelled.
- WaitlistFormComponent.WaitlistForm.HandleSubmit: the promise returned by onSubmit, and what happens if it rejects, are not modelled. The parent's handling of the record belongs to the parent.
- The animation variants, layout and feature grid, the share button's `window.open` call, and the success card and particle background components (random floating-point animation and a browser call) are presentation only and are not modelled.
