# School directory and onboarding flow, modelled in Dafny

This project models the client-side logic of an educational onboarding site.

- **School directory** (`src/utils/schoolData.tsx`). It parses the school registry file, a positional comma-separated text with a header line. It searches the parsed records case-insensitively by UDISE code, school name or district, returning at most ten. It looks a record up by exact UDISE code. The UDISE code is the school's registry identifier.
- **Student registration form** (`src/components/StudentRegistration.tsx`). The UDISE field searches from three characters on. At exactly eleven characters it auto-fills school and district from the directory. Choosing a search result fills the same fields. Submit requires five fields.
- **Sign-in flow** (`src/components/AuthFlow.tsx`). It has three steps: `login`, `otp` and `userType`. OTP is the one-time code. Google sign-in skips straight to the last step.
- **Page router** (`src/pages/Index.tsx`). It switches between the home, sign-in, registration and dashboard screens. It remembers the chosen role and the submitted registration, and derives the dashboard greeting.

Every handler is a pure function from a state record to the next state. The state updates run in source order. Toasts and parent callbacks come back as emitted values (`Effect`, `Notice`, `SubmitOutcome`). For each state machine, `Enabled` says which events the rendered screen can deliver. `Inv` is an invariant that every enabled event preserves, and `Run` folds a sequence of events.

Modules:

- `Wrappers`: `Option`.
- `Text`: `trim`, `toLowerCase`, `includes`, `split`/`join`.
- `Seqs`: `filter`, `map`, `slice(0, n)` and the subsequence relation.
- `SchoolData`, `StudentRegistration`, `AuthFlow`, `IndexPage`: one module per source file.

Strings are `seq<char>`. `trim` removes the six ASCII whitespace characters. `toLowerCase` folds `A`–`Z` only.

## Model

| member | source | states |
|---|---|---|
| Text.Trim | src/utils/schoolData.tsx:21-27 | The result has no whitespace at either end. It is empty exactly when the input is all whitespace. It is the input's middle slice, with a whitespace-only prefix and suffix removed. |
| Text.TrimIdempotent | src/utils/schoolData.tsx:21-27 | Trimming an already trimmed value changes nothing. |
| Text.ContainsIffOccurs | src/utils/schoolData.tsx:40-42 | The `includes` scan succeeds exactly when some slice of the text equals the query. |
| Text.ToLowerKeepsBlankness | src/utils/schoolData.tsx:35-37 | A query is blank exactly when its lower-cased form is blank. |
| Text.Split | src/utils/schoolData.tsx:13 | Splitting yields at least one piece, even for the empty text. No piece contains the separator. Joining the pieces with the separator restores the text. |
| Text.SplitJoin | src/utils/schoolData.tsx:19 | Splitting a join of separator-free pieces returns exactly those pieces. |
| Text.SplitAppend | src/utils/schoolData.tsx:13 | Splitting `a + sep + b` gives the pieces of `a` followed by the pieces of `b`. |
| SchoolData.ParseLine | src/utils/schoolData.tsx:18-29 | Every field of a parsed record is comma-free and has no surrounding whitespace. |
| SchoolData.ParseLineColumns | src/utils/schoolData.tsx:19-28 | Column i of a line is value i, trimmed. A missing column is `""`. Values past the seventh are ignored. |
| SchoolData.ExtraColumnsIgnored | src/utils/schoolData.tsx:19-28 | Appending a column to a line that already has seven leaves its record unchanged. |
| SchoolData.ParseFormatLine | src/utils/schoolData.tsx:18-29 | Parsing a written line of clean fields returns the record. |
| SchoolData.ParseSchoolsCSV | src/utils/schoolData.tsx:12-31 | There are at most (number of lines − 1) records. Every record has a non-empty UDISE code. The result is an order-preserving subsequence of the parsed lines after the first. |
| SchoolData.BlankLineHasNoCode | src/utils/schoolData.tsx:17-30 | An empty or whitespace-only line never yields a record, because its third column is blank too. |
| SchoolData.ParseKeepsRecordLines | src/utils/schoolData.tsx:16-30 | The directory is exactly the parsed data lines whose UDISE column is non-blank, in line order. |
| SchoolData.HeaderIgnored | src/utils/schoolData.tsx:13-16 | The first line, whatever it holds, has no influence on the result. |
| SchoolData.ParseFormatCSV | src/utils/schoolData.tsx:12-31 | Round trip: writing well-formed records under any header and parsing them back returns the same records. |
| SchoolData.SearchSchools | src/utils/schoolData.tsx:34-44 | There are at most 10 results, and none for a blank query. The results keep directory order. Each result's lower-cased code, name or district contains the lower-cased, untrimmed query. |
| SchoolData.SearchTakesFirstMatches | src/utils/schoolData.tsx:39-43 | A matching record with fewer than ten matches before it is returned, at the position equal to that count. No match is skipped before the cap. |
| SchoolData.SearchCompleteBelowCap | src/utils/schoolData.tsx:39-43 | With at most ten matches, every matching record is returned. |
| SchoolData.SearchSaturates | src/utils/schoolData.tsx:43 | With ten or more matches, exactly ten records are returned. |
| SchoolData.SearchCaseInsensitive | src/utils/schoolData.tsx:35-42 | Queries equal after lower-casing give identical results. |
| SchoolData.GetSchoolByUDISE | src/utils/schoolData.tsx:47-49 | The result is none exactly when no record's code equals the key. Otherwise it is a directory record whose code equals the key exactly. |
| SchoolData.LookupReturnsFirst | src/utils/schoolData.tsx:47-49 | The lookup returns the earliest record that carries the key. |
| SchoolData.ParsedLookupOfEmptyCode | src/utils/schoolData.tsx:30-48 | A parsed directory never answers a lookup for the empty code. |
| StudentRegistration.InitialForm | src/components/StudentRegistration.tsx:37-47 | Every field is empty except state `Odisha` and medium `English`. Both are options their selectors offer. |
| StudentRegistration.Mount | src/components/StudentRegistration.tsx:34-47 | The component starts with an empty directory, no results and the initial form. |
| StudentRegistration.SchoolsLoaded | src/components/StudentRegistration.tsx:50-70 | Loading changes only the directory. A failed load leaves it as it was. A successful load sets it to the parsed file, whose records all have a code. |
| StudentRegistration.HandleUDISESearch | src/components/StudentRegistration.tsx:73-96 | Afterwards `udiseCode` is the typed entry, and the student fields are unchanged. Results are empty below three characters or with an empty directory. An eleven-character code that exists auto-fills school and district from a record with that code and clears the results. Otherwise school and district are unchanged, and the results are the search results. |
| StudentRegistration.AutoFillTakesFirstMatch | src/components/StudentRegistration.tsx:84-95 | Auto-fill copies the earliest directory record carrying the typed code. |
| StudentRegistration.HandleSchoolSelect | src/components/StudentRegistration.tsx:99-107 | School, district and code come from the chosen record. The results are cleared. All other fields are unchanged. |
| StudentRegistration.SetField | src/components/StudentRegistration.tsx:153-282 | An input's change handler sets exactly its own field to the typed value. Every other field, including the UDISE code, keeps its value. |
| StudentRegistration.HandleSubmit | src/components/StudentRegistration.tsx:110-129 | Submit completes, with the form itself, exactly when first name, last name, grade, date of birth and UDISE code are all non-empty. |
| StudentRegistration.SubmitIgnoresOptionalFields | src/components/StudentRegistration.tsx:114 | School, district, state and medium have no effect on whether submit completes. |
| StudentRegistration.InitialFormRejected | src/components/StudentRegistration.tsx:37-121 | The untouched form is rejected with the missing-information outcome. |
| StudentRegistration.TypedCodeSatisfiesSubmit | src/components/StudentRegistration.tsx:73-121 | Any non-empty UDISE entry satisfies the code requirement, whether or not the directory knows it. |
| StudentRegistration.StepPreservesInv | src/components/StudentRegistration.tsx:72-107 | Every event the screen offers keeps the invariant. The invariant: at most ten results, forming a subsequence of the directory, and every directory record has a code. |
| StudentRegistration.RunPreservesInv | src/components/StudentRegistration.tsx:72-107 | Any run of offered events keeps the invariant. |
| StudentRegistration.MountSatisfiesInv | src/components/StudentRegistration.tsx:34-35 | The freshly mounted component satisfies the invariant. |
| StudentRegistration.FillingComesFromDirectory | src/components/StudentRegistration.tsx:84-107 | After choosing a result or auto-filling, the form's school, district and code are one directory record's. |
| AuthFlow.Initial | src/components/AuthFlow.tsx:17-20 | The flow starts on `login` with the email tab and empty contact and code. |
| AuthFlow.SendOtp | src/components/AuthFlow.tsx:22-41 | With empty contact details, nothing changes and a missing-information toast is shown. Otherwise the step becomes `otp` and an OTP-sent toast is shown. |
| AuthFlow.SendOtpGuard | src/components/AuthFlow.tsx:25-40 | From `login`, sending moves to `otp` exactly when contact details are present, and otherwise stays on `login`. |
| AuthFlow.VerifyOtp | src/components/AuthFlow.tsx:43-62 | A code of length other than six changes nothing and shows an invalid-OTP toast. A six-character code moves to `userType`. |
| AuthFlow.VerifyOtpGuard | src/components/AuthFlow.tsx:46-61 | From `otp`, verifying moves on exactly when the code has six characters, and otherwise stays on `otp`. |
| AuthFlow.VerifyIgnoresContent | src/components/AuthFlow.tsx:46-61 | Any two six-character codes both pass. |
| AuthFlow.GoogleAuth | src/components/AuthFlow.tsx:73-80 | Google sign-in moves to `userType` unconditionally and keeps everything else. |
| AuthFlow.SelectUserType | src/components/AuthFlow.tsx:64-71 | Choosing a type emits the success callback with that same type. The state does not change. |
| AuthFlow.OtpInput | src/components/AuthFlow.tsx:180-189 | The code input keeps at most six characters, a prefix of what was entered. |
| AuthFlow.MethodSwitchKeepsContact | src/components/AuthFlow.tsx:119-146 | Switching between the email and phone tabs keeps the typed contact details and the step. |
| AuthFlow.BackToLoginReturnsToLogin | src/components/AuthFlow.tsx:196-261 | "Back to Login" is offered only on `otp` and `userType`, and it returns to `login`. |
| AuthFlow.StepPreservesInv | src/components/AuthFlow.tsx:85-264 | Offered actions keep the invariant: on `otp` the contact details are non-empty, and the stored code has at most six characters. |
| AuthFlow.RunPreservesInv | src/components/AuthFlow.tsx:85-264 | Any run of offered actions keeps the invariant. |
| AuthFlow.SuccessOnlyFromRoleChoice | src/components/AuthFlow.tsx:211-251 | The success callback is emitted only on `userType`, by choosing that role. |
| AuthFlow.OtpReachedOnlyBySend | src/components/AuthFlow.tsx:22-41 | A run from `login` that ends on `otp` contains a contact submission. |
| AuthFlow.OtpUnreachableFromUserType | src/components/AuthFlow.tsx:211-261 | From `userType`, reaching `otp` also requires a contact submission, made after going back to login. |
| IndexPage.Initial | src/pages/Index.tsx:14-16 | The page starts on `home` with no role and no registration. |
| IndexPage.GetStarted | src/pages/Index.tsx:18-20 | Get-started moves to `auth` and keeps role and registration. |
| IndexPage.AuthSucceeded | src/pages/Index.tsx:22-33 | The role is recorded. A student moves to `registration`. A teacher stays on the current screen with a coming-soon notice. |
| IndexPage.RegistrationComplete | src/pages/Index.tsx:35-38 | The submitted form is stored, and the page moves to `dashboard`. |
| IndexPage.GradeSelect | src/pages/Index.tsx:40-46 | Choosing a grade changes no state and emits only a notice. |
| IndexPage.BackToHome | src/pages/Index.tsx:48-52 | Back-to-home resets all three variables to their initial values. |
| IndexPage.BackToHomeIdempotent | src/pages/Index.tsx:48-52 | Going home twice equals going home once. |
| IndexPage.UserName | src/pages/Index.tsx:84 | With a registration, the name is the first name, one space, then the last name. Otherwise it is `Student`. |
| IndexPage.StepPreservesInv | src/pages/Index.tsx:55-87 | Offered callbacks keep the router invariant. Home holds nothing. Sign-in holds no registration. Registration belongs to a student. The dashboard holds a student's submitted registration. |
| IndexPage.RunPreservesInv | src/pages/Index.tsx:55-87 | Any run of offered callbacks keeps the router invariant. |
| IndexPage.DashboardGreetsStudent | src/pages/Index.tsx:78-85 | On any reachable dashboard, the greeting is the student's own name and never the default. |

## Left out

- The asynchronous fetch of the registry file (`src/components/StudentRegistration.tsx:50-70`) is I/O. Only its result is modelled, as the `fetched` parameter of `SchoolsLoaded`: the response body, or nothing when fetching or reading failed. `fetch` does not fail on an error status, so an error page's body is parsed like any other text.
- `isLoadingSchools` is set but never read by the component, so it is not modelled.
- The unused `headers` variable (`src/utils/schoolData.tsx:14`) is not modelled.
- Rendering, CSS, icons and the toast UI are not modelled. Toasts appear only as emitted tags in the sign-in flow, the router and the submit outcome.
- The warning toast shown when the registry file cannot be loaded (`src/components/StudentRegistration.tsx:61-65`) is not modelled. `SchoolsLoaded` returns only the next state.
- `src/components/Header.tsx`, `src/components/HeroSection.tsx` and `src/components/GradeSelection.tsx` are not modelled. They only forward clicks to the router's callbacks, which are modelled as router events.
- `Text.Trim`: recognises only the six ASCII whitespace characters. JavaScript's `trim` also removes Unicode spaces such as U+00A0 and U+FEFF.
- `Text.ToLower`: folds only `A`–`Z`. JavaScript's `toLowerCase` also folds non-ASCII letters.
- JavaScript measures string length in UTF-16 code units. Here a string is a sequence of characters, so the 3- and 11-character thresholds count characters.
- React batches state updates. Each handler is modelled as its `setState` calls applied one after another in source order.
- Each change handler is assumed to read the typed value correctly.
- The browser's built-in form validation is deliberately not modelled. Neither form sets `noValidate`, so the browser blocks a submit before any handler runs in these cases:
  - a `required` input is empty: first name, last name, date of birth, UDISE code, contact details or code;
  - the email tab holds a malformed address.

  The `Enabled` predicates therefore allow more submits than the browser delivers. In the browser, the handlers' empty-field branches are reachable only through the Grade selector, which is not a native input.
- `AuthFlow.OtpInput` models the browser's `maxLength` limit on the code input as keeping the first six characters.
- The School Name and District inputs are read-only while they hold a value. `StudentRegistration.EditEnabled` models this as a guard on manual edits: those inputs accept an edit only while empty.
