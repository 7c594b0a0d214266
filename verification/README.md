# AI-HealthPal client: symptom checker, auth store and navigation bar in Dafny

This project models the three parts of the AI-HealthPal web client whose
behaviour can be stated precisely. It proves properties of each.

- **Symptom checker input** (`app/symptom-checker/page.tsx`).
  - `formatSymptoms` turns the free text into the list of symptoms that is posted.
  - `handleSubmit` runs its validation prefix, first failure wins: parseable age, age within 1..120, gender in the allowed set, non-blank symptom text.
  - The submit result is shown as a page-state transition, with the analysis service reduced to an abstract outcome.
  - Also modelled: the `handleChange` field update and the "Start New Analysis" reset.
  - The JavaScript primitives these rely on are modelled explicitly: `String.prototype.trim`, `replace(/\s+/g, ' ')`, `split(',')` and `parseInt` without a radix.
- **Auth store** (`stores/useAuthStore.ts`).
  - State: a single `user` slot, with `setUser` and `clearUser`.
  - Persistence follows zustand's `persist` middleware. Storage is a key-to-text map. Every change writes `{"state":{"user":…},"version":0}` under the key `healthPal`.
  - On start the store hydrates from that map. A missing or unreadable entry leaves it with no user.
  - The JSON text is written the way `JSON.stringify` writes strings and read back by a string-literal reader.
- **Navigation bar** (`components/navbar.tsx`).
  - Which menus and routes are shown, for no user and for each role.
  - The avatar's fallback initial.
  - The logout handler.

Modules:

| file | module | content |
|---|---|---|
| wrappers.dfy | `Wrappers` | `Option`, `Result` |
| text.dfy | `Text` | ECMAScript whitespace, `trim`, whitespace collapsing, `split`/`join` on one character |
| symptoms.dfy | `Symptoms` | `formatSymptoms` and a piece-by-piece reference definition |
| js_parse_int.dfy | `JsParseInt` | `parseInt(string)` with no radix |
| symptom_checker.dfy | `SymptomChecker` | form, `handleChange`, validation, `handleSubmit`, reset, page transitions |
| json.dfy | `Json` | JSON string quoting and reading |
| auth_store.dfy | `AuthStore` | store state, persisted text, storage map, hydration, action traces |
| navbar.dfy | `Navbar` | menus, routes, avatar initial, logout handler |

## Model

| member | source | states |
|---|---|---|
| Text.Trim | app/symptom-checker/page.tsx:50 | the result of `trim` is empty or has no whitespace at either end, and is no longer than its input |
| Text.TrimInside | app/symptom-checker/page.tsx:50 | `trim` removes an all-whitespace prefix and an all-whitespace suffix and keeps the middle of the text unchanged |
| Text.BlankIffAllWs | app/symptom-checker/page.tsx:68 | `!s.trim()` holds exactly for texts made only of whitespace |
| Text.Collapse | app/symptom-checker/page.tsx:50 | collapsing whitespace runs never lengthens the text and empties only the empty text |
| Text.CollapseRunBetween | app/symptom-checker/page.tsx:50 | a whitespace run between a visibly ending and a visibly starting part becomes exactly one space, and the parts collapse independently |
| Text.CollapseEnds | app/symptom-checker/page.tsx:50 | collapsing keeps a visible first or last character in place and turns a leading run into one space |
| Text.CollapseSingleSpaced | app/symptom-checker/page.tsx:50 | after `replace(/\s+/g, ' ')` every whitespace character is a plain space and no two are adjacent |
| Text.CollapseVisible | app/symptom-checker/page.tsx:50 | collapsing keeps every non-whitespace character, in order |
| Text.TrimCollapse | app/symptom-checker/page.tsx:50 | trimming and collapsing commute |
| Text.Split | app/symptom-checker/page.tsx:51 | `split(',')` yields at least one piece, no piece holds the separator, and joining the pieces restores the text |
| Text.SplitJoin | app/symptom-checker/page.tsx:51 | splitting undoes joining pieces that are free of the separator |
| Symptoms.TrimEach | app/symptom-checker/page.tsx:52 | `map(s => s.trim())` keeps the count and trims each piece in place |
| Symptoms.DropEmpty | app/symptom-checker/page.tsx:53 | `filter(s => s.length > 0)` keeps only non-empty pieces from its input, and keeps every non-empty one |
| Symptoms.DropEmptySingle | app/symptom-checker/page.tsx:53 | a single piece is kept exactly when it is non-empty |
| Symptoms.DropEmptyConcat | app/symptom-checker/page.tsx:53 | filtering a concatenation filters each part in place, so with DropEmptySingle the result is the non-empty pieces in their original order, repeats included |
| Symptoms.FormatSymptoms | app/symptom-checker/page.tsx:49-54 | every listed symptom is non-empty, has no whitespace at either end and holds no comma |
| Symptoms.FormatMatchesPieces | app/symptom-checker/page.tsx:49-54 | the list is exactly the non-blank comma-separated pieces of the raw text, each trimmed and single-spaced, in their original order |
| Symptoms.FormatElements | app/symptom-checker/page.tsx:50-53 | every listed symptom is trimmed, comma-free and single-spaced |
| Symptoms.FormatEmptyIffAllBlank | app/symptom-checker/page.tsx:49-54 | the list is empty exactly when every comma-separated piece is blank |
| Symptoms.OnlyCommas | app/symptom-checker/page.tsx:68-70 | the text ",,," passes the non-blank check but yields no symptom |
| Symptoms.PiecesIgnoreOuterWs | app/symptom-checker/page.tsx:50 | trimming the whole text first does not change the normalised pieces |
| Symptoms.SplitCollapse | app/symptom-checker/page.tsx:50-51 | splitting at commas commutes with collapsing whitespace |
| Symptoms.TrimAfterCollapse | app/symptom-checker/page.tsx:51-53 | trimming the collapsed pieces and dropping empty ones gives the normalised non-blank pieces |
| Symptoms.NormalizedTidy | app/symptom-checker/page.tsx:50-53 | every normalised piece is trimmed and single-spaced |
| JsParseInt.ParseInt | app/symptom-checker/page.tsx:62-63 | an empty or all-whitespace age never parses, so it is reported as not a number |
| JsParseInt.DigitRun | app/symptom-checker/page.tsx:62 | `parseInt` reads the longest run of digits at the front and stops at the first non-digit |
| JsParseInt.ParseDecimal | app/symptom-checker/page.tsx:62 | a decimal numeral parses to its number, and text after the digits is ignored |
| JsParseInt.ParseNegative | app/symptom-checker/page.tsx:62 | a leading minus sign negates the number read |
| JsParseInt.ParseSkipsLeadingWs | app/symptom-checker/page.tsx:62 | leading whitespace never changes the parsed age |
| SymptomChecker.HandleChange | app/symptom-checker/page.tsx:39-47 | the field named by the element id takes the new value and the other fields keep theirs; an unknown id changes no field |
| SymptomChecker.ChangeReadBack | app/symptom-checker/page.tsx:43-46 | after a change the field reads back the new value and every other field reads back its old value |
| SymptomChecker.ChangesCommute | app/symptom-checker/page.tsx:43-46 | changes to two different fields may be applied in either order |
| SymptomChecker.LastChangeWins | app/symptom-checker/page.tsx:43-46 | a second change to a field overwrites the first |
| SymptomChecker.Validate | app/symptom-checker/page.tsx:62-70 | a request is built exactly when the age parses and lies in 1..120, the gender is allowed and the symptom text is not blank; it carries the parsed age, the gender and the formatted symptoms; a rejection carries one of the four messages |
| SymptomChecker.ValidateIsFirstFailure | app/symptom-checker/page.tsx:62-68 | validation fails exactly when one of the four checks fails, and then with the message of the first failing check in the page's order |
| SymptomChecker.CommasPassValidation | app/symptom-checker/page.tsx:62-72 | a valid age, an allowed gender and the text ",,," lead to a request with an empty symptom list |
| SymptomChecker.RefusalText | app/symptom-checker/page.tsx:87-88 | the error shown for a refused request is the service's message when it sent a non-empty one, and 'An error occurred during analysis' when the message is missing or empty (the `||` fallback) |
| SymptomChecker.HandleSubmit | app/symptom-checker/page.tsx:56-97 | a request is posted exactly when validation passes; otherwise the first failure's message is shown and the old result stays; the error is cleared exactly when a posted request is answered; only an answer changes the result; an answer shows exactly the service's result; a refusal shows RefusalText of the service's message and keeps the old result; the form is untouched and loading ends |
| SymptomChecker.StartOver | app/symptom-checker/page.tsx:296-299 | the reset drops the result and empties all three fields, leaving loading flag and error alone |
| SymptomChecker.Step | app/symptom-checker/page.tsx:113-219 | while a result is shown only "Start New Analysis" acts, and while none is shown it does nothing; a result appears only through an answered submit, which clears the error; a result disappears only through the reset, which empties the form |
| SymptomChecker.StepSettled | app/symptom-checker/page.tsx:113-219 | no event leaves the page loading, or showing a result beside an error |
| SymptomChecker.RunSettled | app/symptom-checker/page.tsx:113-219 | every page reached by a sequence of events is settled |
| SymptomChecker.StartOverRestoresInitial | app/symptom-checker/page.tsx:30-37 | on a settled page with a result, the reset gives back the page's initial state |
| SymptomChecker.NewAnalysisAfterAnyRun | app/symptom-checker/page.tsx:294-299 | whatever the user did before, "Start New Analysis" on a shown result restores the initial page |
| Json.HexDigit | stores/useAuthStore.ts:26 | the hexadecimal digit written for a value reads back as that value |
| Json.EscapeChar | stores/useAuthStore.ts:26 | a character is copied unescaped exactly when it is not a quote, not a backslash and not a control character; otherwise it becomes a backslash escape |
| Json.QuoteString | stores/useAuthStore.ts:26 | a written string literal starts and ends with a quote |
| Json.ReadBodyEscape | stores/useAuthStore.ts:26 | the body of a written string literal reads back as the string and stops right after the closing quote |
| Json.ReadQuoted | stores/useAuthStore.ts:26 | reading a written string literal gives the string back, whatever text follows |
| AuthStore.Expect | stores/useAuthStore.ts:26 | a literal is matched exactly when the text starts with it, and the rest is what follows it |
| AuthStore.ReadWrittenObject | stores/useAuthStore.ts:26 | a written four-member object reads back as its four values and the text after it |
| AuthStore.ReadWrittenUserOrNull | stores/useAuthStore.ts:4-12 | a written user, or `null`, reads back as the same user or no user |
| AuthStore.DeserializeSerialize | stores/useAuthStore.ts:24-28 | the text `Serialize` writes for a slice (the `{"state":{"user":…},"version":0}` wrapper) reads back through `Deserialize` as that slice |
| AuthStore.Partialize | stores/useAuthStore.ts:27 | `partialize` loses no data: the state is rebuilt from the slice alone, because `user` is its only data field |
| AuthStore.Hydrate | stores/useAuthStore.ts:24-26 | start-up leaves storage as it is; with no readable entry under the key there is no user, otherwise the state is the stored slice |
| AuthStore.Commit | stores/useAuthStore.ts:19-27 | after a write the state is the new state, the key holds exactly its partialized form, and every other key is untouched |
| AuthStore.SetUser | stores/useAuthStore.ts:21 | `setUser` stores exactly the given user, persists it, and leaves other keys untouched |
| AuthStore.ClearUser | stores/useAuthStore.ts:22 | `clearUser` leaves no user, persists that, and leaves other keys untouched |
| AuthStore.FreshStartHasNoUser | stores/useAuthStore.ts:20 | a page started on empty storage has no user |
| AuthStore.ReloadRestores | stores/useAuthStore.ts:24-27 | reloading after a write restores exactly the state that was written |
| AuthStore.ReloadOfCorruptText | stores/useAuthStore.ts:26 | unreadable text under the key leaves the reloaded page with no user |
| AuthStore.CommitTwice | stores/useAuthStore.ts:19-23 | a second write replaces the first entirely; the store keeps no history |
| AuthStore.ClearUserIdempotent | stores/useAuthStore.ts:22 | clearing twice is the same as clearing once |
| AuthStore.SetUserOverwrites | stores/useAuthStore.ts:21 | `setUser` replaces the user wholesale; the earlier user leaves no trace |
| AuthStore.SetThenClear | stores/useAuthStore.ts:21-22 | `setUser` then `clearUser` is the same as `clearUser` alone, whatever the user |
| AuthStore.RunLastUser | stores/useAuthStore.ts:19-23 | after any sequence of calls the user is the one set by the last call, none after a clear, and the starting user after no call |
| AuthStore.RunPersists | stores/useAuthStore.ts:24-28 | after at least one call the storage agrees with the state, so a reload brings back the same state |
| Navbar.Menus | components/navbar.tsx:48-199 | services always shown; the doctor menu iff the role is "doctor"; the admin menu iff the role is "admin"; the account menu iff someone is signed in; the sign-in link iff nobody is |
| Navbar.MenuRoutes | components/navbar.tsx:59-190 | every menu links at least one route, and each route it links belongs to that menu and to no other |
| Navbar.PathInjective | components/navbar.tsx:29-190 | different routes navigate to different paths, so routes and pushed paths correspond one to one |
| Navbar.Routes | components/navbar.tsx:36-199 | home is always linked, and every shown menu's routes are linked |
| Navbar.OfferedIsLinked | components/navbar.tsx:36-199 | every route the route-by-route rule allows is linked |
| Navbar.LinkedIsOffered | components/navbar.tsx:36-199 | every linked route is allowed by the route-by-route rule |
| Navbar.RoutesAreOffered | components/navbar.tsx:36-199 | a route is linked if and only if the route-by-route rule allows it for the user |
| Navbar.RoleMenusExclusive | components/navbar.tsx:85-116 | the doctor and admin menus never appear together |
| Navbar.AccountXorLogin | components/navbar.tsx:148-199 | exactly one of the account menu and the sign-in link is shown |
| Navbar.SignedOutRoutes | components/navbar.tsx:36-199 | with nobody signed in the bar links home, the three services and the sign-in page, and nothing else |
| Navbar.UnknownRoleRoutes | components/navbar.tsx:85-179 | a user whose role is not "doctor", "admin" or "user" gets home, the services and the profile, and nothing role-specific |
| Navbar.UpperAscii | components/navbar.tsx:155 | a lower-case ASCII letter becomes its upper-case letter; every other character is kept |
| Navbar.AvatarInitial | components/navbar.tsx:155 | the fallback is at most one character, empty exactly for an empty name, never a lower-case ASCII letter; it is the first character moved 32 code points down (its upper-case form) when that is an ASCII lower-case letter, and the first character itself otherwise |
| Navbar.AvatarInitialStable | components/navbar.tsx:155 | the initial depends only on the first character, and upper-casing it again changes nothing |
| Navbar.HandleLogout | components/navbar.tsx:26-30 | the handler as written leaves the store as it was, shows the notice and navigates home |
| Navbar.LogoutKeepsUserSignedIn | components/navbar.tsx:26-30 | after the handler as written a signed-in user keeps the account menu, gets no sign-in link, and is still signed in after a reload |
| Navbar.HandleLogoutCorrected | components/navbar.tsx:26-30 | the corrected handler leaves no user in the store and persists that, then shows the notice and navigates home |
| Navbar.CorrectedLogoutSignsOut | components/navbar.tsx:26-30 | after the corrected handler the bar shows only the services and the sign-in link, and a reload stays signed out |

## Left out

- HTTP calls. `axios.post` to the analysis service is an abstract outcome, either answered with a result or refused with an optional message. The request headers and the endpoint address are not modelled.
- The `response.data.result` shape: an answer is assumed to hold a result.
- A refusal whose `message` is not text, and the "An unknown error occurred" branch. Every error raised by the validation is an `Error`, so that branch is unreachable from the modelled code.
- The transient `loading == true` state while the request is in flight. `HandleSubmit` goes from the click to the `finally` block in one step. Only the submit button is disabled while loading; the age, gender and symptom fields are not. So `handleChange` can run while the request is in flight, and the page can end up showing a result beside a form that differs from the one submitted, possibly one that would fail validation. `Step` and `Run` cannot reach that page. No proved property depends on the form there: `Settled` and `NewAnalysisAfterAnyRun` do not look at it.
- The browser's own form checks (`required`, and `min='1'` and `max='120'` on the age field) that stop many invalid submits before `handleSubmit` runs. `Step` lets every submit reach `HandleSubmit`, which then applies the page's own checks. This allows more runs than the browser does, so the invariants proved over all runs still hold.
- Rendering, styling, icons, the toast library and the router. Navigation is shown as the `Route` reached and the notice as text.
- The probability percentage shown for each condition. It is floating-point display, and the `probability` field is a `real` that nothing reads.
- JsParseInt.ParseInt: keeps the exact integer value. JavaScript rounds large numerals to a double and turns `-0` into negative zero. Both only affect values the age range rejects either way.
- Navbar.UpperAscii: upper-cases ASCII letters only. JavaScript's `toUpperCase` also maps other letters, some to two characters, such as "ß" to "SS".
- Navbar.AvatarInitial: works on Unicode scalar values. `charAt(0)` returns one UTF-16 code unit, which may be half of a surrogate pair. It also assumes `name` is present, whereas the source's `name?.` also tolerates a missing name. The initial is upper-cased through `UpperAscii`, so only ASCII letters change: "émile" gives "é" where JavaScript gives "É".
- AuthStore.Deserialize: reads back only the exact layout `Serialize` writes, with keys in that order and no extra whitespace. `JSON.parse` also accepts other layouts. Any other text counts as unreadable, which gives the same outcome as a failed parse: no user.
- The user record is assumed to have four string fields. Fields that are absent or not text, which `JSON.stringify` would omit or write differently, are not modelled.
- Zustand's `merge`, its `migrate` and version handling, the asynchronous timing of hydration, a storage that throws, and cross-tab writes. Storage is one in-memory map.
- The state's setter functions. They are never persisted, and the model's state holds only `user`.
- Token handling and expiry checks are not modelled. The store in `stores/useAuthStore.ts` has no token and no expiry logic.
- The other pages (login, registration, prescription analyzer, home) and the other navigation component `app/components/navbar.tsx` are not part of this model.

## Findings

| source | as written | input that shows it | evidently intended | confidence | as-written member | corrected member |
|---|---|---|---|---|---|---|
| components/navbar.tsx:26-30 | the `logout()` call is commented out, so "Logout" only shows "Logged out successfully" and navigates home | any signed-in user clicks Logout: the store keeps the user, the bar still shows the account menu and a reload keeps the user signed in | clear the user in the store (`clearUser`) before notifying and navigating | not executed | Navbar.LogoutKeepsUserSignedIn | Navbar.CorrectedLogoutSignsOut |
