# Course-browsing client: session, route guard, content selection, file types

A Dafny model of the state and decision logic of a Vue/Pinia client that
lets a user browse courses, their themes and the materials inside them.

- **Session store** (`Auth`): a nullable `user`; `isAuthenticated` and
  `isAdmin` are derived from it on every read. The `loadUser` of this
  version is a stub that reports failure and changes nothing.
- **Route guard** (`Router`): the callback run before every navigation,
  written as a pure decision function over the destination's
  `authRequired`/`adminRequired` flags (absent means false), the session,
  the origin route and the outcome of the awaited `loadUser`, which is a
  parameter. It returns the decision (allow, redirect to `login`, to
  `home` or back to the origin) and whether `loadUser` was consulted.
  `BeforeEach` runs it against the session store itself.
- **Content selection** (`Selection`, `CoursesStore`): a class holding the
  fetched `courses`, a three-level cursor of course, theme and material
  ids, and the `loading`/`error` flags. Selecting a level clears the levels
  below it. The current course, theme and material are pure lookups through
  the live collection, each scoped to the level above. As in the code, an
  id is tested for JavaScript truthiness, so an id of `0` selects nothing.
  The awaited service call of `fetchCourses` is a `Response` parameter,
  `Ok(envelope)` or `Err(errorData)`.
- **File types** (`FileUtils`): `getFileTypeFromUrl` lower-cases the URL,
  splits it on `.`, takes the last piece, splits that on `?` and keeps the
  first piece, then maps the extension to one of seven tags. The icon and
  colour maps are total over the tags. `split` and `join` are modelled on
  sequences and proved inverse to each other.

The records of the backend (user, course, theme, material, error body,
paginated envelope) are datatypes in `Entities`.

## Model

| member | source | states |
|---|---|---|
| `Auth.SessionFlags` | src/stores/auth.ts:6-10 | `isAuthenticated` holds exactly when a user is present, `isAdmin` exactly when that user's role is admin, and admin implies authenticated |
| `Auth.AuthStore.constructor` | src/stores/auth.ts:6 | the store starts with no user, so neither authenticated nor admin |
| `Auth.AuthStore.LoadUser` | src/stores/auth.ts:11-13 | the stub always reports failure; with no `modifies` clause it leaves `user` unchanged |
| `Router.Guard` | src/router/index.ts:9-37 | the decision table: unprotected routes and admin sessions are allowed without `loadUser`; authenticated sessions enter non-admin routes; an unauthenticated session is decided by `loadUser` (failure to `login`, success without admin on an admin route to `home`, otherwise allowed); an authenticated non-admin on an admin route goes back to the origin or to `home`, without `loadUser` |
| `Router.LoadUserOnlyWhenUnauthenticated` | src/router/index.ts:14-27 | `loadUser` is awaited if and only if the route requires authentication and the session is not authenticated |
| `Router.LoginExactlyOnFailedLoad` | src/router/index.ts:14-36 | the guard redirects to `login` if and only if a protected route meets an unauthenticated session whose `loadUser` fails |
| `Router.AllowedAdminRouteHasAdmin` | src/router/index.ts:18-34 | a route requiring both authentication and admin is only entered with an admin session, before or after `loadUser` |
| `Router.AdminFlagAloneDoesNotProtect` | src/router/index.ts:14-18 | a route flagged admin-only but not authentication-required is entered by anyone, even with no user, without `loadUser` |
| `Router.StubSendsGuestsToLogin` | src/router/index.ts:26-29 | with the stub `loadUser`, every protected navigation of an unauthenticated session is redirected to `login` |
| `Router.GuestOnRouteTable` | src/router/routes.ts:4-32 | on the route table's meta flags, the guard sends a guest from `home` to `login` and allows the flags of `login` and of `not-found` |
| `Router.BeforeEach` | src/router/index.ts:9-37 | the guard run against the session store decides as `Guard` with the stub's outcome; guests on protected routes go to `login`, admins and unprotected routes are allowed |
| `Selection.Find` | src/stores/courses.ts:18 | `find` yields nothing exactly when no element has the id, otherwise the first element with that id |
| `Selection.CurrentCourse` | src/stores/courses.ts:16-19 | no course when the selected id is null or 0 or matches no course; otherwise the first course of the collection with that id |
| `Selection.CurrentTheme` | src/stores/courses.ts:21-26 | no theme when there is no current course or the theme id is falsy; otherwise the first theme of the current course's themes with that id, none if it has none |
| `Selection.CurrentMaterial` | src/stores/courses.ts:28-34 | no material when there is no current theme or the material id is falsy; otherwise the first material of the current theme with that id, none if it has none |
| `Selection.MaterialHasAncestors` | src/stores/courses.ts:16-34 | a current material implies a current theme and course; each lies in its parent's list and carries the selected id |
| `Selection.ZeroIdSelectsNothing` | src/stores/courses.ts:16-34 | a selected course id of 0 resolves no course, theme or material, even if a course has id 0 |
| `Selection.ThemeOfOtherCourseIsNotCurrent` | src/stores/courses.ts:21-26 | a resolved theme always belongs to the current course, whatever the other courses of the collection contain: changing only the other courses leaves the current theme as it is |
| `CoursesStore.CoursesStore.constructor` | src/stores/courses.ts:9-14 | the store starts with no courses, no selection, not loading and no error |
| `CoursesStore.CoursesStore.BeginFetch` | src/stores/courses.ts:37-38 | while the request is in flight the store is loading with no error, and data and cursor are untouched |
| `CoursesStore.CoursesStore.ResolveFetch` | src/stores/courses.ts:39-49 | after the awaited call: an error keeps the courses and records its message; a result replaces the courses; loading ends; the result is true exactly on success |
| `CoursesStore.CoursesStore.FetchCourses` | src/stores/courses.ts:36-50 | a failed fetch keeps the courses and every derived lookup, records the message, stops loading and returns false; a successful one replaces the courses wholesale, clears the error, returns true; the cursor is never touched |
| `CoursesStore.CoursesStore.SelectCourse` | src/stores/courses.ts:52-56 | sets the course id and always clears the theme and material ids, so there is no current theme or material; nothing else changes |
| `CoursesStore.CoursesStore.SelectTheme` | src/stores/courses.ts:58-61 | sets the theme id and clears only the material id; course id, current course, courses, loading and error are unchanged |
| `CoursesStore.CoursesStore.SelectMaterial` | src/stores/courses.ts:63-65 | changes only the material id; current course and theme are unchanged |
| `CoursesStore.SelectionWalk` | src/stores/courses.ts:16-65 | selecting course 1, theme 10, material 100 resolves material 100; selecting a missing course then clears the theme id and every derived value |
| `FileUtils.LowerIdempotent` | src/utils/fileUtils.ts:4 | lower-casing leaves no upper-case letter and is idempotent |
| `FileUtils.Split` | src/utils/fileUtils.ts:5 | `split` yields at least one piece and no piece contains the separator |
| `FileUtils.JoinSplit` | src/utils/fileUtils.ts:5 | joining the pieces of a split with the separator gives back the string |
| `FileUtils.SplitJoin` | src/utils/fileUtils.ts:5 | splitting undoes a join of separator-free pieces |
| `FileUtils.ExtensionByPosition` | src/utils/fileUtils.ts:4-5 | the lower-cased URL is `p + ext + q`: `p` empty or ending in the last `.`, no `.` after it, no `?` in `ext`, `q` empty or starting at the first `?` |
| `FileUtils.ExtensionFromPosition` | src/utils/fileUtils.ts:4-5 | any split of the lower-cased URL meeting those conditions names the extension, so they determine it |
| `FileUtils.QueryAfterExtensionIsCut` | src/utils/fileUtils.ts:5 | `x.pdf?dl=1` has extension `pdf` and type pdf |
| `FileUtils.FileTypeFromUrl` | src/utils/fileUtils.ts:3-24 | never `jpeg`; unknown exactly when the extension is outside docx, pdf, pptx, png, jpg, jpeg, py; a known type is named by its extension, with `jpeg` reported as `jpg` |
| `FileUtils.CaseInsensitive` | src/utils/fileUtils.ts:4 | a URL and its lower case get the same type |
| `FileUtils.Icon` | src/utils/fileUtils.ts:26-42 | png and jpg share the image icon; pdf, docx, pptx and py each have their own icon; jpeg and unknown, and only they, get the document icon |
| `FileUtils.Color` | src/utils/fileUtils.ts:44-59 | pptx and py share `warning`, png and jpg share `success`, pdf is `error`, docx is `info`, and jpeg and unknown, only they, are `grey` |
| `FileUtils.IconOfUrl` | src/utils/fileUtils.ts:3-42 | a `.jpeg` URL gets the image icon; a URL gets the document icon or grey exactly when its type is unknown |
| `FileUtils.DottedQueryDecides` | src/utils/fileUtils.ts:5 | as written, `report.pdf?v=1.2` has extension `2` and is classified unknown |
| `FileUtils.FileTypeIgnoringQuery` | src/utils/fileUtils.ts:3-24 | the classification with the query removed first: never `jpeg`, unknown exactly when the extension is unlisted |
| `FileUtils.QueryIgnored` | src/utils/fileUtils.ts:5 | with the query removed first, appending any query to a path never changes the type |
| `FileUtils.IgnoringQueryOfParts` | src/utils/fileUtils.ts:3-24 | with the query removed first, a lower-case `stem.ext?query` with dot-free stem and extension is classified by its extension, whatever the query |
| `FileUtils.CorrectedOnDottedQuery` | src/utils/fileUtils.ts:5 | with the query removed first, `report.pdf?v=1.2` is classified pdf |
| `FileUtils.AgreesWithoutDottedQuery` | src/utils/fileUtils.ts:5 | the corrected order and the code agree on every URL whose query holds no `.` |

## Left out

- The HTTP transport (`src/services/api.ts`), the service wrappers (`src/services/courses.ts`, `src/services/users.ts`, `src/services/auth.ts`) and token persistence (`src/services/token.ts`) are foreign calls; the awaited `getCourses` is the `Response` parameter of `FetchCourses`, and the status rule of `checkError` (below 400 is success) only shapes that datatype.
- `login` and `logout` of the auth service are not part of the session store and are not modelled; `logout` is local-storage and router I/O.
- Application bootstrapping (`src/main.ts`, `src/plugins/vuetify.ts`) is not part of this model.
- The route table (`src/router/routes.ts`) is used only as data for `GuestOnRouteTable`.
- Async scheduling and Vue reactivity: each awaited call is an input value, overlapping navigations or fetches are not modelled, and computed values are re-derived functions rather than cached refs.
- `toLowerCase` is modelled on ASCII letters only; other Unicode case mappings are not.
- Ids are unbounded integers; the JavaScript `number` type's fractions and `NaN` (also falsy) are not modelled.
- `fetchCourses` guards the assignment with `if (response.result)`; a successful response always carries its envelope object, so the model always replaces the courses on `Ok`.
- The origin route is an `Option`; in the router it is always present, so the `home` fallback of the last branch is kept only as the code writes it.
- The guard's redirects are targets (`Named`, `Back`); the router's handling of a redirect (a new navigation through the guard) is not modelled.
- `Auth.AuthStore.LoadUser`: a token-restoring `loadUser` is not modelled; in this version `src/stores/auth.ts:11-13` only returns `false`.
- Record-level redirects of the route table are not modelled: `not-found` redirects to `home` (`src/router/routes.ts:25-27`) before the guard runs, so the guard never sees `not-found` as its destination; `GuestOnRouteTable` only evaluates the guard on that record's meta flags.
- `Auth.AuthStore.LoadUser`: that `user` is unchanged is stated by the method having no `modifies` clause rather than by an `ensures` clause.

## Findings

| source | as written | input that shows it | evidently intended | confidence | as-written member | corrected member |
|---|---|---|---|---|---|---|
| src/utils/fileUtils.ts:5 | the URL is split on `.` before the query is cut at `?`, so a `.` inside the query decides the extension | `report.pdf?v=1.2` gives extension `2`, type unknown | remove the query first (the line's comment says query params are removed), so the type is pdf | medium, not executed | `FileUtils.DottedQueryDecides` | `FileUtils.QueryIgnored` |
