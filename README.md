# Login and permission lookup of the TRB Sales Team Hub API

This project models, in Dafny, the decision logic of the hub's serverless login endpoint
(`netlify/functions/api.js`). A `login` request carries a cost-center username and a password.
The handler looks for the first row of the user sheet whose first two cells, trimmed, equal the
trimmed username and password. On a match it reads the `permissionDashboard` sheet, takes the
first row whose trimmed first cell equals the username as submitted, and returns every trimmed,
non-empty cell of the remaining columns in header order. The handler answers 204 to `OPTIONS`,
200 with that list on a successful login, 401 when no credential row matches, 400 for any other
action and 500 when a collaborator fails.

Modules:

- `Text` (text.dfy): JavaScript's `trim()` over the exact ECMAScript whitespace set, with lemmas
  saying that it removes exactly the surrounding whitespace.
- `Sheet` (sheet.dfy): a sheet as headers plus rows of cells; `Cell` reads
  `String(row.get(header) || '')`; `FindIndex` is `rows.find`.
- `Login` (login.dfy): the credential predicate and the credential search.
- `Permissions` (permissions.dfy): `getPermissionsForUser`, as a specification function and as
  the loop the source runs, proved equal.
- `Api` (api.dfy): the handler's choice of response, over abstract collaborator results.
- `Scenarios` (scenarios.dfy): two worked examples on a one-row user sheet.

Where the code and the written design of the system disagree, the model follows the code. The
design describes case-insensitive username matching, classification of permission cells into
three flags and two fixed vocabularies, and a canonical identity in the response. The code does
none of this. It compares with `===` after `trim()`, so case matters. It returns the raw list of
cell strings, and its response carries no identity. The permission lookup uses the submitted
username without trimming it (`api.js:37`, `api.js:89`). `PaddedUsernameLogsInWithoutPermissions`
proves the consequence: a username with surrounding whitespace logs in but gets an empty list.

## Model

| member | source | states |
|---|---|---|
| `Text.Trim` | netlify/functions/api.js:83 | the trimmed value has no whitespace at either end and is no longer than the input |
| `Text.TrimSplits` | netlify/functions/api.js:83 | the input is the trimmed value with whitespace-only strings before and after it |
| `Text.TrimUnique` | netlify/functions/api.js:83 | a trimmed core wrapped in whitespace trims to exactly that core |
| `Text.TrimIdempotent` | netlify/functions/api.js:42 | trimming a trimmed value changes nothing |
| `Text.TrimFixesTrimmed` | netlify/functions/api.js:42 | a string is its own trim exactly when neither end is whitespace |
| `Text.TrimEmpty` | netlify/functions/api.js:42-43 | a cell trims to `''` exactly when it is empty or all whitespace, so such cells are skipped |
| `Text.TrimAbsorbs` | netlify/functions/api.js:83-84 | extra whitespace around a string does not change its trim |
| `Sheet.FindIndex` | netlify/functions/api.js:82-85 | `find` returns the first row satisfying the predicate, and finds nothing exactly when no row does |
| `Sheet.FindIndexIgnoresLaterRows` | netlify/functions/api.js:37 | rows appended after a matching row do not change what `find` returns |
| `Login.FindUser` | netlify/functions/api.js:78-85 | login finds a row exactly when some row's trimmed first and second cells equal the trimmed username and password; the row found is the first such row |
| `Login.LoginIgnoresSurroundingWhitespace` | netlify/functions/api.js:83-84 | whitespace around the submitted username or password never changes the credential check |
| `Login.AbsentPasswordCellAdmitsBlankOnly` | netlify/functions/api.js:80-84 | an absent password cell reads as `''`, so such a row admits only a blank password |
| `Permissions.Scanned` | netlify/functions/api.js:41-42 | one trimmed cell per header after the first, in header order; each is trimmed |
| `Permissions.NonEmpty` | netlify/functions/api.js:43-45 | the kept entries are non-empty, each taken from the scanned cells, and no more numerous than them |
| `Permissions.NonEmptySnoc` | netlify/functions/api.js:43-45 | one more cell appends itself to the result exactly when it is non-empty |
| `Permissions.NonEmptyAppend` | netlify/functions/api.js:41-46 | entries keep header order: those of earlier columns come before those of later columns |
| `Permissions.NonEmptyCount` | netlify/functions/api.js:43-45 | every non-empty value occurs as often as in the scanned cells, and `''` never occurs; duplicates are kept |
| `Permissions.FindUserRow` | netlify/functions/api.js:37 | the permission row is the first whose trimmed first cell equals the username as given; none exactly when no row's does |
| `Permissions.PermissionsFor` | netlify/functions/api.js:33-49 | no matching row gives `[]`; a non-empty result has fewer entries than there are headers; every entry is non-empty and trimmed |
| `Permissions.GetPermissionsForUser` | netlify/functions/api.js:34-49 | the accumulator the loop builds with `push` equals the specified permission list |
| `Permissions.UntrimmedUsernameHasNoPermissions` | netlify/functions/api.js:37 | a username with whitespace at either end matches no permission row and gets `[]` |
| `Permissions.LaterRowsIgnored` | netlify/functions/api.js:37 | first match wins: rows after the user's first row never change the result |
| `Permissions.PermissionsCountCells` | netlify/functions/api.js:41-46 | the user's list holds each non-empty trimmed cell value exactly as often as the scanned columns do |
| `Api.StatusCode` | netlify/functions/api.js:60-108 | every response has status 200, 204, 400, 401 or 500, and 200 exactly for a successful login |
| `Api.Handle` | netlify/functions/api.js:53-110 | 204 exactly for OPTIONS; 400 exactly for an admitted non-`login` action; 401 exactly when no credential row matches; 200 exactly when one does and the permission sheet loads, carrying that user's permission list; 500 for every collaborator failure |
| `Api.RejectionIgnoresPermissionSheet` | netlify/functions/api.js:87-97 | a rejected login stays 401 whatever the permission sheet holds or whether it loads |
| `Api.PaddedUsernameLogsInWithoutPermissions` | netlify/functions/api.js:82-94 | a username that logs in still logs in with whitespace around it, but then receives an empty permission list |
| `Scenarios.ExactCredentialsLogIn` | netlify/functions/api.js:82-94 | the stored username and password, submitted exactly, give status 200 |
| `Scenarios.UpperCaseUsernameRejected` | netlify/functions/api.js:82-96 | `CC001` does not match the stored `cc001`: status 401 |

## Left out

- Google Sheets client calls (`GoogleSpreadsheet`, `loadInfo`, `sheetsByTitle`, `getRows`, `headerValues`): their results are inputs, and a sheet that cannot be loaded or is missing is an absent `Table`.
- Service-account setup (`getServiceAccountAuth`, the JWT, reading the environment): reduced to one flag saying whether the credentials parse; when they do not, the handler answers 500.
- Transport glue: the CORS header object, `JSON.stringify` of bodies, the Thai message texts, the error message appended to the 500 body, and `console.error` logging. Only the response kind and the permission list are modelled.
- `JSON.parse` of the request body: modelled as a payload that is present or absent. Payload fields are taken to be strings, so the `String(...)` coercion of non-string values (such as `undefined` becoming `"undefined"`) is not modelled.
- Header-name lookup: the client library reads a cell by header name. The model reads cells by column position, so sheets with duplicate header names are not modelled.
- `async`/`await` sequencing: it does not affect the decision logic.
