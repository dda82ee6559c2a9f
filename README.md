# LostLink core, modelled in Dafny

LostLink is a campus lost-and-found application: an Express/Mongoose backend over
MongoDB and a React frontend. This project models its core behaviour and proves
properties of it:

- the **claim ledger**: submission, the status listings, resolution and rejection of
  claim requests, under the claim-request schema;
- **users**: the user schema (required paths, `trim`, role enum and default, year range,
  section and roll-number patterns, unique email and roll number); the controller's
  ordered validation chain and CRUD; and the two signup routes and the login route;
- **admins**: the pair search of the admin routes and the first-by-id lookup of the
  admin controller, the bearer-token middleware, and the dashboard and stats routes;
- **item registries**: the lost-item and found-item schemas and their controllers;
- the **admin session** kept by the admin login page in the browser's storage, fresh
  for 24 hours.

Each MongoDB collection is a class holding a `map` from identifier to document, plus a
counter that hands out fresh identifiers (the stand-in for ObjectIds). Each handler is a
method on that state, with the reply and the new state given in its postcondition.
The pure parts are functions with lemmas about them: schema validation, the check
chains, the login decisions, token extraction and session freshness.

Mongoose is modelled as follows:
- strict schemas drop paths they do not declare;
- `required` refuses a missing value and `""`;
- a `default` fills only a missing value;
- `trim` runs on construction and on updates;
- `findByIdAndUpdate` runs no validators, but the unique indices still refuse a clash.

`bcrypt.hash`, `bcrypt.compare` and `jwt.verify` are function parameters. `jwt.sign`
builds a symbolic token that records payload, secret and lifetime, and fails when the
secret is missing or empty. The clock (`new Date().getTime()`) is a parameter.

Modules, one per source file:
- `ClaimRequestModel`, `ClaimRoutes`: the claim ledger;
- `UserModel`, `UserController`, `UserRoutes`, `AuthRoutes`: users;
- `AdminRoutes`, `AdminController`: admins;
- `ItemModel`, `LostItemController`, `FoundItemController`: item registries;
- `VerifyAdmin`: the admin session.

Shared modules:
- `Common`: optional fields, replies, `Array.prototype.find`;
- `Jwt`: tokens;
- `JsText`: `trim`, `split`, `parseInt` and `String(n)`, with their properties proved.

Notes on the code:
- the `/signup` of `backend/routes/userRoutes.js` looks up only the email, not the roll
  number;
- user login failures answer 400;
- the found-item schema has `date`, not `dateFound`.

## Model

| member | source | states |
|---|---|---|
| Common.FindFirst | backend/controllers/adminController.js:17 | the position of the first element satisfying the predicate; `None` exactly when no element does |
| Jwt.Sign | backend/controllers/userController.js:58 | a token exists exactly when the secret is truthy, and it carries the given payload, secret and lifetime |
| JsText.Trim | backend/models/User.js:7 | `trim` never lengthens a string and never leaves white space at its end; with TrimSpec, it is exactly the slice between the leading and the trailing white space |
| JsText.TrimStart | backend/models/User.js:7 | the result is a suffix of the input, does not start with white space, and everything dropped is white space |
| JsText.TrimEnd | backend/models/User.js:7 | the result is a prefix of the input, does not end with white space, and everything dropped is white space |
| JsText.TrimSpec | backend/models/User.js:7 | `trim` yields the slice of the input between leading and trailing white space, and that slice has no white space at either end |
| JsText.TrimIdempotent | backend/models/User.js:7 | trimming twice is trimming once |
| JsText.TrimUnchanged | backend/models/User.js:7 | a string without white space at its ends is left as it is |
| JsText.Split | backend/routes/adminRoutes.js:45 | `split` yields at least one part and no part contains the separator |
| JsText.SplitJoin | backend/routes/adminRoutes.js:45 | joining the parts of a split with the separator gives back the string |
| JsText.SplitPrefix | backend/routes/adminRoutes.js:45 | a separator-free prefix extends the first part of the split of the rest |
| JsText.JoinSplit | backend/routes/adminRoutes.js:45 | splitting a join of separator-free parts gives back the parts |
| JsText.DigitPrefix | frontend/src/pages/VerifyAdmin.js:95 | the longest prefix made of digits of the radix |
| JsText.NatToString | frontend/src/pages/VerifyAdmin.js:119 | `String(n)` is a non-empty run of decimal digits with no leading zero |
| JsText.NatToStringValue | frontend/src/pages/VerifyAdmin.js:119 | the digits of `String(n)` denote `n` |
| JsText.AllDigitsPrefix | frontend/src/pages/VerifyAdmin.js:95 | a string of digits is its own longest digit prefix |
| JsText.ParseInt | frontend/src/pages/VerifyAdmin.js:95 | `parseInt` without a radix: a blank string is `NaN`, and a negative result needs a leading `-` after the white space |
| JsText.ParseIntNatToString | frontend/src/pages/VerifyAdmin.js:95 | `parseInt(String(n)) == n`: a stored timestamp reads back as itself |
| JsText.ParseIntNoDigits | frontend/src/pages/VerifyAdmin.js:95 | a string without decimal digits parses to `NaN`, hexadecimal letters such as `"cafe"` included |
| ClaimRequestModel.Validate | backend/models/CLaimRequest.js:3-32 | a claim without `itemId` or `claimedBy.userId`, or with a status outside the enum, is refused; a stored claim's status is pending or resolved, pending by default, and every other path is kept; refusal happens exactly when the defaulted document breaks the schema |
| ClaimRequestModel.StatusDefaultsToPending | backend/models/CLaimRequest.js:30 | a claim with both references and no status is stored as pending |
| ClaimRequestModel.OptionalPathsDoNotMatter | backend/models/CLaimRequest.js:9-26 | the item snapshot, contact fields, reporter block and justification never change whether a claim is stored |
| ClaimRoutes.ClaimFromBody | backend/routes/claimRoutes.js:22-32 | the submitted document keeps a truthy body status and otherwise has status pending; all other paths come from the body |
| ClaimRoutes.WithStatus | backend/routes/claimRoutes.js:58 | a listing holds exactly the claims with that status, unchanged |
| ClaimRoutes.MarkResolved | backend/routes/claimRoutes.js:77 | `claim.status = 'resolved'`: the same claims, that claim with status resolved and its other fields unchanged, every other claim unchanged |
| ClaimRoutes.MarkResolvedChangesOnlyStatus | backend/routes/claimRoutes.js:77-78 | resolving changes only the status of that claim, to resolved; the other claims and fields are unchanged |
| ClaimRoutes.MarkResolvedIdempotent | backend/routes/claimRoutes.js:67-81 | resolving a resolved claim changes nothing |
| ClaimRoutes.ListingsPartition | backend/models/CLaimRequest.js:27-31 | every stored claim is in exactly one of the pending and resolved listings |
| ClaimRoutes.ResolveMovesBetweenListings | backend/routes/claimRoutes.js:67-98 | after a resolve the claim is listed as resolved and not as pending; the other claims stay where they were |
| ClaimRoutes.MarkResolvedConforms | backend/routes/claimRoutes.js:77-78 | resolution keeps every stored claim within the schema |
| ClaimRoutes.ClaimLedger.Submit | backend/routes/claimRoutes.js:7-41 | a document that validates is added under a fresh id with 200; otherwise 500 and the ledger is unchanged |
| ClaimRoutes.ClaimLedger.ListAll | backend/routes/claimRoutes.js:44-52 | every stored claim |
| ClaimRoutes.ClaimLedger.ListPending | backend/routes/claimRoutes.js:55-64 | exactly the pending claims |
| ClaimRoutes.ClaimLedger.ListResolved | backend/routes/claimRoutes.js:89-98 | exactly the resolved claims |
| ClaimRoutes.ClaimLedger.Resolve | backend/routes/claimRoutes.js:67-86 | 404 and no change for an absent id; otherwise 200 and only that claim's status becomes resolved |
| ClaimRoutes.ClaimLedger.Reject | backend/routes/claimRoutes.js:101-116 | 404 and no change for an absent id; otherwise 200 and exactly that claim is removed |
| ClaimRoutes.SubmitTwice | backend/routes/claimRoutes.js:7-41 | the same body submitted twice stores its validated claim twice, under two distinct new ids, and nothing else changes |
| ClaimRoutes.RejectThenResolve | backend/routes/claimRoutes.js:67-116 | a rejected claim answers 404 to a later resolve |
| ClaimRoutes.SubmitAndResolve | backend/routes/claimRoutes.js:7-98 | a submitted pending claim is listed as pending under its new id with exactly the validated document, and after its resolution is listed as resolved, with only the status changed, and no longer as pending |
| UserModel.Cast | backend/models/User.js:4-22 | the constructed document: the name through `trim`, an absent role defaulting to user, every other path as given |
| UserModel.Validate | backend/models/User.js:3-49 | a stored user meets every constraint; storage happens exactly when all required paths are given and the cast document conforms; the name is trimmed, the role defaults to user, the other paths are kept |
| UserModel.MissingFullNameRejected | backend/models/User.js:4-8 | a document without `fullName` is never stored |
| UserModel.ConstraintsEnforced | backend/models/User.js:9-44 | an empty required path, a year outside 1..4, a section other than A-C, a roll number that is not 7 digits, a role outside the enum or a blank name each prevent storage |
| UserModel.TrimmedNameKept | backend/models/User.js:7 | the stored name is already trimmed, and a name given already trimmed is stored as given |
| UserModel.WriteKeepsKeysDistinct | backend/models/User.js:9-44 | writing a user that clashes with no other keeps emails and roll numbers unique |
| UserModel.InsertKeepsKeysDistinct | backend/models/User.js:9-44 | inserting a user that clashes with nobody keeps emails and roll numbers unique |
| UserModel.InsertKeepsTableValid | backend/models/User.js:9-44 | inserting a non-clashing user under an identifier above all stored ones: the identifier is fresh, all identifiers stay below the next counter, and the unique indices hold |
| UserModel.Patch | backend/controllers/userController.js:94 | every given path replaces the stored one, the name through `trim`; the other paths are kept |
| UserModel.UpdateSkipsValidators | backend/controllers/userController.js:94 | an update setting the year to 9 is written as given and breaks the schema |
| UserModel.UserTable.Save | backend/controllers/userController.js:52 | validation failure or an index clash leaves the table unchanged; otherwise the validated user is added under a fresh id, and emails and roll numbers stay unique |
| UserModel.UserTable.FindByIdAndUpdate | backend/controllers/userController.js:94 | `None` for an absent id; a clash fails; otherwise the patched user replaces the stored one |
| UserModel.UserTable.FindByIdAndDelete | backend/controllers/userController.js:106 | `None` for an absent id; otherwise exactly that user is removed and returned |
| UserController.CheckBody | backend/controllers/userController.js:17-31 | the first failing check, in the order required, year, section, roll number, decides the 400; none fails exactly when all hold |
| UserController.CheckedBodySatisfiesSchema | backend/controllers/userController.js:17-50 | after the checks, the schema could refuse only a blank name or a bad role |
| UserController.DroppedNameAlwaysRefused | backend/controllers/userController.js:41-52 | without the name under `fullName` the schema refuses every document the handler builds |
| UserController.NewUserFields | backend/controllers/userController.js:41-50 | the document handed to the schema: the hashed password, the body's role (absent means the default applies), email, year, branch, section and roll number, and under `fullName` whatever the handler supplies; the body's `name` is not a path of it |
| UserController.CreateWith | backend/controllers/userController.js:14-78 | the check chain, then the email-or-roll-number lookup, then the save of the hashed password before the secret check: a missing secret answers 500 with the user kept, success answers 201 with a 1-day token |
| UserController.CreateUser | backend/controllers/userController.js:14-78 | as written, no user is ever created: 400 for the checks and duplicates, 500 otherwise, the table unchanged |
| UserController.CreateUserCorrected | backend/controllers/userController.js:14-78 | with the name stored as `fullName` and nothing else changed, a valid fresh body is stored under a fresh id as exactly its validated document (trimmed name, hashed password, the body's email, year, branch, section and roll number, the body's role or the default user), even when the secret is missing; the 201 reply echoes no name, since it still reads `newUser.name` |
| UserController.GetUserById | backend/controllers/userController.js:80-90 | 404 for an absent id, otherwise the stored user |
| UserController.UpdateUser | backend/controllers/userController.js:92-102 | 404 and no change for an absent id; a clash answers 500 and changes nothing; otherwise the patched user is stored and sent |
| UserController.DeleteUser | backend/controllers/userController.js:104-114 | 404 and no change for an absent id; otherwise exactly that user is removed |
| UserRoutes.GenerateToken | backend/routes/userRoutes.js:8-10 | a 7-day token for `{ id }` exactly when the secret is truthy |
| UserRoutes.Echo | backend/routes/userRoutes.js:87-95 | the reply's user carries the id, email, year, branch, section and roll number of the stored user, and `fullName` as name when non-empty, never the password |
| UserRoutes.SignupFields | backend/routes/userRoutes.js:28-36 | the document built on signup: the body's `fullName`, email, year, branch, section and roll number, the hashed password, and no role, so the default applies |
| UserRoutes.Signup | backend/routes/userRoutes.js:13-61 | 400 for a missing field or a taken email; a taken roll number fails at the index with 500; a stored user has the hashed password and role user; a missing secret answers 500 with the user kept; success answers with a token and the echo |
| UserRoutes.Login | backend/routes/userRoutes.js:64-101 | 400 without email or password; success exactly when a user with that email has a hash the comparison accepts and the secret is set; an unknown email and a wrong password get the identical 400 |
| UserRoutes.Logout | backend/routes/userRoutes.js:103-105 | always 200 with the same message; nothing is read or changed |
| UserRoutes.SignupThenLogin | backend/routes/userRoutes.js:13-101 | a user that signed up logs in with the same credentials and gets the same token and the same echoed values; the name is sent under the key `fullName` on signup and `name` on login |
| AuthRoutes.NewUserFields | backend/routes/auth.js:24-33 | the document built always has role user and the hashed password |
| AuthRoutes.StoredRoleIsUser | backend/routes/auth.js:21-33 | a user stored by this route has role user and the hashed password, whatever the body says |
| AuthRoutes.DroppedNameAlwaysRefused | backend/routes/auth.js:24-35 | the body's `name` never reaches `fullName`, so every document is refused |
| AuthRoutes.SignupWith | backend/routes/auth.js:6-42 | 400 for a missing field or a taken email or roll number; a refused save answers 500 and stores nothing; otherwise the user is added and the reply is 201 with a message and no token |
| AuthRoutes.Signup | backend/routes/auth.js:6-42 | as written, nobody is ever registered: 400 or 500, the table unchanged |
| AuthRoutes.SignupCorrected | backend/routes/auth.js:6-42 | with the name stored as `fullName`, a valid fresh body is stored under a fresh id as exactly its validated document (role user, hashed password, trimmed name, the body's email, year, branch, section and roll number), and answered with 201 |
| AdminRoutes.JwtSecret | backend/routes/adminRoutes.js:17 | the configured secret when set; otherwise the key `superSecretKey` written in the source, so without configuration anyone can sign admin tokens |
| AdminRoutes.Login | backend/routes/adminRoutes.js:21-41 | 400 without id or password; 200 exactly when some configured pair equals the body, with a 24h token for `{ adminId }`; 401 otherwise |
| AdminRoutes.UnsetSlotsNeverMatch | backend/routes/adminRoutes.js:9-26 | a successful login always matches a slot whose id and password are both set |
| AdminRoutes.BearerToken | backend/routes/adminRoutes.js:45 | no header, no token; a header yields a token exactly when it contains a space, and the token contains no space |
| AdminRoutes.BearerTokenIsSecondSegment | backend/routes/adminRoutes.js:45 | for any header made of two or more space-free segments joined by single spaces, the token is the second segment (`"Bearer a b"` gives `a`) |
| AdminRoutes.DoubleSpaceGivesEmptyToken | backend/routes/adminRoutes.js:45-49 | two spaces after the scheme give the empty token, which the middleware answers with 401 |
| AdminRoutes.BearerTokenOfAnyScheme | backend/routes/adminRoutes.js:45 | `<scheme> <token>` yields the token whatever the scheme word |
| AdminRoutes.BearerTokenNeedsSpace | backend/routes/adminRoutes.js:45-49 | a header without a space yields no token |
| AdminRoutes.VerifyToken | backend/routes/adminRoutes.js:44-60 | 401 without a non-empty token, 403 when verification fails, otherwise the decoded payload is attached and the next handler runs |
| AdminRoutes.DashboardMessage | backend/routes/adminRoutes.js:63-68 | the greeting names the token's `adminId`, or `undefined` when the payload has none |
| AdminRoutes.DashboardGreetsLoggedInAdmin | backend/routes/adminRoutes.js:21-68 | the dashboard greets the admin who logged in |
| AdminRoutes.MockStats | backend/routes/adminRoutes.js:71-84 | the mock figures: the lost and found counts add up to the items |
| AdminController.LoginAdmin | backend/controllers/adminController.js:14-34 | the first entry with the id decides; an unknown id and a wrong password get the identical 401; a matching password yields a 24h token for `{ id, role: 'admin' }`, or, under Express 4, no reply when the secret is missing |
| AdminController.DuplicateIdShadowed | backend/controllers/adminController.js:17-21 | with a duplicated id only the first entry's password is accepted, while the pair search of the admin routes accepts the later one too |
| AdminController.MissingFieldsMatchIncompleteRecord | backend/controllers/adminController.js:15-21 | a body without id and password logs in as an entry that has neither |
| ItemModel.SchemasAgree | backend/models/FoundItem.js:4-13 | both schemas declare the same eight paths |
| ItemModel.Restrict | backend/models/LostItem.js:4-13 | a strict schema keeps exactly the paths it declares, with their values; the same holds for the handful of fields a handler copies out of the body |
| ItemModel.Validate | backend/models/LostItem.js:4-13 | a report is stored exactly when all eight paths are present and non-empty, with exactly those paths and the given values |
| ItemModel.CopiedFieldsSuffice | backend/controllers/lostItemController.js:15-36 | copying fields that cover the schema stores the same report as the whole body would |
| ItemModel.UncopiedPathNeverStored | backend/controllers/foundItemController.js:15-24 | a handler that does not copy a required path never stores anything |
| ItemModel.Update | backend/controllers/lostItemController.js:59 | each schema path the body gives is overwritten, every other stored path is kept, unknown paths are dropped |
| ItemModel.UpdateIdempotent | backend/controllers/lostItemController.js:59 | repeating an update changes nothing more |
| ItemModel.UpdateSkipsValidation | backend/controllers/lostItemController.js:59 | an update can blank a required path, leaving a report that breaks the schema |
| ItemModel.ItemCollection.Save | backend/controllers/lostItemController.js:38 | a conforming report is added under a fresh id; otherwise nothing changes |
| ItemModel.ItemCollection.FindByIdAndUpdate | backend/controllers/lostItemController.js:59 | `None` for an absent id; otherwise the stored report is updated and returned |
| ItemModel.ItemCollection.FindByIdAndDelete | backend/controllers/lostItemController.js:70 | `None` for an absent id; otherwise exactly that report is removed and returned |
| LostItemController.GetLostItems | backend/controllers/lostItemController.js:4-11 | every stored report |
| LostItemController.CreateLostItem | backend/controllers/lostItemController.js:14-43 | a conforming body is stored as its eight fields and sent with 201; otherwise 500, never 400, and nothing is stored |
| LostItemController.GetLostItem | backend/controllers/lostItemController.js:46-54 | 404 for an absent id, otherwise the report |
| LostItemController.UpdateLostItem | backend/controllers/lostItemController.js:57-65 | 404 and no change for an absent id; otherwise only the given paths change and the updated report is sent |
| LostItemController.DeleteLostItem | backend/controllers/lostItemController.js:68-76 | 404 and no change for an absent id; otherwise exactly that report is removed |
| FoundItemController.GetFoundItems | backend/controllers/foundItemController.js:4-11 | every stored report |
| FoundItemController.CreateWith | backend/controllers/foundItemController.js:14-31 | the copied fields are saved: 201 with the stored report, or 500 and no change |
| FoundItemController.CreateFoundItem | backend/controllers/foundItemController.js:14-31 | as written, every create answers 500 and nothing is stored |
| FoundItemController.CreateFoundItemCorrected | backend/controllers/foundItemController.js:14-31 | copying the schema's eight fields, a conforming report is stored and sent with 201; otherwise 500 |
| FoundItemController.GetFoundItem | backend/controllers/foundItemController.js:34-44 | 404 for an absent id, otherwise the report |
| FoundItemController.UpdateFoundItem | backend/controllers/foundItemController.js:47-54 | always 200; `null` and no change for an absent id, otherwise only the given paths change |
| FoundItemController.DeleteFoundItem | backend/controllers/foundItemController.js:57-64 | always 200; a present report, and only it, is removed |
| VerifyAdmin.SessionState | frontend/src/pages/VerifyAdmin.js:88-95 | no session unless both keys hold something; fresh exactly when the timestamp parses and less than 24 hours have passed; an unreadable timestamp is stale |
| VerifyAdmin.WithSession | frontend/src/pages/VerifyAdmin.js:118-119 | after the two `setItem` calls the token and the decimal timestamp are stored under their keys, and every other key is unchanged |
| VerifyAdmin.StoredText | frontend/src/pages/VerifyAdmin.js:118 | the token as stored, `undefined` when the reply had none |
| VerifyAdmin.StoredSessionLastsADay | frontend/src/pages/VerifyAdmin.js:88-119 | a session stored at time t is fresh until t + 24h and stale from then on |
| VerifyAdmin.RemovedSessionIsGone | frontend/src/pages/VerifyAdmin.js:100-101 | after the two keys are removed no session is found |
| VerifyAdmin.AdminPage.CheckSession | frontend/src/pages/VerifyAdmin.js:85-104 | a set flag skips the check; a fresh session redirects to the dashboard and sets the flag; a stale one removes both keys and nothing else; without both keys nothing happens |
| VerifyAdmin.AdminPage.HandleSubmit | frontend/src/pages/VerifyAdmin.js:106-128 | a success stores the token and the current time and redirects, a failure stores nothing; loading is false afterwards either way |
| VerifyAdmin.LoginThenRevisit | frontend/src/pages/VerifyAdmin.js:85-128 | a login followed within 24 hours by a new visit goes straight to the dashboard |

## Left out

- Timestamps: `createdAt`/`updatedAt` and the claim schema's `timestamps` option are not modelled. So the order of listings is not modelled either: collections are maps, and the `createdAt` sort of the lost-item list does nothing, since that schema has no such path.
- `populate` of the claim's `itemId`: the model keeps the reference as given.
- FoundItemController.GetFoundItems: the found-item schema declares no `user` path, so `populate('user', …)` has nothing to join. The model assumes Mongoose before version 6, where this populate does nothing. From version 6 on, `strictPopulate` makes it throw once a report is found, and the list then answers 500; that is not modelled.
- FoundItemController.GetFoundItem: the same `populate('user', …)` is treated as doing nothing (Mongoose before version 6); from version 6 on, a found report answers 500 instead, which is not modelled.
- Casting: ObjectId casts of ids and references, and values of other JSON types (numbers where strings are expected, objects, `null`). Bodies are modelled as strings, plus an integer year.
- Fractional years and JavaScript number precision beyond 2^53 (in the year check, `parseInt` and the session timestamp).
- Database errors other than validation and duplicate keys. Also left out: their 500 replies on the list, get, resolve and delete routes, and concurrency between requests. Handlers run one at a time.
- `min: 8` on the password path: on a string path it constrains nothing, and the stored value is a hash.
- `getUsers` (a plain listing) and `protectedRoute` (echoes `req.admin`) are outside the modelled core.
- Loading of the admin list from the environment and from `admins.json`: the list is a parameter.
- bcrypt and JWT internals, including expiry: `hash`, `compare` and `verify` are parameters, and signing is symbolic.
- UserRoutes.Echo: the key names of the echoed user are abstracted; one `UserEcho` stands for both replies, although signup sends the name under `fullName` and login under `name`.
- Extra reply fields are not modelled: the `success` flags, the `error` detail of the auth route, the `_id`/`__v` of echoed documents, the admin token's `message` text beside the token, and the message and `success` flag of the stats reply.
- Everything rendered by React: toasts are recorded as strings, and navigation as the route requested. The screen-size check is also left out.
- AdminController.LoginAdmin: the outcome without a secret is Express 4 behaviour, where the exception `jwt.sign` throws escapes the async handler and no reply is sent. Express 5 answers 500 instead, and Node 15 or later may end the process on the unhandled rejection; neither is modelled.
- AdminRoutes.VerifyToken: `jwt.verify` is a parameter, so the model does not tie the token from `/login` to the payload attached here.
- Unicode: a Dafny `char` is a Unicode scalar value, not a UTF-16 code unit, so strings holding lone surrogates cannot be represented; `trim` and `parseInt` work on scalar values; `parseInt` handles radix 10 and the `0x` prefix only, which is all it uses without a radix argument.

## Findings

| source | as written | input that shows it | evidently intended | confidence | as-written member | corrected member |
|---|---|---|---|---|---|---|
| backend/controllers/userController.js:41-50 | the new user gets the body's `name`, which the strict schema drops, so the required `fullName` is missing | any body passing every check, e.g. name "Asha Rao", year 2, section "B", roll number "1234567", fresh email | the name is stored under `fullName` (the reply's `name: newUser.name` then still echoes nothing, and the corrected member leaves it so) | not executed | UserController.CreateUser | UserController.CreateUserCorrected |
| backend/routes/auth.js:24-33 | the same `name` for `fullName`: every save fails and the route answers 500 "Server error" | any body with all seven fields and a fresh email and roll number | the name is stored under `fullName` and the route answers 201 | not executed | AuthRoutes.Signup | AuthRoutes.SignupCorrected |
| backend/controllers/foundItemController.js:15-24 | copies `dateFound` and `user`, which the schema does not declare, and never `date`, `gmail`, `phone`, `department` or `rollNumber` | any body, even one holding all eight schema fields | the eight schema fields are copied, as the lost-item controller does | not executed | FoundItemController.CreateFoundItem | FoundItemController.CreateFoundItemCorrected |
