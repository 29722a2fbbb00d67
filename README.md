# Employee management GraphQL backend — a Dafny model

This project models the request handling of a small GraphQL backend for
employee management (Node.js, Apollo Server, MongoDB): the eight operation
handlers of `graphql/resolvers.js` (`login`, `getAllEmployees`,
`searchEmployeeByEid`, `searchEmployeeByDesignationOrDepartment`, `signup`,
`addEmployee`, `updateEmployeeByEid`, `deleteEmployeeByEid`), the error
classifier `toErrorDetails` they all share, the validation aggregator
`validateArgs` of `utils/validate.js`, and the token helpers
`getUserFromAuthHeader` and `requireAuth` of `utils/auth.js`.

Every handler answers with an envelope `{success, message, <entity>, errors}`
and never throws: success carries the entity and no errors, failure carries
no entity, and every caught error is turned into `{field, message}` entries
by `toErrorDetails`. Not-found and bad-credential answers are literal entries
(`eid` / "No employee with this id", `usernameOrEmail` / "User not found",
`password` / "Incorrect password", ...).

Layout, one module per file:

- `common.dfy` — `Common`: JavaScript values (`Value`, with `undefined` as a
  missing key), nullable arguments (`Arg`), the error entry and the thrown
  error object, and `toLowerCase`.
- `errors.dfy` — `Errors`: `toErrorDetails` (validation details verbatim,
  MongoDB duplicate key 11000 as "<field> already exists (must be unique)",
  otherwise one `general` entry).
- `validate.dfy` — `Validate`: rule tables as data (one chain of checks per
  field, `optional` skipping only undefined), the failures every chain
  records with no bail inside a chain and no fail-fast across fields, and the
  `ValidateArgs` method whose loop runs the chains one by one and throws
  `VALIDATION_ERROR` with the details exactly when something was recorded.
- `auth.dfy` — `Auth`: JavaScript `split(" ")`, the `Bearer <token>` parser
  that returns null instead of throwing, token signing, and `requireAuth`.
- `store.dfy` — `Store`: the two MongoDB collections as a class over
  sequences in insertion order, with one counter handing out both ids and
  creation stamps (so "sort by `created_at` descending" is reverse insertion
  order), the unique indexes on username and email, and find / create /
  update-by-id / delete-by-id.
- `resolvers.dfy` — `Resolvers`: the handlers as methods over one `Store`,
  the rule tables they pass to `validateArgs`, the document `addEmployee`
  creates and the update set `updateEmployeeByEid` applies.
- `scenarios.dfy` — `Scenarios`: call sequences a client would make (delete
  twice, add then fetch, signup then login by username or by the stored
  e-mail, a signup clash in other letter case).

Modelling choices:

- Foreign libraries are parameters: the validator's predicates (`isEmail`,
  `isISO8601`, float parsing, the text of numbers and dates), bcrypt's hash
  and compare, jsonwebtoken's sign and verify, and the photo upload (the
  uploaded file's `secure_url` or the error it throws) are function-typed
  fields of `Validate.Predicates` and `Resolvers.Library`. `jwt.verify`
  answers None wherever it would throw.
- Each storage call may fail: a `fault: Option<Exception>` parameter says
  whether the database throws there; the handler then answers its "Failed to
  ..." message with the classified error.
- Each `requireAuth(context)` call is commented out in the handlers. The
  model keeps it as a switch per handler (`Resolvers.Policy`); `Deployed`
  has every switch off, as shipped.
- The login handler signs with `JWT_SECRET || "dev_secret"`, while the header
  parser returns null whenever `JWT_SECRET` is unset. Both are modelled as
  written: with the variable unset, logins succeed and return tokens that no
  header can turn into an identity (`Auth.UnsetSecretNeverIdentifies`).
- The update handler runs a separate `validateArgs` call for each of e-mail,
  gender, salary and date, in that order; the first one that throws ends the
  call, so only that field's entry is reported (unlike `addEmployee`, whose
  single call reports every failing field).
- The rule tables handed to `validateArgs` are constants of `Resolvers`:
  `LoginSchema` (graphql/resolvers.js:30-36), `SignupSchema` (148-167),
  `AddEmployeeSchema` (214-233), and the one-field tables `EmailRules`,
  `GenderRules`, `SalaryRules` and `DateRules` of the update (269-291).
  What each table reports is stated by `Resolvers.LoginValidation`,
  `Resolvers.SignupValidation`, `Resolvers.AddEmployeeChains` with
  `Resolvers.AddEmployeeEmptyArgs`, and `Resolvers.PatchViolation` with
  `Resolvers.CheckPatch`.
- Login looks the argument up both as a username and as a lower-cased
  e-mail and takes the first match in insertion order; an account whose
  username equals an older account's e-mail cannot log in by username while
  that older account exists (`Scenarios.SignupThenLogin` requires that no
  such account exists).

## Model

| member | source | states |
|---|---|---|
| Common.LowerChar | graphql/resolvers.js:169 | an ASCII capital becomes its small letter (code point + 32); every other character is kept |
| Common.Lower | graphql/resolvers.js:169 | lower-casing keeps the length and maps each character by LowerChar |
| Common.LowerIdempotent | graphql/resolvers.js:169-172 | lower-casing an already lower-cased e-mail changes nothing, so the stored e-mail and the looked-up e-mail agree |
| Errors.DuplicateField | graphql/resolvers.js:18 | the blamed field is the first key of `keyPattern` when it exists and is non-empty, otherwise "unknown"; never empty |
| Errors.ToErrorDetails | graphql/resolvers.js:12-22 | a VALIDATION_ERROR with details returns them verbatim; otherwise exactly one entry: a numeric 11000 code blames the duplicate field with "<field> already exists (must be unique)", anything else is a `general` entry with the error's message, or "Unknown error" when that message is empty |
| Errors.EmptyOnlyForEmptyDetails | graphql/resolvers.js:12-22 | the classifier returns no entry only for a validation error whose own details are empty |
| Errors.ValidationWinsOverKeyPattern | graphql/resolvers.js:13-14 | a validation error's details are returned even when it also carries a key pattern |
| Errors.DuplicateCodeIsNumeric | graphql/resolvers.js:16 | the string code "11000" is not the duplicate-key case: it falls through to the general entry |
| Validate.Text | utils/validate.js:7-10 | the text a check reads: undefined and null read as the empty string, a string as itself |
| Validate.Passes | utils/validate.js:7-10 | `isString` passes exactly on strings; `notEmpty` and a positive `isLength` fail on undefined and null; `isIn` on a string is list membership; `isFloat` on a number compares it with the minimum |
| Validate.CheckFailures | utils/validate.js:7-10 | every check of a chain runs (no bail): each failing check contributes its message tagged with the field, every entry comes from a failing check, and the chain reports nothing exactly when every check passes |
| Validate.CheckFailuresSplit | utils/validate.js:7-10 | the failures of a chain split along the chain, and one check contributes its message exactly when it fails: one entry per failing check, in check order |
| Validate.ChainFailures | utils/validate.js:7-10 | an optional field that is undefined records nothing (null is still checked); otherwise the chain records nothing exactly when every check passes |
| Validate.NoFailuresIff | utils/validate.js:7-13 | nothing is recorded on the request exactly when every field's chain records nothing |
| Validate.Validation | utils/validate.js:12-22 | the call throws exactly when something was recorded, and then with code VALIDATION_ERROR and the recorded failures as details |
| Validate.Details | utils/validate.js:14-17 | the details keep the failures' order and number, each `{field: path, message: msg}` |
| Validate.ValidateArgs | utils/validate.js:3-24 | after running every chain against the shared request, the call throws exactly when something was recorded, and what it throws is "Validation failed" / VALIDATION_ERROR with all recorded failures as details |
| Validate.FailuresAppend | utils/validate.js:7-10 | running two tables one after the other records the first table's failures followed by the second's |
| Validate.FailuresSnoc | utils/validate.js:7-10 | one more field's chain appends its failures at the end |
| Validate.EveryFailureReported | utils/validate.js:7-13 | no fail-fast across fields: any failing check of any field whose chain runs is in the result, whatever the other fields did |
| Validate.FailuresFromSchema | utils/validate.js:7-17 | every reported entry comes from a failing check of a field of the table whose chain ran, and carries that check's message |
| Validate.ThrownShape | utils/validate.js:19-22 | the thrown error says "Validation failed", carries code VALIDATION_ERROR and a non-empty details list with one entry per failure, in order |
| Validate.ClassifiedVerbatim | graphql/resolvers.js:13-14 | a thrown validation error reaches the payload unchanged and non-empty |
| Auth.SigningSecret | graphql/resolvers.js:67 | tokens are signed with JWT_SECRET when it is set and non-empty, else with "dev_secret"; the key is never empty |
| Auth.VerifyingSecret | utils/auth.js:9-10 | the parser has a key exactly when JWT_SECRET is set and non-empty, and then it is the signing key |
| Auth.IssueToken | graphql/resolvers.js:67-72 | the login token is the library's signature of the claims with JWT_SECRET when it is set and non-empty, else with "dev_secret" |
| Auth.Split | utils/auth.js:6 | `split(" ")` yields at least one segment, no segment holds a space, and joining the segments with single spaces gives back the header |
| Auth.Word | utils/auth.js:6 | the first segment is the longest space-free prefix, ended by a space or the end of the header |
| Auth.IsBearer | utils/auth.js:6-7 | an accepted header starts with "Bearer " and its token does not start with a space (BearerParse shows it is exactly the segment test) |
| Auth.GetUserFromAuthHeader | utils/auth.js:3-16 | never throws; a missing or empty header, an unset secret, a scheme other than exactly "Bearer" followed by one space, or an empty token gives null; otherwise the answer is exactly what verifying the second segment with JWT_SECRET gives |
| Auth.SplitFirst | utils/auth.js:6 | the first segment is the first word, and the remaining segments are the split of what follows the first space |
| Auth.WordBeforeSpace | utils/auth.js:6 | a space-free prefix followed by a space is the first segment |
| Auth.BearerParse | utils/auth.js:6-7 | the segment test (first segment "Bearer", a non-empty second one) accepts exactly the headers of the form "Bearer <token>..." and its second segment is the token |
| Auth.AcceptedHeaderSplits | utils/auth.js:6-7 | a "Bearer <token>" header splits into "Bearer" and then the token |
| Auth.SplitBearer | utils/auth.js:6-7 | a header whose first segment is "Bearer" and that has a second segment starts with "Bearer " and its second segment is the token's word |
| Auth.RejectedShapes | utils/auth.js:7 | "bearer <t>" (lower case) and "Bearer  <t>" (two spaces) never identify anyone |
| Auth.ExtraSegmentsIgnored | utils/auth.js:6-7 | "Bearer t extra" is verified as token t: segments after the second are ignored |
| Auth.UnsetSecretNeverIdentifies | utils/auth.js:9-10 | with JWT_SECRET unset no header yields an identity, while login still signs with "dev_secret" |
| Auth.IssuedTokenIdentifies | graphql/resolvers.js:67-72 | with JWT_SECRET set, "Bearer " + the token login issues gives back the signed claims, when the library verifies what it signed |
| Auth.WordWhole | utils/auth.js:6 | a token without spaces is its own first segment |
| Auth.RequireAuth | utils/auth.js:18-25 | with no user it throws "Unauthorized: Please login first." with code UNAUTHORIZED; with a user it returns that user unchanged |
| Store.FirstUser | graphql/resolvers.js:39-44 | the position of the first account in insertion order whose username or e-mail matches; None exactly when none matches |
| Store.Matches | graphql/resolvers.js:133-137 | an employee matches a filter when every filter key is a field with an equal value; the empty filter of `getAllEmployees` matches every employee |
| Store.IndexOf | graphql/resolvers.js:106 | the position of the employee with the id; None exactly when no employee has it |
| Store.NewestFirst | graphql/resolvers.js:137 | the result holds exactly the stored employees that satisfy every filter entry |
| Store.NewestFirstDescending | graphql/resolvers.js:137 | the result is in strictly descending creation order |
| Store.IndexOfUnique | graphql/resolvers.js:106 | in a store with increasing ids, each id sits at one position only |
| Store.FirstUserAppend | graphql/resolvers.js:39-44 | an account appended after accounts that do not match is the one the lookup finds |
| Store.Store.FindUser | graphql/resolvers.js:171-173 | `findOne({$or: [{username}, {email}]})` answers a stored matching account, and null exactly when no account matches either key |
| Store.Store.FindById | graphql/resolvers.js:106 | `findById` answers the stored employee with that id, and null exactly when there is none |
| Store.Store.Find | graphql/resolvers.js:96 | `find(filter)` answers exactly the stored employees matching the filter |
| Store.Store.CreateUser | graphql/resolvers.js:186-190 | a database fault or a taken username or e-mail (duplicate key 11000 naming the field) leaves the store unchanged; otherwise exactly one account with a fresh id is appended |
| Store.Store.CreateEmployee | graphql/resolvers.js:243-253 | without a fault exactly one document with a fresh id and stamp is appended and can be found by that id; with one the store is unchanged |
| Store.Store.UpdateById | graphql/resolvers.js:303 | the employee with the id has the update set laid over its fields, nothing else changes, and the updated document is returned; an unknown id returns null and changes nothing |
| Store.Store.DeleteById | graphql/resolvers.js:322 | the employee with the id is removed and returned, and the id is no longer found; an unknown id returns null and changes nothing |
| Resolvers.AuthFailure | graphql/resolvers.js:82-88 | a failed login or signup answer carries neither token nor user |
| Resolvers.EmployeeFailure | graphql/resolvers.js:116-118 | a failed single-employee answer carries no employee |
| Resolvers.ListFailure | graphql/resolvers.js:98-100 | a failed list answer carries an empty list |
| Resolvers.Guard | graphql/resolvers.js:95 | a switched-on `requireAuth` refuses exactly a request without a user, and its error becomes the single entry `general` / "Unauthorized: Please login first." |
| Resolvers.Login | graphql/resolvers.js:28-90 | an empty username-or-e-mail or password answers "Login failed" with one entry per empty argument; an unknown account answers `usernameOrEmail` / "User not found" and a wrong password `password` / "Incorrect password", both with null token; otherwise success with the account found by username or lower-cased e-mail and a token signed over its id, username and e-mail |
| Resolvers.GetAllEmployees | graphql/resolvers.js:92-101 | success ("Employees fetched") exactly when not refused and the database answers, with every stored employee in strictly descending creation order; a refusal or a fault answers "Failed to fetch employees" with the classified error |
| Resolvers.SearchEmployeeByEid | graphql/resolvers.js:103-119 | the employee with that id with "Employee fetched", `eid` / "No employee with this id" when there is none, and "Failed to search employee" with the classified error on a refused request or a database fault |
| Resolvers.SearchFilter | graphql/resolvers.js:133-135 | the filter holds designation and department exactly when they are truthy, each with the argument's string as value, and nothing else |
| Resolvers.NewEmployeeArgs | graphql/resolvers.js:214-234 | the validator sees exactly the eight schema arguments: the six required ones with their values, gender and e-mail only when sent (null when null, the string otherwise), and never the photo |
| Resolvers.SearchEmployeeByDesignationOrDepartment | graphql/resolvers.js:121-142 | with both filters falsy it answers `designation/department` / "At least one filter is required" whatever the database would do; a refusal or a database fault answers "Failed to search employees" with the classified error; otherwise "Employees fetched" with exactly the employees equal to every truthy filter, newest first |
| Resolvers.Signup | graphql/resolvers.js:146-208 | invalid arguments answer the validation entries; a taken username or lower-cased e-mail answers `username/email` / "Username or email already taken"; a fault of the lookup or of the creation answers "Signup failed" with the classified error; every failure leaves the store unchanged; success ("Signup successful") appends exactly one account with the lower-cased e-mail and the hashed password, and returns it with a null token |
| Resolvers.DuplicateKeyEntry | graphql/resolvers.js:16-19 | a unique-index clash raised by the store becomes the single entry "<field> already exists (must be unique)" blaming that field |
| Resolvers.NewDocument | graphql/resolvers.js:243-253 | the created document has only the schema's keys: the photo URL or null, the e-mail lower-cased and only when truthy, the gender as sent (null when null, absent when undefined), the date as a date, and the other arguments as given |
| Resolvers.AddEmployee | graphql/resolvers.js:210-259 | validation comes first and its failure answers every failing field whatever the upload would do; a refusal, an upload failure or a database fault answers "Failed to create employee" with the classified error; every failure leaves the store unchanged; success ("Employee created") appends the new document, which can be fetched by its id |
| Resolvers.UpdateSetContents | graphql/resolvers.js:265-301 | the photo is in the update set exactly when a file was uploaded, a truthy e-mail is lower-cased and a truthy date made a date, an empty e-mail or date goes in unvalidated as the empty string, a gender or salary as sent, and an argument not sent is not in the set |
| Resolvers.UpdateSetTextValues | graphql/resolvers.js:265 | the sent names, designation and department go in as sent, and every null text argument goes in as null |
| Resolvers.SentFields | graphql/resolvers.js:265 | `const { eid, ...updates } = args` holds exactly the sent arguments, and a photo only when it is null |
| Resolvers.UpdateSet | graphql/resolvers.js:265-301 | the update set has only the schema's keys and holds a photo exactly when a file was uploaded |
| Resolvers.UpdatesNormalised | graphql/resolvers.js:265-301 | the handler's in-place edits of the sent arguments (e-mail, date, photo set or deleted) give exactly the update set |
| Resolvers.CheckPatch | graphql/resolvers.js:267-293 | the separate validations of the update throw exactly when some validated field fails, and report only the first failing field in the order e-mail, gender, salary, date |
| Resolvers.PatchViolation | graphql/resolvers.js:267-293 | an update passes validation exactly when a truthy e-mail is an e-mail, a truthy gender is Male, Female or Other, a sent salary is at least 1000 and a truthy date is ISO 8601; a bad e-mail is reported before anything else, and only e-mail, gender, salary or date is ever blamed |
| Resolvers.ValidateOne | graphql/resolvers.js:269-272 | a one-field validation call throws exactly when its check fails, with that field's single entry |
| Resolvers.UpdateEmployeeByEid | graphql/resolvers.js:261-317 | an invalid truthy field answers only the first failing field's entry; a refusal, an upload failure or a database fault answers "Failed to update employee" with the classified error; an unknown id answers the `eid` entry; every failure leaves the store unchanged; success ("Employee updated") lays the update set over the stored fields, leaves every other field as it was, and changes no other employee |
| Resolvers.DeleteEmployeeByEid | graphql/resolvers.js:319-335 | success ("Employee deleted") returns the removed employee, which is then gone while every other employee stays; an unknown id answers the `eid` entry; a refusal or a database fault answers "Failed to delete employee" with the classified error; no failure changes the store |
| Resolvers.LoginValidation | graphql/resolvers.js:30-36 | login validation reports "usernameOrEmail is required" and "password is required" for each empty argument, both when both are empty, and passes exactly when neither is empty |
| Resolvers.RequiredStringOnText | graphql/resolvers.js:216 | a required string field that is a string fails only when empty, with its "is required" message |
| Resolvers.RequiredStringOnMissing | graphql/resolvers.js:216 | a required string field that is missing fails both its checks, "Invalid value" and its "is required" message |
| Resolvers.RequiredStringChain | graphql/resolvers.js:32 | a required-string chain reports its string check, then its not-empty check |
| Resolvers.OneCheckChain | graphql/resolvers.js:219-223 | a one-check field reports that check's message exactly when the value fails it |
| Resolvers.TwoCheckChain | graphql/resolvers.js:155-164 | a two-check field reports each failing check, in order |
| Resolvers.SignupValidation | graphql/resolvers.js:148-167 | signup validation reports an empty username, an invalid e-mail and an empty e-mail separately, and a password under six characters, and passes exactly when none applies |
| Resolvers.SignupChains | graphql/resolvers.js:149-165 | the signup table reports username, e-mail and password failures in that order |
| Resolvers.AddEmployeeChains | graphql/resolvers.js:215-231 | the employee table reports each field's failures in table order |
| Resolvers.AddEmployeeEmptyArgs | graphql/resolvers.js:214-233 | with no arguments, every required field is reported (both checks of each string field, salary, date) and nothing for the optional gender and e-mail |
| Resolvers.EmptyArgsRequiredChains | graphql/resolvers.js:215-217 | with no arguments, first_name, last_name, designation and department each fail both their string check and their "is required" check |
| Resolvers.EmptyArgsOtherChains | graphql/resolvers.js:218-230 | with no arguments, salary and date fail their one check, and the optional gender and e-mail are skipped |
| Resolvers.SingleCheck | graphql/resolvers.js:281-286 | a one-field table throws exactly when its check fails, with that single entry |
| Scenarios.DeleteTwice | graphql/resolvers.js:319-335 | deleting twice returns the employee, then the `eid` not-found entry |
| Scenarios.AddThenFetch | graphql/resolvers.js:235-255 | a created employee fetched by id is the created document, with the uploaded file's URL as its photo |
| Scenarios.SignupThenLogin | graphql/resolvers.js:39-80 | after a signup, logging in with the same username and password succeeds with the new account and a token for it |
| Scenarios.SignupThenLoginByEmail | graphql/resolvers.js:39-44 | after a signup, logging in with the e-mail as the account stores it succeeds with the new account and a token for it, since lower-casing it again changes nothing |
| Scenarios.SignupSameEmailOtherCase | graphql/resolvers.js:169-183 | a second signup with the same e-mail in other letter case is refused and leaves the store as it was |

## Left out

- The HTTP server, Apollo wiring and the context builder (`server.js`) and the GraphQL type definitions are not part of this model; argument types are taken as GraphQL enforces them (non-null strings as plain values, nullable ones as `Arg`).
- The upload helper (`utils/cloudinary.js`) is not part of this model: an upload is a function returning the file's URL or the error it throws. The upload happens before the update looks the id up, so a real upload for an unknown id is still made; the model has no side effect to show it.
- bcrypt's hash and compare and jsonwebtoken's sign are total functions here; in the source any exception they throw (for example `bcrypt.compare` on a missing hash) is caught and answers "Login failed" or "Signup failed" with a `general` entry, a path the model does not have.
- bcrypt, jsonwebtoken, the validator's e-mail and ISO 8601 recognition, float parsing and `new Date` are uninterpreted; token expiry ("2h") and the extra claims `iat`/`exp` live inside `jwt.verify`, and the id claim is a number, not the string form of an ObjectId.
- Common.Lower: lower-cases ASCII letters only; JavaScript's `toLowerCase` also maps other Unicode letters.
- Validate.CheckFailures: `isLength` counts characters of the modelled string, not UTF-16 code units; `isFloat` on a number compares the number directly rather than parsing its string form.
- MongoDB is a simple in-memory store: no type casting of update values (an empty date string is stored as the empty string), no schema validators, no `updated_at` timestamps, no ObjectId cast errors for malformed ids, and creation stamps are strictly increasing, so ties in `created_at` do not occur.
- Concurrency is not modelled: each handler runs to completion before the next starts, so the race between the signup's existence check and the account creation does not arise (the unique-index error path is still modelled).
- Throwing values that are not Error objects, and errors whose `details` is not an array, are covered only as far as `Exception` represents them (`details` None).
