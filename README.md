# Portfolio tracker: cache-aside stock handlers and their validators

This project models the portfolio tracker. It is an Express/Postgres API with a Redis cache and a React client. Users register, log in, and keep a list of stock holdings, each with a ticker, quantity and buy price.

The centre of the model is the stock controller. Two read handlers work cache-aside:

- The list of a user's holdings is cached under `stocks:user:<id>`.
- The summed value of those holdings is cached under `portfolio:value:<id>`.
- On a hit, the handler answers from the cache.
- On a miss, it queries the `portfolio` table and stores the result for 30 seconds.

Three write handlers (create, update, delete) change only the caller's rows. After a change they delete both of the caller's keys, and only then answer. `StockController.PortfolioServer` holds:

- the cache, as a map from typed keys to entries with an expiry time;
- the table, as a sequence of rows in insertion order;
- a clock;
- a ghost log of every external call.

Every handler is a method. Its postcondition gives the reply (401, 404, 500 or data), the new cache and table, and the exact calls it made. A `Fault` parameter names the external call that throws, if any.

The main invariant is `Coherent`: every live cache entry equals what its key's query would return now. The invariant holds from the start, expiry keeps it, and every handler that meets no fault preserves it. So while nothing fails, a read always sees the latest write (read-your-writes).

Around the controller sit small pure rules:

- **Token extraction** (`AuthMiddleware`): the middleware takes the token from the Authorization header and verifies it.
- **Request schemas** (`StockSchema`, `AuthSchema`): they collect one issue per failing field.
- **Client rules**:
  - the stocks page: case-insensitive duplicate check and lookup, summary figures, and what its add and update handlers change on the page (`StocksPage`);
  - the stock form: defaults, edit transforms, field validators, visible fields, and the submit sequence (`StockModal`);
  - the change-password and registration pages: ordered submit checks, field rules, request bodies, and how the pages report answers (`ChangePassword`, `Register`).

Shared pieces:

- `Text`: ASCII upper-casing, string length in UTF-16 code units as JavaScript counts it, JavaScript's `\s`, `split` on one character, decimal digits.
- `Json`: request values and validation issues.
- `Http`: what a page sees of a `fetch`.
- `Common`: `Option`, `Parsed` (the result of a validator), and the rule for a required form field.

Cache errors are not tolerated. Any error from the cache ends the request with status 500 and the error's message (server/src/controllers/stockController.ts:39-41, 59-60, 64-66). That includes a failed lookup, which does not fall back to the table, and a failed delete after a committed insert. `StockController.StaleAfterFailedInvalidation` shows what follows from the second case: a stale list is served until its TTL runs out.

External pieces are parameters:

- JWT verification is a function from a token to its claims.
- zod's `email()` check is a predicate.
- Each request a page sends is given its answer.
- The current time is the server clock and, on the client, an ISO timestamp string.

## Model

| member | source | states |
|---|---|---|
| StockController.KeyTextInjective | server/src/controllers/stockController.ts:22 | two keys render to the same text exactly when they are the same key. List and value keys never collide, and keys of different users never collide. |
| StockController.KeyText | server/src/controllers/stockController.ts:22 | the list key text starts with `stocks:user:` and the value key text with `portfolio:value:`, and each is followed by a non-empty id. The same texts are deleted at lines 59-60 and read at line 140. |
| StockController.StocksQuery | server/src/controllers/stockController.ts:30-33 | reference definition of the holdings query: the owner's rows, newest first. `OwnedByMembers` and `StocksQueryNewestFirst` state its properties. Every handler's list answer is stated in terms of it. |
| StockController.TotalQuery | server/src/controllers/stockController.ts:149-152 | reference definition of the value query: the sum of quantity × buy price over the owner's rows. `TotalQueryNoRows` and `InsertEffect` state its properties. Every handler's value answer is stated in terms of it. |
| StockController.OwnedByMembers | server/src/controllers/stockController.ts:30-33 | the owner filter keeps exactly the table's rows with that `user_id`. |
| StockController.StocksQueryNewestFirst | server/src/controllers/stockController.ts:31 | on a table in creation order, the holdings list is ordered by `created_at` descending. |
| StockController.TotalQueryNoRows | server/src/controllers/stockController.ts:150 | a user without rows is worth 0, the COALESCE default. |
| StockController.InsertEffect | server/src/controllers/stockController.ts:54-57 | an insert appends the row to its owner's rows and adds quantity × price to that owner's total. Other owners' rows are unchanged. |
| StockController.UpdateKeepsOthers | server/src/controllers/stockController.ts:81-84 | an UPDATE scoped by `id AND user_id` leaves every other user's rows unchanged. |
| StockController.DeleteKeepsOthers | server/src/controllers/stockController.ts:111-114 | a DELETE scoped by `id AND user_id` leaves every other user's rows unchanged. |
| StockController.DeletePartition | server/src/controllers/stockController.ts:111-114 | the DELETE keeps exactly the non-matching rows and returns exactly the matching ones. |
| StockController.NoMatchNoChange | server/src/controllers/stockController.ts:86-89 | no row matches exactly when `RETURNING` is empty. UPDATE and DELETE then leave the table unchanged. |
| StockController.DeleteKeepsOrder | server/src/controllers/stockController.ts:111-114 | the rows left after a DELETE come from the table and stay in creation order. |
| StockController.PortfolioServer.Advance | server/src/controllers/stockController.ts:12 | when the clock moves on, no entry becomes live again, and a live entry stays live exactly while less time has passed than it had left. Expired entries stay in the map but are no longer returned. Coherence is kept. |
| StockController.PortfolioServer.Get | server/src/controllers/stockController.ts:23 | `get` returns the payload only when the entry exists and has not expired. A throwing call returns its message. |
| StockController.PortfolioServer.SetEx | server/src/controllers/stockController.ts:35 | `setEx` replaces the entry, which expires `CacheTtl` = 30 seconds from now. A throwing call changes nothing. |
| StockController.PortfolioServer.Del | server/src/controllers/stockController.ts:59 | `del` removes exactly that key. A throwing call changes nothing. |
| StockController.PortfolioServer.Invalidate | server/src/controllers/stockController.ts:59-60 | deletes the list key, then the value key. The first error stops the sequence. The ensures give the cache and the calls made in each case. |
| StockController.PortfolioServer.SelectOwned | server/src/controllers/stockController.ts:30-33 | without a fault the query returns the owner's rows, newest first. |
| StockController.PortfolioServer.SelectSum | server/src/controllers/stockController.ts:149-152 | without a fault the query returns the sum of quantity × buy price over the owner's rows. |
| StockController.PortfolioServer.InsertRow | server/src/controllers/stockController.ts:54-57 | the new row gets the next id, the caller's id and the current time, and is appended. A failed insert changes nothing. |
| StockController.PortfolioServer.UpdateOwned | server/src/controllers/stockController.ts:81-84 | only rows matching both id and owner get the new ticker, quantity and price. The matched rows are returned updated. |
| StockController.PortfolioServer.DeleteOwned | server/src/controllers/stockController.ts:111-114 | removes exactly the rows matching both id and owner and returns them. |
| StockController.PortfolioServer.GetStocks | server/src/controllers/stockController.ts:14-42 | covers every path:<br>• no user: 401, with no call made and nothing changed.<br>• only the caller's keys are touched.<br>• a failed lookup, query or store gives 500 with its message.<br>• a hit answers the cached rows, with no query and no write.<br>• a miss queries, stores exactly what it answers, with TTL 30.<br>Under coherence without a fault, the answer is the current table and coherence holds afterwards. |
| StockController.PortfolioServer.GetPortfolioValue | server/src/controllers/stockController.ts:131-162 | the same cases as `GetStocks`, for the summed value under `portfolio:value:<id>`. |
| StockController.PortfolioServer.CreateStock | server/src/controllers/stockController.ts:45-67 | covers every path:<br>• no user: 401, with nothing touched.<br>• a failed insert: 500, with nothing changed.<br>• a committed insert is followed by the two deletes, list key first.<br>• a failed delete still gives 500, and the cache keeps what was not deleted.<br>• otherwise the new row is returned.<br>Other users' entries are unchanged, and coherence is preserved when nothing fails. |
| StockController.PortfolioServer.UpdateStock | server/src/controllers/stockController.ts:70-100 | covers every path:<br>• no user: 401.<br>• no row with that id and owner: 404, with the cache and table untouched.<br>• otherwise the rows are updated, then both keys are deleted and the updated row is returned.<br>Errors give 500, other users' entries are unchanged, and coherence is preserved when nothing fails. |
| StockController.PortfolioServer.DeleteStock | server/src/controllers/stockController.ts:102-129 | the same cases as `UpdateStock` for DELETE, answering the deletion message. |
| StockController.CreateWithoutFault | server/src/controllers/stockController.ts:45-67 | a create that meets no fault appends the caller's row with the given fields and leaves no live value entry for the caller. |
| StockController.ReadValueCold | server/src/controllers/stockController.ts:131-162 | a value read that meets no fault and finds no live entry answers the current total of the table. |
| StockController.ReadAfterCreate | server/src/controllers/stockController.ts:54-63 | read-your-writes: after a create that meets no fault, the returned row carries the caller's id, ticker, quantity and price, and the owner's next value read is the old total plus that row's quantity × buy price, whatever the cache held before, stale entries included. |
| StockController.WarmRead | server/src/controllers/stockController.ts:140-146 | when the value key has no live entry (absent, or expired but still stored), a first read loads the current total, whatever else the cache holds. A read less than 30 seconds later answers the same value with a single cache lookup and no query. |
| StockController.StaleAfterFailedInvalidation | server/src/controllers/stockController.ts:59-66 | the first delete fails after a committed insert. The request gets 500, and a read inside the TTL still answers the old empty list. After 30 seconds the read answers the inserted row. |
| Text.JoinSplit | server/src/middleware/authMiddleware.ts:17 | joining the fields of `split(' ')` gives the header back. |
| Text.SplitJoin | server/src/middleware/authMiddleware.ts:17 | splitting the join of space-free fields gives the fields back. |
| Text.IntToDecimalInjective | server/src/controllers/stockController.ts:22 | different user ids render as different decimal strings. |
| Text.DecimalRoundTrip | server/src/controllers/stockController.ts:22 | reading the digits of a rendered id gives back the id. |
| Text.JsLength | server/src/schemas/stockSchema.ts:5 | `length` in UTF-16 code units: between the number of characters and twice that, and 0 exactly for the empty string. |
| Text.JsLengthIsLengthInBmp | server/src/schemas/stockSchema.ts:5 | the code-unit length equals the character count exactly when no character lies outside the Basic Multilingual Plane. |
| Text.UpperPreservesJsLength | server/src/schemas/stockSchema.ts:5 | upper-casing keeps the code-unit length, so the upper-cased ticker still fits the limit. |
| AuthMiddleware.SchemeThenToken | server/src/middleware/authMiddleware.ts:17 | any first word, one space and a space-free token yield that token, with or without more text after it. The scheme word is never compared with "Bearer". |
| AuthMiddleware.NoSpaceIsMalformed | server/src/middleware/authMiddleware.ts:17-21 | a header without a space has no token, e.g. `"Bearer"`. |
| AuthMiddleware.DoubleSpaceIsMalformed | server/src/middleware/authMiddleware.ts:17-21 | two spaces after the first word leave an empty token, e.g. `"Bearer  x"`. |
| AuthMiddleware.BearerToken | server/src/middleware/authMiddleware.ts:17-19 | `split(' ')[1]`, kept only when non-empty. A token found is a whole field of the header: the second one, non-empty and without spaces. |
| AuthMiddleware.VerifyToken | server/src/middleware/authMiddleware.ts:7-35 | the outcomes:<br>• a missing or empty header: 401 "Access Denied: No Token Provided".<br>• no usable second field: 401 "Access Denied: Malformed Token".<br>• a failed verification: 400 "Invalid Token".<br>• otherwise `req.user` is the verified payload and the request goes on.<br>It goes on exactly when verification succeeds, and `req.user` is untouched on every response. |
| StockSchema.ParseCreateStockPayload | server/src/schemas/stockSchema.ts:4-8 | accepted exactly when the ticker is a string of 1 to 10 UTF-16 code units, the quantity a positive integer and the price positive. A rejection has at least one issue. An accepted ticker is upper-cased, keeps its length and has no lower-case letter left. |
| StockSchema.ValidateCreateStock | server/src/schemas/stockSchema.ts:14-16 | accepts exactly when the payload rule accepts the body, with the same value, whatever the route parameters hold. Every issue's path starts with `body`. |
| StockSchema.WideTickerTooLong | server/src/schemas/stockSchema.ts:5 | a ticker of six characters outside the Basic Multilingual Plane is 12 code units and is rejected as too long. |
| StockSchema.ParseStockId | server/src/schemas/stockSchema.ts:20-22 | the id is accepted exactly when it is a string of digits with a positive value, and the value is returned. |
| StockSchema.ValidateStockId | server/src/schemas/stockSchema.ts:24-26 | accepts exactly when the id rule accepts the route parameters, with the same id, whatever the body holds. Its issue path is `params.id`. |
| StockSchema.DigitsPositive | server/src/schemas/stockSchema.ts:21 | a digit string is a positive id exactly when some digit is not `0`. |
| AuthSchema.StringIssues | server/src/schemas/authSchema.ts:8-10 | a required string field with a minimum length has no issue exactly when it is a string of at least that many UTF-16 code units. |
| AuthSchema.EmailIssues | server/src/schemas/authSchema.ts:5-7 | the email field has no issue exactly when it is a string the email check accepts. |
| AuthSchema.ParseRegister | server/src/schemas/authSchema.ts:3-12 | accepted exactly for an email address and a password of at least 6 UTF-16 code units. It then yields those credentials. |
| AuthSchema.ParseLogin | server/src/schemas/authSchema.ts:14-23 | accepted exactly for an email address and a non-empty password. |
| AuthSchema.PasswordChangeRule | server/src/schemas/authSchema.ts:25-34 | the password-change rule, with the name of the current-password field as a parameter. It accepts exactly a non-empty current password and a `newPassword` of at least 6 code units. A rejection has one or two issues. A missing current-password field is reported first, as "Current password is required". |
| AuthSchema.ParseChangePassword | server/src/schemas/authSchema.ts:25-34 | accepted exactly for a non-empty `currentPassword` and a `newPassword` of at least 6 code units. |
| AuthSchema.RegisterImpliesLogin | server/src/schemas/authSchema.ts:14-23 | whatever registration accepts, login accepts with the same result. |
| AuthSchema.ShortPasswordPassesLoginOnly | server/src/schemas/authSchema.ts:19-21 | a password of 1 to 5 code units passes login and fails registration. |
| AuthSchema.WidePasswordMeetsMinimum | server/src/schemas/authSchema.ts:8-10 | three characters outside the Basic Multilingual Plane make a 6-unit password, which registration accepts. |
| AuthSchema.MissingCurrentPasswordRejected | server/src/schemas/authSchema.ts:27-29 | a body without `currentPassword` is rejected, first with "Current password is required". |
| AuthSchema.ParseChangePasswordCorrected | server/src/schemas/authSchema.ts:25-34 | the same rule keyed on `oldPassword`, the field the handler reads. It accepts exactly a non-empty `oldPassword` with a `newPassword` of 6 or more code units. |
| StocksPage.HasTicker | client/src/routes/stocks.tsx:23 | true exactly when some listed ticker equals the given one, ignoring case. |
| StocksPage.FindTicker | client/src/routes/stocks.tsx:39 | finds the first listed stock whose ticker matches ignoring case, or none exactly when there is no match. |
| StocksPage.FindTickerIgnoresCase | client/src/routes/stocks.tsx:39 | two tickers that differ only in case find the same stock. |
| StocksPage.AvgPrice | client/src/routes/stocks.tsx:102 | an empty list has no average (shown as 0.00), so there is no division by zero. Otherwise the average times the count is the sum of the prices. |
| StocksPage.AvgPriceBetween | client/src/routes/stocks.tsx:102 | the average lies between the lowest and the highest buy price. |
| StocksPage.SumPricesBetween | client/src/routes/stocks.tsx:102 | bounds on each price bound the sum. |
| StocksPage.TotalQtyAppend | client/src/routes/stocks.tsx:108 | the total quantity of two lists is the sum of their totals. |
| StocksPage.TotalQtyAtLeastCount | client/src/routes/stocks.tsx:108 | with every quantity at least 1, the total quantity is at least the number of holdings. |
| StocksPage.Page.OpenAdd | client/src/routes/stocks.tsx:69 | the add button opens the add modal. |
| StocksPage.Page.OpenUpdate | client/src/routes/stocks.tsx:78 | the update button opens the update modal. |
| StocksPage.Page.HandleAddStock | client/src/routes/stocks.tsx:21-35 | a duplicate ticker (ignoring case) gives the alert and sends nothing. Otherwise one request is sent. Success closes the modal and reloads. Failure gives the alert and leaves the modal as it was. |
| StocksPage.Page.HandleUpdateStock | client/src/routes/stocks.tsx:37-53 | no matching ticker gives the alert and sends nothing. Otherwise one request is sent with the first match's id. Success closes the modal and reloads. Failure gives the alert. |
| StocksPage.Page.SubmitAddAsWired | client/src/components/StockModal.tsx:35-38 | a valid form runs the add handler and then always closes the modal. |
| StocksPage.Page.SubmitAdd | client/src/routes/stocks.tsx:28-34 | with closing left to the handler, the modal closes exactly when the add went through. |
| StocksPage.DuplicateAddAsWired | client/src/components/StockModal.tsx:35-38 | as wired, a duplicate add shows the alert, sends nothing, and still closes the modal. |
| StocksPage.DuplicateAddKeepsModalOpen | client/src/routes/stocks.tsx:23-26 | with closing left to the handler, the same duplicate add leaves the modal open. |
| StockModal.Today | client/src/components/StockModal.tsx:33 | `split("T")[0]` is the prefix of the timestamp up to its first `T`, or all of it when it has none. It contains no `T`. |
| StockModal.TodayIsDatePart | client/src/components/StockModal.tsx:33 | `toISOString().split("T")[0]` is the date part of the timestamp. |
| StockModal.Defaults | client/src/components/StockModal.tsx:29-34 | with no initial data every field takes its fallback (`""`, 0, 0, today). With initial data the result is that data, except that an empty date becomes today's: `x \|\| ""` and `x \|\| 0` give back `x` itself. |
| StockModal.DefaultsKeepTruthy | client/src/components/StockModal.tsx:30-33 | initial data whose fields are all truthy is taken over unchanged. |
| StockModal.DefaultsDateFallsBack | client/src/components/StockModal.tsx:33 | an empty initial date is replaced by today's. |
| StockModal.OnTickerChange | client/src/components/StockModal.tsx:98 | every edit of the ticker is upper-cased: same length, no lower-case letter, equal to the typed text ignoring case. |
| StockModal.DigitsQuantity | client/src/components/StockModal.tsx:137 | typing a run of digits sets the quantity to their value. |
| StockModal.ParseInt | client/src/components/StockModal.tsx:137 | `parseInt` in base 10: text without any digit gives NaN. |
| StockModal.ParseIntRendersBack | client/src/components/StockModal.tsx:137 | `parseInt` reads back the decimal rendering of every integer, sign included. |
| StockModal.OnQuantityChange | client/src/components/StockModal.tsx:137 | `parseInt(text) \|\| 0`: a parsed number is kept and NaN becomes 0. |
| StockModal.NonNumericQuantityRejected | client/src/components/StockModal.tsx:137 | input without a digit becomes 0 and is rejected with "Quantity must be at least 1". |
| StockModal.TickerError | client/src/components/StockModal.tsx:82-83 | an error exactly when the ticker is empty. |
| StockModal.QuantityError | client/src/components/StockModal.tsx:120-121 | an error exactly when the quantity is below 1. |
| StockModal.BuyPriceError | client/src/components/StockModal.tsx:159-160 | an error exactly when the price is not above 0. |
| StockModal.PurchaseDateError | client/src/components/StockModal.tsx:200-201 | an error exactly when the date is empty. |
| StockModal.VisibleFields | client/src/components/StockModal.tsx:41 | a closed modal shows nothing. An open one shows ticker, quantity and price. The date field appears exactly in update mode. |
| StockModal.FormErrors | client/src/components/StockModal.tsx:196-201 | the form is free of errors exactly when the ticker is set, the quantity is at least 1, the price is above 0 and, in update mode only, the date is set. |
| StockModal.FreshAddFormBlocked | client/src/components/StockModal.tsx:29-34 | an add form opened without data reports the ticker, quantity and price errors, in that order. |
| StockModal.SubmitEffects | client/src/components/StockModal.tsx:35-38 | a valid form passes its value unchanged to `onSubmit`, then calls `onClose`. An invalid one calls neither. |
| ChangePassword.OldPasswordError | client/src/routes/auth/change-password.tsx:112-115 | an error exactly when the current password is empty. |
| ChangePassword.NewPasswordError | client/src/routes/auth/change-password.tsx:146-150 | an error exactly when `value.length`, in UTF-16 code units, is below 6. Emptiness is reported before length. |
| Common.RequiredError | client/src/routes/auth/change-password.tsx:181-184 | a required form field: its message exactly when it is empty, no error otherwise. It is the confirmation rule of this page and of the registration page (client/src/routes/auth/register.tsx:183-186), each with its own message. |
| ChangePassword.LocalCheck | client/src/routes/auth/change-password.tsx:30-40 | passes exactly when the confirmation matches and the new password differs from the old one. The mismatch check comes first. |
| ChangePassword.MismatchReportedFirst | client/src/routes/auth/change-password.tsx:31-40 | when both checks fail, "New passwords do not match" is reported. |
| ChangePassword.RequestBody | client/src/routes/auth/change-password.tsx:49-52 | the body has exactly the keys `oldPassword` and `newPassword`, never the confirmation. |
| ChangePassword.FailureText | client/src/routes/auth/change-password.tsx:57-58 | the error text is `error`, else `message`, else "Failed to change password". It is never empty. |
| ChangePassword.Page.Submit | client/src/routes/auth/change-password.tsx:25-73 | in order:<br>• an invalid form does nothing.<br>• otherwise both messages are cleared.<br>• a failed local check sets its message and sends nothing.<br>• otherwise exactly one request is sent.<br>A network or body error sets its message. A refusal sets the failure text. Success sets the success message and schedules the logout. |
| ChangePassword.SentBodyRejectedByServer | client/src/routes/auth/change-password.tsx:49-52 | every body the page sends fails the server's password-change rule with "Current password is required". |
| ChangePassword.SentBodyAcceptedByCorrectedRule | client/src/routes/auth/change-password.tsx:49-52 | a form that passes the page's rules yields a body the `oldPassword` rule accepts, with the same two passwords. |
| Register.MatchImpliesShape | client/src/routes/auth/register.tsx:114 | a string the scan accepts has the pattern's shape `A@B.C`. |
| Register.ShapeImpliesMatch | client/src/routes/auth/register.tsx:114 | a string of the shape `A@B.C` is accepted by the scan. |
| Register.EmailPatternIsShape | client/src/routes/auth/register.tsx:114 | the scan and `/^[^\s@]+@[^\s@]+\.[^\s@]+$/` accept the same strings. |
| Register.MatchesEmailPattern | client/src/routes/auth/register.tsx:114 | the regex as a scan: split at the first `@`, no white space or second `@`, and a dot strictly inside the domain. `EmailPatternIsShape` proves it accepts exactly the strings of the regex's shape. |
| Register.EmailError | client/src/routes/auth/register.tsx:112-115 | empty gives "Email is required". Otherwise there is no error exactly when the whole string is `A@B.C` with non-empty runs free of white space and `@`. |
| Register.PasswordError | client/src/routes/auth/register.tsx:148-151 | an error exactly when `value.length`, in UTF-16 code units, is below 6. Emptiness is reported first. |
| Register.CredentialsBody | client/src/routes/auth/register.tsx:43-46 | the body has exactly the keys `email` and `password`. |
| Register.RegisterFailureText | client/src/routes/auth/register.tsx:52 | the error text is `error`, else "Registration failed". |
| Register.SubmittedFormPassesServerRules | client/src/routes/auth/register.tsx:43-46 | a submitted form whose address the server also takes for an email passes both the register and the login rule, with the same credentials. |
| Register.Page.Submit | client/src/routes/auth/register.tsx:31-79 | in order:<br>• an invalid form does nothing.<br>• a mismatched confirmation sets "Passwords do not match" and sends nothing.<br>• otherwise a register request is sent. A failure sets its error.<br>• after a successful registration, exactly one login with the same credentials follows. Success stores the token and goes to /stocks; a refusal goes to /auth/login. |

## Left out

- Redis connection handling (client creation, event logging, exiting on a failed connect, the SIGINT handler) and the Postgres pool are not modelled. The cache is a map with expiry times, and the table is a sequence of rows.
- Concurrency between overlapping requests is not modelled. Requests run one at a time against the shared state, so racing misses and interleaved invalidations are not covered.
- JSON serialisation of cached values is the identity. A cached `[]` is truthy text in the source, so it counts as a hit, as in the model.
- Prices are Dafny reals and quantities unbounded integers. Floating-point rounding, Postgres `numeric` values arriving as strings, `toFixed`, and `parseFloat` on the price input are not modelled.
- StockController.PortfolioServer.GetPortfolioValue: answers the total as a number. The source answers the row `{ total_value }`.
- The handlers receive the raw `ticker`, `quantity` and `buy_price` of the body. Two reasons:
  - the validation middleware (src/middleware/validateResource.ts, not part of this model) discards the parsed value, so the upper-cased ticker never reaches the handler;
  - the update route validates only the id (server/src/routes/stockRoutes.ts:11).
- StockSchema.ParseStockId: accepts only plain digit strings. `Number()` also accepts other numeric forms (surrounding white space, `1e2`, `0x10`, `12.0`), which this model rejects.
- StockSchema.ParseCreateStockPayload: issues carry zod's code and path. The model gives no default message text where the schema sets none.
- AuthSchema.ParseRegister: whether a string is an email address is a predicate parameter, not zod's `email()` rule.
- AuthMiddleware.VerifyToken: `jwt.verify` is a parameter function, and the secret and token expiry are not modelled.
- server/src/controllers/authController.ts is not part of this model. It is a thin layer over bcrypt, jsonwebtoken and pg; only the field name it reads (`oldPassword`) is used, in the findings.
- The form library's behaviour is not modelled beyond this assumption: a submit reaches `onSubmit` only when no mounted field validator reports an error. Touched/blurred state, per-keystroke error display and the Cancel/backdrop buttons are left out.
- StocksPage.Page.SubmitAddAsWired: runs the add handler to completion and then closes the modal. In the source `onClose` runs while the add request is still pending. The final page state is the same, but the order of the steps is not modelled.
- Reloading the list after a change is counted, not performed. The page's list is not updated by the model.
- Total Stocks is the list length (client/src/routes/stocks.tsx:97) and needs no member of its own.
- ChangePassword.Page.Submit: the redirect of a page without a token, the token in the Authorization header, and the 2-second timer before logout are left out. The page only records that logout was scheduled.
- Register.Page.Submit: the redirect of an already signed-in user (an effect hook) is left out.
- Route wiring is not modelled. As written, server/src/routes/stockRoutes.ts:8-12 and server/src/index.ts:15 mount no `verifyToken` in front of the stock routes. Every stock handler would then see no `req.user` and answer 401, which is the `None` case of each handler here (not executed).
- Upper-casing covers ASCII letters only. Unicode case mapping is not modelled.
- Rendering is not modelled: JSX, styles, labels and navigation timing.

## Findings

| source | as written | input that shows it | evidently intended | confidence | as-written member | corrected member |
|---|---|---|---|---|---|---|
| client/src/routes/auth/change-password.tsx:49-52 | The page sends `{ oldPassword, newPassword }`. The route runs the `changePasswordSchema` rule (server/src/routes/authRoutes.ts:14), which requires `currentPassword` (server/src/schemas/authSchema.ts:27-29). So every request is refused with 400 before the handler runs. | any submit, e.g. old `secret1`, new and confirmation `secret22` | The rule should be keyed on `oldPassword`, the field the handler reads (server/src/controllers/authController.ts:63). The page's valid forms then pass. | high (not executed) | ChangePassword.SentBodyRejectedByServer | AuthSchema.ParseChangePasswordCorrected |
| client/src/components/StockModal.tsx:35-38 | The form calls `onSubmit(value)` and then `onClose()` without waiting. The add modal closes even when the add handler refuses a duplicate or the request fails. | the list holds `AAPL` and the user adds `aapl` | The modal should close only where `handleAddStock` closes it: after a successful add (client/src/routes/stocks.tsx:28-31). A refused or failed add should keep it open for another try. | medium (not executed) | StocksPage.DuplicateAddAsWired | StocksPage.Page.SubmitAdd |
