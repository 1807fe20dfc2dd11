# Catalogue shop server: a Dafny model

This project models the server side of a small product-catalogue shop. The
shop has products, categories and contact messages, and a single admin who
manages them. Each request is a pure function:

    (Request, Store, Env, Codec) -> Outcome(Response, Store)

- **Store.** An in-memory copy of the database: four tables with serial ids (products, categories, contacts, admins) and the directory of uploaded files.
- **Request.** The `adminToken` cookie plus the route with its already-parsed inputs.
- **Response.** A status code, a JSON payload and what the response does to the cookie.
- **Env.** The I/O outcomes a handler cannot decide itself: whether the gate's admin lookup throws, the 16 random bytes, whether the file write finishes, and the database clock.
- **Codec.** bcrypt's `hash` and `compare`, as function values.

The modules follow the server's files.

- `Tables` is a generic table with serial ids: find, insert, update, delete and filter, plus the invariant that ids are unique, positive and below the counter.
- `Storage` is the `IStorage` contract of `server/storage.ts` over those tables. It adds the rule that no two admins share an email.
- `Auth` covers `server/auth.ts`:
  - bcrypt as an abstract `Codec`, whose single assumed property is `Sound`: a password verifies against any digest made from it;
  - the seeded admin (`initializeAdmin`);
  - the `authenticateAdmin` gate. The session token is the admin's email.
- `Upload` covers `server/upload.ts`:
  - JavaScript's `split('.')` and its inverse `join`;
  - the extension (`pop()` of the split);
  - `toString('hex')` and its inverse;
  - the stored file name and the `/uploads/...` reference.
- `JsNumbers` covers the two ways the routes read `:id`. `parseInt` reads the leading digits. `Number` accepts only a whole digit string.
- `Http` holds the request, response and cookie datatypes and the set of protected routes.
- `Routes` has every handler of `server/routes.ts` and the dispatcher `Handle`.
- `CategoryGuard` covers the category-delete guard. It has a counterexample to the guard as written and a corrected guard with its proof.
- `Scenarios` relates several requests: the session round trip, uploads, login failures, and create, update or delete followed by a GET.

## Model

| member | source | states |
|---|---|---|
| Storage.GetProduct | server/storage.ts:27-30 | returns a row exactly when one with that id exists, and the row it returns carries that id |
| Storage.GetProductsByCategory | server/storage.ts:32-34 | the result holds exactly the products whose `category` column equals the argument |
| Storage.CreateProduct | server/storage.ts:36-39 | the new row has a fresh id and the given data, is appended, is what `getProduct` of its id returns, and no other table changes |
| Storage.UpdateProduct | server/storage.ts:41-48 | an absent id gives undefined and no change; otherwise the row with that id, and only that row, gets the new data |
| Storage.DeleteProduct | server/storage.ts:50-56 | true iff a row with that id existed; afterwards the id is absent, every other row is kept, and a false result changes nothing |
| Storage.CreateContact | server/storage.ts:58-65 | `getContacts` afterwards is the earlier contacts followed by the new one, which has a fresh id and the submitted fields |
| Storage.GetAdminByEmail | server/storage.ts:67-70 | returns an admin whose email is the argument, or undefined exactly when no admin has that email |
| Storage.CreateAdmin | server/storage.ts:72-75 | appends one admin with the given email and digest, and is refused when that email is already taken (the unique column) |
| Storage.CreateCategory | server/storage.ts:81-84 | the new category has a fresh id and the given data, is appended, and is found by its id |
| Storage.UpdateCategory | server/storage.ts:86-93 | an absent id gives undefined and no change; otherwise only the row with that id is replaced |
| Storage.DeleteCategory | server/storage.ts:95-101 | true iff a row with that id existed; afterwards the id is absent and every other category is kept |
| Auth.HashPassword | server/auth.ts:5-8 | under bcrypt's property, the password verifies against the digest it returns |
| Auth.ComparePassword | server/auth.ts:10-12 | under bcrypt's property, a digest made from the password, with any salt, verifies it |
| Auth.InitializeAdmin | server/auth.ts:14-23 | afterwards exactly one admin has the seeded email; an existing one leaves the store unchanged, otherwise one row is appended that stores the digest of the seeded password, not the plaintext |
| Auth.InitializeAdminIdempotent | server/auth.ts:14-23 | a second run, with any salt, returns the store of the first run |
| Auth.SeededCredentialVerifies | server/auth.ts:5-21 | on a fresh seeding the stored password is `hashPassword` of the seeded one, and under bcrypt's property the seeded password verifies against it |
| Auth.AuthenticateAdmin | server/auth.ts:25-39 | `next` is called iff the cookie is non-empty, names an existing admin and the lookup does not throw; every rejection is the same 401 response with the same message |
| Routes.ReadProduct | server/routes.ts:23-33 | 400 iff `parseInt` of the id is NaN; 404 iff it is a number no product carries; otherwise 200 with the product of that id; never a change |
| Routes.AddProduct | server/routes.ts:135-142 | an invalid body gives 400 with the schema error and nothing inserted; a valid one gives 201 with the newly appended row, which has a fresh id |
| Routes.EditProduct | server/routes.ts:144-154 | an invalid body gives 400 and no change; an id that is not a number, or matches no row, gives 404 and no change; a valid body for an id that names a row always gives 200, which replaces only the row with that id |
| Routes.RemoveProduct | server/routes.ts:156-162 | 204 iff the id names an existing product, which is then gone while every other product stays; otherwise 404 with nothing changed |
| Routes.AddCategory | server/routes.ts:61-68 | an invalid body gives 400 and nothing inserted; a valid one gives 201 with the newly appended category |
| Routes.EditCategory | server/routes.ts:70-80 | an invalid body gives 400 and an unknown id gives 404, both with no change; a valid body for an id that names a row always gives 200, which replaces only the row with that id |
| Routes.RemoveCategory | server/routes.ts:82-93 | if any product's `category` equals the raw `:id` text, the answer is 400 and nothing changes; otherwise 204 iff a category with that numeric id existed and was removed, else 404 and no change |
| Routes.UploadImage | server/routes.ts:36-48 | no file gives 400 before any write; a failed write gives 500 with nothing stored; otherwise 200 with `/uploads/<hex>.<ext>`, and the buffer is stored under that name |
| Routes.CheckAuthStatus | server/routes.ts:96-104 | answers `true` iff the cookie is non-empty and names an existing admin, and never changes the store |
| Routes.LogIn | server/routes.ts:106-127 | 200 iff some admin with the submitted email verifies the password, and then the cookie is set to that email; every failure is the same 401 response; the store never changes |
| Routes.LogOut | server/routes.ts:129-132 | clears the cookie whatever the browser held, and the store is unchanged |
| Routes.SubmitContact | server/routes.ts:170-178 | an invalid body gives 400 and no change; a valid one gives 200 and appends the message, stamped with the clock |
| Routes.Protected | server/routes.ts:36-168 | the handler behind the gate never answers 401 and never touches the cookie; a non-2xx answer changes nothing; 201 exactly for a valid create body; 500 only from an upload; listing contacts returns the contacts table unchanged |
| Routes.Handle | server/routes.ts:17-178 | on a protected route the answer is 401 iff the gate rejects, and then the store is unchanged; no non-2xx answer changes the store; read-only routes never change it; only login sets the cookie and only logout clears it; the status is one of 200/201/204/400/401/404/500 |
| Upload.Split | server/upload.ts:14 | `split('.')` gives one more piece than there are `.` in the name, and no piece holds a `.` |
| Upload.Extension | server/upload.ts:14 | the extension holds no `.` and is a tail of the client's file name |
| Upload.ToHex | server/upload.ts:15 | two lower-case hex digits per byte; `Upload.HexRoundTrip` proves it decodes back |
| Upload.FileName | server/upload.ts:15 | the first 32 characters are hex that decodes back to the random bytes, then a `.`, then a tail of the client's name holding no `.` |
| Upload.SplitJoin | server/upload.ts:14 | joining the pieces of `split('.')` with `.` gives back the file name |
| Upload.JoinSplit | server/upload.ts:14 | splitting a `.`-join of dot-free pieces gives back the pieces |
| Upload.ExtensionIsTextAfterLastDot | server/upload.ts:14 | the extension holds no `.`; it is the whole name when there is no `.`; otherwise the name is a prefix, a `.`, and the extension |
| Upload.TrailingDotGivesEmptyExtension | server/upload.ts:14 | a name ending in `.` has the empty extension |
| Upload.HexRoundTrip | server/upload.ts:15 | decoding the hex text gives back the random bytes |
| Upload.FileNameShape | server/upload.ts:14-15 | the stored name is 32 lower-case hex digits, a `.` at position 32, the extension, and contains exactly one `.` |
| Upload.ReferenceRoundTrip | server/upload.ts:14-26 | the returned reference reads back as `/uploads/`, the hex of the random bytes, `.`, and the extension |
| Upload.ReferenceDependsOnlyOnExtension | server/upload.ts:14-26 | for the same random bytes, two client names give the same reference iff their extensions agree |
| Upload.SaveUploadedFile | server/upload.ts:13-27 | a write error yields no reference; otherwise the reference is `/uploads/` plus the generated name and the buffer is stored under that name |
| JsNumbers.ParseInt | server/routes.ts:24 | NaN exactly when the text does not start with a digit; otherwise the value of the longest run of leading digits, never negative |
| JsNumbers.ToNumber | server/routes.ts:75 | NaN exactly when some character is not a digit; the empty text is 0; never negative (the same `Number` read is at lines 88, 149 and 157) |
| JsNumbers.ParsersReadDecimal | server/routes.ts:24 | `parseInt` and `Number` both read back the decimal text of any non-negative id |
| JsNumbers.ParsersAgreeOnDigitStrings | server/routes.ts:24 | on non-empty decimal digit strings, the only strings the model's `Number` accepts, `parseInt` gives the same value |
| JsNumbers.ParsersDifferOnTrailingText | server/routes.ts:24 | `parseInt("7abc")` is 7 while `Number("7abc")` is NaN, so GET and PUT/DELETE can read the same id text differently |
| CategoryGuard.GuardMissesReferencedCategory | server/routes.ts:82-93 | on a store with category "Shoes" (id 1) and a product in it, DELETE of id 1 answers 204 and removes the category while the product still names it |
| CategoryGuard.RemoveCategoryByName | server/routes.ts:82-93 | the intended guard: no category that a product names is ever removed; 204 iff the id names a category that no product names, and then exactly that category is gone while every other category and table is kept; any other answer changes nothing |
| CategoryGuard.CorrectedGuardRefusesShoeShop | server/routes.ts:82-93 | the intended guard answers 400 on the store where the written guard answers 204 |
| Scenarios.CheckAuthAgreesWithGate | server/routes.ts:96-104 | check-auth answers `true` exactly when the gate would call `next` for the same cookie |
| Scenarios.SeededLoginSucceeds | server/routes.ts:106-127 | after seeding, login with the seeded email and password answers 200 and sets the cookie to the seeded email |
| Scenarios.SessionLifecycle | server/routes.ts:96-132 | seed, login, check-auth, logout, check-auth: the cookie is the seeded email, check-auth goes from true to false, and the store is unchanged |
| Scenarios.LogoutDoesNotRevokeToken | server/routes.ts:119-132 | the token is the email, so after logout a request that presents it again still passes the gate |
| Scenarios.LoginFailuresLookAlike | server/routes.ts:106-117 | an unknown email and a wrong password get the same response, a 401 |
| Scenarios.UploadWithAndWithoutSession | server/routes.ts:36-48 | with a session, an upload answers 200 with a reference that reads back as the 32-digit hex and the extension; without a session it answers 401 and stores nothing |
| Scenarios.CreateThenRead | server/routes.ts:135-142 | a product created by POST is returned by GET of its id |
| Scenarios.UpdateThenRead | server/routes.ts:144-154 | after a successful PUT, GET of the same id returns the new data |
| Scenarios.DeleteThenRead | server/routes.ts:156-162 | after a successful DELETE, GET of the same id answers 404 |

`Handle` dispatches DELETE /api/categories/:id to `Routes.RemoveCategory`, the guard as written. The model describes the server as it behaves. The corrected guard, `CategoryGuard.RemoveCategoryByName`, is stated and proved next to it.

## Left out

- The browser client (pages, forms, navigation, its route guard) is user interface; the server gate is the real authorisation.
- Express, multer, cookie parsing and the static serving of `/uploads` are not modelled. A request arrives already routed, and its body is already parsed.
- Cookie attributes are not modelled: `httpOnly`, `secure`, `sameSite` and the 24-hour `maxAge`. A response records only the value set or cleared. So cookie expiry after 24 hours is not modelled.
- The zod schemas are not part of this model. A body arrives as the outcome of `safeParse`: `Success(data)` or `Failure(issue)`.
- drizzle and the database are replaced by in-memory tables.
  - Serial ids and the unique admin email are assumptions, stated by the store invariant `Valid`.
  - Rows are listed in insertion order; the database promises no order.
  - Product prices are kept as text, because the column type is not known here.
- Store failures are modelled only inside the gate, where they are caught and answered with 401. Everywhere else an exception would be an unhandled rejection of an async handler, and that is not modelled.
- bcrypt's internals are not modelled: salting, the cost factor and constant-time comparison. `Codec` is two function values. The only property assumed is `Sound`: a password verifies against any digest made from it.
- Random bytes, the clock and the outcome of the file write are inputs (`Env`).
  - The directory is created with `mkdirSync` when the module loads; that is not modelled.
  - `console.error` is not modelled.
  - After a write error the model stores nothing. A partly written file left on disk is not modelled.
- `parseInt` and `Number` are modelled on decimal digits only. Leading whitespace, signs, fractions, exponents and hexadecimal are not modelled. `Number` of the empty string is 0, as in JavaScript.
- An id that `Number` reads as NaN is modelled as matching no row, which gives 404. The real database might raise an error on NaN instead.
- JsNumbers.ParseInt and JsNumbers.ToNumber: read digits exactly, as unbounded integers. JavaScript returns a double, which rounds above 2^53, so `parseInt("9007199254740993")` is 9007199254740992 there and not here.
- Tables: ids and the `nextId` counter are unbounded integers. The database's id column has a bounded integer type, so an id outside its range makes the query throw instead of giving 404, and the serial counter can run out; neither is modelled.
- The login body is taken as two strings. A missing `email` or `password` field is not modelled.
- `getProducts`, `getCategories` and `getContacts` return their table's rows. They need no contract of their own, and the contracts of the operations that change a table describe those rows.
- Concurrency is not modelled: handlers run one at a time. The check-then-delete race on category deletion is out of scope.

## Findings

| source | as written | input that shows it | evidently intended | confidence | as-written member | corrected member |
|---|---|---|---|---|---|---|
| server/routes.ts:83 | the delete guard looks for products whose `category` equals the raw `:id` text, but products store the category's name and the admin page deletes by numeric id | category "Shoes" with id 1 and one product whose category is "Shoes"; DELETE /api/categories/1 | refuse the deletion while any product names the category that the id designates | high; not executed | CategoryGuard.GuardMissesReferencedCategory | CategoryGuard.RemoveCategoryByName |
