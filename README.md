# Verified model of the stores, validators, reducers and handlers of the dev_products demo apps

The repository holds several small TypeScript web apps. Their logic sits in a few places, each modelled here in its own module:

- **FileIntake** (`file_intake.dfy`) is the mock file-intake store of *upload-and-report*. An upload gate checks a 10 MiB ceiling and then a MIME allow-list. Records are prepended to a module-level list. A processing-to-completed step attaches a report URL. A download fails with "File not found" or "Report not ready" and otherwise builds a report whose content depends on the file type. The store is a class whose `files` sequence the methods reassign.
- **FileUploadWidget** (`file_upload.dfy`) is the client-side `FileUpload` component. It holds `validateFile` and the selected-file, error and drag state updated by its handlers.
- **MockAuth** (`mock_auth.dfy`) is the mock credential store and token of *upload-and-report*. It covers login by exact e-mail and password, registration with id = length + 1, a three-part `header.payload.signature` token, and `checkAuth`, which decodes the payload back into the user. The user list and the stored token are fields of a class.
- **UploaderDb** (`uploader_db.dfy`) is the SQLite store of *grok-file-uploader*. It has two tables with auto-increment ids, unique usernames, a foreign key from files to users, and the `INSERT OR IGNORE` seed.
- **UploaderApi** (`uploader_api.dfy`) models the four API handlers: login, current user, file list and upload. Each is a decision procedure with a method gate, a cookie gate and a token-verify gate. JWT sign/verify, the bcrypt compare and formidable parsing are parameters of the model.
- **Cart** (`cart.dfy`) is the cozy-cart reducer over a list keyed by product id. It also covers the item count and the restore-by-replay of `ADD_ITEM`.
- **AuthReducer** (`auth_reducer.dfy`) is the shop's authentication reducer and the action sequences its provider dispatches.
- **RegisterForm** (`register_form.dfy`) is the registration validator. It includes the unanchored `\S+@\S+\.\S+` e-mail pattern and the guard in front of `register`.
- **Catalog** (`catalog.dfy`) holds the product search filter, the featured-products slice and the e-mail derivation of `loginUser`.
- **OsintService** and **OsintResults** (`osint_service.dfy`, `osint_results.dfy`) are the OSINT platform's mock result builders and their dispatch. They also cover the grouping of results by category, the render guard and the export file name.
- **Strings**, **Json** and **Wrappers** are support modules. They model the JavaScript string operations the code relies on (`includes`, `startsWith`, `split`/`join`, first-occurrence `replace`, `toLowerCase`, decimal `toString`), a JSON string literal codec, and `Option`/`Result`.

Random ids, the clock, timers, the network, `localStorage` and cryptography are parameters of the operations or are left out (see below).

## Model

| member | source | states |
|---|---|---|
| FileIntake.UploadGate | upload-and-report/src/lib/api.ts:21-38 | accepts exactly the files of at most 10 MiB whose type is one of the four allowed types; the size error is reported exactly when the size is over the limit, so it is decided before the type check |
| FileIntake.MockFileStore.UploadFile | upload-and-report/src/lib/api.ts:19-54 | fails exactly when the gate fails, with the gate's error, and leaves the store unchanged; on success returns a `processing` record copying name, type and size with no report URL, and the store becomes that record followed by the old store |
| FileIntake.FindIndex | upload-and-report/src/lib/api.ts:63 | `findIndex`: absent exactly when no record has the id; otherwise the first index holding it |
| FileIntake.Find | upload-and-report/src/lib/api.ts:86 | `find`: the first record of the store with that id (no earlier record has it), absent exactly when no record has the id |
| FileIntake.CompleteReport | upload-and-report/src/lib/api.ts:62-71 | the delayed status step: changes only the first record with the id, to `completed` with report URL `/api/reports/<id>`, keeps all other records, and changes nothing when the id is absent |
| FileIntake.MockFileStore.CompleteProcessing | upload-and-report/src/lib/api.ts:62-71 | the store becomes the status step applied to the old store |
| FileIntake.MockFileStore.GetFiles | upload-and-report/src/lib/api.ts:77-81 | returns the current store and changes nothing |
| FileIntake.MockFileStore.DownloadReport | upload-and-report/src/lib/api.ts:84-135 | "File not found" for an unknown id, else "Report not ready" when the status is not completed, else the type-dependent report; changes nothing |
| FileIntake.CompleteReportKeepsWellFormed | upload-and-report/src/lib/api.ts:62-71 | the status step keeps every record well formed, so a completed record always carries its report URL |
| FileIntake.CompleteReportIdempotent | upload-and-report/src/lib/api.ts:62-71 | running the status step twice gives the same store as running it once |
| FileIntake.UploadThenComplete | upload-and-report/src/lib/api.ts:54-71 | after a prepend, the status step completes exactly the new record and leaves the older records unchanged |
| FileIntake.DownloadLifecycle | upload-and-report/src/lib/api.ts:54-126 | a freshly uploaded file's report is not ready; once its status step has run, the download yields its report |
| FileIntake.DownloadUnknownId | upload-and-report/src/lib/api.ts:86-95 | an id held by no record gives "File not found" |
| FileIntake.ReportKind | upload-and-report/src/lib/api.ts:110-126 | the image analysis report is chosen exactly for the two image types; PDF and CSV get their fixed texts |
| FileIntake.ImageReportCarriesName | upload-and-report/src/lib/api.ts:119-125 | the image report's `filename` member is a JSON string literal that reads back as the file's name |
| FileIntake.ImageReportCarriesSizeAndType | upload-and-report/src/lib/api.ts:119-125 | the image report contains the `filesize` and `format` members holding the file's size and type |
| FileUploadWidget.ValidateFile | upload-and-report/upload-and-report-main/src/components/ui/file-upload.tsx:25-41 | accepts exactly the files no larger than `maxSize` whose type is an element of `accept.split(",")`; the size error is reported exactly when the size is over the limit, so it is decided first; the only other error is the type error |
| FileUploadWidget.DefaultAcceptIsAllowedTypes | upload-and-report/upload-and-report-main/src/components/ui/file-upload.tsx:17 | the default `accept` string splits into exactly the store's four allowed types |
| FileUploadWidget.AgreesWithUploadGate | upload-and-report/upload-and-report-main/src/components/ui/file-upload.tsx:17-18 | with the default `accept` and `maxSize`, the widget accepts exactly the files the store's upload gate accepts, and rejects the others for the same reason |
| FileUploadWidget.FileUploadWidget.Validate | upload-and-report/upload-and-report-main/src/components/ui/file-upload.tsx:25-41 | returns whether the file passes, and the shown error becomes the validator's verdict (cleared when the file passes) |
| FileUploadWidget.FileUploadWidget.HandleFileChange | upload-and-report/upload-and-report-main/src/components/ui/file-upload.tsx:43-57 | no file: nothing changes and nobody is notified; an invalid file clears the selection and the input without notifying; a valid file is selected and passed on |
| FileUploadWidget.FileUploadWidget.HandleDragOver | upload-and-report/upload-and-report-main/src/components/ui/file-upload.tsx:59-62 | the drag highlight is on |
| FileUploadWidget.FileUploadWidget.HandleDragLeave | upload-and-report/upload-and-report-main/src/components/ui/file-upload.tsx:64-67 | the drag highlight is off |
| FileUploadWidget.FileUploadWidget.HandleDrop | upload-and-report/upload-and-report-main/src/components/ui/file-upload.tsx:69-82 | the highlight is off; an invalid dropped file clears the selection without notifying; a valid one is selected and passed on; the file input is untouched |
| FileUploadWidget.FileUploadWidget.HandleRemoveFile | upload-and-report/upload-and-report-main/src/components/ui/file-upload.tsx:88-94 | clears the selected file, the error message and the file input |
| FileUploadWidget.FileUploadWidget.constructor | upload-and-report/upload-and-report-main/src/components/ui/file-upload.tsx:14-23 | the widget starts with its `accept` and `maxSize`, not dragging, with no error and no file |
| MockAuth.HexEncode | upload-and-report/src/lib/auth.ts:164-174 | the `btoa` stand-in writes two digits per character, all from the encoding's alphabet (so never a '.') |
| MockAuth.AtobBtoa | upload-and-report/src/lib/auth.ts:47 | decoding the encoding of a Latin-1 string gives the string back |
| MockAuth.ReadFieldsRoundTrip | upload-and-report/src/lib/auth.ts:165-171 | the payload record codec reads back exactly the fields it wrote |
| MockAuth.FieldsLatin1 | upload-and-report/src/lib/auth.ts:165-171 | the serialized payload is Latin-1 exactly when each field is |
| MockAuth.ParseSerializedPayload | upload-and-report/src/lib/auth.ts:165-171 | parsing a serialized payload gives back the payload |
| MockAuth.SplitThree | upload-and-report/src/lib/auth.ts:163-177 | three dot-free parts joined by dots split back into those three parts, and the payload is the middle one |
| MockAuth.CreateMockJwtDefined | upload-and-report/src/lib/auth.ts:163-177 | a token is produced exactly when the user's id, e-mail and name are Latin-1; otherwise `btoa` throws |
| MockAuth.TokenRoundTrip | upload-and-report/src/lib/auth.ts:163-177 | a token has three dot-separated parts, and its payload decodes to sub, email and name of the user, `iat` = now and `exp` = now + 86400 |
| MockAuth.CheckAuthAfterIssue | upload-and-report/src/lib/auth.ts:44-57 | `checkAuth` on an issued token yields the user's id, e-mail and name, authenticated and not loading; neither expiry nor signature is checked |
| MockAuth.FindCredential | upload-and-report/src/lib/auth.ts:75 | finds a stored user matching both e-mail and password, and finds none exactly when no user matches both |
| MockAuth.IdsDistinct | upload-and-report/src/lib/auth.ts:122-130 | under the store's invariant (ids are the decimal positions 1, 2, ...), no two users share an id |
| MockAuth.RegisterThenFind | upload-and-report/src/lib/auth.ts:112-130 | appending a new user with id = old length + 1 keeps the invariant, and a login with the same e-mail and password then finds that user |
| MockAuth.FindCredentialLast | upload-and-report/src/lib/auth.ts:75 | a user appended with an e-mail nobody else has is found by its credentials |
| MockAuth.MockAuthService.constructor | upload-and-report/src/lib/auth.ts:23-31 | the store starts with the demo user and no stored token |
| MockAuth.MockAuthService.Login | upload-and-report/src/lib/auth.ts:70-104 | "Invalid credentials" and no token stored when no user matches; otherwise stores the new token and returns id, e-mail and name (never the password), authenticated |
| MockAuth.MockAuthService.Register | upload-and-report/src/lib/auth.ts:107-150 | a taken e-mail fails with "Email already in use" and changes nothing; otherwise appends exactly one user with id = old length + 1 and stores its token, returning the public user, authenticated |
| MockAuth.MockAuthService.Logout | upload-and-report/src/lib/auth.ts:153-160 | the stored token is gone |
| MockAuth.MockAuthService.CheckAuth | upload-and-report/src/lib/auth.ts:33-67 | the answer is the decode of the stored token; a present token whose payload fails to decode is removed, any other token is kept |
| MockAuth.CheckAuthWithoutToken | upload-and-report/src/lib/auth.ts:36-42 | with no token (as after logout) the state is unauthenticated with no user |
| MockAuth.RegisterLoginCheckAuth | upload-and-report/src/lib/auth.ts:107-150 | register, then login with the same credentials finds the new user, and `checkAuth` on its token returns that user authenticated |
| MockAuth.NonLatin1NameHasNoToken | upload-and-report/src/lib/auth.ts:165-171 | a name outside Latin-1 makes token creation fail |
| UploaderDb.UserByUsername | grok-file-uploader/lib/db.ts:7-11 | the row with that username, absent exactly when no row has it |
| UploaderDb.UserById | grok-file-uploader/lib/db.ts:7-11 | the row with that id, absent exactly when no row has it |
| UploaderDb.FilesOf | grok-file-uploader/lib/db.ts:16-23 | exactly the file rows owned by the user |
| UploaderDb.UniqueUsernameCount | grok-file-uploader/lib/db.ts:9 | with unique usernames each name occurs at most once, and exactly once when a lookup finds it |
| UploaderDb.ZeroCount | grok-file-uploader/lib/db.ts:9 | a name no row has occurs zero times |
| UploaderDb.UserIdsDistinct | grok-file-uploader/lib/db.ts:8 | auto-increment user ids are pairwise distinct |
| UploaderDb.Database.constructor | grok-file-uploader/lib/db.ts:6-24 | both tables start empty with their counters at zero |
| UploaderDb.Database.InsertUserOrIgnore | grok-file-uploader/lib/db.ts:27 | `INSERT OR IGNORE`: inserts exactly when the username is new, with the next id; otherwise the table is unchanged but the ignored row still spends an id, as SQLite draws it before the UNIQUE check; afterwards the name occurs exactly once |
| UploaderDb.Database.InsertFile | grok-file-uploader/lib/db.ts:15-24 | the foreign key: fails exactly when no user has the id and then changes nothing; otherwise appends one row with the next file id |
| UploaderDb.Database.SeedUser | grok-file-uploader/lib/db.ts:26-32 | the seed leaves exactly one `user1` row; when it inserts, exactly one row is appended after the kept earlier rows, with the next id and the bcrypt run's hash of `password123` as its password, and the id counter grows by one; when the user existed, the table is unchanged and the counter still grows by one, the id spent by the ignored insert |
| UploaderDb.CountAppend | grok-file-uploader/lib/db.ts:27 | appending a row adds one occurrence of its own name and none of any other |
| UploaderDb.UserByIdAppend | grok-file-uploader/lib/db.ts:18-22 | appending a user keeps every existing user id resolvable |
| UploaderDb.UserByUsernameAppend | grok-file-uploader/lib/db.ts:27 | a row appended under a new name is the one its name finds |
| UploaderDb.UsernameLast | grok-file-uploader/lib/db.ts:27 | a row appended under a name no other row has is found by that name |
| UploaderDb.SeedTwice | grok-file-uploader/lib/db.ts:27-31 | running the seed twice leaves exactly one `user1` row; on a table without it, the row holds the first run's hash of `password123`; on a table with it, the users table is unchanged; either way the two runs spend two ids |
| UploaderApi.LoginHandler | grok-file-uploader/pages/api/auth/login.ts:7-45 | 405 for a non-POST method; 401 "Invalid credentials" for an unknown user or a wrong password; otherwise 200 with a token for the user's id and a one-hour cookie |
| UploaderApi.LoginFailuresIndistinguishable | grok-file-uploader/pages/api/auth/login.ts:16-25 | an unknown username and a wrong password give the identical 401 response |
| UploaderApi.LoginSuccess | grok-file-uploader/pages/api/auth/login.ts:22-45 | 200 exactly when the user exists and the password matches; then the cookie holds the token for the user's id and is httpOnly, sameSite strict, path '/' and secure only in production, with maxAge 3600 equal to the token lifetime; the body holds only id and username; no cookie otherwise |
| UploaderApi.UserHandler | grok-file-uploader/pages/api/auth/user.ts:5-24 | 401 "Not authenticated" without a token, 401 "Invalid token" when verification fails, 401 "User not found" for a missing row, else 200 with that user's id and username |
| UploaderApi.UserHandlerAnswersForTokenOwner | grok-file-uploader/pages/api/auth/user.ts:13-20 | the status is 200 or 401 with no cookie, and a 200 answers for exactly the verified id with a row of the users table |
| UploaderApi.Summaries | grok-file-uploader/pages/api/files.ts:15 | one summary per row, in row order, with id, filename and upload date only |
| UploaderApi.FilesHandler | grok-file-uploader/pages/api/files.ts:5-20 | 401 "Not authenticated" without a token, 401 "Invalid token" when verification fails, else 200 with a file list holding a summary of every file of the verified user and of no other file |
| UploaderApi.FilesHandlerOwnerScoped | grok-file-uploader/pages/api/files.ts:14-17 | every listed file belongs to the verified user and every file of that user is listed (an empty list for none) |
| UploaderApi.Parse | grok-file-uploader/pages/api/upload.ts:27-40 | an unreadable form gives the parser's error; the files kept are exactly the parts passing the MIME filter, each at most 5 MiB; a parse error on a readable form means a filtered part was too large |
| UploaderApi.ParseParts | grok-file-uploader/pages/api/upload.ts:30-34 | parsing succeeds exactly when every filtered part is within 5 MiB, and then keeps exactly the filtered parts |
| UploaderApi.FirstFileField | grok-file-uploader/pages/api/upload.ts:42 | the first part of field `file`, absent exactly when there is none |
| UploaderApi.UploadDecision | grok-file-uploader/pages/api/upload.ts:12-55 | 405, 401 "Not authenticated" and 401 "Invalid token" in gate order; a verified POST whose form parses and has a `file` part is inserted for the verified user, with name `originalFilename` or else `newFilename` and path `<cwd>/uploads/<newFilename>`; an insert happens in no other case |
| UploaderApi.InsertedFileWasAcceptable | grok-file-uploader/pages/api/upload.ts:30-55 | an inserted file came from a `file` part that passed the MIME filter and the 5 MiB limit, and its stored path is that part's |
| UploaderApi.UploadBadForm | grok-file-uploader/pages/api/upload.ts:37-45 | a parse error gives 400 with the parser's message; no file gives 400 "No file uploaded"; a form without a `file` part is rejected |
| UploaderApi.UploadHandler | grok-file-uploader/pages/api/upload.ts:12-59 | every rejection leaves the files table and its id counter unchanged; an accepted upload appends exactly one row (verified id, display name, stored path) and answers 200; a verified id with no user row crashes inside the parse callback without inserting or advancing the id counter |
| Catalog.SearchProducts | cozy-cart-grove-main/cozy-cart-grove-main/src/lib/api.ts:135-141 | keeps exactly the products whose lower-cased title, description or category contains the lower-cased query |
| Catalog.SearchKeepsOrder | cozy-cart-grove-main/cozy-cart-grove-main/src/lib/api.ts:133-141 | the result is an order-preserving subsequence of the product list |
| Catalog.EmptyQueryKeepsAll | cozy-cart-grove-main/cozy-cart-grove-main/src/lib/api.ts:135-141 | an empty query returns every product |
| Catalog.SearchIgnoresQueryCase | cozy-cart-grove-main/cozy-cart-grove-main/src/lib/api.ts:135 | lower-casing the query first does not change the result |
| Catalog.SearchSameMatches | cozy-cart-grove-main/cozy-cart-grove-main/src/lib/api.ts:135-141 | queries equal up to case give the same result |
| Catalog.FeaturedProducts | cozy-cart-grove-main/cozy-cart-grove-main/src/lib/api.ts:116-121 | from a shuffle of the list, takes min(4, length) products, each from the list, none more often than in the list |
| Catalog.LoginEmail | cozy-cart-grove-main/cozy-cart-grove-main/src/lib/api.ts:26 | the username itself when it contains '@', else `username@example.com`; always contains '@' |
| Catalog.LoginUser | cozy-cart-grove-main/cozy-cart-grove-main/src/lib/api.ts:24-29 | id 1, the given username and token, and the derived e-mail |
| Catalog.LoginEmailIdempotent | cozy-cart-grove-main/cozy-cart-grove-main/src/lib/api.ts:26 | deriving the e-mail of a derived e-mail changes nothing |
| Cart.AddToId | cozy-cart-grove/src/context/CartContext.tsx:41-49 | keeps the length and every item's product |
| Cart.AddToIdAt | cozy-cart-grove/src/context/CartContext.tsx:41-49 | the item with the id gains the quantity and every other item is unchanged |
| Cart.SetQuantity | cozy-cart-grove/src/context/CartContext.tsx:76-82 | keeps the length and every item's product |
| Cart.SetQuantityAt | cozy-cart-grove/src/context/CartContext.tsx:76-82 | the item with the id gets the new quantity and every other item is unchanged |
| Cart.RemoveId | cozy-cart-grove/src/context/CartContext.tsx:60-64 | keeps exactly the items of other ids |
| Cart.CartReducer | cozy-cart-grove/src/context/CartContext.tsx:35-102 | only `TOGGLE_CART` touches `isOpen`, and it leaves the items alone |
| Cart.AddExisting | cozy-cart-grove/src/context/CartContext.tsx:39-50 | from any state, adding a product already present adds the quantity to its item, changes no other item and creates no new entry |
| Cart.AddNew | cozy-cart-grove/src/context/CartContext.tsx:51-56 | adding a new product appends `{product, quantity}` after the unchanged items |
| Cart.UpdateQuantityEffect | cozy-cart-grove/src/context/CartContext.tsx:66-85 | a quantity of at most 0 removes the item; otherwise only that item's quantity changes |
| Cart.RemoveKeepsOrder | cozy-cart-grove/src/context/CartContext.tsx:60-64 | removal works piecewise over a concatenation, so the others keep their order, and the id is gone |
| Cart.RemoveAbsent | cozy-cart-grove/src/context/CartContext.tsx:60-64 | removing an absent id changes nothing |
| Cart.ClearAndToggle | cozy-cart-grove/src/context/CartContext.tsx:87-97 | clear empties the items and keeps `isOpen`; toggle sets `isOpen` to the payload or negates it and keeps the items; toggling twice without payload restores the state |
| Cart.RemoveIdDistinct | cozy-cart-grove/src/context/CartContext.tsx:60-64 | removal keeps product ids distinct |
| Cart.ReducerKeepsDistinct | cozy-cart-grove/src/context/CartContext.tsx:35-102 | every action keeps product ids pairwise distinct |
| Cart.CountAppend | cozy-cart-grove/src/context/CartContext.tsx:169-171 | the count of a list with one more item grows by its quantity |
| Cart.CountAddToId | cozy-cart-grove/src/context/CartContext.tsx:169-171 | adding to an existing item raises the count by the quantity |
| Cart.AddToIdAbsent | cozy-cart-grove/src/context/CartContext.tsx:41-49 | adding to an absent id changes no item |
| Cart.AddRaisesCount | cozy-cart-grove/src/context/CartContext.tsx:169-171 | `ADD_ITEM` raises the item count by exactly the added quantity |
| Cart.RestoreCart | cozy-cart-grove/src/context/CartContext.tsx:109-125 | a saved cart is restored by replaying `ADD_ITEM` per saved item from the initial state; an unreadable one leaves the initial state and is dropped from storage |
| Cart.ReplayDistinct | cozy-cart-grove/src/context/CartContext.tsx:109-125 | replaying a saved list with distinct ids restores exactly that list, closed |
| Cart.ReplayCount | cozy-cart-grove/src/context/CartContext.tsx:109-125 | any replay gives distinct ids and keeps the total item count of the saved list |
| AuthReducer.Reduce | cozy-cart-grove-main/cozy-cart-grove-main/src/context/AuthContext.tsx:37-80 | `*_START` sets loading and clears the error, keeping user and flag; `*_SUCCESS` sets the user, authenticated, not loading, no error; `*_FAILURE` clears the user and stores the message; `CLEAR_ERROR` changes only the error |
| AuthReducer.LogoutIsInitial | cozy-cart-grove-main/cozy-cart-grove-main/src/context/AuthContext.tsx:64-71 | `LOGOUT` yields exactly the initial state from any state |
| AuthReducer.ReducePreservesConsistent | cozy-cart-grove-main/cozy-cart-grove-main/src/context/AuthContext.tsx:18-80 | authenticated exactly when there is a user: true initially and kept by every action |
| AuthReducer.RunPreservesConsistent | cozy-cart-grove-main/cozy-cart-grove-main/src/context/AuthContext.tsx:37-80 | the invariant survives any sequence of actions |
| AuthReducer.RunTwo | cozy-cart-grove-main/cozy-cart-grove-main/src/context/AuthContext.tsx:110-157 | dispatching two actions in order is reducing with the first, then the second |
| AuthReducer.LoginOutcome | cozy-cart-grove-main/cozy-cart-grove-main/src/context/AuthContext.tsx:110-125 | `login(u, p)` ends authenticated as user 1 named u with e-mail `u@example.com`, not loading and without error |
| AuthReducer.AuthProvider.constructor | cozy-cart-grove-main/cozy-cart-grove-main/src/context/AuthContext.tsx:18-23 | the provider starts in the initial state |
| AuthReducer.AuthProvider.Dispatch | cozy-cart-grove-main/cozy-cart-grove-main/src/context/AuthContext.tsx:84 | the state becomes the reduction of the old state, keeping the invariant |
| AuthReducer.AuthProvider.Login | cozy-cart-grove-main/cozy-cart-grove-main/src/context/AuthContext.tsx:110-132 | dispatches `LOGIN_START` then `LOGIN_SUCCESS` with the made-up user, ending authenticated as that user |
| AuthReducer.AuthProvider.Register | cozy-cart-grove-main/cozy-cart-grove-main/src/context/AuthContext.tsx:135-157 | dispatches `REGISTER_START` then `REGISTER_SUCCESS`, ending authenticated as the new user with the given name, e-mail and id |
| AuthReducer.AuthProvider.DoLogout | cozy-cart-grove-main/cozy-cart-grove-main/src/context/AuthContext.tsx:160-163 | the state is the initial state |
| AuthReducer.AuthProvider.DoClearError | cozy-cart-grove-main/cozy-cart-grove-main/src/context/AuthContext.tsx:166-168 | only the error is cleared |
| RegisterForm.EmailPatternExtend | cozy-cart-grove/src/components/ui/RegisterForm.tsx:30 | the pattern is unanchored: text around a match still matches |
| RegisterForm.EmailPatternExamples | cozy-cart-grove/src/components/ui/RegisterForm.tsx:30 | `a@b.c` matches; no string without '@' matches |
| RegisterForm.Utf16Length | cozy-cart-grove/src/components/ui/RegisterForm.tsx:36 | `password.length` counts UTF-16 units: between one and two per character |
| RegisterForm.NoErrorsIffAcceptable | cozy-cart-grove/src/components/ui/RegisterForm.tsx:26-46 | no field rule fires exactly when the form passes every rule |
| RegisterForm.ErrorsUpTo | cozy-cart-grove/src/components/ui/RegisterForm.tsx:24-46 | after the first k checks the dictionary holds, for each of those fields, exactly the message its rule gives |
| RegisterForm.EmptyIffAcceptable | cozy-cart-grove/src/components/ui/RegisterForm.tsx:49 | a dictionary recording every rule is empty exactly when the form passes |
| RegisterForm.RegisterFormState.constructor | cozy-cart-grove/src/components/ui/RegisterForm.tsx:12-18 | the form starts empty, terms unaccepted, no errors |
| RegisterForm.RegisterFormState.ValidateForm | cozy-cart-grove/src/components/ui/RegisterForm.tsx:23-50 | the shown errors hold exactly one message per failing field, required before format or length; the result is true exactly when no message was set, that is, when the form is acceptable |
| RegisterForm.RegisterFormState.HandleSubmit | cozy-cart-grove/src/components/ui/RegisterForm.tsx:52-63 | the shown errors become exactly the validator's messages for the failing fields; `register` is reached exactly when the form is acceptable; otherwise the auth state is unchanged; when reached, the user is signed in with the form's name and e-mail |
| OsintService.Get | osint-report-platform/src/lib/osintService.ts:14 | a key's value is present exactly when an entry has that key, and is the value of the first entry with that key |
| OsintService.DomainResults | osint-report-platform/src/lib/osintService.ts:19-102 | six results |
| OsintService.EmailResults | osint-report-platform/src/lib/osintService.ts:104-164 | four results |
| OsintService.PersonResults | osint-report-platform/src/lib/osintService.ts:166-248 | six results |
| OsintService.PerformOsintSearch | osint-report-platform/src/lib/osintService.ts:251-266 | dispatches on the type: domain 6, email 4, person 6 results from the matching builder, and none for any other type |
| OsintService.IssuedToDomain | osint-report-platform/src/lib/osintService.ts:89-95 | the SSL certificate's "Issued To" is the queried domain |
| OsintService.EmailFlags | osint-report-platform/src/lib/osintService.ts:112-115 | "Free Provider" holds exactly when the e-mail contains gmail, yahoo or hotmail; "Role Account" exactly when it starts with admin or info |
| OsintService.PrimaryDomainOf | osint-report-platform/src/lib/osintService.ts:155 | "Primary Domain" of `local@domain` is the domain; without '@' it is undefined |
| OsintService.PrimaryDomainStopsAtSecondAt | osint-report-platform/src/lib/osintService.ts:155 | it stops before a second '@' |
| OsintService.PersonEmailsOf | osint-report-platform/src/lib/osintService.ts:227-230 | for `first last` the e-mails are `first.last@gmail.com`, `first_last@outlook.com` and `first@professional-domain.com`, lower-cased, only the first space being replaced |
| OsintService.OneWordEmails | osint-report-platform/src/lib/osintService.ts:227-230 | a name without a space is used whole in all three e-mails |
| OsintService.FullNameIsQuery | osint-report-platform/src/lib/osintService.ts:169-172 | the person's "Full Name" is the input |
| OsintResults.ShouldRender | osint-report-platform/src/components/OsintResults.tsx:28-30 | renders exactly when there is a query and at least one result |
| OsintResults.RenderAfterSearch | osint-report-platform/src/components/OsintResults.tsx:28-30 | a search's results render exactly for the three known types |
| OsintResults.ExportFileNameParts | osint-report-platform/src/components/OsintResults.tsx:46 | the file name is `osint-`, type, `-`, value, `-`, the first ten characters of the ISO timestamp, `.json` |
| OsintResults.Categories | osint-report-platform/src/components/OsintResults.tsx:98-105 | categories in order of first appearance, without repeats |
| OsintResults.CategoriesListed | osint-report-platform/src/components/OsintResults.tsx:98-105 | a category is listed exactly when some result has it |
| OsintResults.GroupMembers | osint-report-platform/src/components/OsintResults.tsx:98-105 | a group holds exactly the results of its category |
| OsintResults.GroupNotEmpty | osint-report-platform/src/components/OsintResults.tsx:98-105 | no listed group is empty |
| OsintResults.GroupConcat | osint-report-platform/src/components/OsintResults.tsx:103 | grouping commutes with concatenation, so each group keeps input order |
| OsintResults.CategoriesPrefix | osint-report-platform/src/components/OsintResults.tsx:98-105 | the categories of a prefix come first, in the same order |
| OsintResults.TotalSizeAppend | osint-report-platform/src/components/OsintResults.tsx:98-105 | the sum of group sizes over one more category grows by that group's size |
| OsintResults.TotalSizeStep | osint-report-platform/src/components/OsintResults.tsx:98-105 | one more result adds one to the sum over distinct categories that include its own |
| OsintResults.GroupSizesSum | osint-report-platform/src/components/OsintResults.tsx:98-105 | group sizes sum to the number of results |
| OsintResults.PrefixStep | osint-report-platform/src/components/OsintResults.tsx:99-103 | one more result lists its category if new and joins its own group only |
| OsintResults.SixFindingsGroups | osint-report-platform/src/components/OsintResults.tsx:98-105 | categories a, a, b, a, c, d give groups a, b, c, d, the first of size three |
| OsintResults.DomainSearchGroups | osint-report-platform/src/components/OsintResults.tsx:98-105 | a domain search shows four groups, Domain Intelligence first with three results |
| OsintResults.GroupByCategory | osint-report-platform/src/components/OsintResults.tsx:98-105 | the one-pass grouping creates exactly the listed categories in first-appearance order, and each key's list is that category's results in input order |

## Left out

- Timers and delays (`setTimeout`, `simulateUploadProgress` with its console logging and float progress) are not modelled. The 3-second completion timer of `uploadFile` is the explicit `CompleteProcessing` step.
- `generateId`, `uuidv4`, `Math.random` and `new Date()` are parameters. The model does not claim ids are fresh, because the code does not guarantee it.
- `toast`, `localStorage`, the DOM, `navigator.share`, the clipboard and the `Blob` wrapper are left out. The auth token's storage is a field of the auth class, and a stored cart is a parameter of `RestoreCart`.
- FileIntake.MockFileStore.DownloadReport: returns the report text, with the image report laid out as `JSON.stringify(…, null, 2)` writes it. The `Blob` wrapper around the text is not modelled.
- The file size text of `formatFileSize` is not modelled (floating point).
- MockAuth: `btoa`/`atob` and `JSON.stringify`/`JSON.parse` are modelled as an invertible encode/decode pair: a hex encoding defined on Latin-1 text, and a length-prefixed record. Base64 and JSON syntax themselves are not modelled. A payload that decodes but lacks fields, which JavaScript would accept with `undefined` members, is treated as undecodable.
- MockAuth.CreateMockJwt: the source reads `Date.now()` twice, for `iat` and for `exp`. If the two readings fall on either side of a second boundary, `exp` is `iat + 86401`. The model reads the clock once, so `MockAuth.TokenRoundTrip` states `exp = iat + 86400`. Nothing reads `exp`.
- UploaderDb.Database.SeedUser: bcrypt is a parameter (`hash`). The model states that the stored password is that function applied to `password123`; that the hash differs from its input is a property of bcrypt, not stated here.
- MockAuth.HeaderJson and MockAuth.SignatureText: the header and signature segments are fixed texts. Their exact encoded form is not stated.
- MockAuth.MockAuthService.Register: `mockUsers.push` happens before `createMockJwt`, so a non-Latin-1 name appends the user and then fails. The model keeps that order.
- UploaderApi: `jsonwebtoken` sign/verify, the `bcryptjs` compare and hash, and `formidable` are parameters or an abstract incoming form. Expiry enforcement is whatever verify does. Formidable's total-size limits, its exact messages, its multi-file semantics and the writing of the file bytes are not modelled.
- UploaderApi.Parse: follows formidable 2's empty-file rule, under which a kept part of size 0 is accepted and then inserted. The installed formidable version is not pinned by the sources. Formidable 3 defaults to `allowEmptyFiles: false` and `minFileSize: 1` and fails the parse on such a part, giving a 400 with no row; the model does not capture that.
- UploaderApi.StoredPath: `path.join` normalisation of `..` or duplicate separators is not modelled; the path is `<cwd>/uploads/<newFilename>`.
- UploaderDb: the database file's persistence across restarts is not modelled, nor the asynchronous seed racing the first request.
- The uploader's report handler (grok-file-uploader/pages/api/reports/[fileId].ts) is not modelled. It checks the cookie and the token, selects the file by id and owner, answers 404 "File not found", and otherwise streams a PDF. It lies outside the modelled handlers. `/api/auth/logout` has no handler in the repository.
- The handlers' `req`/`res` plumbing is modelled as returned status, headers, cookie and body values.
- Cart: prices, `getCartTotal`, tax and totals use floating point and are not modelled. A JSON cart whose items do not parse counts as unreadable as a whole.
- AuthReducer: the provider's restore of a stored user and the catch branches of `login`/`register` are left out. The simulated call cannot fail, so `*_FAILURE` is reachable only through `Reduce`.
- RegisterForm: the error dictionary is keyed by a five-value field enumeration rather than by strings. `\s` is the ECMAScript white-space and line-terminator set.
- Strings.ToLower: only ASCII letters are mapped. JavaScript's `toLowerCase` also maps non-ASCII letters.
- OsintResults: `Object.entries` lists integer-like keys before other keys. The model lists categories in first-appearance order, which agrees for the service's category names, none of which is integer-like.
- OsintResults.GroupByCategory: the component accumulates into a plain `{}` object. A category named like an inherited `Object.prototype` member (`constructor`, `toString`, `__proto__`, …) finds a truthy inherited value, so no list is created and `push` throws, and the panel fails to render. The model groups such a result like any other. The service never produces such a category.
- OsintService.PerformOsintSearch: the result ids come from a `uuid` parameter; the contract does not state which id each result receives.
- OsintService: the `any` values of a result's data are the `Value` datatype (text, flag, number, lists, undefined).
- OsintResults: the export and share handlers' DOM, clipboard and toast effects are not modelled; only the file name is.
- Duplicate copies of the shop and upload apps are modelled once.
