# Device registry and customer store, modelled in Dafny

This project models the logic of a small IoT administration application.
It has an Express/Mongoose backend and a React frontend.

- **Backend.** Two collections are modelled as classes holding maps from ObjectId to record: customers (`User`) and devices (`Device`).
  - The device handlers register, update, delete, list and look up devices. Each one makes its checks in the source's fixed order.
  - The customer handlers register, log in, list, fetch, partially update and delete customers.
  - The Mongoose layer adds three rules: the required validators (checked on `save` only), the unique indexes, and the `pre('save')` hook that hashes the password.
- **Frontend.**
  - The session kept in `localStorage`: the login page's mount check and submit, the `ProtectedRoute` guard, and logout.
  - The customer list's search filter and pagination.
  - The edit-customer form's password check and payload.

Modules, one per source file or component:

| module | file | models |
|---|---|---|
| `Wrappers` | wrappers.dfy | `Option`; `Reply` (status, message, body); `ObjectId` |
| `JsString` | jsstring.dfy | JavaScript truthiness, `trim`, ASCII `toUpperCase`/`toLowerCase`, `includes` |
| `Crypto` | crypto.dfy | bcrypt `hash`/`compare` and the JWT payload |
| `DeviceModel` | device_model.dfy | the Device schema |
| `UserModel` | user_model.dfy | the User schema and the document with its pre-save hook |
| `Store` | store.dfy | the two collections: natural order, `findOne`, unique indexes, insert/update/delete |
| `UserController` | user_controller.dfy | `backend/controllers/userController.js` |
| `DeviceController` | device_controller.dfy | `backend/controllers/deviceController.js` |
| `BrowserStorage` | browser_storage.dfy | `localStorage`; `Number(...)` and `toString()` on stored numbers |
| `Session` | session.dfy | `ProtectedRoute.js`, the session part of `login.js`, logout in `navbar.js` |
| `UserList` | user_list.dfy | `frontend/src/pages/user.js` |
| `EditUser` | edit_user.dfy | `frontend/src/pages/edituser.js` |

Behaviour of the code as written that the model makes explicit:

- **Registration hashes the password twice.** `registerUser` hashes the password. The `pre('save')` hook then hashes the hash, because a new document counts as a modified password. So logging in with the registered password is refused with 401 (`UserController.RegisteredPasswordIsRejected`). `updateUser` writes through `findByIdAndUpdate`, which runs no save middleware. A password set by an update is therefore stored hashed once, and it does log in (`UserController.UpdatedPasswordIsAccepted`).
- **The duplicate checks use the raw value, but the stored value is normalised.**
  - Devices: the pre-check compares the submitted `device_id`, but the stored one is upper-cased. Registering `abc1` when `ABC1` exists passes the 409 check, and the unique index then answers 500 (`DeviceController.CaseVariantDuplicateIsInternalError`).
  - Customers: the same happens with a phone number that has surrounding blanks. Both write paths store phone numbers trimmed (`UserController.Trimmed`), so a padded number never matches the raw 409 check (`UserController.PaddedPhoneNeverMatches`). Its trimmed form then breaks the unique index when it is already taken (`UserController.PaddedDuplicatePhoneIsInternalError`).
  - Device login compares the raw id, so a lower-case id never finds a device (`DeviceController.LowerCaseIdNeverMatches`).
- **Two expiry comparisons meet at the boundary.** The guard grants while `now <= expiry`. The login page treats the session as live only while `now < expiry`. At `now == expiry` the guard grants, but the login page clears the store (`Session.BoundaryDisagreement`). A token with no stored expiry, or an unreadable one, is also granted by the guard and cleared by the login page.
- **A stale page can be empty.** The current page is not reset when the search narrows the list, so it can point past the last page and show nothing (`UserList.StalePageIsEmpty`).
- **Deleting a customer does not cascade.** `DeleteUser` may modify only the user collection. Devices that referred to the deleted customer then list a null owner (`DeviceController.GetRegisteredDevices`).

## Model

| member | source | states |
|---|---|---|
| `JsString.TrimStart` | backend/controllers/userController.js:11 | the result is a suffix of the input that starts with a non-space; everything dropped was white space |
| `JsString.TrimEnd` | backend/controllers/userController.js:11 | the result is a prefix of the input that ends with a non-space; everything dropped was white space |
| `JsString.Trim` | backend/controllers/userController.js:24-27 | the trimmed text is no longer than the input and is empty or bounded by non-spaces at both ends |
| `JsString.TrimEmptyIff` | backend/controllers/userController.js:11 | `x.trim()` is empty exactly when `x` is all white space, which is what the 400 guard tests |
| `JsString.TrimIdempotent` | backend/controllers/userController.js:24-27 | trimming a trimmed value changes nothing |
| `JsString.TrimOfTrimmed` | backend/controllers/userController.js:24-27 | a value with no white space at either end is its own trim |
| `JsString.Upper` | backend/controllers/deviceController.js:22 | upper-casing keeps the length and maps each character to its upper-case form |
| `JsString.Lower` | frontend/src/pages/user.js:41-44 | lower-casing keeps the length and maps each character to its lower-case form |
| `JsString.UpperNormalises` | backend/controllers/deviceController.js:22 | an upper-cased id has no lower-case letter, and upper-casing it again gives the same id |
| `JsString.UpperOfUpperCase` | backend/controllers/deviceController.js:69 | an id that is already upper-case is unchanged by upper-casing |
| `JsString.Includes` | frontend/src/pages/user.js:41-44 | `s.includes(t)` holds exactly when `t` occurs in `s` at some position |
| `JsString.IncludesEmpty` | frontend/src/pages/user.js:41-44 | every string includes the empty search term |
| `Crypto.Hash` | backend/controllers/userController.js:20-21 | of the stand-in (the cost-10 marker followed by the hashed text): a hash is longer than what it hashes, so a hash never equals its own input; real bcrypt hashes are always 60 characters |
| `Crypto.Verify` | backend/controllers/userController.js:53 | `bcrypt.compare(p, h)` accepts exactly when `h` is the hash of `p` |
| `Crypto.VerifyHash` | backend/controllers/userController.js:53 | `compare(p, hash(p))` accepts |
| `Crypto.VerifyInjective` | backend/controllers/userController.js:53 | of the stand-in only: a stored hash accepts at most one password; real bcrypt reads only the first 72 bytes of a password, so there it does not hold |
| `Crypto.RehashRejectsPassword` | backend/models/User.js:15-19 | a password hashed twice rejects the original password and accepts only the text of the first hash |
| `UserModel.Valid` | backend/models/User.js:6-10 | the required validators: name, uuid, phone number, location and password are all non-empty |
| `UserModel.Hooked` | backend/models/User.js:15-19 | the record as the hook leaves it: when the password was modified it is hashed once more, and `compare` accepts the previous text against it; otherwise the record is unchanged; no other path ever changes |
| `UserModel.UserDocument.constructor` | backend/models/User.js:5-12 | a new document holds the given paths, `registeredAt` takes its default (the creation time), and the password counts as modified |
| `UserModel.UserDocument.PreSave` | backend/models/User.js:15-19 | the hook hashes the password in place when it was modified, and otherwise leaves it alone; no other path changes (the document's record becomes `Hooked` of the old one) |
| `DeviceModel.Valid` | backend/models/Device.js:4-15 | the required validators: `device_id`, `model` and the owner's uuid are non-empty (the owner id is always present) |
| `Store.FirstKey` | backend/controllers/userController.js:48 | `findOne` returns the first document in natural order that passes the filter, or none exactly when no document passes |
| `Store.KeysInOrder` | backend/controllers/userController.js:80 | `find()` yields every stored id exactly once, in ascending (natural) order |
| `Store.UserCollection.constructor` | backend/models/User.js:22 | an empty collection satisfies the id and unique-index invariant |
| `Store.UserCollection.FindByPhone` | backend/controllers/userController.js:48 | `findOne({ phoneNo })` finds the first customer in natural order whose stored phone number equals the given one exactly, or nothing when no customer has it |
| `Store.UserCollection.Insert` | backend/models/User.js:7-8 | a save succeeds exactly when no other customer holds the phoneNo or uuid; it adds one record under a fresh id, and otherwise changes nothing |
| `Store.UserCollection.Replace` | backend/controllers/userController.js:116-119 | an update write replaces the record unless the phoneNo or uuid index would break; the invariant is kept |
| `Store.UserCollection.Remove` | backend/controllers/userController.js:133 | a delete removes exactly that id and reports whether it was there |
| `Store.DeviceCollection.constructor` | backend/models/Device.js:20 | an empty collection satisfies the id and unique-index invariant |
| `Store.DeviceCollection.FindByDeviceId` | backend/controllers/deviceController.js:107 | `findOne({ device_id })` finds the first device in natural order whose stored id equals the given one exactly (no case folding), or nothing when no device has it |
| `Store.DeviceCollection.Insert` | backend/models/Device.js:4 | a save succeeds exactly when no device holds the same `device_id`; it adds one record under a fresh id, and otherwise changes nothing |
| `Store.DeviceCollection.Replace` | backend/controllers/deviceController.js:78 | an update write replaces the record unless another device holds the same `device_id` |
| `Store.DeviceCollection.Remove` | backend/controllers/deviceController.js:92 | a delete removes exactly that id and reports whether it was there |
| `UserController.RegisteredRecord` | backend/controllers/userController.js:20-29 | the saved customer holds the trimmed name, phone and location (all non-empty), the fresh uuid and the creation time, and the password hashed twice (controller, then hook); it passes the required validators exactly when the uuid is non-empty |
| `UserController.RegisterFieldsPresent` | backend/controllers/userController.js:11 | the 400 guard: name, phone and location are present and non-blank after trimming, and the password is non-empty |
| `UserController.UpdatedRecord` | backend/controllers/userController.js:105-116 | the record `updateUser` writes: each of name, phone and location supplied truthy replaces the stored one, trimmed; a truthy password is stored hashed once; uuid and registration time are kept |
| `UserController.Public` | backend/controllers/userController.js:64 | the customer as read paths return it: every path except `password` |
| `UserController.Trimmed` | backend/controllers/userController.js:25 | the collection invariant that every stored phone number is in trimmed form, kept by registration (:25), update (:107) and delete |
| `UserController.Save` | backend/controllers/userController.js:31 | `newUser.save()`: the required validators, then the pre-save hook, then the insert; a record is added under the next id exactly when validation passes and the unique indexes allow the hooked record, and otherwise nothing changes; the trimmed-phone invariant is kept |
| `UserController.NewRegistration` | backend/controllers/userController.js:20-29 | `new User({...})` as registration fills it: a fresh document, marked password-modified, whose phone number is in trimmed form; after the pre-save hook its record is exactly the registered record; it passes the required validators exactly when the uuid is non-empty |
| `UserController.CreateUser` | backend/controllers/userController.js:20-36 | after the 400 and 409 guards: 201 with the fresh uuid, and exactly the registered record added under the next id, when the uuid is non-empty and the unique indexes allow it; otherwise 500 and no change; stored phone numbers stay trimmed |
| `UserController.SetFields` | backend/controllers/userController.js:116 | the `$set` of `findByIdAndUpdate` writes each supplied field and leaves every other path, uuid and registration time included, as stored; an empty update changes nothing |
| `UserController.RegisterUser` | backend/controllers/userController.js:7-37 | 400 when a trimmed field is blank or the password is empty; 409 when a customer has exactly the raw phone; 500 and no change when validation or a unique index fails; otherwise exactly one record added, holding the trimmed fields, and the reply's uuid is the stored one; every stored phone number stays trimmed |
| `UserController.LoginUser` | backend/controllers/userController.js:40-75 | 400 iff phone or password missing; 404 iff no customer has exactly that phone; 401 iff the matching customer's hash rejects the password; otherwise 200 with a token for that customer and the customer without a password field |
| `UserController.GetAllUsers` | backend/controllers/userController.js:78-86 | every customer exactly once, in natural order, each as its password-free view |
| `UserController.ViewsInOrder` | backend/controllers/userController.js:80 | `find({}, '-password')` over a collection whose ids lie below the counter: each stored customer appears once, in ascending id order, as its password-free view |
| `UserController.GetSingleUser` | backend/controllers/userController.js:89-98 | 404 exactly when the id is absent; otherwise the customer's password-free view |
| `UserController.UpdateUser` | backend/controllers/userController.js:101-128 | 404 and no change for an absent id; otherwise only the fields supplied truthy change, trimmed, and the password is re-hashed only when one is supplied; 500 and no change on a duplicate phone; every stored phone number stays trimmed |
| `UserController.DeleteUser` | backend/controllers/userController.js:131-140 | 404 for an absent id; otherwise only that customer is removed; the device collection is outside its frame |
| `UserController.FindByPhoneUnique` | backend/models/User.js:8 | with phone numbers unique, a stored phone number finds exactly its customer |
| `UserController.RegisteredPasswordIsRejected` | backend/controllers/userController.js:20-55 | a customer saved by registration is refused with 401 when logging in with their phone and the registered password |
| `UserController.UpdatedPasswordIsAccepted` | backend/controllers/userController.js:111-116 | after an update that supplies a password, that password logs the customer in |
| `UserController.PaddedDuplicatePhoneIsInternalError` | backend/controllers/userController.js:15-31 | when the trimmed phone number is already stored, the save breaks the unique index (500); and when every stored number is trimmed and the submitted one is padded, the raw 409 lookup finds nothing (`PaddedPhoneNeverMatches`), so the reply is 500 and not 409 |
| `UserController.PaddedPhoneNeverMatches` | backend/controllers/userController.js:15 | when every stored phone number is trimmed, a submitted phone number that trimming would change is found by no `findOne({ phoneNo })` |
| `DeviceController.DeviceRecord` | backend/controllers/deviceController.js:21-33 | the written device has the upper-cased id and the owner's id with its current uuid; status defaults to 'active' and firmware to '1.0.0'; a supplied address, latitude or longitude is stored as given, a missing one becomes ''; the record passes the required validators exactly when the owner's uuid is non-empty |
| `DeviceController.RequiredPresent` | backend/controllers/deviceController.js:9 | the 400 guard of register and update: `device_id` and `model` truthy and a customer id given |
| `DeviceController.RegisterDevice` | backend/controllers/deviceController.js:5-42 | the checks run in this order: 400 on a missing required field; 409 if a device has exactly the raw id; 404 if the owner is absent; 500 and no change if the upper-cased id is taken; otherwise exactly one device added, and the stored ids stay upper-case and schema-valid |
| `DeviceController.GetRegisteredDevices` | backend/controllers/deviceController.js:45-53 | every device exactly once, in natural order, with its owner expanded to id, name and uuid, or null when the owner no longer exists |
| `DeviceController.Owner` | backend/controllers/deviceController.js:47 | `populate(..., 'user uuid')` yields the owner's id, name and uuid when the referenced customer exists, and null exactly when it does not |
| `DeviceController.UpdateDevice` | backend/controllers/deviceController.js:56-86 | 400 first, then 404 "Customer not found" before the device is looked up, then 404 "Device not found"; no duplicate pre-check; on success the record is rewritten with the current owner's uuid and the upper-cased id, keeping its registration time, and no other record changes |
| `DeviceController.DeleteDevice` | backend/controllers/deviceController.js:89-99 | 404 for an absent id; otherwise only that device is removed |
| `DeviceController.LoginDevice` | backend/controllers/deviceController.js:102-115 | 400 iff the id is missing; 404 iff no device has exactly the raw id; otherwise 200 with that device; changes nothing |
| `DeviceController.LowerCaseIdNeverMatches` | backend/controllers/deviceController.js:14-15 | with stored ids upper-case, an id containing a lower-case letter never matches the raw `findOne`, so it passes the duplicate pre-check and is never found by device login (line 107) |
| `DeviceController.CaseVariantDuplicateIsInternalError` | backend/controllers/deviceController.js:14-41 | an id that differs from a stored one only in case passes the 409 check and is then rejected by the unique index |
| `BrowserStorage.LocalStorage.SetItem` | frontend/src/components/auth/login.js:195-199 | `setItem` writes one key and leaves the others as they were |
| `BrowserStorage.LocalStorage.GetItem` | frontend/src/components/auth/ProtectedRoute.js:6-8 | `getItem(key)` is the stored string, or null when the key is absent |
| `BrowserStorage.LocalStorage.Clear` | frontend/src/components/auth/ProtectedRoute.js:34 | `clear` empties the store |
| `BrowserStorage.NatToString` | frontend/src/components/auth/login.js:199 | `expiry.toString()` is a non-empty string of decimal digits in canonical form: it starts with '0' only for 0, and never has a leading zero |
| `BrowserStorage.DigitsValueOfNatToString` | frontend/src/components/auth/login.js:199 | the digits written for a number have that number as their value |
| `BrowserStorage.NumberOfString` | frontend/src/components/auth/ProtectedRoute.js:33 | `Number(n.toString())` gives back `n`, so the guard reads the expiry the login wrote |
| `BrowserStorage.JsNumber` | frontend/src/components/auth/ProtectedRoute.js:33 | `Number(s)` ignores surrounding white space and reads a run of decimal digits as its value |
| `BrowserStorage.NumberCases` | frontend/src/components/auth/login.js:169 | `Number(s)` is 0 for a blank string, NaN exactly when the trimmed text is not all decimal digits, and never negative |
| `BrowserStorage.Stringify` | frontend/src/components/auth/login.js:196-198 | `setItem` of a value stores its string form: an undefined `userId` or `role` becomes the text "undefined" |
| `Session.ProtectedRoute` | frontend/src/components/auth/ProtectedRoute.js:5-38 | renders only in the Authenticated phase (a token, and no passed expiry); clears the whole store only in the Expired phase; otherwise storage is untouched; role and allowed roles play no part |
| `Session.PhaseOf` | frontend/src/components/auth/ProtectedRoute.js:28-36 | the guard's decision: Unauthenticated without a truthy token; Expired when a truthy expiry reads as a number that `now` has passed; Authenticated otherwise, including a missing or unreadable expiry |
| `Session.Fresh` | frontend/src/components/auth/login.js:169 | the login page's test for a live session: a truthy token and a truthy expiry that reads as a number strictly after `now` |
| `Session.SessionWrites` | frontend/src/components/auth/login.js:191-199 | the store after a successful submit: token (or 'dummyToken'), userId, phoneNo, role and expiry = now + 3,600,000 written over the previous items |
| `Session.LoginMount` | frontend/src/components/auth/login.js:165-175 | goes to the customer list with storage untouched iff a token and an expiry are present and `now` is strictly before the expiry; otherwise clears the store |
| `Session.HandleSubmit` | frontend/src/components/auth/login.js:177-207 | with an empty phone or password, or a failed request, storage is unchanged; on success, token (default 'dummyToken'), userId, phoneNo, role and expiry = now + 3,600,000 are written |
| `Session.Logout` | frontend/src/components/Navbar/navbar.js:115-118 | logout empties the store, which is Unauthenticated at every time |
| `Session.LoginOpensSession` | frontend/src/components/auth/login.js:192-199 | after a successful login at `now` with a non-empty token, the guard grants up to and including `now + 1 h` and finds the session Expired afterwards |
| `Session.SessionKeys` | frontend/src/components/auth/login.js:195-199 | after the five writes, the token key holds the reply's token or the default, and the expiry key holds `now + 1 h` as text |
| `Session.LoginIsFreshAtOnce` | frontend/src/components/auth/login.js:169-192 | right after a login, the login page's own check also sees a live session |
| `Session.FreshIsAuthenticated` | frontend/src/components/auth/login.js:169 | whatever the login page treats as live, the guard grants |
| `Session.BoundaryDisagreement` | frontend/src/components/auth/ProtectedRoute.js:33 | at `now == expiry` the guard grants but the login page's check fails, so it clears the store |
| `Session.RoleIgnored` | frontend/src/components/auth/ProtectedRoute.js:5-7 | changing the stored role never changes the guard's phase |
| `Session.PhaseOverTime` | frontend/src/components/auth/ProtectedRoute.js:28-36 | Expired stays Expired as time advances, and no amount of time takes a tokenless store to Expired |
| `UserList.FilterUsers` | frontend/src/pages/user.js:40-45 | every kept row matches the search in one of its four fields (missing ones read as ''), and every matching row is kept |
| `UserList.Matches` | frontend/src/pages/user.js:41-44 | a row matches when the lower-cased search term occurs in the lower-cased name, phone number, location or uuid, a missing field reading as '' |
| `UserList.FilterAppend` | frontend/src/pages/user.js:40-45 | filtering keeps the original order: it distributes over concatenation |
| `UserList.EmptySearchKeepsAll` | frontend/src/pages/user.js:40-45 | an empty search term keeps every row, in order |
| `UserList.TotalPages` | frontend/src/pages/user.js:47 | the page count is the least number of 10-row pages that holds the filtered list |
| `UserList.SliceIndex` | frontend/src/pages/user.js:50 | `slice` reads every index as a position between 0 and the length |
| `UserList.Slice` | frontend/src/pages/user.js:50 | `slice` never yields more than the list; with in-range indices it is exactly the rows from start up to end; with end at or before a non-negative start it is empty |
| `UserList.CurrentPage` | frontend/src/pages/user.js:48-50 | a page never holds more than 10 rows |
| `UserList.PageIsWindow` | frontend/src/pages/user.js:48-50 | page p (from 1) is the rows from (p-1)*10 up to p*10, cut at the end of the list |
| `UserList.StalePageIsEmpty` | frontend/src/pages/user.js:47-50 | a page number past the page count shows no rows |
| `UserList.PagesUpToIsPrefix` | frontend/src/pages/user.js:48-50 | pages 1 to k together are the first k*10 rows |
| `UserList.PagesCoverList` | frontend/src/pages/user.js:47-50 | reading pages 1 to totalPages in order gives exactly the filtered list |
| `UserList.Previous` | frontend/src/pages/user.js:126 | `Math.max(prev - 1, 1)`: from page 1 or below it gives 1, otherwise one page back |
| `UserList.Next` | frontend/src/pages/user.js:134 | `Math.min(prev + 1, totalPages)`: from the last page, or a stale page past it, it gives the page count, otherwise one page forward |
| `UserList.NavigationStaysInRange` | frontend/src/pages/user.js:126-134 | from a page in [1, totalPages], both buttons stay in [1, totalPages] |
| `UserList.StalePageNextRecovers` | frontend/src/pages/user.js:134 | from a stale page past the last one (with at least one page), Next goes to the last page, which is not empty |
| `EditUser.HandleUpdate` | frontend/src/pages/edituser.js:47-64 | the mismatch error happens iff the password is non-empty and differs from the confirmation as typed; otherwise the payload carries name, phone and location as entered, and carries the password iff it is not blank, then trimmed |

## Left out

- HTTP routing, Express, CORS and the Mongo connection are not modelled. The handlers are called directly with the parsed request body.
- `uuidv4()` and `Date.now()` are not modelled. Their results are parameters (`freshUuid`, `now`). Mongo ObjectIds are naturals handed out by each collection's counter, so natural order is id order.
- A malformed ObjectId in a request is not modelled. In the source, it makes `findById` throw a CastError, which answers 500. Ids here are always well formed.
- Other store failures (connection loss, timeouts) are not modelled. The only 500 paths modelled are validation failures and unique-index violations.
- `Crypto.Hash`: bcrypt is reduced to an injective hash, the cost-10 marker followed by the hashed text. Salt, one-wayness, the fixed 60-character length and the 72-byte input limit are not modelled. `Crypto.VerifyInjective` therefore holds of the stand-in only.
- The JWT is only its payload (customer id and phone number). Its secret, its signature and its 1-day lifetime are not modelled. The server-side lifetime is independent of the client's 1-hour expiry.
- The `registered_at` and `last_seen` timestamps on devices are simplified:
  - `registered_at` is the `now` parameter on create, and an update keeps it.
  - `last_seen` is not stored at all, because the schema does not declare it and strict mode drops it.
- `JsString.Upper` and `JsString.Lower` map only ASCII letters. JavaScript's full Unicode case mapping is not modelled.
- `BrowserStorage.JsNumber` reads only plain decimal digits, after trimming. Signs, fractions, exponents, hexadecimal and `Infinity` all read as NaN, and a blank string reads as 0. The login page only ever stores decimal millisecond counts.
- `BrowserStorage.NatToString` writes plain decimal. JavaScript switches to exponent notation from 10^21 on, far beyond any millisecond clock value.
- Request fields are optional strings, and `customer_id` is an optional ObjectId. Non-string JSON values (numbers, objects, null) are not modelled. For example, `user.trim()` on a number throws and answers 500.
- Popstate/history handling in `ProtectedRoute.js`, toasts, alerts, navigation and rendering are not modelled. These are browser UI.
- `devices.js`, `deviceAnalysis.js` and `main.js` are not part of this model: form glue, static mock charts and the route table.
- Concurrent requests (two registrations racing past a pre-check, update/delete interleavings) are not modelled. Each handler runs to completion on its own.
- `DeviceController.GetRegisteredDevices`, `UserController.GetAllUsers` and `UserController.GetSingleUser` reply with no message text, modelled as the empty string. The source sends the bare JSON array or document.
