# OTP-gated account registration, modelled in Dafny

This project models the core of a small user-account backend written for
Node.js with Express and Mongoose. It covers:

- **Signup.** Input is validated in a fixed order. A registration is then
  parked in a process-local pending table, keyed by email, and a six-digit
  one-time code is mailed.
- **Verify OTP.** The mailed code turns a pending registration into a
  verified account, and the caller gets a session token.
- **Login.** The password is checked, then the verified flag. Only then is a
  token issued.
- **Profile controller.** It parses a `data:image/...;base64,...` image,
  builds the profile update and applies it to the caller's document. It also
  lists every other account without its secrets.

Layout, one module per source file:

- `common.dfy` (`Common`): optional values and results. Also JavaScript's
  decimal rendering of an integer and its UTF-16 string length.
- `user_model.dfy` (`UserModel`): the `User` schema, its required fields,
  defaults and unique email. `UserStore` is the in-memory stand-in for the
  collection, keyed by email.
- `auth_controller.dfy` (`AuthController`): the email regular expression,
  code generation, bcrypt and the token as abstractions, and the pure checks
  and `Login`. The `AuthService` class holds the shared `pendingUsers` table.
  Its `Signup` and `VerifyOtp` methods change that table and the store.
- `user_controller.dfy` (`UserController`): the image data-URL parser, the
  stored file name, the update built by `updateUser` and applied to one
  document, and the `getAllUsers` listing.

Inputs from the outside world are modelled as follows:

- The clock (`Date.now`) is a `nowMs` parameter, one clock reading per
  request. The code reads the clock more than once in a request: `verifyOTP`
  when it saves the account and again when it signs the token
  (controllers/authController.js:149, 152), and `updateUser` for the file
  name and again for `updatedAt` (controllers/userController.js:16, 58). No
  contract relies on those readings being equal.
- Whether the mail was delivered is a `mailDelivered` parameter. The mail
  handed to the channel is returned, so a client can send the code back.
- The random draws are nondeterministic choices inside the methods: the code
  in [100000, 999999] and bcrypt's salt.
- bcrypt is a pair of functions, `hash(password, salt)` and `compare`. Only
  one law is assumed of them (`Sound`): a password matches every hash of
  itself, and a hash is never empty.
- A session token holds its claims: the account id, the issue time and the
  expiry, 30 days (2592000 s) later (RFC 7519, section 4.1.4).
- A request-body field that is absent or empty (falsy in JavaScript) is the
  empty string.

Three behaviours of the code are worth stating outright:

- **Dispatch failure.** The pending entry is inserted before the mail is
  sent (controllers/authController.js:84, 92). A failed send therefore
  answers 500 and leaves the entry in place, and a later signup for that
  email is refused with "OTP already sent". `Signup` states exactly that.
- **What blocks signup.** Only a verified account or an existing pending
  entry blocks signup (controllers/authController.js:67, 74). An unverified
  account does not. `SignupConflict` states exactly that.
- **File uploads.** The update route installs no upload middleware
  (routes/userRoutes.js:6), so `req.file` is always undefined as the
  application is wired. The `upload` branch of `UpdateDataFor` and
  `UpdateUser` models the controller on its own, and that branch is
  unreachable in the deployed routes.

## Model

| member | source | states |
|---|---|---|
| Common.DecimalString | controllers/authController.js:10-11 | `toString` of a non-negative integer is a non-empty string of decimal digits, with no leading zero when the number is positive |
| Common.ParseDecimalString | controllers/authController.js:10-11 | reading the rendered digits back gives the number (round trip) |
| Common.DecimalStringLength | controllers/authController.js:10-11 | a number with k+1 significant digits renders as exactly k+1 characters |
| Common.Utf16Length | controllers/authController.js:52 | `password.length` counts UTF-16 units: at least the character count and at most twice it |
| UserModel.NewAccount | models/User.js:3-16 | a new document keeps the given required fields, gets the defaults ("" for image/about/mobile, no otp, verified false), and is stamped created/updated at the save time; non-empty required fields pass the required validators |
| UserModel.Sanitize | controllers/userController.js:90-91 | `select("-password -otp -__v")` keeps the document's id and email (and every other schema field but the two secrets) |
| UserModel.SanitizeHidesSecrets | controllers/userController.js:90-91 | two documents give the same record exactly when they differ at most in the password hash and the code |
| UserModel.UserStore.constructor | models/User.js:3-18 | a collection built from documents that sit under their own email, pass the required validators, have unique ids and ids below the counter is valid |
| UserModel.EmailUnique | models/User.js:7 | in a valid store, two accounts with the same email are the same account |
| AuthController.EmailShapeMatchesPattern | controllers/authController.js:33 | the regex matches exactly the strings with no whitespace, exactly one '@', a non-empty local part and a '.' inside the domain with text on both sides |
| AuthController.IsValidEmail | controllers/authController.js:33 | `isValidEmail` accepts exactly what `/^[^\s@]+@[^\s@]+\.[^\s@]+$/` matches, with JavaScript's `\s` class |
| AuthController.OtpRendering | controllers/authController.js:10-11 | any draw in [100000, 999999] renders as a six-digit code that reads back as the draw |
| AuthController.GenerateOtp | controllers/authController.js:10-11 | the code has 6 characters, all decimal digits, with value in [100000, 999999] |
| AuthController.IssueToken | controllers/authController.js:152-154 | the token carries the account id, is issued in the current second and expires 30 days (2592000 s) later |
| AuthController.PublicView | controllers/authController.js:161-169 | the `user` object of a response carries the account's id and email |
| AuthController.PublicViewHides | controllers/authController.js:161-169 | two accounts show the same response object exactly when they differ at most in the password hash, the code, the verified flag and the timestamps |
| AuthController.PublicViewBelowSanitize | controllers/authController.js:228-236 | the response object shows nothing the sanitized record does not |
| AuthController.SignupValidation | controllers/authController.js:40-63 | the first failing check decides the error: missing field, then email format, then length < 6 (UTF-16), then mismatch; none fails exactly when all pass |
| AuthController.MismatchAlwaysRefused | controllers/authController.js:59-63 | a confirmation that differs from the password is refused whatever the other fields hold |
| AuthController.SignupConflict | controllers/authController.js:65-79 | a verified account for the email refuses signup; otherwise a pending entry does; an unverified account alone does not block |
| AuthController.VerifyRefusal | controllers/authController.js:108-134 | in order: missing email/otp, no pending entry, code not exactly equal, account already verified; no refusal exactly when the codes match and no verified account exists |
| AuthController.RepeatVerificationFails | controllers/authController.js:114-121 | once the entry is deleted, any further verification of that email fails with "No pending registration" |
| AuthController.PromoteAccount | controllers/authController.js:136-147 | the promoted account is verified and holds the pending hash; a new one takes id, names and email from the entry with profile defaults; an existing one keeps id, names, email, profile and creation time |
| AuthController.PromotionKeepsStore | controllers/authController.js:136-149 | saving the promoted account keeps emails as keys, the required fields and unique ids, and the id counter stays above every id |
| AuthController.Login | controllers/authController.js:179-243 | missing field, then format, then "Invalid credentials" for an unknown email or a wrong password; 403 with the account's email only when the password matches and the account is unverified; a token for the account's id only when it matches and is verified |
| AuthController.UnknownEmailLooksLikeWrongPassword | controllers/authController.js:195-208 | an unknown email and a wrong password give the identical response |
| AuthController.LoginAfterPromotion | controllers/authController.js:203-221 | after promotion, logging in with the password the pending hash was made from returns a token for the promoted account |
| AuthController.AuthService.constructor | controllers/authController.js:7 | the pending table starts empty over a valid store |
| AuthController.AuthService.Signup | controllers/authController.js:36-101 | a refused signup changes nothing and sends no mail; a passed one adds exactly one pending entry (names, email, a hash of the password, a six-digit code), leaves every other entry and the store unchanged, mails that code, and answers 200, or 500 if the send failed with the entry kept |
| AuthController.AuthService.VerifyOtp | controllers/authController.js:104-176 | a refusal changes neither the table nor the store (a wrong code or an already verified account keeps the entry); success stores the promoted account under the email, removes only that entry, and returns its token and public view |
| AuthController.RegistrationScenario | controllers/authController.js:36-243 | signup, verification with the mailed code, and login with the same password all succeed, and the login token names the verified account |
| UserController.ParseImage | controllers/userController.js:8-11 | a match has a non-empty run of ASCII letters as extension and a non-empty payload with no line terminator, and the prefix, the two groups and the marker span the whole string |
| UserController.ParseImageSound | controllers/userController.js:8-14 | whatever the parser accepts is "data:image/" + letters + ";base64," + a non-empty payload with no line terminator |
| UserController.ParseImageComplete | controllers/userController.js:8-14 | every such string is accepted, with exactly that extension and payload |
| UserController.ParseImageExact | controllers/userController.js:8-14 | the parser returns (ext, payload) if and only if the string is the data URL built from them; otherwise it throws |
| UserController.ImageFilename | controllers/userController.js:16 | the stored file name starts with `user_` |
| UserController.FilenameInjective | controllers/userController.js:16 | `user_<id>_<time>.<ext>` determines id, time and extension: different (id, time, extension) triples never share a name (two uploads by one user in one millisecond with one extension do share it) |
| UserController.UpdateDataFor | controllers/userController.js:33-55 | about and mobile are always set; the image comes from a valid base64 data URL when one is given (invalid: the parser's error), else from the uploaded file, else is unset |
| UserController.ApplyUpdate | controllers/userController.js:58-62 | the `$set` changes about, mobile, the image if given and the update time, and nothing else |
| UserController.ApplyUpdateKeepsStore | controllers/userController.js:58-62 | applying the update to one document keeps the store invariant |
| UserController.UpdateUser | controllers/userController.js:31-83 | an invalid image answers 400 and leaves the store untouched; an unknown caller id answers 404 untouched; else only the caller's document changes, as ApplyUpdate says, and its sanitized form is returned |
| UserController.GetAllUsers | controllers/userController.js:86-106 | the listing holds the sanitized record of every account whose id is not the caller's, every listed record is one of those, and no record has the caller's id |
| UserController.GetAllUsersCount | controllers/userController.js:88-92 | with unique ids the listing has one record per account, minus one when the caller's account exists |

## Left out

- Mail sending (`sendOTPEmail`, nodemailer) is network I/O. Only its outcome is an input, and the mail handed over is an output. The `console.log` of the code in it is not modelled.
- bcrypt's internals are not modelled: salting, the cost factor and the 72-byte input limit. Only `Sound` is assumed of `hash` and `compare`.
- The JWT signature and secret are not modelled, nor the middleware that checks tokens on protected routes. The token is its claims.
- `Math.random` is floating point and is not modelled. The code is drawn nondeterministically from [100000, 999999], and bcrypt's salt is drawn the same way.
- The MongoDB calls (`findOne`, `save`, `findByIdAndUpdate`, `find`) are replaced by a map keyed by email. ObjectIds are numbers from a counter, and their text form in file names is decimal, not hexadecimal. The `__v` version key is not a field, since nothing here changes it. The order of `find` results is not modelled: the listing is a set of records.
- Failures of the database or of bcrypt are not modelled. These are the 500 catch-all branches, except the mail failure, which is modelled.
- The file-system part of `saveBase64Image` is not modelled (`existsSync`, `mkdirSync`, `writeFileSync`, the base64 decoding into a Buffer). As a result the model does not show that the file is written even when the update then answers 404, nor that a second upload under the same name overwrites the first.
- UpdateDataFor: a file-system error inside `saveBase64Image` runs in the inner `try` (controllers/userController.js:38-49) and answers 400 "Invalid image data" with that error's message. The model has no file-system failures, so its 400 arises only from a string the data-URL pattern refuses. A payload outside the base64 alphabet is accepted, as the code accepts it (Buffer decoding is lenient).
- Strings with lone UTF-16 surrogates (a JSON body may carry `"\ud800"`) cannot be held in a Dafny `string`, so `Utf16Length`, the email pattern and the data-URL pattern are modelled for well-formed strings only.
- JSON values that are not strings (numbers, objects) in request bodies are not modelled. Neither is Mongoose's handling of an absent `about` or `mobile`.
- Concurrency is not modelled: each request is one atomic call. The race on the shared pending table is outside the model.
- The Express wiring, routes, CORS, static serving and startup (`server.js`, `routes/*.js`) are not part of this model. Neither are the seed and clean-up scripts (`seed.js`, `cleanDB.js`).
- Response plumbing (`res.status().json()`, the `status: true/false` flag) is replaced by result datatypes with `Status()` and `Message()`.
