/** The OTP-gated registration flow: `signup` parks a registration in the
    process-local pending table and mails a one-time code, `verifyOTP`
    promotes a matching pending registration to a verified account, and
    `login` checks credentials and the verified flag before issuing a
    session token. */
module AuthController {
  import opened Common
  import opened UserModel

  // ---------------------------------------------------------------------
  // Email format: the regular expression /^[^\s@]+@[^\s@]+\.[^\s@]+$/

  /** The characters JavaScript's `\s` class matches. */
  predicate IsSpace(c: char) {
    || c == ' ' || c == '\t' || c == '\n' || c == '\r' || c == '\U{000B}' || c == '\U{000C}'
    || c == '\U{00A0}' || c == '\U{1680}' || ('\U{2000}' <= c <= '\U{200A}')
    || c == '\U{2028}' || c == '\U{2029}' || c == '\U{202F}' || c == '\U{205F}'
    || c == '\U{3000}' || c == '\U{FEFF}'
  }

  /** The class `[^\s@]`. */
  predicate EmailChar(c: char) {
    !IsSpace(c) && c != '@'
  }

  predicate AllEmailChars(s: string) {
    forall k | 0 <= k < |s| :: EmailChar(s[k])
  }

  /** The strings the regular expression matches: three non-empty runs of
      `[^\s@]`, joined by '@' and then by '.'. */
  ghost predicate MatchesEmailPattern(s: string) {
    exists i, j | 0 < i && i + 1 < j && j + 1 < |s| ::
      && s[i] == '@' && s[j] == '.'
      && AllEmailChars(s[..i]) && AllEmailChars(s[i + 1..j]) && AllEmailChars(s[j + 1..])
  }

  /** The first position of `c` in `s`, or |s| when there is none. */
  function IndexOf(s: string, c: char): (i: nat)
    ensures i <= |s|
    ensures i < |s| ==> s[i] == c
    ensures forall k | 0 <= k < i :: s[k] != c
  {
    if s == [] then 0 else if s[0] == c then 0 else 1 + IndexOf(s[1..], c)
  }

  /** `d` has a '.' with at least one character on either side. */
  predicate HasInnerDot(d: string) {
    exists k | 0 < k < |d| - 1 :: d[k] == '.'
  }

  /** The accepted addresses, condition by condition: no whitespace, exactly
      one '@', a non-empty local part, and a domain with an inner '.'. */
  predicate EmailShape(email: string) {
    && (forall k | 0 <= k < |email| :: !IsSpace(email[k]))
    && multiset(email)['@'] == 1
    && var at := IndexOf(email, '@');
       0 < at < |email| && HasInnerDot(email[at + 1..])
  }

  /** A character that occurs at position i and nowhere else occurs once. */
  lemma OccursOnce(s: string, i: nat, c: char)
    requires i < |s| && s[i] == c
    requires forall k | 0 <= k < |s| && k != i :: s[k] != c
    ensures multiset(s)[c] == 1
  {
    assert s == s[..i] + [s[i]] + s[i + 1..];
    assert c !in s[..i];
    assert c !in s[i + 1..];
    assert multiset(s) == multiset(s[..i]) + multiset([s[i]]) + multiset(s[i + 1..]);
  }

  /** A character that occurs once, at position i, occurs nowhere else. */
  lemma OnlyOccurrence(s: string, i: nat, c: char)
    requires i < |s| && s[i] == c && multiset(s)[c] == 1
    ensures forall k | 0 <= k < |s| && k != i :: s[k] != c
  {
    assert s == s[..i] + [s[i]] + s[i + 1..];
    assert multiset(s) == multiset(s[..i]) + multiset([s[i]]) + multiset(s[i + 1..]);
    forall k | 0 <= k < |s| && k != i ensures s[k] != c {
      if k < i {
        assert s[k] in multiset(s[..i]);
      } else {
        assert s[k] == s[i + 1..][k - i - 1];
        assert s[k] in multiset(s[i + 1..]);
      }
    }
  }

  lemma ShapeToPattern(s: string)
    requires EmailShape(s)
    ensures MatchesEmailPattern(s)
  {
    var at := IndexOf(s, '@');
    OnlyOccurrence(s, at, '@');
    var d := s[at + 1..];
    var k :| 0 < k < |d| - 1 && d[k] == '.';
    var j := at + 1 + k;
    assert s[j] == '.';
    assert AllEmailChars(s[..at]);
    assert AllEmailChars(s[at + 1..j]);
    assert AllEmailChars(s[j + 1..]);
  }

  lemma PatternToShape(s: string)
    requires MatchesEmailPattern(s)
    ensures EmailShape(s)
  {
    var i, j :| && 0 < i && i + 1 < j && j + 1 < |s|
                && s[i] == '@' && s[j] == '.'
                && AllEmailChars(s[..i]) && AllEmailChars(s[i + 1..j]) && AllEmailChars(s[j + 1..]);
    forall k | 0 <= k < |s| ensures !IsSpace(s[k]) && (k != i ==> s[k] != '@') {
      if k < i {
        assert s[k] == s[..i][k];
      } else if i < k < j {
        assert s[k] == s[i + 1..j][k - i - 1];
      } else if j < k {
        assert s[k] == s[j + 1..][k - j - 1];
      }
    }
    OccursOnce(s, i, '@');
    assert IndexOf(s, '@') == i;
    assert s[i + 1..][j - i - 1] == '.';
  }

  lemma EmailShapeMatchesPattern(email: string)
    ensures EmailShape(email) <==> MatchesEmailPattern(email)
  {
    if EmailShape(email) {
      ShapeToPattern(email);
    }
    if MatchesEmailPattern(email) {
      PatternToShape(email);
    }
  }

  /** `isValidEmail`: the regular-expression test. */
  function IsValidEmail(email: string): (ok: bool)
    ensures ok <==> MatchesEmailPattern(email)
  {
    EmailShapeMatchesPattern(email);
    EmailShape(email)
  }

  // ---------------------------------------------------------------------
  // One-time codes

  /** The strings `generateOTP` can return. */
  predicate IsSixDigitCode(s: string) {
    |s| == 6 && AllDigits(s) && 100000 <= ParseDecimal(s) <= 999999
  }

  lemma OtpRendering(n: nat)
    requires 100000 <= n <= 999999
    ensures IsSixDigitCode(DecimalString(n)) && ParseDecimal(DecimalString(n)) == n
  {
    assert Pow10(5) == 100000 && Pow10(6) == 1000000;
    DecimalStringLength(n, 5);
    ParseDecimalString(n);
  }

  /** `generateOTP`: a number drawn from [100000, 999999], rendered in decimal. */
  method GenerateOtp() returns (otp: string)
    ensures |otp| == 6 && AllDigits(otp)
    ensures 100000 <= ParseDecimal(otp) <= 999999
  {
    var n: nat :| 100000 <= n <= 999999;
    OtpRendering(n);
    otp := DecimalString(n);
  }

  // ---------------------------------------------------------------------
  // Password hashing and session tokens

  /** bcrypt, kept abstract: `hash(p, salt)` is what `bcrypt.hash(p, 10)`
      yields when it draws the salt `salt`, and `compare` is `bcrypt.compare`. */
  datatype Crypto = Crypto(hash: (string, nat) -> string, compare: (string, string) -> bool)

  /** The one law assumed of bcrypt: a password matches every hash of itself,
      and a hash is never empty. */
  ghost predicate Sound(crypto: Crypto) {
    forall p, salt :: crypto.compare(p, crypto.hash(p, salt)) && crypto.hash(p, salt) != ""
  }

  /** Thirty days, in seconds (`expiresIn: "30d"`). */
  const TokenLifetime: nat := 30 * 24 * 60 * 60

  /** The claims of a signed session token, without the signature: the
      account id, the issue time and the expiry (section 4.1.4 of RFC 7519),
      in whole seconds since the epoch. */
  datatype Token = Token(id: Id, issuedAt: nat, expiresAt: nat)

  function IssueToken(id: Id, nowMs: nat): (t: Token)
    ensures t.id == id
    ensures t.issuedAt * 1000 <= nowMs < t.issuedAt * 1000 + 1000
    ensures t.expiresAt - t.issuedAt == 2592000
  {
    var issuedAt := nowMs / 1000;
    Token(id, issuedAt, issuedAt + TokenLifetime)
  }

  /** The account fields a signup, verification or login response shows. */
  datatype PublicUser = PublicUser(
    id: Id, firstName: string, lastName: string, email: string,
    image: string, about: string, mobile: string)

  function PublicView(a: Account): (v: PublicUser)
    ensures v.id == a.id && v.email == a.email
  {
    PublicUser(a.id, a.firstName, a.lastName, a.email, a.image, a.about, a.mobile)
  }

  /** Two accounts show the same view exactly when they differ at most in the
      password hash, the code, the verified flag and the two timestamps. */
  lemma PublicViewHides(a: Account, b: Account)
    ensures PublicView(a) == PublicView(b) <==>
      a.(password := b.password, otp := b.otp, verified := b.verified, createdAt := b.createdAt, updatedAt := b.updatedAt) == b
  {
  }

  /** The view shows nothing the sanitized record does not. */
  lemma PublicViewBelowSanitize(a: Account, b: Account)
    requires Sanitize(a) == Sanitize(b)
    ensures PublicView(a) == PublicView(b)
  {
  }

  // ---------------------------------------------------------------------
  // Responses

  datatype AuthError =
    | FieldsMissing
    | BadEmailFormat
    | PasswordTooShort
    | PasswordMismatch
    | AlreadyRegistered
    | OtpAlreadySent
    | ServerError
    | EmailOtpMissing
    | NoPendingRegistration
    | WrongOtp
    | AlreadyVerified
    | CredentialsMissing
    | InvalidCredentials
    | NotVerified(email: string)
  {
    function Status(): nat {
      match this
      case ServerError => 500
      case NotVerified(_) => 403
      case _ => 400
    }

    function Message(): string {
      match this
      case FieldsMissing => "All fields are required."
      case BadEmailFormat => "Invalid email format."
      case PasswordTooShort => "Password must be at least 6 characters."
      case PasswordMismatch => "Passwords do not match."
      case AlreadyRegistered => "User already registered and verified."
      case OtpAlreadySent => "OTP already sent. Please check your email."
      case ServerError => "Server error"
      case EmailOtpMissing => "Email and OTP are required."
      case NoPendingRegistration => "No pending registration for this email."
      case WrongOtp => "Invalid OTP."
      case AlreadyVerified => "User already verified."
      case CredentialsMissing => "Email and password are required."
      case InvalidCredentials => "Invalid credentials."
      case NotVerified(_) => "Account not verified. Please check your email."
    }
  }

  datatype Response =
    | Failed(error: AuthError)
    | OtpSent
    | Verified(token: Token, user: PublicUser)
    | LoggedIn(token: Token, user: PublicUser)
  {
    function Status(): nat {
      if Failed? then error.Status() else 200
    }

    function Message(): string {
      match this
      case Failed(e) => e.Message()
      case OtpSent => "OTP sent to email. Please verify."
      case Verified(_, _) => "OTP verified. Account created."
      case LoggedIn(_, _) => "Login successful."
    }
  }

  // ---------------------------------------------------------------------
  // Pending registrations

  /** What `signup` parks under an email until the code comes back. */
  datatype Pending = Pending(firstName: string, lastName: string, email: string, password: string, otp: string)

  /** The message handed to the mail channel. */
  datatype Mail = Mail(to: string, otp: string)

  /** Every pending entry sits under its own email and holds what a passed
      signup put there: non-empty names, a hash and a six-digit code. */
  ghost predicate PendingInvariant(pending: map<string, Pending>) {
    forall e | e in pending ::
      && pending[e].email == e && e != ""
      && pending[e].firstName != "" && pending[e].lastName != "" && pending[e].password != ""
      && IsSixDigitCode(pending[e].otp)
  }

  /** The entry a passed signup stores for these fields. */
  ghost predicate Registered(entry: Pending, firstName: string, lastName: string, email: string, password: string, crypto: Crypto) {
    && entry.firstName == firstName && entry.lastName == lastName && entry.email == email
    && IsSixDigitCode(entry.otp)
    && exists salt :: entry.password == crypto.hash(password, salt)
  }

  // ---------------------------------------------------------------------
  // Signup checks

  /** Some signup field is absent or empty (falsy in JavaScript). */
  predicate AnyMissing(firstName: string, lastName: string, email: string, password: string, confirmPassword: string) {
    firstName == "" || lastName == "" || email == "" || password == "" || confirmPassword == ""
  }

  /** The input checks of `signup`, in their order: the first that fails
      decides the error. */
  function SignupValidation(firstName: string, lastName: string, email: string, password: string, confirmPassword: string): (r: Option<AuthError>)
    ensures r == Some(FieldsMissing) <==> AnyMissing(firstName, lastName, email, password, confirmPassword)
    ensures r == Some(BadEmailFormat) <==>
      !AnyMissing(firstName, lastName, email, password, confirmPassword) && !IsValidEmail(email)
    ensures r == Some(PasswordTooShort) <==>
      !AnyMissing(firstName, lastName, email, password, confirmPassword) && IsValidEmail(email) && Utf16Length(password) < 6
    ensures r == Some(PasswordMismatch) <==>
      && !AnyMissing(firstName, lastName, email, password, confirmPassword) && IsValidEmail(email)
      && Utf16Length(password) >= 6 && password != confirmPassword
    ensures r == None <==>
      && !AnyMissing(firstName, lastName, email, password, confirmPassword) && IsValidEmail(email)
      && Utf16Length(password) >= 6 && password == confirmPassword
  {
    if AnyMissing(firstName, lastName, email, password, confirmPassword) then Some(FieldsMissing)
    else if !IsValidEmail(email) then Some(BadEmailFormat)
    else if Utf16Length(password) < 6 then Some(PasswordTooShort)
    else if password != confirmPassword then Some(PasswordMismatch)
    else None
  }

  /** A confirmation that differs from the password always fails, whatever
      the other fields hold. */
  lemma MismatchAlwaysRefused(firstName: string, lastName: string, email: string, password: string, confirmPassword: string)
    requires password != confirmPassword
    ensures SignupValidation(firstName, lastName, email, password, confirmPassword).Some?
  {
  }

  /** The checks of `signup` against the stored state: a verified account
      blocks, then a pending entry does; an unverified account does not. */
  function SignupConflict(users: map<string, Account>, pending: map<string, Pending>, email: string): (r: Option<AuthError>)
    ensures r == Some(AlreadyRegistered) <==> email in users && users[email].verified
    ensures r == Some(OtpAlreadySent) <==> (email !in users || !users[email].verified) && email in pending
    ensures r == None <==> (email !in users || !users[email].verified) && email !in pending
  {
    if email in users && users[email].verified then Some(AlreadyRegistered)
    else if email in pending then Some(OtpAlreadySent)
    else None
  }

  function SignupRefusal(users: map<string, Account>, pending: map<string, Pending>,
                         firstName: string, lastName: string, email: string, password: string, confirmPassword: string): Option<AuthError>
  {
    var v := SignupValidation(firstName, lastName, email, password, confirmPassword);
    if v.Some? then v else SignupConflict(users, pending, email)
  }

  // ---------------------------------------------------------------------
  // Verification checks and promotion

  /** The checks of `verifyOTP`, in their order. */
  function VerifyRefusal(users: map<string, Account>, pending: map<string, Pending>, email: string, otp: string): (r: Option<AuthError>)
    ensures r == Some(EmailOtpMissing) <==> email == "" || otp == ""
    ensures r == Some(NoPendingRegistration) <==> email != "" && otp != "" && email !in pending
    ensures r == Some(WrongOtp) <==> email != "" && otp != "" && email in pending && pending[email].otp != otp
    ensures r == Some(AlreadyVerified) <==>
      && email != "" && otp != "" && email in pending && pending[email].otp == otp
      && email in users && users[email].verified
    ensures r == None <==>
      && email != "" && otp != "" && email in pending && pending[email].otp == otp
      && (email !in users || !users[email].verified)
  {
    if email == "" || otp == "" then Some(EmailOtpMissing)
    else if email !in pending then Some(NoPendingRegistration)
    else if pending[email].otp != otp then Some(WrongOtp)
    else if email in users && users[email].verified then Some(AlreadyVerified)
    else None
  }

  /** Once an email's entry is gone, verifying it again fails for want of a
      pending registration, whatever code is sent. */
  lemma RepeatVerificationFails(users: map<string, Account>, pending: map<string, Pending>, email: string, otp: string)
    requires email != "" && otp != ""
    ensures VerifyRefusal(users, pending - {email}, email, otp) == Some(NoPendingRegistration)
  {
  }

  /** The account a matching code produces: a new document built from the
      pending entry, or the existing unverified one with its password
      replaced; verified either way. */
  function PromoteAccount(existing: Option<Account>, entry: Pending, freshId: Id, nowMs: nat): (a: Account)
    ensures a.verified && a.password == entry.password && a.otp == (if existing.Some? then existing.value.otp else None)
    ensures a.updatedAt == nowMs
    ensures existing.None? ==>
      && a.id == freshId && a.createdAt == nowMs
      && a.firstName == entry.firstName && a.lastName == entry.lastName && a.email == entry.email
      && a.image == "" && a.about == "" && a.mobile == ""
    ensures existing.Some? ==>
      var old_ := existing.value;
      && a.id == old_.id && a.createdAt == old_.createdAt
      && a.firstName == old_.firstName && a.lastName == old_.lastName && a.email == old_.email
      && a.image == old_.image && a.about == old_.about && a.mobile == old_.mobile
  {
    match existing
    case None => NewAccount(freshId, entry.firstName, entry.lastName, entry.email, entry.password, nowMs).(verified := true)
    case Some(account) => account.(verified := true, password := entry.password, updatedAt := nowMs)
  }

  /** Promoting a pending entry keeps the collection's invariant, and the
      counter stays above every id when it moves past a new one. */
  lemma PromotionKeepsStore(users: map<string, Account>, entry: Pending, freshId: Id, nowMs: nat)
    requires StoreInvariant(users) && IdsBelow(users, freshId)
    requires entry.email != "" && entry.firstName != "" && entry.lastName != "" && entry.password != ""
    ensures var a := PromoteAccount(Get(users, entry.email), entry, freshId, nowMs);
      var users' := users[entry.email := a];
      && StoreInvariant(users')
      && IdsBelow(users', if entry.email in users then freshId else freshId + 1)
  {
    var e := entry.email;
    var a := PromoteAccount(Get(users, e), entry, freshId, nowMs);
    var users' := users[e := a];
    assert forall e' | e' in users' && e' != e :: users'[e'] == users[e'];
  }

  // ---------------------------------------------------------------------
  // Login

  /** `login`: reads the collection and changes nothing. */
  function Login(users: map<string, Account>, crypto: Crypto, email: string, password: string, nowMs: nat): (r: Response)
    ensures r == Failed(CredentialsMissing) <==> email == "" || password == ""
    ensures r == Failed(BadEmailFormat) <==> email != "" && password != "" && !IsValidEmail(email)
    ensures r == Failed(InvalidCredentials) <==>
      && email != "" && password != "" && IsValidEmail(email)
      && (email !in users || !crypto.compare(password, users[email].password))
    ensures (r.Failed? && r.error.NotVerified?) <==>
      && email != "" && password != "" && IsValidEmail(email)
      && email in users && crypto.compare(password, users[email].password) && !users[email].verified
    ensures r.Failed? && r.error.NotVerified? ==> email in users && r.error.email == users[email].email
    ensures r.LoggedIn? <==>
      && email != "" && password != "" && IsValidEmail(email)
      && email in users && crypto.compare(password, users[email].password) && users[email].verified
    ensures r.LoggedIn? ==>
      email in users && r.token == IssueToken(users[email].id, nowMs) && r.user == PublicView(users[email])
    ensures r.Failed? || r.LoggedIn?
  {
    if email == "" || password == "" then Failed(CredentialsMissing)
    else if !IsValidEmail(email) then Failed(BadEmailFormat)
    else if email !in users then Failed(InvalidCredentials)
    else
      var user := users[email];
      if !crypto.compare(password, user.password) then Failed(InvalidCredentials)
      else if !user.verified then Failed(NotVerified(user.email))
      else LoggedIn(IssueToken(user.id, nowMs), PublicView(user))
  }

  /** An unknown email and a wrong password for a known one get the same
      answer, so the response does not reveal which emails are registered. */
  lemma UnknownEmailLooksLikeWrongPassword(
    without: map<string, Account>, with: map<string, Account>, crypto: Crypto,
    email: string, password: string, nowMs: nat)
    requires email !in without
    requires email in with && !crypto.compare(password, with[email].password)
    ensures Login(without, crypto, email, password, nowMs) == Login(with, crypto, email, password, nowMs)
  {
  }

  /** The password a verified registration was made with logs in, with a
      token for the promoted account. */
  lemma LoginAfterPromotion(users: map<string, Account>, crypto: Crypto, entry: Pending,
                            password: string, salt: nat, freshId: Id, nowMs: nat, loginMs: nat)
    requires Sound(crypto)
    requires entry.password == crypto.hash(password, salt)
    requires password != "" && IsValidEmail(entry.email)
    ensures var a := PromoteAccount(Get(users, entry.email), entry, freshId, nowMs);
      Login(users[entry.email := a], crypto, entry.email, password, loginMs) == LoggedIn(IssueToken(a.id, loginMs), PublicView(a))
  {
    var a := PromoteAccount(Get(users, entry.email), entry, freshId, nowMs);
    assert crypto.compare(password, crypto.hash(password, salt));
    assert entry.email != "" by {
      assert MatchesEmailPattern(entry.email);
    }
  }

  // ---------------------------------------------------------------------
  // The controller and its shared pending table

  class AuthService {
    /** `pendingUsers`: email to pending registration, local to the process. */
    var pendingUsers: map<string, Pending>
    const db: UserStore
    const crypto: Crypto

    ghost predicate Valid()
      reads this, db
    {
      db.Valid() && Sound(crypto) && PendingInvariant(pendingUsers)
    }

    constructor (db: UserStore, crypto: Crypto)
      requires db.Valid() && Sound(crypto)
      ensures Valid() && this.db == db && this.crypto == crypto && pendingUsers == map[]
    {
      this.db := db;
      this.crypto := crypto;
      pendingUsers := map[];
    }

    /** `signup`. `mailDelivered` is the outcome of handing the code to the
        mail channel; `mail` is what was handed to it. */
    method Signup(firstName: string, lastName: string, email: string, password: string, confirmPassword: string, mailDelivered: bool)
      returns (r: Response, mail: Option<Mail>)
      requires Valid()
      modifies this
      ensures Valid()
      ensures db.accounts == old(db.accounts) && db.nextId == old(db.nextId)
      ensures var refusal := SignupRefusal(db.accounts, old(pendingUsers), firstName, lastName, email, password, confirmPassword);
        if refusal.Some? then
          r == Failed(refusal.value) && mail == None && pendingUsers == old(pendingUsers)
        else
          && email !in old(pendingUsers) && email in pendingUsers
          && pendingUsers == old(pendingUsers)[email := pendingUsers[email]]
          && Registered(pendingUsers[email], firstName, lastName, email, password, crypto)
          && mail == Some(Mail(email, pendingUsers[email].otp))
          && r == (if mailDelivered then OtpSent else Failed(ServerError))
    {
      var refusal := SignupValidation(firstName, lastName, email, password, confirmPassword);
      if refusal.Some? {
        return Failed(refusal.value), None;
      }
      refusal := SignupConflict(db.accounts, pendingUsers, email);
      if refusal.Some? {
        return Failed(refusal.value), None;
      }
      var salt: nat :| true;
      var hashed := crypto.hash(password, salt);
      var otp := GenerateOtp();
      pendingUsers := pendingUsers[email := Pending(firstName, lastName, email, hashed, otp)];
      mail := Some(Mail(email, otp));
      if !mailDelivered {
        return Failed(ServerError), mail;
      }
      r := OtpSent;
    }

    /** `verifyOTP`, at time `nowMs`. */
    method VerifyOtp(email: string, otp: string, nowMs: nat) returns (r: Response)
      requires Valid()
      modifies this, db
      ensures Valid()
      ensures var refusal := VerifyRefusal(old(db.accounts), old(pendingUsers), email, otp);
        if refusal.Some? then
          && r == Failed(refusal.value)
          && pendingUsers == old(pendingUsers)
          && db.accounts == old(db.accounts) && db.nextId == old(db.nextId)
        else
          var account := PromoteAccount(Get(old(db.accounts), email), old(pendingUsers)[email], old(db.nextId), nowMs);
          && db.accounts == old(db.accounts)[email := account]
          && db.nextId == (if email in old(db.accounts) then old(db.nextId) else old(db.nextId) + 1)
          && pendingUsers == old(pendingUsers) - {email}
          && r == Verified(IssueToken(account.id, nowMs), PublicView(account))
    {
      if email == "" || otp == "" {
        return Failed(EmailOtpMissing);
      }
      if email !in pendingUsers {
        return Failed(NoPendingRegistration);
      }
      var entry := pendingUsers[email];
      if entry.otp != otp {
        return Failed(WrongOtp);
      }
      var existing := Get(db.accounts, email);
      if existing.Some? && existing.value.verified {
        return Failed(AlreadyVerified);
      }
      PromotionKeepsStore(db.accounts, entry, db.nextId, nowMs);
      var account := PromoteAccount(existing, entry, db.nextId, nowMs);
      db.accounts := db.accounts[email := account];
      if existing.None? {
        db.nextId := db.nextId + 1;
      }
      pendingUsers := pendingUsers - {email};
      r := Verified(IssueToken(account.id, nowMs), PublicView(account));
    }
  }

  /** A registration from start to finish: signup, the mailed code sent back,
      and a login with the same password all succeed, and the login's token
      names the account verification created. */
  method RegistrationScenario(db: UserStore, crypto: Crypto, nowMs: nat, loginMs: nat)
    returns (signedUp: Response, verified: Response, loggedIn: Response)
    requires db.Valid() && Sound(crypto)
    requires "a@x.com" !in db.accounts
    modifies db
    ensures signedUp == OtpSent
    ensures verified.Verified? && loggedIn.LoggedIn? && loggedIn.token.id == verified.token.id
  {
    var service := new AuthService(db, crypto);
    assert IsValidEmail("a@x.com") by {
      var s := "a@x.com";
      assert s[1] == '@' && s[3] == '.';
      assert AllEmailChars(s[..1]) && AllEmailChars(s[2..3]) && AllEmailChars(s[4..]);
    }
    assert Utf16Length("secret1") >= 6;
    assert SignupValidation("Ann", "Lee", "a@x.com", "secret1", "secret1") == None;
    assert SignupConflict(db.accounts, service.pendingUsers, "a@x.com") == None;
    var mail;
    signedUp, mail := service.Signup("Ann", "Lee", "a@x.com", "secret1", "secret1", true);
    ghost var entry := service.pendingUsers["a@x.com"];
    ghost var salt :| entry.password == crypto.hash("secret1", salt);
    assert mail.value.otp == entry.otp != "";
    assert VerifyRefusal(db.accounts, service.pendingUsers, "a@x.com", entry.otp) == None;
    assert db.accounts == old(db.accounts) && db.nextId == old(db.nextId);
    verified := service.VerifyOtp("a@x.com", mail.value.otp, nowMs);
    ghost var account := PromoteAccount(Get(old(db.accounts), "a@x.com"), entry, old(db.nextId), nowMs);
    assert db.accounts == old(db.accounts)["a@x.com" := account];
    assert verified == Verified(IssueToken(account.id, nowMs), PublicView(account));
    LoginAfterPromotion(old(db.accounts), crypto, entry, "secret1", salt, old(db.nextId), nowMs, loginMs);
    loggedIn := Login(db.accounts, crypto, "a@x.com", "secret1", loginMs);
  }
}
