/** The `User` schema: one Account document per registered email, with the
    schema's required fields, its defaults and its unique email index, and
    the collection that holds the documents. */
module UserModel {
  import opened Common

  /** A document id; the database's ObjectId is modelled as a number drawn
      from a counter, which is what makes ids unique. */
  type Id = nat

  /** One document of the collection. `password` holds the password hash;
      the two timestamps are milliseconds since the epoch. */
  datatype Account = Account(
    id: Id,
    firstName: string,
    lastName: string,
    email: string,
    password: string,
    image: string,
    about: string,
    mobile: string,
    otp: Option<string>,
    verified: bool,
    createdAt: nat,
    updatedAt: nat)

  /** The required validators: an absent or empty string is refused. */
  predicate Required(a: Account) {
    a.firstName != "" && a.lastName != "" && a.email != "" && a.password != ""
  }

  /** The values a document takes for the fields nobody set. */
  predicate HasDefaults(a: Account) {
    a.image == "" && a.about == "" && a.mobile == "" && a.otp.None? && !a.verified
  }

  /** A document built from the required fields only, saved at `nowMs`. */
  function NewAccount(id: Id, firstName: string, lastName: string, email: string, password: string, nowMs: nat): (a: Account)
    ensures HasDefaults(a) && a.id == id && a.createdAt == nowMs && a.updatedAt == nowMs
    ensures a.firstName == firstName && a.lastName == lastName && a.email == email && a.password == password
    ensures firstName != "" && lastName != "" && email != "" && password != "" ==> Required(a)
  {
    Account(id, firstName, lastName, email, password, "", "", "", None, false, nowMs, nowMs)
  }

  /** The collection, keyed by email (the unique index): every document sits
      under its own email, passes the required validators, and no two
      documents share an id. */
  ghost predicate StoreInvariant(users: map<string, Account>) {
    && (forall e | e in users :: users[e].email == e && Required(users[e]))
    && (forall e1, e2 | e1 in users && e2 in users && users[e1].id == users[e2].id :: e1 == e2)
  }

  ghost predicate IdsBelow(users: map<string, Account>, bound: Id) {
    forall e | e in users :: users[e].id < bound
  }

  /** At most one account per email. */
  lemma EmailUnique(users: map<string, Account>, a: Account, b: Account)
    requires StoreInvariant(users)
    requires a in users.Values && b in users.Values && a.email == b.email
    ensures a == b
  {
    var ea :| ea in users && users[ea] == a;
    var eb :| eb in users && users[eb] == b;
  }

  /** The document as `select("-password -otp -__v")` returns it. */
  datatype Profile = Profile(
    id: Id,
    firstName: string,
    lastName: string,
    email: string,
    image: string,
    about: string,
    mobile: string,
    verified: bool,
    createdAt: nat,
    updatedAt: nat)

  function Sanitize(a: Account): (p: Profile)
    ensures p.id == a.id && p.email == a.email
  {
    Profile(a.id, a.firstName, a.lastName, a.email, a.image, a.about, a.mobile, a.verified, a.createdAt, a.updatedAt)
  }

  /** Two documents give the same record exactly when they differ at most in
      the password hash and the code. */
  lemma SanitizeHidesSecrets(a: Account, b: Account)
    ensures Sanitize(a) == Sanitize(b) <==> a.(password := b.password, otp := b.otp) == b
  {
  }

  /** The in-memory stand-in for the `User` collection. */
  class UserStore {
    var accounts: map<string, Account>
    var nextId: Id

    ghost predicate Valid()
      reads this
    {
      StoreInvariant(accounts) && IdsBelow(accounts, nextId)
    }

    constructor (initial: map<string, Account>, firstFreeId: Id)
      requires StoreInvariant(initial) && IdsBelow(initial, firstFreeId)
      ensures Valid() && accounts == initial && nextId == firstFreeId
    {
      accounts := initial;
      nextId := firstFreeId;
    }
  }
}
