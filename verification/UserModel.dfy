/** The User schema: the values its setters store, the validators `save` runs,
    the pre-save hook that hashes the password, `comparePassword`, and the
    collection of saved users with its uniqueness indexes. */
module UserModel {
  import opened Wrappers
  import opened Text
  import Crypto

  /** The password path. `Plain` is a value assigned since the last save (so
      `isModified('password')` holds); a saved document always holds `Hashed`. */
  datatype Password = Plain(text: string) | Hashed(digest: Crypto.Digest)

  datatype User = User(id: nat, username: string, email: string, password: Password,
                       role: string, createdAt: int)

  const MinUsernameLength: nat := 3
  const MinPasswordLength: nat := 6
  const DefaultRole: string := "user"

  /** The `enum` of the role path. */
  predicate IsRole(role: string) {
    role == "user" || role == "admin"
  }

  /** The username the `trim` setter stores, and that a query on the path compares. */
  function CastUsername(username: string): (r: string)
    ensures IsTrimmed(r)
    ensures |r| <= |username|
  {
    Trim(username)
  }

  /** The email the `trim` and `lowercase` setters store, and that a query on the
      path compares. */
  function CastEmail(email: string): (r: string)
    ensures IsTrimmed(r) && IsLower(r)
    ensures |r| <= |email|
  {
    var t := Trim(email);
    LowerKeepsTrimmed(t);
    Lower(t)
  }

  /** A username already in stored form is cast to itself. */
  lemma UsernameCastKeepsStored(s: string)
    requires IsTrimmed(s)
    ensures CastUsername(s) == s
  {
    TrimKeepsTrimmed(s);
  }

  /** An email already in stored form is cast to itself. */
  lemma EmailCastKeepsStored(s: string)
    requires IsTrimmed(s) && IsLower(s)
    ensures CastEmail(s) == s
  {
    TrimKeepsTrimmed(s);
    LowerKeepsLower(s);
  }

  /** `new User({username, email, password, role})`: setters applied, `createdAt`
      defaulted from the clock. */
  function NewUser(id: nat, username: string, email: string, password: string,
                   role: string, now: int): (u: User)
    ensures u.password == Plain(password) && u.role == role && u.id == id
    ensures u.username == CastUsername(username) && u.email == CastEmail(email) && u.createdAt == now
    ensures IsTrimmed(u.username) && IsTrimmed(u.email) && IsLower(u.email)
  {
    User(id, CastUsername(username), CastEmail(email), Plain(password), role, now)
  }

  /** Building a document from the values another document stores gives that
      document again: the setters change nothing the second time. */
  lemma NewUserStable(id: nat, username: string, email: string, password: string, role: string, now: int)
    ensures var u := NewUser(id, username, email, password, role, now);
              NewUser(id, u.username, u.email, password, role, now) == u
  {
    var u := NewUser(id, username, email, password, role, now);
    UsernameCastKeepsStored(u.username);
    EmailCastKeepsStored(u.email);
  }

  /** The schema validators `save` runs before the pre-save hook: required and
      `minlength` on username and password, required and `match` on email, `enum`
      on role. `minlength` counts UTF-16 code units. A saved digest is a
      60-character string and passes `minlength`. Every path that passes holds a
      value the required validator accepts. */
  predicate Validates(u: User)
    ensures Validates(u) ==>
              && u.username != [] && u.email != [] && IsRole(u.role)
              && (u.password.Plain? ==> u.password.text != [])
  {
    && Utf16Length(u.username) >= MinUsernameLength
    && u.email != [] && HasEmailShape(u.email)
    && (u.password.Plain? ==> Utf16Length(u.password.text) >= MinPasswordLength)
    && IsRole(u.role)
  }

  /** The pre-save hook: a modified password is replaced by its digest; an
      unmodified one is left as it is. */
  function PreSave(u: User): (r: User)
    ensures r.password.Hashed?
    ensures r.(password := u.password) == u
  {
    match u.password
    case Plain(p) => u.(password := Hashed(Crypto.Hash(p)))
    case Hashed(_) => u
  }

  /** `comparePassword`: bcrypt's comparison of the candidate against the stored
      value. A value that is not a digest matches nothing. */
  function ComparePassword(u: User, candidate: string): (ok: bool)
    ensures ok <==> u.password == Hashed(Crypto.Hash(candidate))
  {
    match u.password
    case Hashed(d) => Crypto.BcryptCompare(candidate, d)
    case Plain(_) => false
  }

  /** A modified password is stored as the digest of the assigned plaintext. */
  lemma PreSaveHashesModified(u: User, p: string)
    requires u.password == Plain(p)
    ensures PreSave(u).password == Hashed(Crypto.Hash(p))
    ensures PreSave(u).password != u.password
  {
  }

  /** Saving again without touching the password keeps the stored digest: there is
      no double hashing. */
  lemma PreSaveIdempotent(u: User)
    ensures PreSave(PreSave(u)) == PreSave(u)
    ensures u.password.Hashed? ==> PreSave(u) == u
  {
  }

  /** After saving with plaintext `p`, exactly the candidate `p` compares equal. */
  lemma PasswordRoundTrip(u: User, p: string, q: string)
    requires u.password == Plain(p)
    ensures ComparePassword(PreSave(u), q) <==> q == p
  {
    Crypto.HashInjective(p, q);
  }

  /** What every saved record satisfies: it passed validation, holds its setters'
      output, and holds a digest, never a plaintext. */
  predicate IsSaved(u: User) {
    && Validates(u)
    && IsTrimmed(u.username)
    && IsTrimmed(u.email) && IsLower(u.email)
    && u.password.Hashed?
  }

  /** The collection: record `i` has id `i`, every record is saved, and the
      unique indexes on email and username hold. */
  predicate WellFormed(users: seq<User>) {
    && (forall i :: 0 <= i < |users| ==> users[i].id == i && IsSaved(users[i]))
    && (forall i, j :: 0 <= i < j < |users| ==>
          users[i].email != users[j].email && users[i].username != users[j].username)
  }

  /** `findOne({email})` finds a record. */
  predicate HasEmail(users: seq<User>, email: string) {
    exists i | 0 <= i < |users| :: users[i].email == email
  }

  /** `findOne({username})` finds a record. */
  predicate HasUsername(users: seq<User>, username: string) {
    exists i | 0 <= i < |users| :: users[i].username == username
  }
}
