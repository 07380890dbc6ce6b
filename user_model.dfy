/** The User schema: a required username and password, a role from the enum
    {user, admin} defaulting to user, a pre-save hook that replaces the
    password by its bcrypt hash when the password was modified, and
    `comparePassword`. bcrypt itself is a pair of functions supplied by the
    caller. */
module UserModel {
  import opened Http
  import opened Mongoose

  datatype Role = UserRole | AdminRole

  /** The strings of the role enum. */
  function RoleName(r: Role): string {
    match r
    case UserRole => "user"
    case AdminRole => "admin"
  }

  /** The enum validator: exactly the two names are accepted. */
  function ParseRole(s: string): (r: Option<Role>)
    ensures r.Some? <==> s == "user" || s == "admin"
    ensures r.Some? ==> RoleName(r.value) == s
  {
    if s == "user" then Some(UserRole)
    else if s == "admin" then Some(AdminRole)
    else None
  }

  lemma RoleNameRoundTrip(r: Role)
    ensures ParseRole(RoleName(r)) == Some(r)
  {
  }

  /** bcrypt: `hash(password, salt)` and `compare(candidate, hash)`. */
  datatype Bcrypt = Bcrypt(hash: (string, string) -> string, compare: (string, string) -> bool)

  /** A stored user. After a save through the hook, `password` holds a hash. */
  datatype UserRecord = UserRecord(username: string, password: string, role: Role)
  {
    /** `comparePassword`: bcrypt's comparison of a candidate against the
        stored hash. */
    function ComparePassword(candidate: string, bcrypt: Bcrypt): bool {
      bcrypt.compare(candidate, password)
    }
  }

  /** `new User({username, password})` followed by validation: both paths
      cast to non-empty strings, and role takes its default. */
  function NewUser(username: Json, password: Json): (r: Result<UserRecord>)
    ensures r.Ok? <==> CastRequiredString(username).Ok? && CastRequiredString(password).Ok?
    ensures r.Ok? ==> r.value.username != [] && r.value.password != []
    ensures r.Ok? ==> Some(r.value.username) == CastString(username).value
                      && Some(r.value.password) == CastString(password).value
    ensures r.Ok? ==> r.value.role == UserRole
    // the stored role is the enum's default and passes its validator
    ensures r.Ok? ==> ParseRole(RoleName(r.value.role)) == Some(UserRole)
    ensures username.Nullish() || password.Nullish() ==> r == Err
  {
    match (CastRequiredString(username), CastRequiredString(password))
    case (Ok(u), Ok(p)) => Ok(UserRecord(u, p, UserRole))
    case _ => Err
  }

  /** A mongoose User document in memory, with what `isModified('password')`
      reports. */
  class UserDocument {
    var username: string
    var password: string
    var role: Role
    var passwordModified: bool

    /** A new document: the password given to the constructor counts as modified. */
    constructor (u: UserRecord)
      ensures Value() == u && passwordModified
    {
      username, password, role := u.username, u.password, u.role;
      passwordModified := true;
    }

    /** A document read back from the store: nothing is modified yet. */
    constructor Loaded(u: UserRecord)
      ensures Value() == u && !passwordModified
    {
      username, password, role := u.username, u.password, u.role;
      passwordModified := false;
    }

    function Value(): UserRecord
      reads this
    {
      UserRecord(username, password, role)
    }

    /** The pre-save hook: hash the password with a fresh salt when it was
        modified, otherwise leave the stored value (an existing hash) alone. */
    method PreSave(bcrypt: Bcrypt, salt: string)
      modifies this
      ensures password == if old(passwordModified) then bcrypt.hash(old(password), salt) else old(password)
      ensures username == old(username) && role == old(role) && passwordModified == old(passwordModified)
    {
      if !passwordModified {
        return;
      }
      password := bcrypt.hash(password, salt);
    }
  }

  /** Saving a document read from the store does not hash its hash again. */
  method ResaveKeepsHash(u: UserRecord, bcrypt: Bcrypt, salt: string) returns (doc: UserDocument)
    ensures doc.Value() == u
  {
    doc := new UserDocument.Loaded(u);
    doc.PreSave(bcrypt, salt);
  }

  /** After a new user is saved, logging in with the password given at
      registration succeeds, provided bcrypt accepts a password against its
      own hash. */
  method NewUserMatchesOwnPassword(u: UserRecord, bcrypt: Bcrypt, salt: string) returns (stored: UserRecord)
    requires bcrypt.compare(u.password, bcrypt.hash(u.password, salt))
    ensures stored.ComparePassword(u.password, bcrypt)
    ensures stored == u.(password := bcrypt.hash(u.password, salt))
  {
    var doc := new UserDocument(u);
    doc.PreSave(bcrypt, salt);
    stored := doc.Value();
  }
}
