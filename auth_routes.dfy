/** The routes mounted under /auth: registration, the "who am I" lookup
    behind a Bearer header, and login. jsonwebtoken and bcrypt are supplied
    by the caller as functions; JWT_SECRET and the clock are parameters. */
module AuthRoutes {
  import opened Http
  import opened Mongoose
  import opened UserModel

  const UserRegistered := "User registered successfully"
  const Unauthorized := "Unauthorized"
  const UnauthorizedOrExpired := "Unauthorized or token expired"
  const UserNotFound := "User not found"
  const InvalidCredentials := "Invalid credentials"
  const BearerPrefix := "Bearer "
  const TokenLifetime := "1h"

  /** The payload of a token. A token the service signed carries the user's
      id; one signed elsewhere with the same secret may lack it. */
  datatype Claims = Claims(id: Option<IdParam>, role: Role, username: string)

  /** jsonwebtoken: `sign(claims, secret, expiresIn, now)` and
      `verify(token, secret, now)`, the latter None when it throws (bad
      signature, malformed or expired token). */
  datatype Jwt = Jwt(
    sign: (Claims, string, string, int) -> string,
    verify: (string, string, int) -> Option<Claims>)

  datatype UserEntry = UserEntry(id: Id, record: UserRecord)

  /** The JSON bodies the handlers send. */
  datatype Payload =
    | Message(message: string)                         // { message }
    | Error(error: string)                             // { error } with a message of the handler's own
    | Thrown                                           // { error: err.message } from mongoose
    | Profile(id: Id, username: string, role: Role)    // { id, username, role }
    | Session(token: string, user: UserEntry)          // { token, user }

  // ---------------------------------------------------------------------
  // Parsing the Authorization header

  predicate StartsWith(s: string, prefix: string) {
    |prefix| <= |s| && s[..|prefix|] == prefix
  }

  /** JavaScript's `s.split(sep)` for a one-character separator: the pieces
      between separators, empty ones included. */
  function Split(s: string, sep: char): (parts: seq<string>)
    ensures |parts| >= 1
    ensures forall i :: 0 <= i < |parts| ==> sep !in parts[i]
    decreases |s|
  {
    if s == [] then [[]]
    else
      var rest := Split(s[1..], sep);
      if s[0] == sep then [[]] + rest
      else [[s[0]] + rest[0]] + rest[1..]
  }

  /** `parts.join(sep)`, the inverse of Split. */
  function Join(parts: seq<string>, sep: char): (s: string)
    requires |parts| >= 1
    // the first piece leads
    ensures parts[0] <= s
    decreases |parts|
  {
    if |parts| == 1 then parts[0] else parts[0] + [sep] + Join(parts[1..], sep)
  }

  lemma JoinCons(c: char, parts: seq<string>, sep: char)
    requires |parts| >= 1
    ensures Join([[c] + parts[0]] + parts[1..], sep) == [c] + Join(parts, sep)
  {
    var q := [[c] + parts[0]] + parts[1..];
    if |parts| > 1 {
      assert q[1..] == parts[1..];
    }
  }

  /** Splitting loses nothing: joining the pieces gives the string back. */
  lemma {:induction false} SplitJoin(s: string, sep: char)
    ensures Join(Split(s, sep), sep) == s
    decreases |s|
  {
    if s != [] {
      SplitJoin(s[1..], sep);
      var rest := Split(s[1..], sep);
      if s[0] == sep {
        assert ([[]] + rest)[1..] == rest;
      } else {
        JoinCons(s[0], rest, sep);
      }
    }
  }

  /** A string without separator is a single piece. */
  lemma {:induction false} SplitWord(w: string, sep: char)
    requires sep !in w
    ensures Split(w, sep) == [w]
    decreases |w|
  {
    if w != [] {
      SplitWord(w[1..], sep);
      assert [w[0]] + w[1..] == w;
    }
  }

  /** Joining loses nothing either: pieces without separator, joined, split
      back into the same pieces. */
  lemma {:induction false} JoinSplit(parts: seq<string>, sep: char)
    requires |parts| >= 1
    requires forall i :: 0 <= i < |parts| ==> sep !in parts[i]
    ensures Split(Join(parts, sep), sep) == parts
    decreases |parts|
  {
    if |parts| == 1 {
      SplitWord(parts[0], sep);
    } else {
      JoinSplit(parts[1..], sep);
      SplitAfterWord(parts[0], Join(parts[1..], sep), sep);
      assert [parts[0]] + parts[1..] == parts;
    }
  }

  /** A first word without separator splits off as the first piece. */
  lemma {:induction false} SplitAfterWord(w: string, rest: string, sep: char)
    requires sep !in w
    ensures Split(w + [sep] + rest, sep) == [w] + Split(rest, sep)
    decreases |w|
  {
    var s := w + [sep] + rest;
    if w == [] {
      assert s[1..] == rest;
    } else {
      assert s[1..] == w[1..] + [sep] + rest;
      SplitAfterWord(w[1..], rest, sep);
      assert [w[0]] + w[1..] == w;
    }
  }

  /** The checks and the extraction at the top of /me: a missing or empty
      header, or one not starting with "Bearer ", gives no token; otherwise
      the token is `authHeader.split(" ")[1]`. */
  function BearerToken(header: Option<string>): (t: Option<string>)
    ensures t.Some? <==> header.Some? && StartsWith(header.value, BearerPrefix)
  {
    if header.None? || header.value == [] || !StartsWith(header.value, BearerPrefix) then None
    else
      var h := header.value;
      assert h == "Bearer" + [' '] + h[|BearerPrefix|..];
      SplitAfterWord("Bearer", h[|BearerPrefix|..], ' ');
      Some(Split(h, ' ')[1])
  }

  /** The token is the longest run of non-space characters right after the
      "Bearer " prefix: what follows it is the end of the header or a space. */
  lemma BearerTokenIsNextWord(h: string)
    requires StartsWith(h, BearerPrefix)
    ensures BearerToken(Some(h)).Some?
    ensures var t := BearerToken(Some(h)).value;
      && ' ' !in t
      && StartsWith(h, BearerPrefix + t)
      && (|h| == |BearerPrefix + t| || h[|BearerPrefix + t|] == ' ')
  {
    var rest := h[|BearerPrefix|..];
    assert h == "Bearer" + [' '] + rest;
    SplitAfterWord("Bearer", rest, ' ');
    var ps := Split(rest, ' ');
    SplitJoin(rest, ' ');
    var t := ps[0];
    assert BearerToken(Some(h)) == Some(t);
    assert rest == t + (if |ps| == 1 then [] else [' '] + Join(ps[1..], ' '));
    assert h == BearerPrefix + rest;
    assert (BearerPrefix + t) == h[..|BearerPrefix + t|];
  }

  // ---------------------------------------------------------------------
  // Looking users up

  /** `User.findOne({username})`: the first user with that name in the
      store's natural order, taken here as id order, among ids in [from, bound). */
  function FirstNamed(users: map<Id, UserRecord>, name: string, from: Id, bound: Id): (r: Option<Id>)
    ensures r.Some? ==> from <= r.value < bound && r.value in users && users[r.value].username == name
    ensures forall id :: from <= id < (if r.Some? then r.value else bound) && id in users ==> users[id].username != name
    decreases bound - from
  {
    if from >= bound then None
    else if from in users && users[from].username == name then Some(from)
    else FirstNamed(users, name, from + 1, bound)
  }

  /** The user collection and the handlers that read and change it. */
  class Users {
    var users: map<Id, UserRecord>
    var nextId: Id

    ghost predicate Valid()
      reads this
    {
      forall id :: id in users ==> id < nextId
    }

    constructor ()
      ensures Valid() && users == map[]
    {
      users, nextId := map[], 0;
    }

    /** POST /register: build the user from the body's username and
        password, run validation and then the pre-save hook (which hashes the
        password), store it and answer 201; a validation failure answers 400
        and stores nothing. Nothing stops two users from sharing a name. */
    method Register(body: Json, bcrypt: Bcrypt, salt: string) returns (resp: Response<Payload>)
      requires Valid() && !body.Nullish()
      modifies this
      ensures Valid()
      ensures NewUser(body.Prop("username"), body.Prop("password")).Err? ==>
                users == old(users) && resp == Response(400, Thrown)
      ensures NewUser(body.Prop("username"), body.Prop("password")).Ok? ==>
                var u := NewUser(body.Prop("username"), body.Prop("password")).value;
                && old(nextId) !in old(users)
                && users == old(users)[old(nextId) := u.(password := bcrypt.hash(u.password, salt))]
                && resp == Response(201, Message(UserRegistered))
    {
      var u := NewUser(body.Prop("username"), body.Prop("password"));
      if u.Err? {
        return Response(400, Thrown);
      }
      var doc := new UserDocument(u.value);
      doc.PreSave(bcrypt, salt);
      users := users[nextId := doc.Value()];
      nextId := nextId + 1;
      resp := Response(201, Message(UserRegistered));
    }

    /** GET /me: without a "Bearer " header the answer is 401 before any
        verification; a token that does not verify, or whose id is not an
        ObjectId, answers 401 "Unauthorized or token expired"; a verified
        token whose id names no user (or that has no id) answers 404; otherwise
        the answer is the user's id, username and role, and no password. */
    method Me(header: Option<string>, jwt: Jwt, secret: string, now: int) returns (resp: Response<Payload>)
      ensures BearerToken(header).None? ==> resp == Response(401, Error(Unauthorized))
      ensures BearerToken(header).Some? ==>
        var claims := jwt.verify(BearerToken(header).value, secret, now);
        && (claims.None? || claims.value.id == Some(NotObjectId) ==>
              resp == Response(401, Error(UnauthorizedOrExpired)))
        && (claims.Some? && claims.value.id.None? ==> resp == Response(404, Error(UserNotFound)))
        && (claims.Some? && claims.value.id.Some? && claims.value.id.value.ObjectId? ==>
              var id := claims.value.id.value.id;
              && (id !in users ==> resp == Response(404, Error(UserNotFound)))
              && (id in users ==> resp == Response(200, Profile(id, users[id].username, users[id].role))))
    {
      var token := BearerToken(header);
      if token.None? {
        return Response(401, Error(Unauthorized));
      }
      var decoded := jwt.verify(token.value, secret, now);
      if decoded.None? {
        return Response(401, Error(UnauthorizedOrExpired));
      }
      match decoded.value.id {
        case None =>
          // findById(undefined) looks for a null _id and finds nothing
          resp := Response(404, Error(UserNotFound));
        case Some(NotObjectId) =>
          // the CastError lands in the handler's catch
          resp := Response(401, Error(UnauthorizedOrExpired));
        case Some(ObjectId(id)) =>
          if id !in users {
            resp := Response(404, Error(UserNotFound));
          } else {
            var user := users[id];
            resp := Response(200, Profile(id, user.username, user.role));
          }
      }
    }

    /** POST /login: an unknown username and a wrong password give the same
        401 answer; otherwise the answer is 200 with a token signed over the
        user's id, role and username for one hour, and the stored user. */
    method Login(username: string, password: string, bcrypt: Bcrypt, jwt: Jwt, secret: string, now: int)
      returns (resp: Response<Payload>)
      requires Valid()
      ensures resp.status == 200 || resp == Response(401, Message(InvalidCredentials))
      ensures (forall id :: id in users ==> users[id].username != username) ==>
                resp == Response(401, Message(InvalidCredentials))
      ensures FirstNamed(users, username, 0, nextId).Some? ==>
                var id := FirstNamed(users, username, 0, nextId).value;
                var user := users[id];
                if user.ComparePassword(password, bcrypt) then
                  resp == Response(200, Session(
                    jwt.sign(Claims(Some(ObjectId(id)), user.role, user.username), secret, TokenLifetime, now),
                    UserEntry(id, user)))
                else resp == Response(401, Message(InvalidCredentials))
    {
      var found := FirstNamed(users, username, 0, nextId);
      if found.None? {
        return Response(401, Message(InvalidCredentials));
      }
      var id := found.value;
      var user := users[id];
      if !user.ComparePassword(password, bcrypt) {
        return Response(401, Message(InvalidCredentials));
      }
      var token := jwt.sign(Claims(Some(ObjectId(id)), user.role, user.username), secret, TokenLifetime, now);
      resp := Response(200, Session(token, UserEntry(id, user)));
    }
  }

  /** Registering a new name and logging in with the same password succeeds
      (when bcrypt accepts a password against its own hash), with the role
      user and the token signed over the new user's claims. */
  method RegisterThenLogin(store: Users, u: string, p: string, bcrypt: Bcrypt, salt: string,
                           jwt: Jwt, secret: string, now: int)
    returns (resp: Response<Payload>)
    requires store.Valid() && u != [] && p != []
    requires forall id :: id in store.users ==> store.users[id].username != u
    requires bcrypt.compare(p, bcrypt.hash(p, salt))
    modifies store
    ensures resp.status == 200 && resp.body.Session?
    ensures resp.body.user.id == old(store.nextId) && resp.body.user.record.role == UserRole
    ensures resp.body.token == jwt.sign(Claims(Some(ObjectId(old(store.nextId))), UserRole, u), secret, TokenLifetime, now)
  {
    var body := Obj(map["username" := Str(u), "password" := Str(p)]);
    assert body.Prop("username") == Str(u) && body.Prop("password") == Str(p);
    var n := store.nextId;
    var _ := store.Register(body, bcrypt, salt);
    assert n in store.users && store.users[n].username == u;
    resp := store.Login(u, p, bcrypt, jwt, secret, now);
  }
}
